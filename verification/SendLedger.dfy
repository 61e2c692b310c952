/** Where the bytes of a sending stream are: acknowledged, in flight, or queued for
    retransmission.  One lemma per move.
 */
module SendLedger {
  import opened StreamBytes
  import opened Wire
  import opened FrameLedger

  /** The frame carries part of the stream that has been sent, or the FIN, which is at the end. */
  ghost predicate Sent(stream: seq<Byte>, writeOffset: nat, finSent: bool, f: StreamFrame) {
    && IsSlice(stream, f.offset, f.data)
    && f.offset + |f.data| <= writeOffset
    && (f.data != [] || f.fin)
    && (f.fin ==> finSent && f.offset + |f.data| == writeOffset == |stream|)
  }

  ghost predicate AllSent(stream: seq<Byte>, writeOffset: nat, finSent: bool, fs: seq<StreamFrame>) {
    forall i | 0 <= i < |fs| :: Sent(stream, writeOffset, finSent, fs[i])
  }

  datatype Places = Places(acked: seq<StreamFrame>, inFlight: seq<StreamFrame>, queued: seq<StreamFrame>)

  /** Every byte below writeOffset is in exactly one frame of exactly one place, nothing else
      is, and so is the FIN once it has been sent. */
  ghost predicate Placed(stream: seq<Byte>, writeOffset: nat, finSent: bool, p: Places) {
    && writeOffset <= |stream|
    && AllSent(stream, writeOffset, finSent, p.acked)
    && AllSent(stream, writeOffset, finSent, p.inFlight)
    && AllSent(stream, writeOffset, finSent, p.queued)
    && (forall x: nat :: Copies(p.acked, x) + Copies(p.inFlight, x) + Copies(p.queued, x) == if x < writeOffset then 1
        else 0)
    && Fins(p.acked) + Fins(p.inFlight) + Fins(p.queued) == if finSent then 1 else 0
  }

  lemma SendNew(stream: seq<Byte>, writeOffset: nat, finSent: bool, p: Places, f: StreamFrame)
    requires Placed(stream, writeOffset, finSent, p) && !finSent
    requires f.offset == writeOffset && IsSlice(stream, f.offset, f.data) && (f.data != [] || f.fin)
    requires f.fin ==> writeOffset + |f.data| == |stream|
    ensures Placed(stream, writeOffset + |f.data|, f.fin, p.(inFlight := p.inFlight + [f]))
  {
    Append(p.inFlight, f);
    NoFin(p.acked);
    NoFin(p.inFlight);
    NoFin(p.queued);
  }

  lemma {:induction false} NoFin(fs: seq<StreamFrame>)
    ensures Fins(fs) == 0 ==> forall i | 0 <= i < |fs| :: !fs[i].fin
  {
    if fs != [] {
      NoFin(fs[1..]);
    }
  }

  lemma SendQueued(stream: seq<Byte>, writeOffset: nat, finSent: bool, p: Places)
    requires Placed(stream, writeOffset, finSent, p) && p.queued != []
    ensures Placed(stream, writeOffset, finSent, p.(inFlight := p.inFlight + [p.queued[0]], queued := p.queued[1..]))
  {
    Append(p.inFlight, p.queued[0]);
    First(p.queued);
  }

  lemma SendPart(stream: seq<Byte>, writeOffset: nat, finSent: bool, p: Places, first: StreamFrame, rest: StreamFrame)
    requires Placed(stream, writeOffset, finSent, p) && p.queued != []
    requires var f := p.queued[0];
             && first.data + rest.data == f.data && first.data != [] && rest.data != []
             && first.offset == f.offset && rest.offset == f.offset + |first.data|
             && !first.fin && rest.fin == f.fin
    ensures Placed(stream, writeOffset, finSent, p.(inFlight := p.inFlight + [first], queued := [rest] + p.queued[1..]))
  {
    var f := p.queued[0];
    var queued' := [rest] + p.queued[1..];
    Append(p.inFlight, first);
    First(p.queued);
    First(queued');
    assert queued'[1..] == p.queued[1..];
    assert f.data[..|first.data|] == first.data && f.data[|first.data|..] == rest.data;
    SliceOfSlice(stream, f.offset, f.data, 0, |first.data|);
    SliceOfSlice(stream, f.offset, f.data, |first.data|, |f.data|);
    assert Sent(stream, writeOffset, finSent, f);
    assert AllSent(stream, writeOffset, finSent, queued');
  }

  lemma Acknowledge(stream: seq<Byte>, writeOffset: nat, finSent: bool, p: Places, i: nat)
    requires Placed(stream, writeOffset, finSent, p) && i < |p.inFlight|
    ensures Placed(stream, writeOffset, finSent,
                   p.(acked := p.acked + [p.inFlight[i]], inFlight := Remove(p.inFlight, i)))
  {
    Append(p.acked, p.inFlight[i]);
    TakeOut(p.inFlight, i);
  }

  lemma Requeue(stream: seq<Byte>, writeOffset: nat, finSent: bool, p: Places, i: nat)
    requires Placed(stream, writeOffset, finSent, p) && i < |p.inFlight|
    ensures var f := p.inFlight[i].(dataLenPresent := true);
            Placed(stream, writeOffset, finSent, p.(queued := p.queued + [f], inFlight := Remove(p.inFlight, i)))
  {
    var f := p.inFlight[i].(dataLenPresent := true);
    Append(p.queued, f);
    TakeOut(p.inFlight, i);
    assert Sent(stream, writeOffset, finSent, p.inFlight[i]);
    forall x: nat ensures Covers(f, x) == Covers(p.inFlight[i], x) {
    }
  }

  /** Nothing is left to deliver exactly if the FIN and every byte have been acknowledged. */
  lemma DeliveredExactly(stream: seq<Byte>, writeOffset: nat, finSent: bool, p: Places)
    requires Placed(stream, writeOffset, finSent, p)
    ensures finSent && p.inFlight == [] && p.queued == [] <==>
            Fins(p.acked) == 1 && forall x: nat | x < writeOffset :: Copies(p.acked, x) == 1
    ensures Fins(p.acked) == 1 ==> writeOffset == |stream|
  {
    FinAtEnd(stream, writeOffset, finSent, p.acked);
    Undelivered(stream, writeOffset, finSent, p.inFlight);
    Undelivered(stream, writeOffset, finSent, p.queued);
    if finSent && p.inFlight == [] && p.queued == [] {
      forall x: nat | x < writeOffset ensures Copies(p.acked, x) == 1 {
        assert Copies(p.inFlight, x) == 0 && Copies(p.queued, x) == 0;
      }
    } else if Fins(p.acked) == 1 && finSent {
      var rest := if p.inFlight != [] then p.inFlight else p.queued;
      var x: nat :| x < writeOffset && Copies(rest, x) > 0;
      assert Copies(p.acked, x) != 1;
      assert !(forall y: nat | y < writeOffset :: Copies(p.acked, y) == 1);
      assert !(p.inFlight == [] && p.queued == []);
    }
  }

  lemma Undelivered(stream: seq<Byte>, writeOffset: nat, finSent: bool, fs: seq<StreamFrame>)
    requires AllSent(stream, writeOffset, finSent, fs)
    ensures fs != [] ==> Fins(fs) > 0 || exists x: nat :: x < writeOffset && Copies(fs, x) > 0
  {
    Trace(fs);
    if fs != [] {
      assert Sent(stream, writeOffset, finSent, fs[0]);
    }
  }

  lemma {:induction false} FinAtEnd(stream: seq<Byte>, writeOffset: nat, finSent: bool, fs: seq<StreamFrame>)
    requires AllSent(stream, writeOffset, finSent, fs)
    ensures Fins(fs) > 0 ==> finSent && writeOffset == |stream|
  {
    if fs != [] {
      assert Sent(stream, writeOffset, finSent, fs[0]);
      FinAtEnd(stream, writeOffset, finSent, fs[1..]);
    }
  }
}
