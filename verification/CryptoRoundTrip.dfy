/** The receiving side of a crypto stream, and the way of a scrambled ClientHello from one end
    to the other.
 */
module CryptoRoundTrip {
  import opened StreamBytes
  import opened Tiling
  import opened FrameSorting
  import opened Reassembly
  import opened Wire
  import opened ClientHello
  import opened CryptoStates
  import opened CryptoInvariant
  import opened CryptoRuns
  import opened CryptoParts
  import GapTree

  const MAX_CRYPTO_STREAM_OFFSET: nat := 16384

  datatype CryptoResult = Accepted | BufferExceeded | ProtocolViolation | SorterFailed

  class CryptoReceiver {
    const queue: FrameSorter
    var highestOffset: nat
    var finished: bool

    ghost predicate Valid()
      reads this, queue
    {
      && queue.Valid()
      && Untouched(queue.gapTree)
    }

    constructor ()
      ensures Valid() && fresh(queue) && !finished && highestOffset == 0
      ensures queue.queue == map[] && queue.readPos == 0 && queue.gapTree == map[0 := MAX_BYTE_COUNT]
              && queue.released == multiset{}
    {
      queue := new FrameSorter();
      highestOffset, finished := 0, false;
      new;
      assert Untouched(queue.gapTree) by {
        forall x: nat | MAX_CRYPTO_STREAM_OFFSET <= x < MAX_BYTE_COUNT ensures Missing(queue.gapTree, x) {
          assert 0 in queue.gapTree;
        }
      }
    }

    /** Take in a CRYPTO frame.  The offset limit keeps the sorter below its own limit on gaps,
        so that this never fails in the sorter. */
    method HandleCryptoFrame(f: CryptoFrame) returns (r: CryptoResult)
      requires Valid()
      modifies this`highestOffset, queue`queue, queue`released, queue`gapTree
      ensures Valid() && r != SorterFailed
      ensures r == BufferExceeded <==> f.offset + |f.data| > MAX_CRYPTO_STREAM_OFFSET
      ensures r == ProtocolViolation <==>
                f.offset + |f.data| <= MAX_CRYPTO_STREAM_OFFSET && finished && f.offset + |f.data| > old(highestOffset)
      ensures if r == Accepted && !finished
              then Fills(old(queue.gapTree), queue.gapTree, f.offset, f.data)
                   && Provenance(old(queue.queue), old(queue.gapTree), queue.queue, f.offset, f.data, None)
                   && highestOffset == Max(old(highestOffset), f.offset + |f.data|)
              else queue.queue == old(queue.queue) && queue.gapTree == old(queue.gapTree)
                   && queue.released == old(queue.released)
                   && highestOffset == old(highestOffset)
    {
      hide Tiles, Callbacks, Missing, Fills, Provenance, Splits, Untouched;
      var end := f.offset + |f.data|;
      if end > MAX_CRYPTO_STREAM_OFFSET {
        return BufferExceeded;
      }
      if finished {
        if end > highestOffset {
          return ProtocolViolation;
        }
        return Accepted;
      }
      FewGaps(queue.queue, queue.gapTree, queue.readPos);
      highestOffset := Max(highestOffset, end);
      var ok := queue.Push(f.data, f.offset, None);
      StillUntouched(old(queue.gapTree), queue.gapTree, f.offset, f.data);
      return if ok then Accepted else SorterFailed;
    }

    method GetCryptoData() returns (data: seq<Byte>)
      requires Valid()
      modifies queue`queue, queue`readPos
      ensures Valid()
      ensures queue.readPos == old(queue.readPos) + |data|
      ensures data == [] <==> old(queue.readPos) !in old(queue.queue)
      ensures data == [] <==> Missing(queue.gapTree, old(queue.readPos)) || old(queue.readPos) == MAX_BYTE_COUNT
      ensures data != [] ==> old(queue.queue[queue.readPos].data) == data
      ensures queue.queue == old(queue.queue) - {old(queue.readPos)}
    {
      hide Tiles, Callbacks, Missing, Untouched;
      var _, d, _ := queue.Pop();
      data := d;
    }

    /** The stream can only be finished once everything received has been read. */
    method Finish() returns (ok: bool)
      requires Valid()
      modifies this`finished
      ensures ok <==> queue.queue == map[]
      ensures finished == (old(finished) || ok)
    {
      var more := queue.HasMoreData();
      if more {
        return false;
      }
      finished := true;
      ok := true;
    }
  }

  // Nothing beyond the limit has arrived.
  ghost predicate Untouched(g: Gaps) {
    forall x: nat | MAX_CRYPTO_STREAM_OFFSET <= x < MAX_BYTE_COUNT :: Missing(g, x)
  }

  lemma StillUntouched(g0: Gaps, g: Gaps, offset: nat, data: seq<Byte>)
    requires Untouched(g0) && offset + |data| <= MAX_CRYPTO_STREAM_OFFSET
    ensures Fills(g0, g, offset, data) ==> Untouched(g)
  {
    hide Missing;
  }

  // The gaps start at different offsets up to the limit, so there are fewer than allowed.
  lemma FewGaps(q: Queue, g: Gaps, readPos: nat)
    requires Tiles(q, g, readPos) && Untouched(g)
    ensures |g| < MAX_STREAM_FRAME_SORTER_GAPS
  {
    forall k | k in g ensures k <= MAX_CRYPTO_STREAM_OFFSET {
      BeforeGap(g, readPos, k);
    }
    BoundedSet(g.Keys, MAX_CRYPTO_STREAM_OFFSET);
  }

  lemma BeforeGap(g: Gaps, readPos: nat, k: nat)
    requires Holes(g, readPos) && k in g
    ensures k > 0 ==> !Missing(g, k - 1)
    ensures k < MAX_BYTE_COUNT
  {
  }

  lemma {:induction false} BoundedSet(s: set<nat>, n: nat)
    requires forall k | k in s :: k <= n
    ensures |s| <= n + 1
  {
    if n == 0 {
      GapTree.SubsetSize(s, {0});
    } else {
      BoundedSet(s - {n}, n - 1);
    }
  }

  function Arrival(f: CryptoFrame): Step {
    Arrive(f.offset, f.data, None)
  }

  /** What the receiver holds and has read agrees with the frames that arrived. */
  ghost predicate InStep(r: CryptoReceiver, arrived: seq<Step>, stream: seq<Byte>, out: seq<Byte>)
    reads r, r.queue
  {
    && r.Valid() && !r.finished
    && Follows(r.queue, arrived, stream, out)
  }

  method Deliver(r: CryptoReceiver, f: CryptoFrame, ghost arrived: seq<Step>, ghost stream: seq<Byte>, out: seq<Byte>)
    returns (out': seq<Byte>)
    requires |stream| <= MAX_CRYPTO_STREAM_OFFSET && IsSlice(stream, f.offset, f.data)
    requires InStep(r, arrived, stream, out)
    modifies r, r.queue
    ensures InStep(r, arrived + [Arrival(f)], stream, out')
    ensures |out'| == MAX_BYTE_COUNT || Missing(r.queue.gapTree, |out'|)
  {
    hide Tiles, Missing, Callbacks, Arrived, Provenance, Fills, Agrees, GapsAre, Untouched;
    ghost var q0, g0 := r.queue.queue, r.queue.gapTree;
    var result := r.HandleCryptoFrame(f);
    PushedPartsAgree(q0, g0, r.queue.queue, f.offset, f.data, None, stream);
    ArriveFills(g0, r.queue.gapTree, arrived, Arrival(f));
    ghost var arrived' := arrived + [Arrival(f)];
    out' := out;
    var more := true;
    while more
      invariant InStep(r, arrived', stream, out')
      invariant !more ==> |out'| == MAX_BYTE_COUNT || Missing(r.queue.gapTree, |out'|)
      decreases |stream| - |out'|, more
    {
      var data := GetAndTrack(r, arrived', stream, out');
      out' := out' + data;
      more := data != [];
    }
  }

  method GetAndTrack(r: CryptoReceiver, ghost arrived: seq<Step>, ghost stream: seq<Byte>, out: seq<Byte>)
    returns (data: seq<Byte>)
    requires InStep(r, arrived, stream, out)
    modifies r.queue
    ensures InStep(r, arrived, stream, out + data)
    ensures data == [] ==> |out| == MAX_BYTE_COUNT || Missing(r.queue.gapTree, |out|)
  {
    hide Tiles, Missing, Callbacks, Arrived, GapsAre, Untouched;
    ghost var q0 := r.queue.queue;
    data := r.GetCryptoData();
    if data != [] {
      PopExtends(q0, |out|, stream, out);
    }
  }

  /** A scrambled ClientHello, written in any parts and split by any budgets, arrives intact: deliver its frames in any
      order and as often as you like, and what can be read is a prefix of it; once every frame
      has arrived, it is all of it. */
  method RoundTrip(parts: seq<seq<Byte>>, budgets: Budgets, order: seq<nat>)
    returns (out: seq<Byte>, frames: seq<CryptoFrame>, n: nat)
    requires |Joined(parts)| <= MAX_CRYPTO_STREAM_OFFSET
    ensures frames == PopOn(Written(parts), budgets, n).h.sent && AllParts(frames, Joined(parts))
    ensures HasData(PopOn(Written(parts), budgets, n).s) ==>
              PopStep(PopOn(Written(parts), budgets, n).s, budgets(n)).1 == None
    ensures out <= Joined(parts) && (forall x | 0 <= x < |out| :: Arrived(Delivered(frames, order), x))
            && !Arrived(Delivered(frames, order), |out|)
    ensures Sufficient(budgets) && Sends(parts) && (forall i | 0 <= i < |frames| :: i in order) ==> out == Joined(parts)
  {
    hide AllParts, SentAt, Sends, Locate, PopOn, Written, PopStep, Arrived, Delivered, Joined;
    var more;
    frames, n, more := SendClientHello(parts, budgets);
    out := Receive(Joined(parts), frames, order);
  }

  /** What arrives, if the network delivers these frames in this order. */
  function Delivered(frames: seq<CryptoFrame>, order: seq<nat>): seq<Step> {
    if order == [] then []
    else
      var n := |order| - 1;
      Delivered(frames, order[..n]) + if order[n] < |frames| then [Arrival(frames[order[n]])] else []
  }

  /** What is read is the longest prefix that has arrived. */
  method Receive(ghost p: seq<Byte>, frames: seq<CryptoFrame>, order: seq<nat>) returns (out: seq<Byte>)
    requires |p| <= MAX_CRYPTO_STREAM_OFFSET && AllParts(frames, p)
    ensures out <= p && (forall x | 0 <= x < |out| :: Arrived(Delivered(frames, order), x))
            && !Arrived(Delivered(frames, order), |out|)
    ensures (forall x | 0 <= x < |p| :: SentAt(frames, x)) && (forall i | 0 <= i < |frames| :: i in order) ==> out == p
  {
    hide Tiles, Missing, Callbacks, Arrived, Agrees, GapsAre, Untouched, SentAt;
    var r := new CryptoReceiver();
    out := [];
    NothingYet(r.queue, p);
    assert order[..0] == [];
    for i := 0 to |order|
      invariant fresh(r) && fresh(r.queue) && InStep(r, Delivered(frames, order[..i]), p, out)
      invariant Delivered(frames, order[..i]) == [] ==> out == []
      invariant Delivered(frames, order[..i]) != [] ==> |out| == MAX_BYTE_COUNT || Missing(r.queue.gapTree, |out|)
    {
      assert order[..i + 1][..i] == order[..i];
      if order[i] < |frames| {
        assert IsSlice(p, frames[order[i]].offset, frames[order[i]].data);
        out := Deliver(r, frames[order[i]], Delivered(frames, order[..i]), p, out);
      } else {
        assert Delivered(frames, order[..i]) + [] == Delivered(frames, order[..i]);
      }
    }
    assert order[..|order|] == order;
    DeliveredParts(frames, order, p);
    if Delivered(frames, order) == [] {
      NothingArrived();
    } else {
      ReadSoFar(r.queue, Delivered(frames, order), p, out);
    }
    if (forall x | 0 <= x < |p| :: SentAt(frames, x)) && forall i | 0 <= i < |frames| :: i in order {
      forall x | 0 <= x < |p| ensures Arrived(Delivered(frames, order), x) {
        SentArrives(frames, order, x);
      }
      CoveredIsComplete(Delivered(frames, order), p, out);
    }
  }

  lemma NothingArrived()
    ensures !Arrived([], 0)
  {
  }

  lemma {:induction false} DeliveredParts(frames: seq<CryptoFrame>, order: seq<nat>, p: seq<Byte>)
    requires AllParts(frames, p)
    ensures PartsOf(Delivered(frames, order), p)
  {
    if order != [] {
      DeliveredParts(frames, order[..|order| - 1], p);
    }
  }

  lemma {:induction false} DeliveredHas(frames: seq<CryptoFrame>, order: seq<nat>, i: nat)
    requires i in order && i < |frames|
    ensures Arrival(frames[i]) in Delivered(frames, order)
  {
    var n := |order| - 1;
    if order[n] != i {
      assert i in order[..n];
      DeliveredHas(frames, order[..n], i);
    }
  }

  lemma SentArrives(frames: seq<CryptoFrame>, order: seq<nat>, x: nat)
    requires (forall i | 0 <= i < |frames| :: i in order) && SentAt(frames, x)
    ensures Arrived(Delivered(frames, order), x)
  {
    var i :| 0 <= i < |frames| && CarriesOffset(frames[i], x);
    DeliveredHas(frames, order, i);
    var arrived := Delivered(frames, order);
    var k :| 0 <= k < |arrived| && arrived[k] == Arrival(frames[i]);
    assert Carries(arrived[k], x);
  }
}
