/** The control frames that the framer packs, and their encoded sizes. */
module ControlFrames {
  import opened Wire

  // For the framer, the largest possible size of a stream-related control frame.
  const MAX_STREAM_CONTROL_FRAME_SIZE := 25

  datatype ControlFrame =
    | PathResponse(data: nat)
    | ResetStream(streamID: nat, errorCode: nat, finalSize: nat, reliableSize: nat)
    | StopSending(streamID: nat, errorCode: nat)
    | MaxStreamData(streamID: nat, maximum: nat)
    | StreamDataBlocked(streamID: nat, maximum: nat)
    | DataBlocked(maximum: nat)
    | Other(frame: nat, size: nat)

  function Len(f: ControlFrame): nat {
    match f
    case PathResponse(_) => 1 + 8
    case ResetStream(id, code, final, reliable) =>
      1 + (if reliable > 0 then VarintLen(reliable) else 0) + VarintLen(id) + VarintLen(code) + VarintLen(final)
    case StopSending(id, code) => 1 + VarintLen(id) + VarintLen(code)
    case MaxStreamData(id, max) => 1 + VarintLen(id) + VarintLen(max)
    case StreamDataBlocked(id, max) => 1 + VarintLen(id) + VarintLen(max)
    case DataBlocked(max) => 1 + VarintLen(max)
    case Other(_, size) => size
  }

  /** What the streams ask to be sent: anything but RESET_STREAM_AT. */
  predicate FromStream(f: ControlFrame) {
    (f.ResetStream? && f.reliableSize == 0) || f.StopSending? || f.MaxStreamData?
  }

  lemma FromStreamLen(f: ControlFrame)
    requires FromStream(f)
    ensures Len(f) <= MAX_STREAM_CONTROL_FRAME_SIZE
  {
  }

  /** All control frames of streams are small enough: the framer adds one if more than 25 bytes
      are left. */
  ghost predicate SmallFrames(m: map<nat, seq<ControlFrame>>) {
    forall id, f | id in m && f in m[id] :: Len(f) <= MAX_STREAM_CONTROL_FRAME_SIZE + 1
  }

  /** RESET_STREAM_AT can be larger than the framer expects. */
  lemma ResetStreamAtTooLarge(id: nat, code: nat, size: nat)
    requires id > MAX_VARINT4 && code > MAX_VARINT4 && size > MAX_VARINT4
    ensures Len(ResetStream(id, code, size, size)) == 33
  {
  }

  function TotalLen(fs: seq<ControlFrame>): nat {
    if fs == [] then 0 else TotalLen(fs[..|fs| - 1]) + Len(fs[|fs| - 1])
  }

  lemma TotalLenAppend(fs: seq<ControlFrame>, f: ControlFrame)
    ensures TotalLen(fs + [f]) == TotalLen(fs) + Len(f)
  {
    assert (fs + [f])[..|fs|] == fs;
  }

  lemma {:induction false} TotalLenConcat(fs: seq<ControlFrame>, gs: seq<ControlFrame>)
    ensures TotalLen(fs + gs) == TotalLen(fs) + TotalLen(gs)
  {
    if gs == [] {
      assert fs + gs == fs;
    } else {
      var n := |gs| - 1;
      assert (fs + gs)[..|fs| + n] == fs + gs[..n];
      TotalLenConcat(fs, gs[..n]);
    }
  }

  function Reversed(fs: seq<ControlFrame>): seq<ControlFrame> {
    if fs == [] then [] else [fs[|fs| - 1]] + Reversed(fs[..|fs| - 1])
  }

  /** All frames that streams have to offer. */
  ghost function Offered(m: map<nat, seq<ControlFrame>>): multiset<ControlFrame>
    decreases |m|
  {
    if m == map[] then multiset{}
    else var id :| id in m; Offered(m - {id}) + multiset(m[id])
  }

  lemma OfferedSplit(m: map<nat, seq<ControlFrame>>) returns (k: nat)
    requires m != map[]
    ensures k in m && Offered(m) == Offered(m - {k}) + multiset(m[k])
  {
    k :| k in m && Offered(m) == Offered(m - {k}) + multiset(m[k]);
  }

  lemma {:induction false} OfferedWithout(m: map<nat, seq<ControlFrame>>, id: nat)
    requires id in m
    ensures Offered(m) == Offered(m - {id}) + multiset(m[id])
    decreases |m|
  {
    hide Offered;
    var k := OfferedSplit(m);
    if k != id {
      var m1, m2 := m - {k}, m - {id};
      OfferedWithout(m1, id);
      OfferedWithout(m2, k);
      assert m1 - {id} == m2 - {k};
      ghost var rest := Offered(m1 - {id});
      assert rest + multiset(m[id]) + multiset(m[k]) == rest + multiset(m[k]) + multiset(m[id]);
    }
  }
}
