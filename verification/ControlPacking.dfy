/** How control frames are packed, as functions on values. */
module ControlPacking {
  import opened Wire
  import opened ControlFrames

  /** What waits to be sent: path responses, the frames that streams have to offer, and the queue. */
  datatype Unsent = Unsent(
    path: seq<ControlFrame>,
    streams: map<nat, seq<ControlFrame>>,
    queue: seq<ControlFrame>)

  /** How many frames of a stream are taken: another one as long as more than 25 bytes are left. */
  function TakenFrom(frames: seq<ControlFrame>, room: int): (n: nat)
    ensures n <= |frames|
  {
    if frames == [] || room <= MAX_STREAM_CONTROL_FRAME_SIZE then 0
    else 1 + TakenFrom(frames[1..], room - Len(frames[0]))
  }

  /** A stream that has nothing more to offer is forgotten. */
  function StreamsAfter(streams: map<nat, seq<ControlFrame>>, id: nat, room: int): map<nat, seq<ControlFrame>>
    requires id in streams
  {
    var n := TakenFrom(streams[id], room);
    if n < |streams[id]| || room <= MAX_STREAM_CONTROL_FRAME_SIZE then streams[id := streams[id][n..]]
    else streams - {id}
  }

  /** Streams are asked one after the other.  Go does not say in which order. */
  function FromStreams(streams: map<nat, seq<ControlFrame>>, order: seq<nat>, room: int)
    : (seq<ControlFrame>, map<nat, seq<ControlFrame>>)
  {
    if order == [] then ([], streams)
    else
      var n := |order| - 1;
      var (added, left) := FromStreams(streams, order[..n], room);
      var more := room - TotalLen(added);
      if more <= MAX_STREAM_CONTROL_FRAME_SIZE || order[n] !in left then (added, left)
      else (added + left[order[n]][..TakenFrom(left[order[n]], more)], StreamsAfter(left, order[n], more))
  }

  ghost predicate Orders(ids: set<nat>, order: seq<nat>) {
    (forall id :: id in order <==> id in ids) && forall i, j | 0 <= i < j < |order| :: order[i] != order[j]
  }

  /** How many queued frames stay: the last ones are taken, until one does not fit. */
  function Staying(queue: seq<ControlFrame>, room: int): (n: nat)
    ensures n <= |queue|
  {
    if queue == [] || Len(queue[|queue| - 1]) > room then |queue|
    else Staying(queue[..|queue| - 1], room - Len(queue[|queue| - 1]))
  }

  /** The control frames of a packet, and what still waits. */
  function Pack(w: Unsent, order: seq<nat>, maxLen: nat): (seq<ControlFrame>, Unsent) {
    var p := if w.path != [] && Len(w.path[0]) <= maxLen then 1 else 0;
    var room := maxLen - TotalLen(w.path[..p]);
    var (added, streams) := FromStreams(w.streams, order, room);
    var k := Staying(w.queue, room - TotalLen(added));
    (w.path[..p] + added + Reversed(w.queue[k..]), Unsent(w.path[p..], streams, w.queue[..k]))
  }

  lemma {:induction false} TakenFits(frames: seq<ControlFrame>, room: int)
    requires forall f | f in frames :: Len(f) <= MAX_STREAM_CONTROL_FRAME_SIZE + 1
    ensures TotalLen(frames[..TakenFrom(frames, room)]) <= if room < 0 then 0 else room
  {
    hide Len, TotalLen;
    NoFrames();
    var n := TakenFrom(frames, room);
    if n > 0 {
      TakenFits(frames[1..], room - Len(frames[0]));
      TotalLenFirst(frames, n);
    } else {
      assert frames[..n] == [];
    }
  }

  lemma NoFrames()
    ensures TotalLen([]) == 0 && Reversed([]) == []
  {
  }

  lemma TotalLenFirst(frames: seq<ControlFrame>, n: nat)
    requires 0 < n <= |frames|
    ensures TotalLen(frames[..n]) == Len(frames[0]) + TotalLen(frames[1..][..n - 1])
  {
    TotalLenConcat([frames[0]], frames[1..][..n - 1]);
    assert frames[..n] == [frames[0]] + frames[1..][..n - 1];
    assert TotalLen([frames[0]]) == Len(frames[0]) by {
      TotalLenAppend([], frames[0]);
      assert [] + [frames[0]] == [frames[0]];
    }
  }

  lemma SmallAfter(streams: map<nat, seq<ControlFrame>>, id: nat, room: int)
    requires id in streams && SmallFrames(streams)
    ensures SmallFrames(StreamsAfter(streams, id, room))
  {
    hide Len, TakenFrom;
  }

  lemma {:induction false} FromStreamsFits(streams: map<nat, seq<ControlFrame>>, order: seq<nat>, room: nat)
    requires SmallFrames(streams)
    ensures var (added, left) := FromStreams(streams, order, room); TotalLen(added) <= room && SmallFrames(left)
  {
    hide Len, TotalLen, TakenFrom, StreamsAfter, SmallFrames;
    NoFrames();
    if order != [] {
      var n := |order| - 1;
      FromStreamsFits(streams, order[..n], room);
      var (added, left) := FromStreams(streams, order[..n], room);
      var more := room - TotalLen(added);
      if more > MAX_STREAM_CONTROL_FRAME_SIZE && order[n] in left {
        SmallOf(left, order[n]);
        TakenFits(left[order[n]], more);
        TotalLenConcat(added, left[order[n]][..TakenFrom(left[order[n]], more)]);
        SmallAfter(left, order[n], more);
      }
    }
  }

  lemma SmallOf(streams: map<nat, seq<ControlFrame>>, id: nat)
    requires id in streams && SmallFrames(streams)
    ensures forall f | f in streams[id] :: Len(f) <= MAX_STREAM_CONTROL_FRAME_SIZE + 1
  {
  }

  lemma {:induction false} ReversedLen(fs: seq<ControlFrame>)
    ensures TotalLen(Reversed(fs)) == TotalLen(fs)
  {
    hide Len, TotalLen;
    if fs != [] {
      var n := |fs| - 1;
      ReversedLen(fs[..n]);
      TotalLenConcat([fs[n]], Reversed(fs[..n]));
      TotalLenAppend([], fs[n]);
      assert [] + [fs[n]] == [fs[n]];
      NoFrames();
      TotalLenAppend(fs[..n], fs[n]);
      assert fs == fs[..n] + [fs[n]];
    }
  }

  lemma SuffixLast(fs: seq<ControlFrame>, k: nat)
    requires k < |fs|
    ensures fs[k..] == fs[..|fs| - 1][k..] + [fs[|fs| - 1]]
  {
    var n := |fs| - 1;
    assert fs == fs[..n] + [fs[n]];
  }

  lemma {:induction false} StayingFits(queue: seq<ControlFrame>, room: int)
    ensures TotalLen(queue[Staying(queue, room)..]) <= if room < 0 then 0 else room
  {
    hide Len, TotalLen;
    NoFrames();
    var k := Staying(queue, room);
    if queue == [] || Len(queue[|queue| - 1]) > room {
      assert queue[k..] == [];
    } else {
      var n := |queue| - 1;
      StayingFits(queue[..n], room - Len(queue[n]));
      SuffixLast(queue, k);
      TotalLenAppend(queue[..n][k..], queue[n]);
    }
  }

  lemma PathFits(path: seq<ControlFrame>, maxLen: nat)
    ensures var p := if path != [] && Len(path[0]) <= maxLen then 1 else 0; TotalLen(path[..p]) <= maxLen
  {
    hide Len, TotalLen;
    NoFrames();
    if path != [] && Len(path[0]) <= maxLen {
      TotalLenFirst(path, 1);
      assert path[1..][..0] == [];
    } else {
      assert path[..0] == [];
    }
  }

  lemma PackLen(w: Unsent, order: seq<nat>, maxLen: nat)
    ensures var p := if w.path != [] && Len(w.path[0]) <= maxLen then 1 else 0;
            var room := maxLen - TotalLen(w.path[..p]);
            var added := FromStreams(w.streams, order, room).0;
            var k := Staying(w.queue, room - TotalLen(added));
            TotalLen(Pack(w, order, maxLen).0) == TotalLen(w.path[..p]) + TotalLen(added) + TotalLen(w.queue[k..])
  {
    hide Len, TotalLen, FromStreams, Staying, Reversed;
    var p := if w.path != [] && Len(w.path[0]) <= maxLen then 1 else 0;
    var room := maxLen - TotalLen(w.path[..p]);
    var added := FromStreams(w.streams, order, room).0;
    var k := Staying(w.queue, room - TotalLen(added));
    TotalLenConcat(w.path[..p], added);
    TotalLenConcat(w.path[..p] + added, Reversed(w.queue[k..]));
    ReversedLen(w.queue[k..]);
  }

  /** If all control frames of streams are small, no packet is overfull. */
  lemma SmallFramesFit(w: Unsent, order: seq<nat>, maxLen: nat)
    requires SmallFrames(w.streams)
    ensures TotalLen(Pack(w, order, maxLen).0) <= maxLen
  {
    hide Len, TotalLen, FromStreams, Staying, Pack, SmallFrames;
    PackLen(w, order, maxLen);
    PathFits(w.path, maxLen);
    var p := if w.path != [] && Len(w.path[0]) <= maxLen then 1 else 0;
    var room := maxLen - TotalLen(w.path[..p]);
    FromStreamsFits(w.streams, order, room);
    StayingFits(w.queue, room - TotalLen(FromStreams(w.streams, order, room).0));
  }

  // With room for the frames before it, the j-th frame is taken.
  lemma {:induction false} TakesUpTo(frames: seq<ControlFrame>, j: nat, room: int)
    requires j < |frames| && room > TotalLen(frames[..j]) + MAX_STREAM_CONTROL_FRAME_SIZE
    ensures j < TakenFrom(frames, room)
  {
    hide Len, TotalLen;
    if j > 0 {
      TotalLenFirst(frames, j);
      TakesUpTo(frames[1..], j - 1, room - Len(frames[0]));
    }
  }

  lemma TotalLenMore(frames: seq<ControlFrame>, i: nat, j: nat)
    requires i <= j <= |frames|
    ensures TotalLen(frames[..i]) <= TotalLen(frames[..j])
  {
    TotalLenConcat(frames[..i], frames[i..j]);
    assert frames[..j] == frames[..i] + frames[i..j];
  }

  // Asking more streams only adds frames.
  lemma {:induction false} FromMoreStreams(streams: map<nat, seq<ControlFrame>>, order: seq<nat>, more: seq<nat>,
                                           room: int)
    ensures TotalLen(FromStreams(streams, order, room).0) <= TotalLen(FromStreams(streams, order + more, room).0)
  {
    hide Len, TotalLen, TakenFrom, StreamsAfter;
    if more == [] {
      assert order + more == order;
    } else {
      var n := |more| - 1;
      FromMoreStreams(streams, order, more[..n], room);
      var all := order + more;
      assert all[..|all| - 1] == order + more[..n];
      var (added, left) := FromStreams(streams, order + more[..n], room);
      if more[n] in left {
        TotalLenConcat(added, left[more[n]][..TakenFrom(left[more[n]], room - TotalLen(added))]);
      }
    }
  }

  lemma FromFirst(streams: map<nat, seq<ControlFrame>>, id: nat, room: int)
    requires id in streams && room > MAX_STREAM_CONTROL_FRAME_SIZE
    ensures FromStreams(streams, [id], room).0 == streams[id][..TakenFrom(streams[id], room)]
  {
    hide Len, TakenFrom, StreamsAfter;
    assert [id][..0] == [];
    assert FromStreams(streams, [], room) == ([], streams);
  }

  lemma FromNext(streams: map<nat, seq<ControlFrame>>, order: seq<nat>, room: int, id: nat)
    ensures var (added, left) := FromStreams(streams, order, room);
            var more := room - TotalLen(added);
            FromStreams(streams, order + [id], room) ==
            if more <= MAX_STREAM_CONTROL_FRAME_SIZE || id !in left then (added, left)
            else (added + left[id][..TakenFrom(left[id], more)], StreamsAfter(left, id, more))
  {
    hide TotalLen, TakenFrom, StreamsAfter;
    assert (order + [id])[..|order|] == order;
  }

  lemma FromNone(streams: map<nat, seq<ControlFrame>>, room: int)
    ensures FromStreams(streams, [], room) == ([], streams) && TotalLen([]) == 0 && Orders({}, [])
    ensures streams.Keys - streams.Keys == {}
  {
  }

  // Without room, or without streams, asking more of them changes nothing.
  lemma {:induction false} FromNoMore(streams: map<nat, seq<ControlFrame>>, order: seq<nat>, rest: seq<nat>, room: int,
                                      ids: set<nat>)
    requires ids == {} || room - TotalLen(FromStreams(streams, order, room).0) <= MAX_STREAM_CONTROL_FRAME_SIZE
    requires Orders(ids, rest) && ids <= streams.Keys && Orders(streams.Keys - ids, order)
    ensures FromStreams(streams, order + rest, room) == FromStreams(streams, order, room)
    ensures Orders(streams.Keys, order + rest)
  {
    hide TotalLen, TakenFrom, StreamsAfter, FromStreams, Len;
    if rest != [] {
      OrderHas(ids, rest);
    }
    NoneTaken(streams, order, rest, room);
    OrdersBoth(streams.Keys - ids, ids, order, rest);
    assert streams.Keys - ids + ids == streams.Keys;
  }

  lemma OrderHas(ids: set<nat>, order: seq<nat>)
    requires Orders(ids, order) && order != []
    ensures ids != {}
  {
    assert order[0] in order;
  }

  lemma OrdersBoth(a: set<nat>, b: set<nat>, p: seq<nat>, q: seq<nat>)
    requires Orders(a, p) && Orders(b, q) && a !! b
    ensures Orders(a + b, p + q)
  {
    assert forall x :: x in p + q <==> x in p || x in q;
    forall i, j | 0 <= i < j < |p + q| ensures (p + q)[i] != (p + q)[j] {
      assert i < |p| ==> p[i] in a;
      assert |p| <= j ==> q[j - |p|] in b;
    }
  }

  lemma {:induction false} NoneTaken(streams: map<nat, seq<ControlFrame>>, order: seq<nat>, rest: seq<nat>, room: int)
    requires rest == [] || room - TotalLen(FromStreams(streams, order, room).0) <= MAX_STREAM_CONTROL_FRAME_SIZE
    ensures FromStreams(streams, order + rest, room) == FromStreams(streams, order, room)
  {
    hide TotalLen, TakenFrom, StreamsAfter, FromStreams, Len;
    if rest == [] {
      assert order + rest == order;
    } else {
      var n := |rest| - 1;
      NoneTaken(streams, order, rest[..n], room);
      FromNext(streams, order + rest[..n], room, rest[n]);
      assert order + rest[..n] + [rest[n]] == order + rest;
    }
  }

  lemma OrdersNext(ids: set<nat>, order: seq<nat>, id: nat)
    requires Orders(ids, order) && id !in ids
    ensures Orders(ids + {id}, order + [id])
  {
    assert Orders({id}, [id]);
    OrdersBoth(ids, {id}, order, [id]);
  }

  /** What is taken from a stream is no longer offered. */
  lemma TakingKeeps(streams: map<nat, seq<ControlFrame>>, id: nat, room: int)
    requires id in streams
    ensures multiset(streams[id][..TakenFrom(streams[id], room)]) + Offered(StreamsAfter(streams, id, room)) ==
            Offered(streams)
    ensures streams.Keys - {id} <= StreamsAfter(streams, id, room).Keys <= streams.Keys
    ensures var n := TakenFrom(streams[id], room);
            room > MAX_STREAM_CONTROL_FRAME_SIZE && n == |streams[id]| ==> id !in StreamsAfter(streams, id, room)
  {
    hide Offered, TakenFrom;
    var frames, after := streams[id], StreamsAfter(streams, id, room);
    var n := TakenFrom(frames, room);
    OfferedWithout(streams, id);
    assert frames == frames[..n] + frames[n..];
    assert after - {id} == streams - {id};
    if id in after {
      OfferedWithout(after, id);
    } else {
      assert after == after - {id} && frames[..n] == frames;
    }
  }

  /** No frame of a stream is lost. */
  lemma {:induction false} FromStreamsKeep(streams: map<nat, seq<ControlFrame>>, order: seq<nat>, room: int)
    ensures var (added, left) := FromStreams(streams, order, room);
            multiset(added) + Offered(left) == Offered(streams) && left.Keys <= streams.Keys
  {
    hide Offered, TakenFrom, StreamsAfter, TotalLen;
    if order != [] {
      var n := |order| - 1;
      FromStreamsKeep(streams, order[..n], room);
      var (added, left) := FromStreams(streams, order[..n], room);
      if order[n] in left {
        TakingKeeps(left, order[n], room - TotalLen(added));
      }
    }
  }

  // A stream is only left with frames if there is no more room.
  lemma {:induction false} AllTaken(frames: seq<ControlFrame>, room: int)
    requires room - TotalLen(frames[..TakenFrom(frames, room)]) > MAX_STREAM_CONTROL_FRAME_SIZE
    ensures TakenFrom(frames, room) == |frames|
  {
    hide Len, TotalLen;
    NoFrames();
    var n := TakenFrom(frames, room);
    if n > 0 {
      TotalLenFirst(frames, n);
      AllTaken(frames[1..], room - Len(frames[0]));
    } else {
      assert frames[..n] == [];
    }
  }

  lemma {:induction false} FromStreamsAll(streams: map<nat, seq<ControlFrame>>, order: seq<nat>, room: int)
    requires room - TotalLen(FromStreams(streams, order, room).0) > MAX_STREAM_CONTROL_FRAME_SIZE
    ensures forall id | id in order :: id !in FromStreams(streams, order, room).1
  {
    hide Offered, TakenFrom, StreamsAfter, TotalLen, Len;
    if order != [] {
      var n := |order| - 1;
      var (added, left) := FromStreams(streams, order[..n], room);
      var more := room - TotalLen(added);
      if order[n] in left {
        var taken := left[order[n]][..TakenFrom(left[order[n]], more)];
        TotalLenConcat(added, taken);
        if more > MAX_STREAM_CONTROL_FRAME_SIZE {
          AllTaken(left[order[n]], more);
        }
        TakingKeeps(left, order[n], more);
      }
      FromStreamsAll(streams, order[..n], room);
      assert forall id | id in order :: id in order[..n] || id == order[n];
    }
  }

  lemma NoStreamsLeft(streams: map<nat, seq<ControlFrame>>, order: seq<nat>, room: int)
    requires Orders(streams.Keys, order)
    ensures var (added, left) := FromStreams(streams, order, room);
            room - TotalLen(added) > MAX_STREAM_CONTROL_FRAME_SIZE ==> left == map[]
  {
    hide FromStreams, TotalLen;
    FromStreamsKeep(streams, order, room);
    var (added, left) := FromStreams(streams, order, room);
    if room - TotalLen(added) > MAX_STREAM_CONTROL_FRAME_SIZE {
      FromStreamsAll(streams, order, room);
      assert left.Keys == {};
    }
  }

  // The parts of a packet.
  lemma PackParts(w: Unsent, order: seq<nat>, maxLen: nat, p: nat, added: seq<ControlFrame>, k: nat)
    requires p == if w.path != [] && Len(w.path[0]) <= maxLen then 1 else 0
    requires var room := maxLen - TotalLen(w.path[..p]);
             added == FromStreams(w.streams, order, room).0 && k == Staying(w.queue, room - TotalLen(added))
    ensures var left := FromStreams(w.streams, order, maxLen - TotalLen(w.path[..p])).1;
            Pack(w, order, maxLen) ==
            (w.path[..p] + added + Reversed(w.queue[k..]), Unsent(w.path[p..], left, w.queue[..k]))
  {
    hide Len, TotalLen, FromStreams, Staying, Reversed;
  }

  /** Everything that waits to be sent, except for STREAM frames. */
  ghost function Backlog(queue: seq<ControlFrame>, path: seq<ControlFrame>,
                         offered: multiset<ControlFrame>): multiset<ControlFrame> {
    multiset(queue) + (multiset(path) + offered)
  }

  lemma {:induction false} ReversedMultiset(fs: seq<ControlFrame>)
    ensures multiset(Reversed(fs)) == multiset(fs)
  {
    if fs != [] {
      var n := |fs| - 1;
      assert fs == fs[..n] + [fs[n]];
      ReversedMultiset(fs[..n]);
    }
  }

  lemma Regroup(path: seq<ControlFrame>, path': seq<ControlFrame>, more: seq<ControlFrame>,
                offered: multiset<ControlFrame>, offered': multiset<ControlFrame>,
                queue': seq<ControlFrame>, rest: seq<ControlFrame>)
    requires offered == multiset(more) + offered'
    ensures multiset(path + more + Reversed(rest)) + Backlog(queue', path', offered') == Backlog(queue' + rest,
        path + path', offered)
  {
    hide Reversed;
    ReversedMultiset(rest);
  }

  // A queued frame stays only if it does not fit.
  lemma {:induction false} StayingTight(queue: seq<ControlFrame>, room: int)
    ensures var k := Staying(queue, room);
            k > 0 ==> Len(queue[k - 1]) + TotalLen(queue[k..]) > room
  {
    hide Len, TotalLen;
    NoFrames();
    var k := Staying(queue, room);
    if queue == [] || Len(queue[|queue| - 1]) > room {
      assert queue[k..] == [];
    } else {
      var n := |queue| - 1;
      StayingTight(queue[..n], room - Len(queue[n]));
      SuffixLast(queue, k);
      TotalLenAppend(queue[..n][k..], queue[n]);
    }
  }

  lemma Rejoin(fs: seq<ControlFrame>, k: nat)
    requires k <= |fs|
    ensures fs[..k] + fs[k..] == fs
  {
  }

  /** No control frame is lost. */
  lemma PackKeeps(w: Unsent, order: seq<nat>, maxLen: nat)
    ensures var (added, left) := Pack(w, order, maxLen);
            multiset(added) + Backlog(left.queue, left.path, Offered(left.streams)) ==
            Backlog(w.queue, w.path, Offered(w.streams))
  {
    hide Len, TotalLen, FromStreams, Staying, Reversed, Offered, Backlog, Pack;
    var p := if w.path != [] && Len(w.path[0]) <= maxLen then 1 else 0;
    var room := maxLen - TotalLen(w.path[..p]);
    var (added, left) := FromStreams(w.streams, order, room);
    var k := Staying(w.queue, room - TotalLen(added));
    FromStreamsKeep(w.streams, order, room);
    PackParts(w, order, maxLen, p, added, k);
    Rejoin(w.queue, k);
    Rejoin(w.path, p);
    Regroup(w.path[..p], w.path[p..], added, Offered(w.streams), Offered(left), w.queue[..k], w.queue[k..]);
  }

  /** If more than 25 bytes stay free, streams have nothing left. */
  lemma PackStreams(w: Unsent, order: seq<nat>, maxLen: nat)
    requires Orders(w.streams.Keys, order)
    ensures var (added, left) := Pack(w, order, maxLen);
            maxLen - TotalLen(added) > MAX_STREAM_CONTROL_FRAME_SIZE ==> left.streams == map[]
  {
    hide Len, TotalLen, FromStreams, Staying, Reversed, Orders;
    var p := if w.path != [] && Len(w.path[0]) <= maxLen then 1 else 0;
    PackLen(w, order, maxLen);
    NoStreamsLeft(w.streams, order, maxLen - TotalLen(w.path[..p]));
  }

  /** A queued frame only stays if it does not fit. */
  lemma PackTight(w: Unsent, order: seq<nat>, maxLen: nat)
    ensures var (added, left) := Pack(w, order, maxLen);
            left.queue != [] ==> TotalLen(added) + Len(left.queue[|left.queue| - 1]) > maxLen
  {
    hide Len, TotalLen, FromStreams, Staying, Reversed;
    var p := if w.path != [] && Len(w.path[0]) <= maxLen then 1 else 0;
    var room := maxLen - TotalLen(w.path[..p]);
    PackLen(w, order, maxLen);
    StayingTight(w.queue, room - TotalLen(FromStreams(w.streams, order, room).0));
  }

  lemma {:induction false} AnyOrder(ids: set<nat>) returns (order: seq<nat>)
    ensures Orders(ids, order)
  {
    order := [];
    if ids != {} {
      var id :| id in ids;
      order := AnyOrder(ids - {id});
      order := order + [id];
    }
  }

  lemma FirstOf(ids: set<nat>, id: nat) returns (rest: seq<nat>)
    requires id in ids
    ensures Orders(ids, [id] + rest)
  {
    rest := AnyOrder(ids - {id});
    assert forall x :: x in [id] + rest <==> x == id || x in rest;
  }

  /** A large control frame of a stream does not fit a packet that has 26 bytes left for it. */
  lemma LargeFrameOverruns(w: Unsent, id: nat, j: nat) returns (order: seq<nat>, maxLen: nat)
    requires id in w.streams && j < |w.streams[id]|
    requires Len(w.streams[id][j]) > MAX_STREAM_CONTROL_FRAME_SIZE + 1
    ensures Orders(w.streams.Keys, order) && TotalLen(Pack(w, order, maxLen).0) > maxLen
  {
    hide Len, TotalLen, FromStreams, Staying, Pack, TakenFrom, Orders;
    var frames := w.streams[id];
    var rest := FirstOf(w.streams.Keys, id);
    order := [id] + rest;
    var room := TotalLen(frames[..j]) + MAX_STREAM_CONTROL_FRAME_SIZE + 1;
    maxLen := room + if w.path == [] then 0 else Len(w.path[0]);
    PathTaken(w.path, maxLen);
    PackLen(w, order, maxLen);
    TakesUpTo(frames, j, room);
    TotalLenMore(frames, j + 1, TakenFrom(frames, room));
    TotalLenAppend(frames[..j], frames[j]);
    assert frames[..j + 1] == frames[..j] + [frames[j]];
    FromFirst(w.streams, id, room);
    FromMoreStreams(w.streams, [id], rest, room);
  }

  lemma PathTaken(path: seq<ControlFrame>, maxLen: nat)
    requires path != [] ==> Len(path[0]) <= maxLen
    ensures var p := if path != [] && Len(path[0]) <= maxLen then 1 else 0;
            TotalLen(path[..p]) == if path == [] then 0 else Len(path[0])
  {
    hide Len, TotalLen;
    NoFrames();
    if path != [] {
      TotalLenFirst(path, 1);
      assert path[1..][..0] == [];
    } else {
      assert path[..0] == [];
    }
  }

  /** Whatever else waits, the control frames fit every packet, in every order, if and only if those of the streams
      have at most 26 bytes. */
  lemma PackFitsExactly(w: Unsent)
    ensures (forall order, maxLen: nat | Orders(w.streams.Keys, order) :: TotalLen(Pack(w, order, maxLen).0) <= maxLen)
            <==> SmallFrames(w.streams)
  {
    hide Len, TotalLen, Pack, Orders;
    if SmallFrames(w.streams) {
      forall order, maxLen: nat | Orders(w.streams.Keys, order) ensures TotalLen(Pack(w, order, maxLen).0) <= maxLen {
        SmallFramesFit(w, order, maxLen);
      }
    } else {
      var id, f :| id in w.streams && f in w.streams[id] && Len(f) > MAX_STREAM_CONTROL_FRAME_SIZE + 1;
      var j :| 0 <= j < |w.streams[id]| && w.streams[id][j] == f;
      var order, maxLen := LargeFrameOverruns(w, id, j);
    }
  }

  /** RESET_STREAM_AT does that: with all its fields large, it overruns a packet of 26 bytes. */
  lemma ResetStreamAtOverruns(id: nat, code: nat, size: nat)
    requires id > MAX_VARINT4 && code > MAX_VARINT4 && size > MAX_VARINT4
    ensures var f := ResetStream(id, code, size, size);
            Pack(Unsent([], map[id := [f]], []), [id], 26).0 == [f] && Len(f) == 33
  {
    var f := ResetStream(id, code, size, size);
    ResetStreamAtTooLarge(id, code, size);
    hide Len;
    NoFrames();
    FromFirst(map[id := [f]], id, 26);
    assert TakenFrom([f], 26) == 1 && [f][..1] == [f];
  }
}
