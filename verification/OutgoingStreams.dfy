/** Opening streams up to the peer's limit.  OpenStreamSync waits in a queue; every section
    that holds the lock, and every choice of the select statement, is one atomic step.
 */
module OutgoingStreams {
  import opened StreamNumbers

  /** first is the ID of the first stream of this type.  Waiters are numbered in the order in
      which they enter the queue.  A waiter in tokens has a value in its channel; one in woken
      has received it, but does not hold the lock yet; one in leaving has seen its context end,
      but does not hold the lock yet. */
  datatype State = State(
    first: int,
    nextStream: int,
    maxStream: int,
    blockedSent: bool,
    openQueue: seq<nat>,
    waiters: nat,
    tokens: set<nat>,
    woken: set<nat>,
    leaving: set<nat>,
    streamsOpened: seq<int>,
    served: seq<nat>,
    blockedFrames: seq<int>)

  datatype Event =
    | OpenStream
    | OpenStreamSync
    | SetMaxStream(id: int)
    | ReceiveToken(waiter: nat)
    | Proceed(waiter: nat)
    | ContextDone(waiter: nat)
    | Leave(waiter: nat)

  function Initial(first: int): State {
    State(first, first, INVALID_STREAM_ID, false, [], 0, {}, {}, {}, [], [], [])
  }

  function Open(s: State): State {
    s.(streamsOpened := s.streamsOpened + [s.nextStream], nextStream := s.nextStream + 4)
  }

  function MaybeSendBlockedFrame(s: State): State {
    if s.blockedSent then s
    else s.(blockedSent := true, blockedFrames := s.blockedFrames + [StreamNum(s.maxStream)])
  }

  function MaybeUnblockOpenSync(s: State): State {
    if s.openQueue == [] || s.nextStream > s.maxStream then s
    else s.(tokens := s.tokens + {s.openQueue[0]})
  }

  function Without(q: seq<nat>, w: nat): (r: seq<nat>)
    ensures forall x | x in r :: x in q && x != w
    ensures forall x | x in q && x != w :: x in r
    ensures w !in q ==> r == q
    ensures q != [] && q[0] != w ==> r != [] && r[0] == q[0]
    ensures |r| <= |q|
  {
    if q == [] then []
    else if q[0] == w then Without(q[1..], w)
    else [q[0]] + Without(q[1..], w)
  }

  function Step(s: State, e: Event): State {
    match e
    case OpenStream =>
      if s.openQueue != [] || s.nextStream > s.maxStream then MaybeSendBlockedFrame(s) else Open(s)
    case OpenStreamSync =>
      if s.openQueue == [] && s.nextStream <= s.maxStream then Open(s)
      else MaybeSendBlockedFrame(s.(openQueue := s.openQueue + [s.waiters], waiters := s.waiters + 1))
    case SetMaxStream(id) =>
      if id <= s.maxStream then s
      else
        var s1 := s.(maxStream := id, blockedSent := false);
        var s2 := if id < s.nextStream - 4 + 4 * |s.openQueue| then MaybeSendBlockedFrame(s1) else s1;
        MaybeUnblockOpenSync(s2)
    case ReceiveToken(w) =>
      if w in s.tokens && w !in s.woken && w !in s.leaving then s.(tokens := s.tokens - {w}, woken := s.woken + {w})
          else s
    case Proceed(w) =>
      if w !in s.woken || s.openQueue == [] then s
      else if s.nextStream > s.maxStream then s.(woken := s.woken - {w})
      else
        var s1 := Open(s).(openQueue := s.openQueue[1..], served := s.served + [w], woken := s.woken - {w},
                           tokens := s.tokens - {w});
        MaybeUnblockOpenSync(s1)
    case ContextDone(w) =>
      if w in s.openQueue && w !in s.woken && w !in s.leaving then s.(leaving := s.leaving + {w}) else s
    case Leave(w) =>
      if w !in s.leaving then s
      else MaybeUnblockOpenSync(s.(openQueue := Without(s.openQueue, w), leaving := s.leaving - {w},
                                   tokens := s.tokens - {w}))
  }

  /** The peer's limits are IDs of this stream type. */
  predicate Possible(s: State, e: Event) {
    e.SetMaxStream? ==> e.id == INVALID_STREAM_ID || (e.id >= s.first && (e.id - s.first) % 4 == 0)
  }

  ghost predicate Increasing(q: seq<nat>) {
    forall i, j | 0 <= i < j < |q| :: q[i] < q[j]
  }

  ghost predicate Inv(s: State) {
    && 0 <= s.first < 4 && s.first <= s.nextStream && (s.nextStream - s.first) % 4 == 0
    && (s.maxStream == INVALID_STREAM_ID || (s.maxStream >= s.first && (s.maxStream - s.first) % 4 == 0))
    && QueueInv(s)
    && WakeInv(s)
    && OpenedInv(s)
    && BlockedInv(s)
  }

  /** Waiters are queued and served in the order of their calls. */
  ghost predicate QueueInv(s: State) {
    && Increasing(s.served) && Increasing(s.openQueue)
    && (forall v, w | v in s.served && w in s.openQueue :: v < w)
    && (forall w | w in s.openQueue :: w < s.waiters)
    && (forall w | w in s.served :: w < s.waiters)
    && (forall w | w in s.leaving :: w in s.openQueue)
    && s.woken !! s.leaving
  }

  /** No wakeup is lost: if a stream can be opened, the head of the queue has a token or has
      received it; and no other waiter ever does. */
  ghost predicate WakeInv(s: State) {
    && (forall w | w in s.tokens :: s.openQueue != [] && w == s.openQueue[0])
    && (forall w | w in s.woken :: s.openQueue != [] && w == s.openQueue[0])
    && (s.openQueue != [] && s.nextStream <= s.maxStream ==> s.openQueue[0] in s.tokens || s.openQueue[0] in s.woken)
    && (forall w | w in s.tokens || w in s.woken :: s.nextStream <= s.maxStream)
  }

  /** The opened streams are first, first + 4 and so on, and none exceeds the limit. */
  ghost predicate OpenedInv(s: State) {
    && s.nextStream == s.first + 4 * |s.streamsOpened|
    && (forall i | 0 <= i < |s.streamsOpened| :: s.streamsOpened[i] == s.first + 4 * i <= s.maxStream)
  }

  /** A waiter that the limit does not cover has been announced to the peer, at most once per
      limit. */
  ghost predicate BlockedInv(s: State) {
    && (s.openQueue != [] && s.nextStream - 4 + 4 * |s.openQueue| > s.maxStream ==> s.blockedSent)
    && FramesInv(s)
  }

  lemma StepKeepsInv(s: State, e: Event)
    requires Inv(s) && Possible(s, e)
    ensures Inv(Step(s, e))
  {
    hide QueueInv, WakeInv, OpenedInv, BlockedInv, Without;
    StepKeepsQueue(s, e);
    StepKeepsWake(s, e);
    StepKeepsOpened(s, e);
    StepKeepsBlocked(s, e);
  }

  lemma {:induction false} WithoutIncreasing(q: seq<nat>, w: nat)
    requires Increasing(q)
    ensures Increasing(Without(q, w))
  {
    if q != [] {
      WithoutIncreasing(q[1..], w);
      var r := Without(q[1..], w);
      forall i | 0 <= i < |r| ensures q[0] < r[i] {
        assert r[i] in q[1..];
      }
    }
  }

  lemma StepKeepsQueue(s: State, e: Event)
    requires Inv(s) && Possible(s, e)
    ensures QueueInv(Step(s, e))
  {
    hide OpenedInv, BlockedInv;
    match e
    case OpenStreamSync =>
      assert forall i | 0 <= i < |s.openQueue| :: s.openQueue[i] in s.openQueue;
    case Proceed(w) =>
      if w in s.woken {
        ProceedKeepsQueue(s, w);
      }
    case Leave(w) =>
      WithoutIncreasing(s.openQueue, w);
    case _ =>
  }

  lemma ProceedKeepsQueue(s: State, w: nat)
    requires Inv(s) && w in s.woken
    ensures QueueInv(Step(s, Proceed(w)))
  {
    ProceedServesCaller(s, w);
    hide OpenedInv, BlockedInv, WakeInv, Step;
    var s' := Step(s, Proceed(w));
    var rest := s.openQueue[1..];
    assert s.openQueue == [w] + rest;
    ServeHead(s.served, w, rest);
    hide Increasing;
    assert forall v | v in s'.leaving :: v in s'.openQueue;
    assert w in s.openQueue;
    assert forall v | v in s'.served :: v < s'.waiters;
  }

  lemma ServeHead(served: seq<nat>, w: nat, rest: seq<nat>)
    requires Increasing(served) && Increasing([w] + rest)
    requires forall u, v | u in served && v in [w] + rest :: u < v
    ensures Increasing(served + [w]) && Increasing(rest)
    ensures forall u, v | u in served + [w] && v in rest :: u < v
    ensures forall v | v in rest :: v in [w] + rest
  {
    var q := [w] + rest;
    assert forall i | 0 <= i < |rest| :: rest[i] == q[i + 1];
    assert q[0] == w && w in q;
    forall v | v in rest ensures w < v && v in q {
    }
    forall i | 0 <= i < |served| ensures served[i] < w {
      assert served[i] in served;
    }
  }

  /** Waking the head is enough: however the queue or the limit has changed, no wakeup is missing then. */
  lemma UnblockWakesHead(s: State)
    requires forall w | w in s.tokens || w in s.woken :: s.openQueue != [] && w == s.openQueue[0]
                                                         && s.nextStream <= s.maxStream
    ensures WakeInv(MaybeUnblockOpenSync(s))
  {
  }

  lemma StepKeepsWake(s: State, e: Event)
    requires Inv(s) && Possible(s, e)
    ensures WakeInv(Step(s, e))
  {
    hide OpenedInv, BlockedInv, Increasing;
  }

  lemma OpenKeepsOpened(s: State)
    requires OpenedInv(s) && s.nextStream <= s.maxStream
    ensures OpenedInv(Open(s))
  {
  }

  lemma LimitKeepsOpened(s: State, t: State)
    requires OpenedInv(s) && s.maxStream <= t.maxStream
    requires t.first == s.first && t.nextStream == s.nextStream && t.streamsOpened == s.streamsOpened
    ensures OpenedInv(t)
  {
  }

  lemma StepKeepsOpened(s: State, e: Event)
    requires Inv(s) && Possible(s, e)
    ensures OpenedInv(Step(s, e))
  {
    hide QueueInv, WakeInv, OpenedInv, BlockedInv, Without;
    var t := Step(s, e);
    if t.nextStream == s.nextStream {
      LimitKeepsOpened(s, t);
    } else {
      OpenKeepsOpened(s);
      LimitKeepsOpened(Open(s), t);
    }
  }

  lemma StepKeepsBlocked(s: State, e: Event)
    requires Inv(s) && Possible(s, e)
    ensures BlockedInv(Step(s, e))
  {
    hide OpenedInv, WakeInv, QueueInv, FramesInv;
    FramesOnly(s, Step(s, e));
    match e
    case OpenStream => BlockedKeeps(s);
    case OpenStreamSync =>
      var t := s.(openQueue := s.openQueue + [s.waiters], waiters := s.waiters + 1);
      FramesOnly(s, t);
      BlockedKeeps(t);
    case SetMaxStream(id) => LimitKeepsBlocked(s, id);
    case _ =>
  }

  ghost predicate FramesInv(s: State) {
    && (forall i, j | 0 <= i < j < |s.blockedFrames| :: s.blockedFrames[i] < s.blockedFrames[j])
    && (forall i | 0 <= i < |s.blockedFrames| :: s.blockedFrames[i] <= StreamNum(s.maxStream) - if s.blockedSent then 0
        else 1)
    && (s.blockedSent ==> s.blockedFrames != []
                          && s.blockedFrames[|s.blockedFrames| - 1] == StreamNum(s.maxStream))
  }

  lemma FramesOnly(s: State, t: State)
    requires FramesInv(s)
    ensures t.blockedSent == s.blockedSent && t.blockedFrames == s.blockedFrames && t.maxStream == s.maxStream ==>
              FramesInv(t)
  {
  }

  /** The peer is told about its limit once, and about each limit in turn. */
  lemma BlockedKeeps(s: State)
    requires FramesInv(s)
    ensures FramesInv(MaybeSendBlockedFrame(s)) && MaybeSendBlockedFrame(s).blockedSent
  {
  }

  lemma LimitKeepsBlocked(s: State, id: int)
    requires Inv(s) && Possible(s, SetMaxStream(id))
    ensures BlockedInv(Step(s, SetMaxStream(id)))
  {
    hide OpenedInv, WakeInv, QueueInv;
    if id > s.maxStream {
      assert StreamNum(s.maxStream) < StreamNum(id);
      var s1 := s.(maxStream := id, blockedSent := false);
      assert FramesInv(s1);
      BlockedKeeps(s1);
      hide FramesInv;
      var s2 := if id < s.nextStream - 4 + 4 * |s.openQueue| then MaybeSendBlockedFrame(s1) else s1;
      FramesOnly(s2, MaybeUnblockOpenSync(s2));
    }
  }

  /** The state after the events, in any interleaving. */
  function Run(s: State, es: seq<Event>): State {
    if es == [] then s else Step(Run(s, es[..|es| - 1]), es[|es| - 1])
  }

  predicate PossibleRun(s: State, es: seq<Event>) {
    forall i | 0 <= i < |es| && es[i].SetMaxStream? ::
      es[i].id == INVALID_STREAM_ID || (es[i].id >= s.first && (es[i].id - s.first) % 4 == 0)
  }

  lemma {:induction false} RunKeepsInv(s: State, es: seq<Event>)
    requires Inv(s) && PossibleRun(s, es)
    ensures Inv(Run(s, es)) && Run(s, es).first == s.first
  {
    hide Inv, Step;
    if es != [] {
      var before, e := es[..|es| - 1], es[|es| - 1];
      RunKeepsInv(s, before);
      StepFirst(Run(s, before), e);
      StepKeepsInv(Run(s, before), e);
    }
  }

  lemma StepFirst(s: State, e: Event)
    ensures Step(s, e).first == s.first
  {
  }

  /** The peer has allowed streams up to this ID, and no further. */
  ghost predicate IsLimit(max: int, es: seq<Event>) {
    && INVALID_STREAM_ID <= max && (forall e | e in es && e.SetMaxStream? :: e.id <= max)
    && (max == INVALID_STREAM_ID || SetMaxStream(max) in es)
  }

  lemma StepLimit(s: State, e: Event)
    ensures Step(s, e).maxStream == if e.SetMaxStream? && e.id > s.maxStream then e.id else s.maxStream
  {
    hide Without;
  }

  /** The limit is the largest one that the peer has sent; a smaller one never takes streams back. */
  lemma {:induction false} LimitIsLargest(first: int, es: seq<Event>)
    ensures IsLimit(Run(Initial(first), es).maxStream, es)
  {
    hide Step;
    if es != [] {
      var n := |es| - 1;
      LimitIsLargest(first, es[..n]);
      StepLimit(Run(Initial(first), es[..n]), es[n]);
      assert forall e :: e in es <==> e in es[..n] || e == es[n];
    }
  }

  /** In every interleaving: if the peer's largest limit allows one more stream, the head of the queue is being woken,
      and it alone; waiters are served in the order in which they came; the streams opened are
      consecutive and within the limit; and while the limit does not cover all waiters, the peer has been told so, for
      this limit. */
  lemma NoLostWakeup(first: int, es: seq<Event>, max: int)
    requires 0 <= first < 4 && PossibleRun(Initial(first), es) && IsLimit(max, es)
    ensures var s := Run(Initial(first), es);
            var next := first + 4 * |s.streamsOpened|;
            && (s.openQueue != [] && next <= max ==> s.openQueue[0] in s.tokens || s.openQueue[0] in s.woken)
            && (forall w | w in s.tokens || w in s.woken :: s.openQueue != [] && w == s.openQueue[0] && next <= max)
            && Increasing(s.served)
            && (forall v, w | v in s.served && w in s.openQueue :: v < w)
            && (forall i | 0 <= i < |s.streamsOpened| :: s.streamsOpened[i] == first + 4 * i <= max)
            && (s.openQueue != [] && next - 4 + 4 * |s.openQueue| > max ==>
                  s.blockedFrames != [] && s.blockedFrames[|s.blockedFrames| - 1] == StreamNum(max))
            && (forall i, j | 0 <= i < j < |s.blockedFrames| :: s.blockedFrames[i] < s.blockedFrames[j])
  {
    hide Run;
    RunKeepsInv(Initial(first), es);
    LimitIsLargest(first, es);
    SameLimit(max, Run(Initial(first), es).maxStream, es);
  }

  lemma SameLimit(a: int, b: int, es: seq<Event>)
    requires IsLimit(a, es) && IsLimit(b, es)
    ensures a == b
  {
  }

  /** A waiter that goes on after its token always finds a stream, and dropping the head of the
      queue drops that waiter. */
  lemma ProceedServesCaller(s: State, w: nat)
    requires Inv(s) && w in s.woken
    ensures s.openQueue != [] && s.openQueue[0] == w && s.nextStream <= s.maxStream
    ensures var s' := Step(s, Proceed(w));
            && s'.served == s.served + [w]
            && s'.streamsOpened == s.streamsOpened + [s.nextStream]
            && s'.openQueue == s.openQueue[1..]
            && s'.leaving == s.leaving && s'.waiters == s.waiters && s'.woken == s.woken - {w}
  {
  }

  function Wakeups(q: seq<nat>): seq<Event> {
    if q == [] then [] else Wakeups(q[..|q| - 1]) + [ReceiveToken(q[|q| - 1]), Proceed(q[|q| - 1])]
  }

  /** Credit reaches the waiters: a limit that covers the first n of them lets them open their
      streams one after the other, each woken by the one before. */
  lemma {:induction false} CreditServesQueue(s: State, n: nat)
    requires Inv(s) && s.leaving == {}
    requires n <= |s.openQueue| && s.nextStream + 4 * (n - 1) <= s.maxStream
    ensures var s' := Run(s, Wakeups(s.openQueue[..n]));
            && Inv(s') && s'.leaving == {} && s'.maxStream == s.maxStream
            && s'.served == s.served + s.openQueue[..n]
            && s'.openQueue == s.openQueue[n..]
            && s'.nextStream == s.nextStream + 4 * n
  {
    hide Inv, Step;
    if n == 0 {
      assert s.openQueue[..0] == [];
    } else {
      CreditServesQueue(s, n - 1);
      var q := s.openQueue[..n];
      var w := q[n - 1];
      assert q[..n - 1] == s.openQueue[..n - 1];
      var es := Wakeups(q[..n - 1]);
      var s1 := Run(s, es);
      assert s1.openQueue[0] == w;
      RunTwo(s, es, ReceiveToken(w), Proceed(w));
      HeadProceeds(s1, w);
      assert s.openQueue[..n] == s.openQueue[..n - 1] + [w];
    }
  }

  lemma RunTwo(s: State, es: seq<Event>, e1: Event, e2: Event)
    ensures Run(s, es + [e1, e2]) == Step(Step(Run(s, es), e1), e2)
  {
    hide Step;
    assert (es + [e1, e2])[..|es| + 1] == es + [e1];
    assert (es + [e1])[..|es|] == es;
  }

  lemma HeadProceeds(s: State, w: nat)
    requires Inv(s) && s.leaving == {} && s.openQueue != [] && s.openQueue[0] == w && s.nextStream <= s.maxStream
    ensures var s' := Step(Step(s, ReceiveToken(w)), Proceed(w));
            && Inv(s') && s'.leaving == {} && s'.maxStream == s.maxStream && s'.nextStream == s.nextStream + 4
            && s'.served == s.served + [w] && s'.openQueue == s.openQueue[1..]
  {
    var s1 := Step(s, ReceiveToken(w));
    StepKeepsInv(s, ReceiveToken(w));
    assert w in s1.woken;
    ProceedServesCaller(s1, w);
    StepKeepsInv(s1, Proceed(w));
    hide Inv;
  }
}
