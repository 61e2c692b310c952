/** Streams that the peer opens: the limit it is given, and the order in which they are accepted.  Every
    section that holds the lock is one atomic step, except for the loop that opens streams, which
    signals the channel while it holds the lock; so is every operation on the channel.
 */
module IncomingStreams {
  import opened StreamBytes
  import opened StreamNumbers

  const MAX_STREAM_COUNT: nat := 0x1000_0000_0000_0000  // the largest limit that can be configured

  datatype DeleteError = UnknownStream | DeletedBefore

  /** A call of AcceptStream is in locking when it is about to take the lock, and in waiting when it waits
      for the channel. */
  datatype State = State(
    first: int,
    maxNum: nat,
    streams: map<int, bool>,  // maps every stream to whether it should be deleted once accepted
    accept: int,  // the next stream to accept
    open: int,  // the next stream to open
    opening: Option<int>,  // while the lock is held to open streams: the last of them
    newNum: int,  // the next one of them
    maxStream: int,
    chan: bool,  // the channel holds a value
    locking: set<nat>,
    waiting: set<nat>,
    limits: seq<int>,  // the stream numbers advertised
    accepted: seq<int>)  // the streams returned by AcceptStream

  datatype Event =
    | Frame(id: int)  // a frame for a stream
    | OpenNext  // the loop that opens streams goes on
    | Complete(id: int)
    | Call(caller: nat)  // AcceptStream is called, and drains the channel
    | Check(caller: nat)  // a call takes the lock and looks for its stream
    | Receive(caller: nat)  // a call that waits receives from the channel
    | Cancel(caller: nat)  // its context ends

  function Initial(first: int, maxNum: nat): State {
    State(first, maxNum, map[], first, first, None, first, StreamID(first, maxNum), false, {}, {}, [], [])
  }

  /** The outcome of looking up a stream. */
  datatype Lookup = Stream(id: int) | Gone | StreamLimitError | Opens

  function Find(s: State, id: int): Lookup {
    if id > s.maxStream then StreamLimitError
    else if id >= s.open then Opens
    else if id in s.streams && !s.streams[id] then Stream(id)
    else Gone
  }

  function FrameStep(s: State, id: int): State {
    if s.opening.None? && Find(s, id) == Opens then s.(opening := Some(id), newNum := s.open) else s
  }

  function OpenStep(s: State): State {
    if s.opening.None? then s
    else
      var t := s.(streams := s.streams[s.newNum := false], chan := true, newNum := s.newNum + 4);
      if t.newNum > s.opening.value then t.(open := s.opening.value + 4, opening := None) else t
  }

  // The next limit would be too large for a stream number.
  predicate Capped(maxNum: nat, size: nat, open: int) {
    open + 4 * (maxNum - size) - 4 > MAX_STREAM_ID
  }

  /** A stream is gone: the peer may open another one. */
  function Remove(s: State, id: int): State {
    var t := s.(streams := s.streams - {id});
    if s.maxNum <= |t.streams| || Capped(s.maxNum, |t.streams|, s.open) then t
    else
      var maxStream := s.open + 4 * (s.maxNum - |t.streams| - 1);
      t.(maxStream := maxStream, limits := s.limits + [StreamNum(maxStream)])
  }

  /** A completed stream is deleted once it is accepted. */
  function DeleteStep(s: State, id: int): (State, Option<DeleteError>) {
    if id !in s.streams then (s, Some(UnknownStream))
    else if id < s.accept then (Remove(s, id), None)
    else if s.streams[id] then (s, Some(DeletedBefore))
    else (s.(streams := s.streams[id := true]), None)
  }

  /** Accept the next stream, if it exists. */
  function AcceptStep(s: State): (State, Option<int>) {
    if s.accept !in s.streams then (s, None)
    else
      var t := s.(accept := s.accept + 4, accepted := s.accepted + [s.accept]);
      (if s.streams[s.accept] then Remove(t, s.accept) else t, Some(s.accept))
  }

  function Step(s: State, e: Event): State {
    match e
    case Frame(id) => if OfType(s.first, id) then FrameStep(s, id) else s
    case OpenNext => OpenStep(s)
    case Complete(id) => if s.opening.None? then DeleteStep(s, id).0 else s
    case Call(c) => if c in s.locking || c in s.waiting then s else s.(chan := false, locking := s.locking + {c})
    case Check(c) =>
      if c !in s.locking || s.opening.Some? then s
      else
        var (t, id) := AcceptStep(s.(locking := s.locking - {c}));
        if id.Some? then t else t.(waiting := s.waiting + {c})
    case Receive(c) =>
      if c in s.waiting && s.chan then s.(chan := false, waiting := s.waiting - {c}, locking := s.locking + {c}) else s
    case Cancel(c) => s.(waiting := s.waiting - {c})
  }

  function Run(first: int, maxNum: nat, es: seq<Event>): State {
    if es == [] then Initial(first, maxNum) else Step(Run(first, maxNum, es[..|es| - 1]), es[|es| - 1])
  }

  /** How many more streams the peer may open. */
  function Credit(open: int, maxStream: int): nat {
    if maxStream < open then 0 else (maxStream - open) / 4 + 1
  }

  /** Every stream is in the map from when it is opened until it is both accepted and completed. */
  ghost predicate MapOk(first: int, streams: map<int, bool>, accept: int, open: int) {
    && 0 <= first < 4 && OfType(first, accept) && OfType(first, open) && accept <= open
    && (forall id | id in streams :: OfType(first, id) && id < open)
    && (forall id | OfType(first, id) && accept <= id < open :: id in streams)
    && (forall id | id in streams && id < accept :: !streams[id])
  }

  /** Open streams and credit add up to the configured number, until the cap on stream numbers. */
  ghost predicate CreditOk(first: int, maxNum: nat, size: nat, open: int, maxStream: int) {
    && maxNum <= MAX_STREAM_COUNT && maxStream <= MAX_STREAM_ID
    && (if maxNum == 0 then maxStream == INVALID_STREAM_ID else OfType(first, maxStream) && open <= maxStream + 4)
    && size + Credit(open, maxStream) <= maxNum
    && (size + Credit(open, maxStream) == maxNum <==> !Capped(maxNum, size, open))
  }

  ghost predicate LimitsOk(first: int, maxNum: nat, maxStream: int, limits: seq<int>) {
    && maxStream == StreamID(first, maxNum + |limits|)
    && (forall i | 0 <= i < |limits| :: limits[i] == maxNum + i + 1)
  }

  ghost predicate AcceptedOk(first: int, accept: int, accepted: seq<int>) {
    && accept == first + 4 * |accepted|
    && (forall i | 0 <= i < |accepted| :: accepted[i] == first + 4 * i)
  }

  ghost predicate OpeningOk(s: State) {
    if s.opening.None? then s.newNum == s.open
    else OfType(s.first, s.open) && OfType(s.first, s.opening.value)
         && s.open <= s.newNum <= s.opening.value <= s.maxStream
  }

  ghost predicate Inv(s: State) {
    && MapOk(s.first, s.streams, s.accept, s.newNum)
    && CreditOk(s.first, s.maxNum, |s.streams|, s.newNum, s.maxStream)
    && LimitsOk(s.first, s.maxNum, s.maxStream, s.limits)
    && AcceptedOk(s.first, s.accept, s.accepted)
    && OpeningOk(s) && s.locking !! s.waiting
  }

  lemma FirstCredit(first: int, maxNum: nat)
    requires 0 <= first < 4 && maxNum <= MAX_STREAM_COUNT
    ensures CreditOk(first, maxNum, 0, first, StreamID(first, maxNum))
    ensures Credit(first, StreamID(first, maxNum)) == maxNum
  {
  }

  lemma OpenCredit(first: int, maxNum: nat, size: nat, open: int, maxStream: int)
    requires 0 <= first < 4 && OfType(first, open) && CreditOk(first, maxNum, size, open, maxStream)
             && open <= maxStream
    ensures CreditOk(first, maxNum, size + 1, open + 4, maxStream)
    ensures Credit(open, maxStream) == Credit(open + 4, maxStream) + 1
  {
    assert (maxStream - open) % 4 == 0;
  }

  /** A completed stream raises the limit by exactly one stream, if there is a larger limit. */
  lemma DeleteCredit(first: int, maxNum: nat, size: nat, open: int, maxStream: int)
    requires 0 <= first < 4 && OfType(first, open) && CreditOk(first, maxNum, size, open, maxStream) && 0 < size
    ensures size <= maxNum
    ensures var next := open + 4 * (maxNum - size);
            if next <= MAX_STREAM_ID then CreditOk(first, maxNum, size - 1, open, next) && next == maxStream + 4
            else CreditOk(first, maxNum, size - 1, open, maxStream)
  {
  }

  // There is nothing of a type between two streams that are four apart.
  lemma NextOfType(first: int, n: int, id: int)
    requires OfType(first, n) && OfType(first, id)
    ensures OfType(first, n + 4) && (n < id ==> n + 4 <= id)
  {
  }

  lemma OpenOne(first: int, streams: map<int, bool>, accept: int, open: int)
    requires MapOk(first, streams, accept, open)
    ensures open !in streams && OfType(first, open) && OfType(first, open + 4) && 0 <= first < 4
    ensures MapOk(first, streams[open := false], accept, open + 4)
  {
    hide OfType;
    NextOfType(first, open, open);
    var after := streams[open := false];
    forall id | OfType(first, id) && accept <= id < open + 4 ensures id in after {
      NextOfType(first, open, id);
    }
  }

  lemma TypeSteps(first: int, n: int, id: int)
    requires OfType(first, n) && OfType(first, id)
    ensures id < n <= id + 4 ==> n == id + 4
  {
  }

  lemma AcceptNext(first: int, streams: map<int, bool>, accept: int, open: int)
    requires MapOk(first, streams, accept, open)
    ensures OfType(first, open) && 0 <= first < 4
    ensures accept in streams <==> accept < open
    ensures accept in streams
            ==> MapOk(first, if streams[accept] then streams - {accept} else streams, accept + 4, open)
  {
    hide OfType;
    NextOfType(first, accept, open);
    if accept in streams {
      var after := if streams[accept] then streams - {accept} else streams;
      forall id | id in after && id < accept + 4 ensures !after[id] {
        NextOfType(first, accept, id);
      }
    }
  }

  lemma OpenKeepsInv(s: State)
    requires Inv(s) && s.opening.Some?
    ensures Inv(OpenStep(s)) && OpenStep(s).newNum == s.newNum + 4
    ensures OpenStep(s).opening.Some? ==> OpenStep(s).newNum <= s.opening.value
  {
    hide MapOk, CreditOk, LimitsOk, AcceptedOk, OfType;
    OpenOne(s.first, s.streams, s.accept, s.newNum);
    OpenCredit(s.first, s.maxNum, |s.streams|, s.newNum, s.maxStream);
    TypeSteps(s.first, s.newNum + 4, s.opening.value);
    assert |s.streams[s.newNum := false]| == |s.streams| + 1;
  }

  lemma RemoveKeeps(s: State, id: int)
    requires id in s.streams && 0 <= s.first < 4 && OfType(s.first, s.open) && s.newNum == s.open
    requires CreditOk(s.first, s.maxNum, |s.streams|, s.open, s.maxStream)
             && LimitsOk(s.first, s.maxNum, s.maxStream, s.limits)
    ensures var t := Remove(s, id);
            && CreditOk(s.first, s.maxNum, |t.streams|, s.open, t.maxStream)
            && LimitsOk(s.first, s.maxNum, t.maxStream, t.limits)
            && t == s.(streams := s.streams - {id}, maxStream := t.maxStream, limits := t.limits)
            && s.maxStream <= t.maxStream
            && |t.limits| == |s.limits| + if Capped(s.maxNum, |t.streams|, s.open) then 0 else 1
  {
    assert |s.streams - {id}| == |s.streams| - 1;
    DeleteCredit(s.first, s.maxNum, |s.streams|, s.open, s.maxStream);
    hide CreditOk;
  }

  lemma DeleteKeepsInv(s: State, id: int)
    requires Inv(s) && s.opening.None?
    ensures Inv(DeleteStep(s, id).0) && DeleteStep(s, id).0.first == s.first && DeleteStep(s, id).0.maxNum == s.maxNum
  {
    hide CreditOk, LimitsOk, AcceptedOk, Remove;
    if id in s.streams && id < s.accept {
      RemoveKeeps(s, id);
    } else if id in s.streams && !s.streams[id] {
      assert |s.streams[id := true]| == |s.streams|;
    }
  }

  lemma AcceptKeepsInv(s: State)
    requires Inv(s) && s.opening.None?
    ensures Inv(AcceptStep(s).0)
    ensures AcceptStep(s).1 == if s.accept < s.open then Some(s.accept) else None
    ensures var t := AcceptStep(s).0;
            && t == s.(streams := t.streams, accept := t.accept, accepted := t.accepted, maxStream := t.maxStream,
                       limits := t.limits)
            && t.accept == s.accept + (if s.accept < s.open then 4 else 0)
  {
    hide CreditOk, LimitsOk, Remove, MapOk, OfType;
    AcceptNext(s.first, s.streams, s.accept, s.open);
    if s.accept in s.streams {
      var t := s.(accept := s.accept + 4, accepted := s.accepted + [s.accept]);
      if s.streams[s.accept] {
        RemoveKeeps(t, s.accept);
      }
    }
  }

  lemma FrameKeepsInv(s: State, id: int)
    requires Inv(s) && OfType(s.first, id)
    ensures Inv(FrameStep(s, id))
  {
    hide CreditOk, LimitsOk, AcceptedOk, OfType;
  }

  lemma StepKeepsInv(s: State, e: Event)
    requires Inv(s)
    ensures Inv(Step(s, e)) && Step(s, e).first == s.first && Step(s, e).maxNum == s.maxNum
  {
    hide MapOk, CreditOk, LimitsOk, AcceptedOk, AcceptStep, Remove;
    match e
    case Frame(id) => if OfType(s.first, id) { FrameKeepsInv(s, id); }
    case OpenNext => if s.opening.Some? { OpenKeepsInv(s); }
    case Complete(id) => if s.opening.None? { DeleteKeepsInv(s, id); }
    case Check(c) =>
      if c in s.locking && s.opening.None? {
        AcceptKeepsInv(s.(locking := s.locking - {c}));
      }
    case _ =>
  }

  lemma InitialInv(first: int, maxNum: nat)
    requires 0 <= first < 4 && maxNum <= MAX_STREAM_COUNT
    ensures Inv(Initial(first, maxNum))
  {
    FirstCredit(first, maxNum);
  }

  lemma {:induction false} RunKeepsInv(first: int, maxNum: nat, es: seq<Event>)
    requires 0 <= first < 4 && maxNum <= MAX_STREAM_COUNT
    ensures var s := Run(first, maxNum, es); Inv(s) && s.first == first && s.maxNum == maxNum
  {
    hide Inv, Step;
    if es == [] {
      InitialInv(first, maxNum);
    } else {
      RunKeepsInv(first, maxNum, es[..|es| - 1]);
      StepKeepsInv(Run(first, maxNum, es[..|es| - 1]), es[|es| - 1]);
    }
  }

  /** In every interleaving, with any number of calls: the streams are accepted in order, from the first one;
      those that are not accepted yet are there; the open streams and those that the peer may still open
      never exceed the configured number, and equal it until stream numbers run out; and each limit
      advertised is one larger than the one before. */
  lemma CreditAndOrder(first: int, maxNum: nat, es: seq<Event>)
    requires 0 <= first < 4 && maxNum <= MAX_STREAM_COUNT
    ensures var s := Run(first, maxNum, es);
            && (forall i | 0 <= i < |s.accepted| :: s.accepted[i] == first + 4 * i)
            && (forall id | OfType(first, id) && first + 4 * |s.accepted| <= id < s.open :: id in s.streams)
            && |s.streams| + Credit(s.newNum, s.maxStream) <= maxNum
            && (|s.streams| + Credit(s.newNum, s.maxStream) == maxNum
                <==> s.newNum + 4 * (maxNum - |s.streams|) - 4 <= MAX_STREAM_ID)
            && (forall i | 0 <= i < |s.limits| :: s.limits[i] == maxNum + i + 1)
            && s.maxStream == StreamID(first, maxNum + |s.limits|) <= MAX_STREAM_ID
  {
    hide Credit, Run;
    RunKeepsInv(first, maxNum, es);
  }

  /** The streams that were completed after they had been opened. */
  ghost function Completed(first: int, maxNum: nat, es: seq<Event>): set<int> {
    if es == [] then {}
    else
      var before, e := es[..|es| - 1], es[|es| - 1];
      var s := Run(first, maxNum, before);
      Completed(first, maxNum, before)
        + if e.Complete? && s.opening.None? && OfType(first, e.id) && e.id < s.open then {e.id} else {}
  }

  /** The streams in the map are those that were opened, except for those that are both accepted and completed; they
      are marked once they are completed. */
  ghost predicate Stays(first: int, streams: map<int, bool>, accept: int, open: int, done: set<int>) {
    && (forall id | OfType(first, id) && id < open :: id in streams <==> !(id < accept && id in done))
    && (forall id | id in streams :: id < accept || (streams[id] <==> id in done))
    && (forall id | id in done :: id < open)
  }

  lemma StaysSame(s: State, t: State, done: set<int>)
    requires Stays(s.first, s.streams, s.accept, s.newNum, done)
    requires t.first == s.first && t.streams == s.streams && t.accept == s.accept && t.newNum == s.newNum
    ensures Stays(t.first, t.streams, t.accept, t.newNum, done)
  {
  }

  lemma OpenStays(first: int, streams: map<int, bool>, accept: int, open: int, done: set<int>)
    requires MapOk(first, streams, accept, open) && Stays(first, streams, accept, open, done)
    ensures Stays(first, streams[open := false], accept, open + 4, done)
  {
    hide OfType;
    forall id | OfType(first, id) && open < id < open + 4 ensures false {
      NextOfType(first, open, id);
    }
  }

  lemma DeleteStays(s: State, id: int, done: set<int>)
    requires Inv(s) && s.opening.None? && Stays(s.first, s.streams, s.accept, s.newNum, done)
    ensures var t := DeleteStep(s, id).0;
            && t.accept == s.accept && t.newNum == s.newNum
            && Stays(s.first, t.streams, s.accept, s.newNum,
                     done + if OfType(s.first, id) && id < s.open then {id} else {})
  {
    hide CreditOk, LimitsOk, AcceptedOk, OfType, Capped;
  }

  lemma AcceptStays(s: State, done: set<int>)
    requires Inv(s) && s.opening.None? && Stays(s.first, s.streams, s.accept, s.newNum, done)
    ensures var t := AcceptStep(s).0; Stays(s.first, t.streams, t.accept, t.newNum, done)
  {
    hide CreditOk, LimitsOk, AcceptedOk, OfType, Capped;
    forall id | OfType(s.first, id) && s.accept < id < s.accept + 4 ensures false {
      NextOfType(s.first, s.accept, id);
    }
  }

  lemma {:induction false} RunStays(first: int, maxNum: nat, es: seq<Event>)
    requires 0 <= first < 4 && maxNum <= MAX_STREAM_COUNT
    ensures var s := Run(first, maxNum, es);
            Stays(first, s.streams, s.accept, s.newNum, Completed(first, maxNum, es))
  {
    hide Inv, Stays, AcceptStep, DeleteStep, OfType;
    if es == [] {
      NothingStays(first, maxNum);
    } else {
      var n := |es| - 1;
      var s, e, done := Run(first, maxNum, es[..n]), es[n], Completed(first, maxNum, es[..n]);
      RunStays(first, maxNum, es[..n]);
      RunKeepsInv(first, maxNum, es[..n]);
      StepStays(s, e, done);
    }
  }

  lemma StepStays(s: State, e: Event, done: set<int>)
    requires Inv(s) && Stays(s.first, s.streams, s.accept, s.newNum, done)
    ensures var t := Step(s, e);
            Stays(s.first, t.streams, t.accept, t.newNum,
                  done + if e.Complete? && s.opening.None? && OfType(s.first, e.id) && e.id < s.open then {e.id}
                         else {})
  {
    hide MapOk, CreditOk, LimitsOk, AcceptedOk, Stays, AcceptStep, DeleteStep, OfType;
    assert done + {} == done;
    match e
    case OpenNext => if s.opening.Some? { OpenStays(s.first, s.streams, s.accept, s.newNum, done); }
    case Complete(id) => if s.opening.None? { DeleteStays(s, id, done); }
    case Check(c) =>
      if c in s.locking && s.opening.None? {
        AcceptStays(s.(locking := s.locking - {c}), done);
      }
    case Frame(id) => StaysSame(s, FrameStep(s, id), done);
    case _ =>
  }

  lemma NothingStays(first: int, maxNum: nat)
    ensures Stays(first, map[], first, first, {})
  {
  }

  lemma AcceptedBelow(first: int, accept: int, accepted: seq<int>, id: int)
    requires AcceptedOk(first, accept, accepted) && OfType(first, id)
    ensures id in accepted <==> id < accept
  {
    if id < accept {
      assert accepted[(id - first) / 4] == id;
    }
  }

  /** In every interleaving: a stream that was opened is in the map, and counts against the limit, until it is both
      accepted and completed, in either order. */
  lemma GoneExactly(first: int, maxNum: nat, es: seq<Event>, id: int)
    requires 0 <= first < 4 && maxNum <= MAX_STREAM_COUNT && OfType(first, id)
    ensures var s := Run(first, maxNum, es);
            id in s.streams <==> id < s.newNum && !(id in s.accepted && id in Completed(first, maxNum, es))
  {
    hide Run, Completed, OfType, CreditOk, LimitsOk;
    RunKeepsInv(first, maxNum, es);
    RunStays(first, maxNum, es);
    var s := Run(first, maxNum, es);
    AcceptedBelow(first, s.accept, s.accepted, id);
  }

  // The number of streams that can be accepted.
  function Available(s: State): int {
    (s.newNum - s.accept) / 4
  }

  /** No call waits for a stream that is left for it without a value in the channel: streams that the
      calls about to look will not take. */
  ghost predicate Awake(s: State) {
    s.waiting != {} && Available(s) > |s.locking| ==> s.chan
  }

  /** A call takes the only wakeup from others that could use it. */
  ghost predicate TakesWakeup(s: State, e: Event) {
    && s.chan && Available(s) > |s.locking| + 1
    && ((e.Receive? && e.caller in s.waiting && s.waiting != {e.caller})
        || (e.Call? && e.caller !in s.locking && e.caller !in s.waiting && s.waiting != {}))
  }

  /** That is the only way in which a wakeup is lost. */
  lemma LosesWakeup(s: State, e: Event)
    requires Inv(s) && Awake(s)
    ensures !Awake(Step(s, e)) <==> TakesWakeup(s, e)
  {
    hide Inv, Awake, Step;
    match e
    case Check(c) => CheckKeepsAwake(s, c);
    case Receive(c) => ReceiveAwake(s, c);
    case Call(c) => CallAwake(s, c);
    case _ => OtherKeepsAwake(s, e);
  }

  lemma ReceiveAwake(s: State, c: nat)
    requires Inv(s) && Awake(s)
    ensures !Awake(Step(s, Receive(c))) <==> TakesWakeup(s, Receive(c))
  {
    hide CreditOk, LimitsOk, AcceptedOk, MapOk, Available;
    AvailableSame(s, Step(s, Receive(c)));
    if c in s.waiting && s.chan {
      assert c !in s.locking && |s.locking + {c}| == |s.locking| + 1;
      assert s.waiting - {c} == {} <==> s.waiting == {c};
    }
  }

  lemma CallAwake(s: State, c: nat)
    requires Inv(s) && Awake(s)
    ensures !Awake(Step(s, Call(c))) <==> TakesWakeup(s, Call(c))
  {
    hide CreditOk, LimitsOk, AcceptedOk, MapOk, Available;
    AvailableSame(s, Step(s, Call(c)));
    if c !in s.locking && c !in s.waiting {
      assert |s.locking + {c}| == |s.locking| + 1;
    }
  }

  lemma OtherKeepsAwake(s: State, e: Event)
    requires Inv(s) && Awake(s) && (e.Frame? || e.OpenNext? || e.Complete? || e.Cancel?)
    ensures Awake(Step(s, e))
  {
    hide CreditOk, LimitsOk, AcceptedOk, MapOk, Available, DeleteStep;
    if e.Complete? {
      DeleteKeepsPlaces(s, e.id);
    }
    if !e.OpenNext? {
      AvailableSame(s, Step(s, e));
    }
  }

  // A call that takes a stream, or finds none, leaves as many wakeups as there were.
  lemma CheckKeepsAwake(s: State, c: nat)
    requires Inv(s) && Awake(s)
    ensures Awake(Step(s, Check(c)))
  {
    hide CreditOk, LimitsOk, AcceptedOk, AcceptStep, MapOk, Available;
    if c in s.locking && s.opening.None? {
      var t := Step(s, Check(c));
      AcceptKeepsInv(s.(locking := s.locking - {c}));
      AvailableMeans(s);
      AvailableLess(s, t);
      assert |s.locking - {c}| == |s.locking| - 1;
    }
  }

  lemma AvailableSame(s: State, t: State)
    requires t.newNum == s.newNum && t.accept == s.accept
    ensures Available(t) == Available(s)
  {
  }

  lemma AvailableLess(s: State, t: State)
    requires t.newNum == s.newNum
    ensures t.accept == s.accept ==> Available(t) == Available(s)
    ensures t.accept == s.accept + 4 ==> Available(t) == Available(s) - 1
  {
  }

  lemma AvailableMeans(s: State)
    requires Inv(s)
    ensures Available(s) >= 0 && (Available(s) > 0 <==> s.accept < s.newNum)
    ensures s.newNum == s.accept + 4 * Available(s)
  {
    hide CreditOk, LimitsOk, AcceptedOk, OfType;
    Quarter(s.first, s.accept, s.newNum);
  }

  lemma Quarter(first: int, a: int, n: int)
    requires OfType(first, a) && OfType(first, n) && a <= n
    ensures n == a + 4 * ((n - a) / 4)
  {
    var i, j := (a - first) / 4, (n - first) / 4;
    assert a == first + 4 * i && n == first + 4 * j;
  }

  lemma DeleteKeepsPlaces(s: State, id: int)
    ensures var t := DeleteStep(s, id).0;
            t.newNum == s.newNum && t.accept == s.accept && t.locking == s.locking && t.waiting == s.waiting
              && t.chan == s.chan
  {
  }

  // In every state before an event, nobody takes a wakeup from others.
  ghost predicate Considerate(first: int, maxNum: nat, es: seq<Event>) {
    forall i | 0 <= i < |es| :: !TakesWakeup(Run(first, maxNum, es[..i]), es[i])
  }

  lemma {:induction false} ConsiderateAwake(first: int, maxNum: nat, es: seq<Event>)
    requires 0 <= first < 4 && maxNum <= MAX_STREAM_COUNT && Considerate(first, maxNum, es)
    ensures Awake(Run(first, maxNum, es))
  {
    hide Awake, TakesWakeup, Step;
    var n := |es| - 1;
    if es == [] {
      assert Awake(Initial(first, maxNum)) by { NobodyWaits(first, maxNum); }
    } else {
      forall i | 0 <= i < n ensures !TakesWakeup(Run(first, maxNum, es[..n][..i]), es[..n][i]) {
        assert es[..n][..i] == es[..i];
        assert !TakesWakeup(Run(first, maxNum, es[..i]), es[i]);
      }
      ConsiderateAwake(first, maxNum, es[..n]);
      RunKeepsInv(first, maxNum, es[..n]);
      LosesWakeup(Run(first, maxNum, es[..n]), es[n]);
    }
  }

  lemma NobodyWaits(first: int, maxNum: nat)
    ensures Awake(Initial(first, maxNum))
  {
  }

  // All calls of AcceptStream are made by one caller, one after the other.
  ghost predicate OneCaller(es: seq<Event>, caller: nat) {
    forall i | 0 <= i < |es| && es[i].Call? :: es[i].caller == caller
  }

  lemma {:induction false} OneCallerOnly(first: int, maxNum: nat, es: seq<Event>, caller: nat)
    requires 0 <= first < 4 && maxNum <= MAX_STREAM_COUNT && OneCaller(es, caller)
    ensures var s := Run(first, maxNum, es); s.locking <= {caller} && s.waiting <= {caller}
  {
    hide AcceptStep, DeleteStep;
    if es != [] {
      var n := |es| - 1;
      OneCallerOnly(first, maxNum, es[..n], caller);
      RunKeepsInv(first, maxNum, es[..n]);
      var s := Run(first, maxNum, es[..n]);
      if es[n].Check? && es[n].caller in s.locking && s.opening.None? {
        AcceptKeepsInv(s.(locking := s.locking - {es[n].caller}));
      } else if es[n].Complete? {
        DeleteKeepsPlaces(s, es[n].id);
      }
    }
  }

  /** With one caller, no wakeup is ever lost. */
  lemma OneCallerAwake(first: int, maxNum: nat, es: seq<Event>, caller: nat)
    requires 0 <= first < 4 && maxNum <= MAX_STREAM_COUNT && OneCaller(es, caller)
    ensures Awake(Run(first, maxNum, es))
    ensures var s := Run(first, maxNum, es);
            caller in s.waiting && s.accept < s.newNum ==> s.chan
  {
    forall i | 0 <= i < |es| ensures !TakesWakeup(Run(first, maxNum, es[..i]), es[i]) {
      OneCallerOnly(first, maxNum, es[..i], caller);
      assert es[i].Call? ==> es[i].caller == caller;
    }
    hide Run, TakesWakeup;
    ConsiderateAwake(first, maxNum, es);
    OneCallerOnly(first, maxNum, es, caller);
    RunKeepsInv(first, maxNum, es);
    var s := Run(first, maxNum, es);
    AvailableMeans(s);
    if caller in s.waiting {
      assert s.locking == {};
    }
  }

  const TWO_CALLS := [Call(0), Check(0), Call(1), Check(1), Frame(4), OpenNext, OpenNext, Receive(0), Check(0)]

  /** Two calls of AcceptStream can share one wakeup: two streams arrive, and one of the calls keeps
      waiting although its stream is there. */
  lemma TwoCallsShareWakeup()
    ensures var s := Run(0, 2, TWO_CALLS);
            s.waiting == {1} && s.locking == {} && !s.chan && s.accepted == [0] && s.accept in s.streams
  {
    hide Step, Run;
    var s4 := TwoCallsWait();
    var s7 := s4.(streams := map[0 := false, 4 := false], open := 8, newNum := 8, chan := true);
    assert Run(0, 2, TWO_CALLS[..7]) == s7 by { TwoStreamsOpen(s4); }
    RunNext(0, 2, TWO_CALLS, 7);
    RunNext(0, 2, TWO_CALLS, 8);
    OneAccepted(s7);
    assert TWO_CALLS[..9] == TWO_CALLS;
  }

  lemma RunNext(first: int, maxNum: nat, es: seq<Event>, i: nat)
    requires i < |es|
    ensures Run(first, maxNum, es[..i + 1]) == Step(Run(first, maxNum, es[..i]), es[i])
  {
    hide Step;
    assert es[..i + 1][..i] == es[..i];
  }

  lemma TwoCallsWait() returns (s: State)
    ensures s == Initial(0, 2).(waiting := {0, 1}) == Run(0, 2, TWO_CALLS[..4])
  {
    hide Run, Step;
    var s0 := Initial(0, 2);
    assert Run(0, 2, TWO_CALLS[..0]) == s0 by { RunNothing(0, 2); }
    RunNext(0, 2, TWO_CALLS, 0);
    RunNext(0, 2, TWO_CALLS, 1);
    CallWaits(s0, 0);
    var s2 := s0.(waiting := {0});
    assert {} + {0} == {0};
    RunNext(0, 2, TWO_CALLS, 2);
    RunNext(0, 2, TWO_CALLS, 3);
    CallWaits(s2, 1);
    s := s0.(waiting := {0, 1});
    assert {0} + {1} == {0, 1};
  }

  lemma CallWaits(s: State, c: nat)
    requires c !in s.waiting && s.locking == {} && s.opening.None? && s.accept !in s.streams
    ensures Step(Step(s, Call(c)), Check(c)) == s.(chan := false, waiting := s.waiting + {c})
  {
    assert {} + {c} - {c} == {};
  }

  lemma RunNothing(first: int, maxNum: nat)
    ensures Run(first, maxNum, []) == Initial(first, maxNum)
  {
  }

  lemma TwoStreamsOpen(s4: State)
    requires s4 == Initial(0, 2).(waiting := {0, 1}) == Run(0, 2, TWO_CALLS[..4])
    ensures Run(0, 2, TWO_CALLS[..7]) == s4.(streams := map[0 := false, 4 := false], open := 8, newNum := 8,
                                             chan := true)
  {
    hide Run, AcceptStep, DeleteStep;
    RunNext(0, 2, TWO_CALLS, 4);
    var s5 := Step(s4, Frame(4));
    assert s5 == s4.(opening := Some(4), newNum := 0);
    RunNext(0, 2, TWO_CALLS, 5);
    var s6 := Step(s5, OpenNext);
    assert s6 == s4.(streams := map[0 := false], opening := Some(4), newNum := 4, chan := true);
    RunNext(0, 2, TWO_CALLS, 6);
    assert map[0 := false][4 := false] == map[0 := false, 4 := false];
  }

  lemma OneAccepted(s7: State)
    requires s7 == Initial(0, 2).(waiting := {0, 1}, streams := map[0 := false, 4 := false], open := 8, newNum := 8,
                                  chan := true)
    ensures var s := Step(Step(s7, Receive(0)), Check(0));
            s.waiting == {1} && s.locking == {} && !s.chan && s.accepted == [0] && s.accept in s.streams
  {
    hide Remove;
    var s8 := Step(s7, Receive(0));
    assert s8 == s7.(chan := false, waiting := {0, 1} - {0}, locking := {} + {0});
    assert {0, 1} - {0} == {1};
  }
}
