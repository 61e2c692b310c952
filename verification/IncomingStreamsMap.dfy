/** The map of streams that the peer opens, changed in place.  A method is one section that holds the lock,
    or one operation on the channel. */
module IncomingMap {
  import opened StreamBytes
  import opened StreamNumbers
  import opened IncomingStreams

  /** The rest of the loop that opens streams, without interruption. */
  function OpenTo(s: State): State
    decreases if s.opening.Some? then s.opening.value - s.newNum + 4 else 0
  {
    if s.opening.None? then s else if s.newNum > s.opening.value then s else OpenTo(OpenStep(s))
  }

  /** The streams from one ID up to another one have been opened. */
  ghost predicate Opened(first: int, before: map<int, bool>, after: map<int, bool>, from: int, to: int) {
    && (forall id :: id in after <==> id in before || (OfType(first, id) && from <= id < to))
    && (forall id | id in after :: after[id] == (id in before && before[id]))
  }

  lemma OpenedMore(first: int, before: map<int, bool>, streams: map<int, bool>, from: int, to: int)
    requires Opened(first, before, streams, from, to) && OfType(first, from) && OfType(first, to) && from <= to
             && to !in streams
    ensures Opened(first, before, streams[to := false], from, to + 4)
  {
    hide OfType;
    forall id ensures OfType(first, id) && from <= id < to + 4 <==> (OfType(first, id) && from <= id < to) || id == to {
      if OfType(first, id) {
        NextOfType(first, to, id);
      }
    }
  }

  lemma OpenedNone(first: int, streams: map<int, bool>, from: int)
    ensures Opened(first, streams, streams, from, from)
  {
  }

  /** The loop opens all streams up to the one that is wanted, and signals the channel. */
  lemma {:induction false} OpenToOpens(s: State, before: map<int, bool>)
    requires Inv(s) && s.opening.Some? && Opened(s.first, before, s.streams, s.open, s.newNum)
    ensures var t := OpenTo(s);
            && Inv(t) && t.opening.None? && t.open == t.newNum == s.opening.value + 4 && t.chan
            && Opened(s.first, before, t.streams, s.open, t.open)
            && t == s.(streams := t.streams, open := t.open, opening := None, newNum := t.newNum, chan := true)
    decreases s.opening.value - s.newNum + 4
  {
    hide Inv, Opened;
    OpenKeepsInv(s);
    OpeningFacts(s);
    OpenedMore(s.first, before, s.streams, s.open, s.newNum);
    var t := OpenStep(s);
    if t.opening.Some? {
      OpenToOpens(t, before);
    } else {
      OpeningDone(s);
    }
  }

  lemma OpeningFacts(s: State)
    requires Inv(s) && s.opening.Some?
    ensures OfType(s.first, s.open) && OfType(s.first, s.newNum) && s.open <= s.newNum <= s.opening.value
            && s.newNum !in s.streams
  {
    hide CreditOk, LimitsOk, AcceptedOk, OfType;
  }

  lemma OpeningDone(s: State)
    requires Inv(s) && s.opening.Some? && OpenStep(s).opening.None?
    ensures s.newNum + 4 == s.opening.value + 4
  {
    hide CreditOk, LimitsOk, AcceptedOk, OfType;
    TypeSteps(s.first, s.newNum, s.opening.value);
    NextOfType(s.first, s.newNum, s.opening.value);
  }

  class IncomingStreamsMap {
    const first: int
    const maxNumStreams: nat
    var streams: map<int, bool>
    var nextStreamToAccept: int
    var nextStreamToOpen: int
    var maxStream: int
    var newStreamChan: bool
    var maxStreamsFrames: seq<int>
    ghost var locking: set<nat>
    ghost var waiting: set<nat>
    ghost var accepted: seq<int>

    ghost function Now(): State
      reads this
    {
      State(first, maxNumStreams, streams, nextStreamToAccept, nextStreamToOpen, None, nextStreamToOpen, maxStream,
            newStreamChan, locking, waiting, maxStreamsFrames, accepted)
    }

    ghost predicate Valid()
      reads this
    {
      Inv(Now())
    }

    constructor (first: int, maxStreams: nat)
      requires 0 <= first < 4 && maxStreams <= MAX_STREAM_COUNT
      ensures Valid() && Now() == Initial(first, maxStreams)
    {
      this.first, maxNumStreams := first, maxStreams;
      streams, nextStreamToAccept, nextStreamToOpen, maxStream := map[], first, first, StreamID(first, maxStreams);
      newStreamChan, maxStreamsFrames, locking, waiting, accepted := false, [], {}, {}, [];
      InitialInv(first, maxStreams);
    }

    /** The stream that a frame belongs to.  The peer opens it, and all before it, unless that is over
        the limit. */
    method GetOrOpenStream(id: int) returns (r: Lookup)
      requires Valid() && OfType(first, id)
      modifies this`streams, this`nextStreamToOpen, this`newStreamChan
      ensures Valid() && Now() == OpenTo(FrameStep(old(Now()), id))
      ensures r == StreamLimitError <==> id > maxStream
      ensures id <= maxStream ==> r == if id in streams && !streams[id] then Stream(id) else Gone
      ensures nextStreamToOpen == if old(nextStreamToOpen) <= id <= maxStream then id + 4 else old(nextStreamToOpen)
      ensures Opened(first, old(streams), streams, old(nextStreamToOpen), nextStreamToOpen)
      ensures newStreamChan == (old(newStreamChan) || nextStreamToOpen != old(nextStreamToOpen))
    {
      hide Inv, OfType;
      OpenedNone(first, streams, nextStreamToOpen);
      StreamsBelow(Now());
      if id > maxStream {
        return StreamLimitError;
      }
      if id < nextStreamToOpen {
        if id in streams && !streams[id] {
          return Stream(id);
        }
        return Gone;
      }
      FrameKeepsInv(Now(), id);
      OpenToOpens(FrameStep(Now(), id), streams);
      OpenLoop(id);
      r := Stream(id);
    }

    // The streams from the next one up to the given one are opened.
    method OpenLoop(id: int)
      requires Inv(FrameStep(Now(), id)) && OfType(first, id) && nextStreamToOpen <= id <= maxStream
      modifies this`streams, this`nextStreamToOpen, this`newStreamChan
      ensures Now() == OpenTo(FrameStep(old(Now()), id))
    {
      hide Inv, OfType;
      ghost var start := FrameStep(Now(), id);
      var newNum := nextStreamToOpen;
      ghost var s := start;
      while newNum <= id
        invariant nextStreamToOpen == old(nextStreamToOpen)
        invariant s.opening == (if newNum <= id then Some(id) else None) && s.newNum == newNum
        invariant Inv(s) && OpenTo(s) == OpenTo(start)
        invariant s == Now().(opening := s.opening, open := s.open, newNum := newNum)
        invariant s.open == if newNum <= id then nextStreamToOpen else id + 4
        invariant newNum > id ==> newNum == id + 4
      {
        OpenKeepsInv(s);
        if OpenStep(s).opening.None? {
          OpeningDone(s);
        }
        s := OpenStep(s);
        streams := streams[newNum := false];
        newStreamChan := true;
        newNum := newNum + 4;
      }
      nextStreamToOpen := id + 4;
    }

    /** A completed stream is deleted once it is accepted; then the peer may open another one. */
    method DeleteStream(id: int) returns (err: Option<DeleteError>)
      requires Valid()
      modifies this`streams, this`maxStream, this`maxStreamsFrames
      ensures Valid() && (Now(), err) == DeleteStep(old(Now()), id)
      ensures err == if id !in old(streams) then Some(UnknownStream)
                     else if id >= nextStreamToAccept && old(streams)[id] then Some(DeletedBefore)
                     else None
    {
      hide Inv, Capped;
      DeleteKeepsInv(Now(), id);
      if id !in streams {
        return Some(UnknownStream);
      }
      if id >= nextStreamToAccept {
        if streams[id] {
          return Some(DeletedBefore);
        }
        streams := streams[id := true];
        return None;
      }
      RemoveStream(id);
      err := None;
    }

    method RemoveStream(id: int)
      modifies this`streams, this`maxStream, this`maxStreamsFrames
      ensures Now() == Remove(old(Now()), id)
    {
      streams := streams - {id};
      if maxNumStreams > |streams| {
        var newMax := nextStreamToOpen + 4 * (maxNumStreams - |streams| - 1);
        if newMax <= MAX_STREAM_ID {
          maxStream := newMax;
          maxStreamsFrames := maxStreamsFrames + [StreamNum(maxStream)];
        }
      }
    }

    /** The start of AcceptStream. */
    method DrainChannel(ghost caller: nat)
      requires Valid() && caller !in locking && caller !in waiting
      modifies this`newStreamChan, this`locking
      ensures Valid() && Now() == Step(old(Now()), Call(caller))
    {
      hide Inv;
      StepKeepsInv(Now(), Call(caller));
      newStreamChan := false;
      locking := locking + {caller};
    }

    /** Accept the next stream, if it exists; otherwise the call waits. */
    method TryAccept(ghost caller: nat) returns (id: Option<int>)
      requires Valid() && caller in locking
      modifies this`streams, this`nextStreamToAccept, this`maxStream, this`maxStreamsFrames, this`accepted,
               this`locking, this`waiting
      ensures Valid() && Now() == Step(old(Now()), Check(caller))
      ensures id == if old(nextStreamToAccept < nextStreamToOpen) then Some(old(nextStreamToAccept)) else None
      ensures accepted == old(accepted) + if id.Some? then [id.value] else []
    {
      hide Inv, Remove;
      StepKeepsInv(Now(), Check(caller));
      AcceptKeepsInv(Now());
      locking := locking - {caller};
      if nextStreamToAccept !in streams {
        waiting := waiting + {caller};
        return None;
      }
      var next := nextStreamToAccept;
      var shouldDelete := streams[next];
      nextStreamToAccept := nextStreamToAccept + 4;
      accepted := accepted + [next];
      if shouldDelete {
        RemoveStream(next);
      }
      return Some(next);
    }

    /** A call that waits is woken. */
    method ReceiveSignal(ghost caller: nat)
      requires Valid() && caller in waiting && newStreamChan
      modifies this`newStreamChan, this`locking, this`waiting
      ensures Valid() && Now() == Step(old(Now()), Receive(caller))
    {
      hide Inv;
      StepKeepsInv(Now(), Receive(caller));
      newStreamChan := false;
      waiting, locking := waiting - {caller}, locking + {caller};
    }
  }

  lemma StreamsBelow(s: State)
    requires Inv(s) && s.opening.None?
    ensures forall id | id in s.streams :: id < s.open
  {
    hide CreditOk, LimitsOk, AcceptedOk, OfType;
  }
}
