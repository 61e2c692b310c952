/** The invariant of a sending stream, and why every operation keeps it. */
module SendInvariant {
  import opened StreamBytes
  import opened Wire
  import opened FrameLedger
  import opened SendLedger
  import opened SendStates

  // Where the RESET_STREAM frame is.
  datatype ResetPlace = NoReset | Queued | InFlight | Acknowledged

  /** What has happened to the stream, as far as its state does not tell. */
  datatype History = History(
    stream: seq<Byte>,  // everything accepted by Write
    inFlight: seq<StreamFrame>,
    acked: seq<StreamFrame>,
    resetPlace: ResetPlace,
    completions: nat)  // how often completion was reported

  const NO_HISTORY := History([], [], [], NoReset, 0)

  ghost predicate Inv(s: State, h: History) {
    && BufferOk(s)
    && h.completions == (if s.completed then 1 else 0)
    && if s.resetErr.None? then Active(s, h) else Reset(s, h)
  }

  ghost predicate BufferOk(s: State) {
    && (s.nextFrame.Some? ==>
          && s.nextFrame.value == StreamFrame(s.streamID, s.writeOffset, s.nextFrame.value.data, false, true)
          && 0 < |s.nextFrame.value.data| <= MAX_PACKET_BUFFER_SIZE)
    && (s.writing ==> |s.dataForWriting| <= s.writeLen)
    && (forall i | 0 <= i < |s.queue| :: s.queue[i].dataLenPresent)
  }

  ghost function Where(s: State, h: History): Places {
    Places(h.acked, h.inFlight, s.queue)
  }

  /** Before a reset: the ledger balances, and the stream is completed exactly if the FIN
      has been sent and nothing is outstanding. */
  ghost predicate Active(s: State, h: History) {
    && s.writeOffset <= |h.stream|
    && Placed(h.stream, s.writeOffset, s.finSent, Where(s, h))
    && h.stream[s.writeOffset..] == Buffered(s) + s.dataForWriting
    && s.outstanding == |h.inFlight|
    && (!s.writing ==> s.dataForWriting == [])
    && (s.finishedWriting ==> !s.writing)
    && (s.finSent ==> s.finishedWriting && s.nextFrame.None?)
    && (s.completed <==> s.finSent && h.inFlight == [] && s.queue == [])
    && s.queuedReset.None? && h.resetPlace == NoReset
  }

  // The application knows that the stream has ended.
  predicate Aware(s: State) {
    s.finSent || s.cancellationFlagged || s.finishedWriting
  }

  /** After a reset: the RESET_STREAM frame is in exactly one place, and only it counts as
      outstanding. */
  ghost predicate Reset(s: State, h: History) {
    && s.resetErr.Some?
    && h.resetPlace != NoReset
    && s.queue == []
    && s.outstanding == (if h.resetPlace == InFlight then 1 else 0)
    && s.queuedReset == (if h.resetPlace == Queued
                         then Some(ResetStreamFrame(s.streamID, s.resetErr.value, s.writeOffset)) else None)
    && (h.resetPlace == Acknowledged && s.nextFrame.None? && Aware(s) ==> s.completed)
  }

  function Counted(h: History, newly: bool): History {
    h.(completions := h.completions + if newly then 1 else 0)
  }

  lemma InitialInv(streamID: nat)
    ensures Inv(Initial(streamID), NO_HISTORY)
  {
  }

  // What Write accepts.
  function Accepted(s: State, p: seq<Byte>): seq<Byte> {
    if s.resetErr.None? && !s.finishedWriting then p else []
  }

  lemma WriteKeeps(s: State, h: History, p: seq<Byte>)
    requires Inv(s, h) && !s.writing
    ensures var w := WriteStep(s, p);
            Inv(w.s, Counted(h.(stream := h.stream + Accepted(s, p)), w.newly))
    ensures s.resetErr.None? ==> !WriteStep(s, p).newly
  {
    hide Placed;
    assert h.stream + [] == h.stream;
    if s.resetErr.None? && !s.finishedWriting && p != [] {
      BeginWriteKeeps(s, h, p);
      ResumeKeeps(s.(dataForWriting := p, writing := true, writeLen := |p|), h.(stream := h.stream + p));
    }
  }

  lemma BeginWriteKeeps(s: State, h: History, p: seq<Byte>)
    requires Inv(s, h) && !s.writing && s.resetErr.None? && !s.finishedWriting
    ensures Inv(s.(dataForWriting := p, writing := true, writeLen := |p|), h.(stream := h.stream + p))
  {
    StreamGrows(h.stream, p, s.writeOffset, s.finSent, Where(s, h));
    hide Placed;
    assert (h.stream + p)[s.writeOffset..] == h.stream[s.writeOffset..] + p;
  }

  lemma StreamGrows(stream: seq<Byte>, p: seq<Byte>, writeOffset: nat, finSent: bool, places: Places)
    requires Placed(stream, writeOffset, finSent, places) && !finSent
    ensures Placed(stream + p, writeOffset, finSent, places)
  {
    forall f: StreamFrame | Sent(stream, writeOffset, finSent, f) ensures Sent(stream + p, writeOffset, finSent, f) {
      assert (stream + p)[f.offset..f.offset + |f.data|] == stream[f.offset..f.offset + |f.data|];
    }
  }

  lemma ResumeKeeps(s: State, h: History)
    requires Inv(s, h) && s.writing
    ensures var w := ResumeStep(s);
            Inv(w.s, Counted(h, w.newly)) && (s.resetErr.None? ==> !w.newly)
  {
    hide Placed;
    if s.resetErr.None? && CanBuffer(s) && s.dataForWriting != [] {
      assert Buffered(s.(nextFrame := Fill(s))) == Buffered(s) + s.dataForWriting;
    }
  }

  lemma CloseKeeps(s: State, h: History)
    requires Inv(s, h) && !s.writing
    ensures var (t, newly) := CloseStep(s); Inv(t, Counted(h, newly))
  {
    hide Placed;
  }

  lemma PopKeeps(s: State, h: History, maxBytes: int, window: nat, newlyBlocked: bool)
    requires Inv(s, h) && maxBytes <= MAX_BUDGET
    ensures var r := PopStep(s, maxBytes, window, newlyBlocked);
            Inv(r.s, h.(inFlight := h.inFlight + if r.frame.Some? then [r.frame.value] else []))
  {
    hide Placed, RetransmitStep, NewStep;
    assert h.inFlight + [] == h.inFlight;
    if s.resetErr.None? {
      if s.queue != [] {
        RetransmitKeeps(s, h, maxBytes);
      } else if s.dataForWriting == [] && s.nextFrame.None? {
        if s.finishedWriting && !s.finSent {
          SendNew(h.stream, s.writeOffset, s.finSent, Where(s, h),
                  StreamFrame(s.streamID, s.writeOffset, [], true, true));
        }
      } else if window > 0 {
        NewKeeps(s, h, maxBytes, window, newlyBlocked);
      }
    }
  }

  lemma RetransmitKeeps(s: State, h: History, maxBytes: int)
    requires Inv(s, h) && maxBytes <= MAX_BUDGET && s.resetErr.None? && s.queue != []
    ensures var r := RetransmitStep(s, maxBytes);
            Inv(r.s, h.(inFlight := h.inFlight + if r.frame.Some? then [r.frame.value] else []))
  {
    hide Placed, Length, MaxStreamDataLen;
    var f := s.queue[0];
    SmallBudget(f.streamID, f.offset, f.dataLenPresent, maxBytes);
    SplitFits(f, maxBytes);
    assert h.inFlight + [] == h.inFlight;
    match MaybeSplitOffFrame(f, maxBytes)
    case TooSmall =>
    case Whole =>
      SendQueued(h.stream, s.writeOffset, s.finSent, Where(s, h));
    case Parts(first, rest) =>
      SendPart(h.stream, s.writeOffset, s.finSent, Where(s, h), first, rest);
  }

  lemma NewKeeps(s: State, h: History, maxBytes: int, window: nat, newlyBlocked: bool)
    requires Inv(s, h) && s.resetErr.None? && s.queue == [] && (s.nextFrame.Some? || s.dataForWriting != [])
    ensures var r := NewStep(s, maxBytes, window, newlyBlocked);
            Inv(r.s, h.(inFlight := h.inFlight + if r.frame.Some? then [r.frame.value] else []))
    ensures NewStep(s, maxBytes, window, newlyBlocked).s.writeOffset <= s.writeOffset + window
  {
    hide Placed, Amount;
    assert h.inFlight + [] == h.inFlight;
    var n := Amount(s, maxBytes, window);
    AmountBound(s, maxBytes, window);
    if n > 0 {
      SendNewKeeps(s, h, n);
    }
  }

  lemma AmountBound(s: State, maxBytes: int, window: nat)
    ensures Amount(s, maxBytes, window) <= Ready(s) && Amount(s, maxBytes, window) <= window
  {
  }

  lemma SendNewKeeps(s: State, h: History, n: nat)
    requires Inv(s, h) && s.resetErr.None? && s.queue == [] && (s.nextFrame.Some? || s.dataForWriting != [])
    requires 0 < n <= Ready(s)
    ensures Inv(SentNew(s, n), h.(inFlight := h.inFlight + [NewFrame(s, n)]))
  {
    hide Placed, IsSlice, Taken;
    var rest := Buffered(s) + s.dataForWriting;
    TakenKeeps(s, n);
    assert rest == rest[..n] + rest[n..];
    TakeFromStream(h.stream, s.writeOffset, rest, rest[..n], rest[n..]);
    SendNew(h.stream, s.writeOffset, s.finSent, Where(s, h), NewFrame(s, n));
  }

  lemma TakenKeeps(s: State, n: nat)
    requires BufferOk(s) && 0 < n <= Ready(s)
    ensures var t := Taken(s, n);
            && (Buffered(s) + s.dataForWriting)[n..] == Buffered(t) + t.dataForWriting
            && BufferOk(t.(writeOffset := s.writeOffset + n))
            && t == s.(nextFrame := t.nextFrame, dataForWriting := t.dataForWriting)
            && (s.dataForWriting == [] ==> t.dataForWriting == [])
            && (Buffered(t) == [] <==> t.nextFrame.None?)
  {
    var rest := Buffered(s) + s.dataForWriting;
    if s.nextFrame.Some? {
      var data := s.nextFrame.value.data;
      assert rest[n..] == data[n..] + s.dataForWriting;
      assert Buffered(Taken(s, n)) == data[n..];
    } else {
      assert rest == s.dataForWriting;
      assert Buffered(Taken(s, n)) == [];
    }
  }

  lemma TakeFromStream(stream: seq<Byte>, writeOffset: nat, rest: seq<Byte>, data: seq<Byte>, rest': seq<Byte>)
    requires writeOffset <= |stream| && stream[writeOffset..] == rest && rest == data + rest'
    ensures IsSlice(stream, writeOffset, data)
    ensures stream[writeOffset + |data|..] == rest'
    ensures rest' == [] ==> writeOffset + |data| == |stream|
  {
    assert stream[writeOffset..writeOffset + |data|] == rest[..|data|];
    assert stream[writeOffset + |data|..] == rest[|data|..];
  }

  predicate NonEmptyBuffer(nextFrame: Option<StreamFrame>) {
    nextFrame.Some? ==> nextFrame.value.data != []
  }

  lemma NotFinished(s: State, h: History)
    requires Inv(s, h) && s.resetErr.None?
    ensures NonEmptyBuffer(s.nextFrame) && (s.nextFrame.Some? || s.dataForWriting != [] ==> !s.finSent)
  {
    hide Placed;
  }

  // Something is left to be sent.
  predicate Pending(s: State) {
    s.resetErr.None?
      && (s.queue != [] || s.nextFrame.Some? || s.dataForWriting != [] || (s.finishedWriting && !s.finSent))
  }

  /** A frame fits, unless it only carries the FIN; and if no more is announced, nothing is left. */
  lemma PopFacts(s: State, h: History, maxBytes: int, window: nat, newlyBlocked: bool)
    requires Inv(s, h) && maxBytes <= MAX_BUDGET
    ensures var r := PopStep(s, maxBytes, window, newlyBlocked);
            && (r.frame.Some? ==>
                  && r.frame.value.dataLenPresent
                  && (|| Length(r.frame.value) <= maxBytes
                      || (r.frame.value.data == [] && r.frame.value.fin && Length(r.frame.value) <= 18)))
            && (!r.hasMore ==> !Pending(r.s))
  {
    hide Placed, NewStep, RetransmitStep, StreamLen;
    if s.resetErr.None? {
      if s.queue != [] {
        RetransmitFacts(s, maxBytes);
      } else if s.dataForWriting == [] && s.nextFrame.None? {
        FinFrameLength(s.streamID, s.writeOffset);
      } else if window > 0 {
        NewFacts(s, maxBytes, window, newlyBlocked);
      }
    }
  }

  lemma FinFrameLength(streamID: nat, offset: nat)
    ensures StreamLen(streamID, offset, 0, true) <= 18
  {
  }

  lemma RetransmitFacts(s: State, maxBytes: int)
    requires s.queue != [] && maxBytes <= MAX_BUDGET && BufferOk(s)
    ensures var r := RetransmitStep(s, maxBytes);
            r.hasMore && (r.frame.Some? ==> r.frame.value.dataLenPresent && Length(r.frame.value) <= maxBytes)
  {
    hide MaxStreamDataLen, StreamLen;
    var f := s.queue[0];
    SmallBudget(f.streamID, f.offset, f.dataLenPresent, maxBytes);
    SplitFits(f, maxBytes);
  }

  lemma NewFacts(s: State, maxBytes: int, window: nat, newlyBlocked: bool)
    requires BufferOk(s) && maxBytes <= MAX_BUDGET
    ensures var r := NewStep(s, maxBytes, window, newlyBlocked);
            && (r.frame.Some? ==> r.frame.value.dataLenPresent && Length(r.frame.value) <= maxBytes)
            && (s.resetErr.None? && s.queue == [] && !r.hasMore ==> !Pending(r.s))
  {
    hide MaxStreamDataLen, StreamLen;
    var n := Amount(s, maxBytes, window);
    if n > 0 {
      SmallBudget(s.streamID, s.writeOffset, true, maxBytes);
      EstimateExact(s.streamID, s.writeOffset, n, true, maxBytes);
    }
  }

  /** As much new data as possible: n bytes are all that is ready, or the whole flow control window, or one
      more does not fit the packet. */
  predicate Maximal(s: State, n: nat, maxBytes: int, window: nat) {
    && n <= window && n <= Ready(s)
    && (n > 0 ==> StreamLen(s.streamID, s.writeOffset, n, true) <= maxBytes)
    && (n == Ready(s) || n == window || StreamLen(s.streamID, s.writeOffset, n + 1, true) > maxBytes)
  }

  // The new data in a frame.
  function NewBytes(frame: Option<StreamFrame>): seq<Byte> {
    if frame.Some? then frame.value.data else []
  }

  /** What is sent if there is nothing to retransmit: as much new data as possible, and the FIN behind all data.
      There is a frame exactly if it carries any of this.  The stream is blocked if the whole window is used, and the
      flow controller says so. */
  ghost predicate Takes(s: State, r: Pops, maxBytes: int, window: nat, newlyBlocked: bool) {
    var rest := Buffered(s) + s.dataForWriting;
    var n := |NewBytes(r.frame)|;
    && Maximal(s, n, maxBytes, window) && NewBytes(r.frame) == rest[..n]
    && r.s.writeOffset == s.writeOffset + n
    && (r.frame.Some? <==> n > 0 || (rest == [] && s.finishedWriting && !s.finSent))
    && (r.frame.Some? ==>
          && r.frame.value.streamID == s.streamID && r.frame.value.offset == s.writeOffset
          && (r.frame.value.fin <==> s.finishedWriting && n == |rest|))
    && (r.blocked == if 0 < n == window && newlyBlocked then Some(r.s.writeOffset) else None)
    && (r.hasMore <==> Pending(r.s))
  }

  lemma PopTakes(s: State, h: History, maxBytes: int, window: nat, newlyBlocked: bool)
    requires Inv(s, h) && maxBytes <= MAX_BUDGET && s.resetErr.None? && s.queue == []
    ensures Takes(s, PopStep(s, maxBytes, window, newlyBlocked), maxBytes, window, newlyBlocked)
  {
    hide Placed, NewStep, StreamLen;
    if (s.nextFrame.Some? || s.dataForWriting != []) && window > 0 {
      NewTakes(s, h, maxBytes, window, newlyBlocked);
    }
  }

  lemma TakesWindow(s: State, r: Pops, maxBytes: int, window: nat, newlyBlocked: bool)
    requires Takes(s, r, maxBytes, window, newlyBlocked)
    ensures |NewBytes(r.frame)| <= window
  {
  }

  lemma NewTakes(s: State, h: History, maxBytes: int, window: nat, newlyBlocked: bool)
    requires Inv(s, h) && maxBytes <= MAX_BUDGET && s.resetErr.None? && s.queue == []
    requires (s.nextFrame.Some? || s.dataForWriting != []) && window > 0
    ensures Takes(s, NewStep(s, maxBytes, window, newlyBlocked), maxBytes, window, newlyBlocked)
  {
    hide Placed, Taken, MaxStreamDataLen, StreamLen;
    var n := Amount(s, maxBytes, window);
    SmallBudget(s.streamID, s.writeOffset, true, maxBytes);
    EstimateExact(s.streamID, s.writeOffset, n + 1, true, maxBytes);
    if n > 0 {
      EstimateExact(s.streamID, s.writeOffset, n, true, maxBytes);
      TakenKeeps(s, n);
    }
  }

  /** What is sent if there is something to retransmit: the first frame in the queue or, if that does not fit, as much
      of it as possible; the rest stays in the queue. */
  ghost predicate Resends(s: State, r: Pops, maxBytes: int)
    requires s.queue != []
  {
    var f := s.queue[0];
    && r.hasMore && r.blocked == None && r.s == s.(queue := r.s.queue, outstanding := r.s.outstanding)
    && match r.frame
       case None => r.s == s && Length(f) > maxBytes && StreamLen(f.streamID, f.offset, 1, f.dataLenPresent) > maxBytes
       case Some(g) =>
         && Length(g) <= maxBytes && r.s.outstanding == s.outstanding + 1
         && if g == f then r.s.queue == s.queue[1..]
            else
              && g.data < f.data && g == f.(data := g.data, fin := false)
              && StreamLen(f.streamID, f.offset, |g.data| + 1, f.dataLenPresent) > maxBytes
              && r.s.queue == [f.(data := f.data[|g.data|..], offset := f.offset + |g.data|)] + s.queue[1..]
  }

  lemma PopResends(s: State, maxBytes: int, window: nat, newlyBlocked: bool)
    requires maxBytes <= MAX_BUDGET && s.resetErr.None? && s.queue != []
    ensures Resends(s, PopStep(s, maxBytes, window, newlyBlocked), maxBytes)
  {
    hide MaxStreamDataLen, StreamLen;
    var f := s.queue[0];
    var n := MaxStreamDataLen(f.streamID, f.offset, f.dataLenPresent, maxBytes);
    SmallBudget(f.streamID, f.offset, f.dataLenPresent, maxBytes);
    SplitFits(f, maxBytes);
    EstimateExact(f.streamID, f.offset, n + 1, f.dataLenPresent, maxBytes);
  }

  /** The acknowledgement of the i-th frame in flight. */
  function AckHistory(s: State, h: History, i: nat): History
    requires i < |h.inFlight|
  {
    h.(inFlight := Remove(h.inFlight, i), acked := h.acked + if s.resetErr.None? then [h.inFlight[i]] else [])
  }

  lemma AckKeeps(s: State, h: History, i: nat)
    requires Inv(s, h) && i < |h.inFlight|
    ensures var (t, newly) := AckStep(s); Inv(t, Counted(AckHistory(s, h, i), newly))
    ensures s.resetErr.None? ==> s.outstanding > 0
  {
    hide Placed, Remove;
    assert h.acked + [] == h.acked;
    if s.resetErr.None? {
      Acknowledge(h.stream, s.writeOffset, s.finSent, Where(s, h), i);
    }
  }

  lemma LoseKeeps(s: State, h: History, i: nat)
    requires Inv(s, h) && i < |h.inFlight|
    ensures Inv(LoseStep(s, h.inFlight[i]), h.(inFlight := Remove(h.inFlight, i)))
    ensures s.resetErr.None? ==> s.outstanding > 0
  {
    hide Placed, Remove;
    if s.resetErr.None? {
      Requeue(h.stream, s.writeOffset, s.finSent, Where(s, h), i);
    }
  }

  function StopHistory(s: State, h: History): History {
    if s.resetErr.None? then h.(resetPlace := Queued) else h
  }

  lemma StopKeeps(s: State, h: History, errorCode: nat)
    requires Inv(s, h)
    ensures Inv(StopStep(s, errorCode), StopHistory(s, h))
  {
    hide Placed;
  }

  lemma CancelKeeps(s: State, h: History, errorCode: nat)
    requires Inv(s, h)
    ensures var (t, newly) := CancelStep(s, errorCode); Inv(t, Counted(StopHistory(s, h), newly))
  {
    hide Placed;
  }

  function SendResetHistory(h: History): History {
    if h.resetPlace == Queued then h.(resetPlace := InFlight) else h
  }

  lemma SendResetKeeps(s: State, h: History)
    requires Inv(s, h)
    ensures Inv(SendResetStep(s), SendResetHistory(h))
    ensures s.queuedReset.Some? <==> h.resetPlace == Queued
    ensures s.queuedReset.Some? ==>
              && s.resetErr.Some?
              && s.queuedReset.value == ResetStreamFrame(s.streamID, s.resetErr.value, s.writeOffset)
  {
    hide Placed;
  }

  lemma ResetAckedKeeps(s: State, h: History)
    requires Inv(s, h) && h.resetPlace == InFlight
    ensures var (t, newly) := ResetAckedStep(s); Inv(t, Counted(h.(resetPlace := Acknowledged), newly))
    ensures s.outstanding > 0
    ensures ResetAckedStep(s).1 <==> !s.completed && s.nextFrame.None? && Aware(s)
  {
    hide Placed;
  }

  lemma ResetLostKeeps(s: State, h: History)
    requires Inv(s, h) && h.resetPlace == InFlight
    ensures s.resetErr.Some? && s.outstanding > 0
    ensures Inv(ResetLostStep(s, ResetStreamFrame(s.streamID, s.resetErr.value, s.writeOffset)),
                h.(resetPlace := Queued))
  {
    hide Placed;
  }
}
