/** The sending half of a stream, without the RESET_STREAM_AT extension. */
module SendStreaming {
  import opened StreamBytes
  import opened Wire
  import opened FrameLedger
  import opened SendStates
  import opened SendInvariant

  class SendStream {
    const streamID: nat
    var numOutstandingFrames: int
    var retransmissionQueue: seq<StreamFrame>
    var writeOffset: nat
    var resetErr: Option<nat>
    var queuedResetStreamFrame: Option<ResetStreamFrame>
    var finishedWriting: bool
    var finSent: bool
    var cancellationFlagged: bool
    var completed: bool
    var dataForWriting: seq<Byte>
    var nextFrame: Option<StreamFrame>
    var writing: bool  // a Write call is in progress
    var writeLen: nat  // the length of its argument
    ghost var history: History

    function Now(): State
      reads this
    {
      State(streamID, numOutstandingFrames, retransmissionQueue, writeOffset, resetErr, queuedResetStreamFrame,
            finishedWriting,
            finSent, cancellationFlagged, completed, dataForWriting, nextFrame, writing, writeLen)
    }

    ghost predicate Valid()
      reads this
    {
      Inv(Now(), history)
    }

    constructor (streamID: nat)
      ensures Valid() && Now() == Initial(streamID) && history == NO_HISTORY
    {
      this.streamID := streamID;
      numOutstandingFrames := 0;
      retransmissionQueue := [];
      writeOffset := 0;
      resetErr := None;
      queuedResetStreamFrame := None;
      finishedWriting, finSent, cancellationFlagged, completed := false, false, false, false;
      dataForWriting := [];
      nextFrame := None;
      writing, writeLen := false, 0;
      history := NO_HISTORY;
      InitialInv(streamID);
    }

    method IsNewlyCompleted() returns (newly: bool)
      modifies this`completed
      ensures newly == (!old(completed) && Completable(old(Now())))
      ensures (Now(), newly) == Complete(old(Now()))
    {
      newly := false;
      if completed {
        return;
      }
      if nextFrame.Some? && |nextFrame.value.data| > 0 {
        return;
      }
      if numOutstandingFrames > 0 || |retransmissionQueue| > 0 || queuedResetStreamFrame.Some? {
        return;
      }
      if finSent || (resetErr.Some? && (cancellationFlagged || finishedWriting)) {
        completed := true;
        newly := true;
      }
    }

    /** Write, up to the first time it waits. */
    method Write(p: seq<Byte>) returns (r: WriteResult, newlyCompleted: bool)
      requires Valid() && !writing
      modifies this`cancellationFlagged, this`completed, this`dataForWriting, this`writing, this`writeLen,
               this`nextFrame, this`history
      ensures Valid() && Writes(Now(), r, newlyCompleted) == WriteStep(old(Now()), p)
      ensures history == Counted(old(history).(stream := old(history).stream + Accepted(old(Now()), p)), newlyCompleted)
      ensures old(resetErr).None? && !old(finishedWriting) ==>
                r == if |old(Buffered(Now()))| + |p| > 1452 && p != [] then Waiting else Wrote(|p|)
      ensures old(resetErr).Some? ==> r == Cancelled(0)
      ensures old(resetErr).None? && old(finishedWriting) ==> r == Closed
    {
      hide Inv, Completable;
      WriteKeeps(Now(), history, p);
      history := history.(stream := history.stream + Accepted(Now(), p));
      r, newlyCompleted := BeginWrite(p);
      history := Counted(history, newlyCompleted);
    }

    method BeginWrite(p: seq<Byte>) returns (r: WriteResult, newlyCompleted: bool)
      modifies this`cancellationFlagged, this`completed, this`dataForWriting, this`writing, this`writeLen,
               this`nextFrame
      ensures Writes(Now(), r, newlyCompleted) == WriteStep(old(Now()), p)
    {
      hide Completable;
      if resetErr.Some? {
        cancellationFlagged := true;
        newlyCompleted := IsNewlyCompleted();
        return Cancelled(0), newlyCompleted;
      }
      if finishedWriting {
        return Closed, false;
      }
      if |p| == 0 {
        return Wrote(0), false;
      }
      dataForWriting := p;
      writing, writeLen := true, |p|;
      r, newlyCompleted := Turn();
    }

    /** One turn of the loop in Write: buffer the rest, give up, or wait on. */
    method Resume() returns (r: WriteResult, newlyCompleted: bool)
      requires Valid() && writing
      modifies this`nextFrame, this`dataForWriting, this`writing, this`cancellationFlagged, this`completed, this`history
      ensures Valid() && Writes(Now(), r, newlyCompleted) == ResumeStep(old(Now()))
      ensures history == Counted(old(history), newlyCompleted)
      ensures resetErr.None? ==> !newlyCompleted
      ensures resetErr.None? ==>
                r == if |old(Buffered(Now()))| + |old(dataForWriting)| > 1452 && old(dataForWriting) != [] then Waiting
                     else Wrote(writeLen)
      ensures r.Cancelled? ==> resetErr.Some? && r.n == writeLen - |old(dataForWriting)| < writeLen
    {
      hide Inv, Completable;
      ResumeKeeps(Now(), history);
      WriteLenBound();
      r, newlyCompleted := Turn();
      history := Counted(history, newlyCompleted);
    }

    lemma WriteLenBound()
      requires Valid() && writing
      ensures |dataForWriting| <= writeLen
    {
    }

    method Turn() returns (r: WriteResult, newlyCompleted: bool)
      requires |dataForWriting| <= writeLen
      modifies this`nextFrame, this`dataForWriting, this`writing, this`cancellationFlagged, this`completed
      ensures Writes(Now(), r, newlyCompleted) == ResumeStep(old(Now()))
    {
      hide Completable;
      newlyCompleted := false;
      if CanBuffer(Now()) && |dataForWriting| > 0 {
        if nextFrame.None? {
          nextFrame := Some(StreamFrame(streamID, writeOffset, dataForWriting, false, true));
        } else {
          nextFrame := Some(nextFrame.value.(data := nextFrame.value.data + dataForWriting));
        }
        dataForWriting := [];
        writing := false;
        return Wrote(writeLen), false;
      }
      if dataForWriting != [] && resetErr.None? {
        return Waiting, false;
      }
      var bytesWritten := writeLen - |dataForWriting|;
      writing := false;
      if bytesWritten == writeLen {
        return Wrote(bytesWritten), false;
      }
      cancellationFlagged := true;
      newlyCompleted := IsNewlyCompleted();
      return Cancelled(bytesWritten), newlyCompleted;
    }

    /** Close.  It must not be called during a Write. */
    method Close() returns (newlyCompleted: bool)
      requires Valid() && !writing
      modifies this`finishedWriting, this`cancellationFlagged, this`completed, this`history
      ensures Valid() && (Now(), newlyCompleted) == CloseStep(old(Now()))
      ensures history == Counted(old(history), newlyCompleted)
    {
      hide Inv, Completable;
      CloseKeeps(Now(), history);
      if finishedWriting {
        return false;
      }
      finishedWriting := true;
      if resetErr.Some? {
        cancellationFlagged := true;
      }
      newlyCompleted := IsNewlyCompleted();
      history := Counted(history, newlyCompleted);
    }

    /** The next STREAM frame, of at most maxBytes bytes.  window is the flow control window.
        If no more frames are announced, nothing is left to send. */
    method PopStreamFrame(maxBytes: int, window: nat, newlyBlocked: bool)
      returns (frame: Option<StreamFrame>, blocked: Option<nat>, hasMore: bool)
      requires Valid() && maxBytes <= MAX_BUDGET
      modifies this`nextFrame, this`dataForWriting, this`writeOffset, this`finSent, this`numOutstandingFrames,
               this`retransmissionQueue, this`history
      ensures Valid() && Pops(Now(), frame, blocked, hasMore) == PopStep(old(Now()), maxBytes, window, newlyBlocked)
      ensures history == old(history).(inFlight := old(history).inFlight + if frame.Some? then [frame.value] else [])
      ensures frame.Some? ==> frame.value.dataLenPresent
      ensures frame.Some? ==> Length(frame.value) <= maxBytes
                              || (frame.value.data == [] && frame.value.fin && Length(frame.value) <= 18)
      ensures !hasMore ==> !Pending(Now())
      ensures old(resetErr).None? && old(retransmissionQueue) == [] ==>
                && |NewBytes(frame)| <= window
                && Takes(old(Now()), Pops(Now(), frame, blocked, hasMore), maxBytes, window, newlyBlocked)
      ensures old(resetErr).None? && old(retransmissionQueue) != [] ==>
                Resends(old(Now()), Pops(Now(), frame, blocked, hasMore), maxBytes)
    {
      hide Inv, PopStep, Length, Pending, Takes, Resends;
      ghost var s := Now();
      if resetErr.None? && retransmissionQueue == [] {
        PopTakes(s, history, maxBytes, window, newlyBlocked);
        TakesWindow(s, PopStep(s, maxBytes, window, newlyBlocked), maxBytes, window, newlyBlocked);
      } else if resetErr.None? {
        PopResends(s, maxBytes, window, newlyBlocked);
      }
      PopKeeps(Now(), history, maxBytes, window, newlyBlocked);
      PopFacts(Now(), history, maxBytes, window, newlyBlocked);
      frame, blocked, hasMore := Pop(maxBytes, window, newlyBlocked);
      if frame.Some? {
        history := history.(inFlight := history.inFlight + [frame.value]);
      } else {
        assert history.inFlight + [] == history.inFlight;
      }
    }

    method Pop(maxBytes: int, window: nat, newlyBlocked: bool)
      returns (frame: Option<StreamFrame>, blocked: Option<nat>, hasMore: bool)
      requires Valid() && maxBytes <= MAX_BUDGET
      modifies this`nextFrame, this`dataForWriting, this`writeOffset, this`finSent, this`numOutstandingFrames,
               this`retransmissionQueue
      ensures Pops(Now(), frame, blocked, hasMore) == PopStep(old(Now()), maxBytes, window, newlyBlocked)
    {
      hide Inv, RetransmitStep, NewStep;
      frame, blocked, hasMore := None, None, false;
      if resetErr.Some? {
        return;
      }
      if |retransmissionQueue| > 0 {
        frame := MaybeGetRetransmission(maxBytes);
        hasMore := true;
        return;
      }
      if |dataForWriting| == 0 && nextFrame.None? {
        if finishedWriting && !finSent {
          finSent := true;
          numOutstandingFrames := numOutstandingFrames + 1;
          frame := Some(StreamFrame(streamID, writeOffset, [], true, true));
        }
        return;
      }
      if window == 0 {
        hasMore := true;
        return;
      }
      NotFinished(Now(), history);
      frame, blocked, hasMore := PopNew(maxBytes, window, newlyBlocked);
    }

    method MaybeGetRetransmission(maxBytes: int) returns (frame: Option<StreamFrame>)
      requires maxBytes <= MAX_BUDGET && retransmissionQueue != []
      modifies this`retransmissionQueue, this`numOutstandingFrames
      ensures Pops(Now(), frame, None, true) == RetransmitStep(old(Now()), maxBytes)
      ensures frame.Some? ==>
                var f := old(retransmissionQueue[0]);
                && Length(frame.value) <= maxBytes && frame.value.offset == f.offset && frame.value.data <= f.data
      ensures frame.None? ==>
                var f := old(retransmissionQueue[0]);
                forall n | 0 < n :: StreamLen(f.streamID, f.offset, n, f.dataLenPresent) > maxBytes
    {
      hide Length, MaxStreamDataLen, StreamLen;
      var f := retransmissionQueue[0];
      SmallBudget(f.streamID, f.offset, f.dataLenPresent, maxBytes);
      SplitFits(f, maxBytes);
      match MaybeSplitOffFrame(f, maxBytes) {
        case TooSmall =>
          return None;
        case Whole =>
          retransmissionQueue := retransmissionQueue[1..];
          frame := Some(f);
        case Parts(first, rest) =>
          retransmissionQueue := [rest] + retransmissionQueue[1..];
          frame := Some(first);
      }
      numOutstandingFrames := numOutstandingFrames + 1;
    }

    // A frame with new data, and with the FIN if it is the last.
    method PopNew(maxBytes: int, window: nat, newlyBlocked: bool)
      returns (frame: Option<StreamFrame>, blocked: Option<nat>, hasMore: bool)
      requires !finSent && NonEmptyBuffer(nextFrame) && (nextFrame.Some? || dataForWriting != []) && window > 0
      modifies this`nextFrame, this`dataForWriting, this`writeOffset, this`finSent, this`numOutstandingFrames
      ensures Pops(Now(), frame, blocked, hasMore) == NewStep(old(Now()), maxBytes, window, newlyBlocked)
    {
      hide MaxStreamDataLen, Taken;
      var maxDataLen := MaxStreamDataLen(streamID, writeOffset, true, maxBytes);
      var n := Min(window, maxDataLen);
      frame, blocked, hasMore := None, None, true;
      if n == 0 {
        return;
      }
      var data: seq<Byte>;
      data, hasMore := TakeData(n);
      var offset := writeOffset;
      writeOffset := writeOffset + |data|;
      if |data| == window && newlyBlocked {
        blocked := Some(writeOffset);
      }
      var fin := finishedWriting && dataForWriting == [] && nextFrame.None? && !finSent;
      if fin {
        finSent := true;
      }
      numOutstandingFrames := numOutstandingFrames + 1;
      frame := Some(StreamFrame(streamID, offset, data, fin, true));
    }

    // Take up to n bytes, first from the buffered frame, then from the Write in progress.
    method TakeData(n: nat) returns (data: seq<Byte>, hasMore: bool)
      requires NonEmptyBuffer(nextFrame) && n > 0 && (nextFrame.Some? || dataForWriting != [])
      modifies this`nextFrame, this`dataForWriting
      ensures |data| == Min(n, if old(nextFrame).Some? then |old(nextFrame).value.data| else old(|dataForWriting|))
              && data != []
      ensures data == old(Buffered(Now()) + dataForWriting)[..|data|] && Now() == Taken(old(Now()), |data|)
      ensures hasMore == MoreThan(old(Now()), |data|)
    {
      ghost var rest := Buffered(Now()) + dataForWriting;
      if nextFrame.Some? {
        data := PopBuffered(n);
        assert data == rest[..|data|];
        hasMore := nextFrame.Some? || dataForWriting != [];
      } else {
        data := GetDataForWriting(n);
        assert data == rest[..|data|];
        hasMore := dataForWriting != [] || finishedWriting;
      }
    }

    // Take up to n bytes from the buffered frame; the rest stays buffered, at its own offset.
    method PopBuffered(n: nat) returns (data: seq<Byte>)
      requires nextFrame.Some?
      modifies this`nextFrame
      ensures |data| == Min(n, old(|Buffered(Now())|)) && data == old(Buffered(Now()))[..|data|]
      ensures Now() == Taken(old(Now()), |data|)
    {
      var f := nextFrame.value;
      nextFrame := None;
      if |f.data| > n {
        nextFrame := Some(StreamFrame(streamID, writeOffset + n, f.data[n..], false, true));
        data := f.data[..n];
      } else {
        data := f.data;
      }
    }

    method GetDataForWriting(n: nat) returns (data: seq<Byte>)
      modifies this`dataForWriting
      ensures |data| == Min(n, old(|dataForWriting|))
      ensures data == old(dataForWriting)[..|data|] && dataForWriting == old(dataForWriting)[|data|..]
    {
      if |dataForWriting| <= n {
        data := dataForWriting;
        dataForWriting := [];
      } else {
        data := dataForWriting[..n];
        dataForWriting := dataForWriting[n..];
      }
    }

    /** The acknowledgement of the i-th frame in flight. */
    method OnAcked(ghost i: nat) returns (newlyCompleted: bool)
      requires Valid() && i < |history.inFlight|
      modifies this`numOutstandingFrames, this`completed, this`history
      ensures Valid() && (Now(), newlyCompleted) == AckStep(old(Now()))
      ensures history == Counted(AckHistory(old(Now()), old(history), i), newlyCompleted)
    {
      hide Inv, Completable;
      AckKeeps(Now(), history, i);
      history := AckHistory(Now(), history, i);
      if resetErr.Some? {
        return false;
      }
      numOutstandingFrames := numOutstandingFrames - 1;
      assert numOutstandingFrames >= 0;  // here the code would panic
      newlyCompleted := IsNewlyCompleted();
      history := Counted(history, newlyCompleted);
    }

    /** The loss of the i-th frame in flight, which is frame. */
    method OnLost(ghost i: nat, frame: StreamFrame)
      requires Valid() && i < |history.inFlight| && frame == history.inFlight[i]
      modifies this`numOutstandingFrames, this`retransmissionQueue, this`history
      ensures Valid() && Now() == LoseStep(old(Now()), frame)
      ensures retransmissionQueue ==
              if resetErr.Some? then old(retransmissionQueue)
              else old(retransmissionQueue) + [frame.(dataLenPresent := true)]
      ensures history == old(history).(inFlight := Remove(old(history).inFlight, i))
    {
      hide Inv;
      LoseKeeps(Now(), history, i);
      history := history.(inFlight := Remove(history.inFlight, i));
      if resetErr.Some? {
        return;
      }
      numOutstandingFrames := numOutstandingFrames - 1;
      assert numOutstandingFrames >= 0;  // here the code would panic
      retransmissionQueue := retransmissionQueue + [frame.(dataLenPresent := true)];
    }

    // Give up on the stream; its final size is what has been sent so far.
    method Abort(errorCode: nat)
      requires resetErr.None?
      modifies this`resetErr, this`numOutstandingFrames, this`retransmissionQueue, this`nextFrame,
               this`queuedResetStreamFrame
      ensures Now() == StopStep(old(Now()), errorCode)
    {
      resetErr := Some(errorCode);
      numOutstandingFrames := 0;
      retransmissionQueue := [];
      nextFrame := None;
      queuedResetStreamFrame := Some(ResetStreamFrame(streamID, errorCode, writeOffset));
    }

    method CancelWrite(errorCode: nat) returns (newlyCompleted: bool)
      requires Valid()
      modifies this`cancellationFlagged, this`completed, this`resetErr, this`numOutstandingFrames,
               this`retransmissionQueue, this`nextFrame, this`queuedResetStreamFrame, this`history
      ensures Valid() && (Now(), newlyCompleted) == CancelStep(old(Now()), errorCode)
      ensures history == Counted(StopHistory(old(Now()), old(history)), newlyCompleted)
    {
      hide Inv, Completable;
      CancelKeeps(Now(), history, errorCode);
      history := StopHistory(Now(), history);
      cancellationFlagged := true;
      if resetErr.Some? {
        newlyCompleted := IsNewlyCompleted();
        history := Counted(history, newlyCompleted);
        return;
      }
      Abort(errorCode);
      return false;
    }

    method HandleStopSendingFrame(errorCode: nat)
      requires Valid()
      modifies this`resetErr, this`numOutstandingFrames, this`retransmissionQueue, this`nextFrame,
               this`queuedResetStreamFrame, this`history
      ensures Valid() && Now() == StopStep(old(Now()), errorCode) && history == StopHistory(old(Now()), old(history))
    {
      hide Inv;
      StopKeeps(Now(), history, errorCode);
      history := StopHistory(Now(), history);
      if resetErr.Some? {
        return;
      }
      Abort(errorCode);
    }

    method GetControlFrame() returns (frame: Option<ResetStreamFrame>)
      requires Valid()
      modifies this`numOutstandingFrames, this`queuedResetStreamFrame, this`history
      ensures Valid() && Now() == SendResetStep(old(Now())) && history == SendResetHistory(old(history))
      ensures frame.Some? <==> old(history).resetPlace == Queued
      ensures frame.Some? ==> resetErr.Some? && frame.value == ResetStreamFrame(streamID, resetErr.value, writeOffset)
    {
      hide Inv;
      SendResetKeeps(Now(), history);
      history := SendResetHistory(history);
      frame := queuedResetStreamFrame;
      if frame.None? {
        return;
      }
      numOutstandingFrames := numOutstandingFrames + 1;
      queuedResetStreamFrame := None;
    }

    method OnResetAcked() returns (newlyCompleted: bool)
      requires Valid() && history.resetPlace == InFlight
      modifies this`numOutstandingFrames, this`completed, this`history
      ensures Valid() && (Now(), newlyCompleted) == ResetAckedStep(old(Now()))
      ensures history == Counted(old(history).(resetPlace := Acknowledged), newlyCompleted)
      ensures newlyCompleted <==> !old(completed) && nextFrame.None? && Aware(Now())
    {
      hide Inv, Completable;
      ResetAckedKeeps(Now(), history);
      numOutstandingFrames := numOutstandingFrames - 1;
      assert numOutstandingFrames >= 0;  // here the code would panic
      newlyCompleted := IsNewlyCompleted();
      history := Counted(history.(resetPlace := Acknowledged), newlyCompleted);
    }

    method OnResetLost(frame: ResetStreamFrame)
      requires Valid() && history.resetPlace == InFlight
      requires resetErr.Some? && frame == ResetStreamFrame(streamID, resetErr.value, writeOffset)
      modifies this`queuedResetStreamFrame, this`numOutstandingFrames, this`history
      ensures Valid() && Now() == ResetLostStep(old(Now()), frame) && history == old(history).(resetPlace := Queued)
    {
      hide Inv;
      ResetLostKeeps(Now(), history);
      queuedResetStreamFrame := Some(frame);
      numOutstandingFrames := numOutstandingFrames - 1;
      history := history.(resetPlace := Queued);
    }
  }
}
