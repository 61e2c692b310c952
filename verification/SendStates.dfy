/** What each operation of a sending stream does to its state, as functions on values. */
module SendStates {
  import opened StreamBytes
  import opened Wire

  const MAX_PACKET_BUFFER_SIZE: nat := 1452

  datatype ResetStreamFrame = ResetStreamFrame(streamID: nat, errorCode: nat, finalSize: nat)

  datatype WriteResult = Waiting | Wrote(n: nat) | Cancelled(n: nat) | Closed

  datatype State = State(
    streamID: nat,
    outstanding: int,
    queue: seq<StreamFrame>,  // frames to retransmit
    writeOffset: nat,
    resetErr: Option<nat>,
    queuedReset: Option<ResetStreamFrame>,
    finishedWriting: bool,
    finSent: bool,
    cancellationFlagged: bool,
    completed: bool,
    dataForWriting: seq<Byte>,
    nextFrame: Option<StreamFrame>,
    writing: bool,
    writeLen: nat)

  function Initial(streamID: nat): State {
    State(streamID, 0, [], 0, None, None, false, false, false, false, [], None, false, 0)
  }

  function Buffered(s: State): seq<Byte> {
    if s.nextFrame.Some? then s.nextFrame.value.data else []
  }

  // Whether the stream can be completed.
  predicate Completable(s: State) {
    && Buffered(s) == []
    && s.outstanding <= 0 && s.queue == [] && s.queuedReset.None?
    && (s.finSent || (s.resetErr.Some? && (s.cancellationFlagged || s.finishedWriting)))
  }

  /** Report completion, if it is due and has not been reported. */
  function Complete(s: State): (State, bool) {
    if !s.completed && Completable(s) then (s.(completed := true), true) else (s, false)
  }

  datatype Writes = Writes(s: State, r: WriteResult, newly: bool)

  function WriteStep(s: State, p: seq<Byte>): Writes {
    if s.resetErr.Some? then
      var (t, newly) := Complete(s.(cancellationFlagged := true));
      Writes(t, Cancelled(0), newly)
    else if s.finishedWriting then Writes(s, Closed, false)
    else if p == [] then Writes(s, Wrote(0), false)
    else ResumeStep(s.(dataForWriting := p, writing := true, writeLen := |p|))
  }

  predicate CanBuffer(s: State) {
    |Buffered(s)| + |s.dataForWriting| <= MAX_PACKET_BUFFER_SIZE
  }

  function Fill(s: State): Option<StreamFrame> {
    if s.nextFrame.None? then Some(StreamFrame(s.streamID, s.writeOffset, s.dataForWriting, false, true))
    else Some(s.nextFrame.value.(data := s.nextFrame.value.data + s.dataForWriting))
  }

  // The number of bytes of a Write that have been taken.
  function BytesWritten(s: State): nat {
    if |s.dataForWriting| <= s.writeLen then s.writeLen - |s.dataForWriting| else 0
  }

  function ResumeStep(s: State): Writes {
    if CanBuffer(s) && s.dataForWriting != [] then
      Writes(s.(nextFrame := Fill(s), dataForWriting := [], writing := false), Wrote(s.writeLen), false)
    else if s.dataForWriting != [] && s.resetErr.None? then Writes(s, Waiting, false)
    else if s.dataForWriting == [] then Writes(s.(writing := false), Wrote(s.writeLen), false)
    else
      var (t, newly) := Complete(s.(writing := false, cancellationFlagged := true));
      Writes(t, Cancelled(BytesWritten(s)), newly)
  }

  function CloseStep(s: State): (State, bool) {
    if s.finishedWriting then (s, false)
    else Complete(s.(finishedWriting := true, cancellationFlagged := s.cancellationFlagged || s.resetErr.Some?))
  }

  datatype Pops = Pops(s: State, frame: Option<StreamFrame>, blocked: Option<nat>, hasMore: bool)

  function PopStep(s: State, maxBytes: int, window: nat, newlyBlocked: bool): Pops {
    if s.resetErr.Some? then Pops(s, None, None, false)
    else if s.queue != [] then RetransmitStep(s, maxBytes)
    else if s.dataForWriting == [] && s.nextFrame.None? then
      if s.finishedWriting && !s.finSent then
        Pops(s.(finSent := true, outstanding := s.outstanding + 1),
             Some(StreamFrame(s.streamID, s.writeOffset, [], true, true)), None, false)
      else Pops(s, None, None, false)
    else if window == 0 then Pops(s, None, None, true)
    else NewStep(s, maxBytes, window, newlyBlocked)
  }

  /** The head of the queue, or as much of it as fits. */
  function RetransmitStep(s: State, maxBytes: int): Pops
    requires s.queue != []
  {
    var f := s.queue[0];
    var n := MaxStreamDataLen(f.streamID, f.offset, f.dataLenPresent, maxBytes);
    if Length(f) <= maxBytes then
      Pops(s.(queue := s.queue[1..], outstanding := s.outstanding + 1), Some(f), None, true)
    else if n == 0 || n > |f.data| then Pops(s, None, None, true)
    else
      Pops(s.(queue := [f.(data := f.data[n..], offset := f.offset + n)] + s.queue[1..],
              outstanding := s.outstanding + 1),
           Some(f.(data := f.data[..n], fin := false)), None, true)
  }

  /** How many bytes a new frame can take: those of the buffered frame or, if there is none, of the Write
      in progress. */
  function Ready(s: State): nat {
    if s.nextFrame.Some? then |s.nextFrame.value.data| else |s.dataForWriting|
  }

  // How many bytes a new frame takes: as many as the packet, the flow control window and
  // what is ready allow.
  function Amount(s: State, maxBytes: int, window: nat): nat {
    var maxDataLen := MaxStreamDataLen(s.streamID, s.writeOffset, true, maxBytes);
    Min(Min(window, maxDataLen), Ready(s))
  }

  // The state without the first n bytes that were not sent.
  function Taken(s: State, n: nat): State
    requires n <= Ready(s)
  {
    if s.nextFrame.None? then s.(dataForWriting := s.dataForWriting[n..])
    else if n == |s.nextFrame.value.data| then s.(nextFrame := None)
    else s.(nextFrame := Some(StreamFrame(s.streamID, s.writeOffset + n, s.nextFrame.value.data[n..], false, true)))
  }

  // Nothing is left behind the first n bytes but the end of the stream.
  predicate TakesFin(s: State, n: nat)
    requires n <= Ready(s)
  {
    s.finishedWriting && Taken(s, n).dataForWriting == [] && Taken(s, n).nextFrame.None?
  }

  function NewFrame(s: State, n: nat): StreamFrame
    requires n <= Ready(s)
  {
    StreamFrame(s.streamID, s.writeOffset, (Buffered(s) + s.dataForWriting)[..n], TakesFin(s, n), true)
  }

  function SentNew(s: State, n: nat): State
    requires n <= Ready(s)
  {
    Taken(s, n).(writeOffset := s.writeOffset + n, finSent := TakesFin(s, n), outstanding := s.outstanding + 1)
  }

  predicate MoreThan(s: State, n: nat)
    requires n <= Ready(s)
  {
    var t := Taken(s, n);
    t.nextFrame.Some? || t.dataForWriting != [] || (s.nextFrame.None? && s.finishedWriting)
  }

  function NewStep(s: State, maxBytes: int, window: nat, newlyBlocked: bool): Pops {
    var n := Amount(s, maxBytes, window);
    if n == 0 then Pops(s, None, None, true)
    else Pops(SentNew(s, n), Some(NewFrame(s, n)), if n == window && newlyBlocked then Some(s.writeOffset + n)
              else None, MoreThan(s, n))
  }

  function AckStep(s: State): (State, bool) {
    if s.resetErr.Some? then (s, false) else Complete(s.(outstanding := s.outstanding - 1))
  }

  function LoseStep(s: State, f: StreamFrame): State {
    if s.resetErr.Some? then s
    else s.(outstanding := s.outstanding - 1, queue := s.queue + [f.(dataLenPresent := true)])
  }

  /** Give up on the stream; its final size is what has been sent so far. */
  function StopStep(s: State, errorCode: nat): State {
    if s.resetErr.Some? then s
    else
      s.(resetErr := Some(errorCode), outstanding := 0, queue := [], nextFrame := None,
         queuedReset := Some(ResetStreamFrame(s.streamID, errorCode, s.writeOffset)))
  }

  function CancelStep(s: State, errorCode: nat): (State, bool) {
    var t := s.(cancellationFlagged := true);
    if s.resetErr.Some? then Complete(t) else (StopStep(t, errorCode), false)
  }

  function SendResetStep(s: State): State {
    if s.queuedReset.None? then s else s.(queuedReset := None, outstanding := s.outstanding + 1)
  }

  function ResetAckedStep(s: State): (State, bool) {
    Complete(s.(outstanding := s.outstanding - 1))
  }

  function ResetLostStep(s: State, frame: ResetStreamFrame): State {
    s.(queuedReset := Some(frame), outstanding := s.outstanding - 1)
  }
}
