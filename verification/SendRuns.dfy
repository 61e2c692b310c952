/** Whole runs of a sending stream: the application writes, closes and cancels, packets are
    assembled, acknowledged and lost, and the peer may ask to stop, in any order.
 */
module SendRuns {
  import opened StreamBytes
  import opened Wire
  import opened FrameLedger
  import opened SendLedger
  import opened SendStates
  import opened SendInvariant
  import opened SendStreaming

  // What a packet has room for.
  type Budget = b: int | b <= MAX_BUDGET

  // An operation that cannot happen, such as the acknowledgement of a frame that is not in flight, changes nothing.
  datatype Op =
    | Write(p: seq<Byte>)
    | Resume
    | Close
    | Pop(maxBytes: Budget, window: nat, newlyBlocked: bool)
    | Ack(frame: nat)
    | Lose(frame: nat)
    | Cancel(errorCode: nat)
    | StopSending(errorCode: nat)
    | SendReset
    | AckReset
    | LoseReset

  /** A stream, and what has been sent. */
  datatype World = World(
    s: State,
    h: History,
    all: seq<StreamFrame>,  // every STREAM frame sent
    firsts: seq<StreamFrame>)  // the frames that carried new data or the FIN, in order

  function Start(streamID: nat): World {
    World(Initial(streamID), NO_HISTORY, [], [])
  }

  function Step(w: World, op: Op): World {
    match op
    case Write(p) =>
      if w.s.writing then w
      else
        var r := WriteStep(w.s, p);
        w.(s := r.s, h := Counted(w.h.(stream := w.h.stream + Accepted(w.s, p)), r.newly))
    case Resume =>
      if !w.s.writing then w else var r := ResumeStep(w.s); w.(s := r.s, h := Counted(w.h, r.newly))
    case Close =>
      if w.s.writing then w else var (t, newly) := CloseStep(w.s); w.(s := t, h := Counted(w.h, newly))
    case Pop(maxBytes, window, newlyBlocked) => Popped(w, PopStep(w.s, maxBytes, window, newlyBlocked))
    case Ack(i) =>
      if i >= |w.h.inFlight| then w
      else var (t, newly) := AckStep(w.s); w.(s := t, h := Counted(AckHistory(w.s, w.h, i), newly))
    case Lose(i) =>
      if i >= |w.h.inFlight| then w
      else w.(s := LoseStep(w.s, w.h.inFlight[i]), h := w.h.(inFlight := Remove(w.h.inFlight, i)))
    case Cancel(errorCode) =>
      var (t, newly) := CancelStep(w.s, errorCode); w.(s := t, h := Counted(StopHistory(w.s, w.h), newly))
    case StopSending(errorCode) => w.(s := StopStep(w.s, errorCode), h := StopHistory(w.s, w.h))
    case SendReset => w.(s := SendResetStep(w.s), h := SendResetHistory(w.h))
    case AckReset =>
      if w.h.resetPlace != InFlight then w
      else var (t, newly) := ResetAckedStep(w.s); w.(s := t, h := Counted(w.h.(resetPlace := Acknowledged), newly))
    case LoseReset =>
      if w.h.resetPlace != InFlight || w.s.resetErr.None? then w
      else
        w.(s := ResetLostStep(w.s, ResetStreamFrame(w.s.streamID, w.s.resetErr.value, w.s.writeOffset)),
           h := w.h.(resetPlace := Queued))
  }

  function Popped(w: World, r: Pops): World {
    var sent := if r.frame.Some? then [r.frame.value] else [];
    World(r.s, w.h.(inFlight := w.h.inFlight + sent), w.all + sent, w.firsts + if w.s.queue == [] then sent else [])
  }

  function Run(streamID: nat, ops: seq<Op>): World {
    if ops == [] then Start(streamID) else Step(Run(streamID, ops[..|ops| - 1]), ops[|ops| - 1])
  }

  /** The stream object does what the functions say. */
  method Replay(streamID: nat, ops: seq<Op>) returns (s: SendStream)
    ensures fresh(s) && s.Valid() && s.Now() == Run(streamID, ops).s && s.history == Run(streamID, ops).h
  {
    hide Inv, Step;
    s := new SendStream(streamID);
    var w := Start(streamID);
    assert ops[..0] == [];
    for i := 0 to |ops|
      invariant fresh(s) && s.Valid() && s.Now() == w.s && s.history == w.h && w == Run(streamID, ops[..i])
    {
      assert ops[..i + 1][..i] == ops[..i];
      Apply(s, ops[i], w);
      w := Step(w, ops[i]);
    }
    assert ops[..|ops|] == ops;
  }

  method Apply(s: SendStream, op: Op, w: World)
    requires s.Valid() && s.Now() == w.s && s.history == w.h
    modifies s
    ensures s.Valid() && s.Now() == Step(w, op).s && s.history == Step(w, op).h
  {
    hide Inv, WriteStep, ResumeStep, CloseStep, PopStep, AckStep, LoseStep, CancelStep, StopStep, SendResetStep,
         ResetAckedStep,
         ResetLostStep, AckHistory, Remove;
    if op.Write? && !s.writing {
      var _, _ := s.Write(op.p);
    } else if op.Resume? && s.writing {
      var _, _ := s.Resume();
    } else if op.Close? && !s.writing {
      var _ := s.Close();
    } else if op.Pop? {
      var _, _, _ := s.PopStreamFrame(op.maxBytes, op.window, op.newlyBlocked);
    } else if op.Ack? && op.frame < |w.h.inFlight| {
      var _ := s.OnAcked(op.frame);
    } else if op.Lose? && op.frame < |w.h.inFlight| {
      s.OnLost(op.frame, w.h.inFlight[op.frame]);
    } else if op.Cancel? {
      var _ := s.CancelWrite(op.errorCode);
    } else if op.StopSending? {
      s.HandleStopSendingFrame(op.errorCode);
    } else if op.SendReset? {
      var _ := s.GetControlFrame();
    } else if op.AckReset? && w.h.resetPlace == InFlight {
      var _ := s.OnResetAcked();
    } else if op.LoseReset? && w.h.resetPlace == InFlight && w.s.resetErr.Some? {
      s.OnResetLost(ResetStreamFrame(w.s.streamID, w.s.resetErr.value, w.s.writeOffset));
    }
  }

  /** The bytes of the frames, one after the other. */
  function Payload(fs: seq<StreamFrame>): seq<Byte> {
    if fs == [] then [] else Payload(fs[..|fs| - 1]) + fs[|fs| - 1].data
  }

  /** Each frame starts where the previous one ended. */
  predicate Contiguous(fs: seq<StreamFrame>) {
    fs == [] || (Contiguous(fs[..|fs| - 1]) && fs[|fs| - 1].offset == |Payload(fs[..|fs| - 1])|)
  }

  lemma AppendPayload(fs: seq<StreamFrame>, f: StreamFrame)
    ensures Payload(fs + [f]) == Payload(fs) + f.data
    ensures Contiguous(fs + [f]) <==> Contiguous(fs) && f.offset == |Payload(fs)|
  {
    assert (fs + [f])[..|fs|] == fs;
  }

  ghost predicate Among(fs: seq<StreamFrame>, all: seq<StreamFrame>) {
    forall f | f in fs :: f in all
  }

  /** Everything sent is part of the stream, and the new frames carry it in order. */
  ghost predicate Sequenced(s: State, h: History, all: seq<StreamFrame>, firsts: seq<StreamFrame>) {
    && AllSent(h.stream, s.writeOffset, s.finSent, all)
    && Among(h.inFlight, all) && Among(h.acked, all)
    && Contiguous(firsts) && s.writeOffset <= |h.stream| && Payload(firsts) == h.stream[..s.writeOffset]
  }

  ghost predicate WorldInv(w: World) {
    Inv(w.s, w.h) && Sequenced(w.s, w.h, w.all, w.firsts)
  }

  lemma StepKeepsInv(w: World, op: Op)
    requires WorldInv(w)
    ensures WorldInv(Step(w, op))
  {
    hide Inv, Sequenced, Completable;
    if op.Pop? {
      PopKeepsInv(w, op.maxBytes, op.window, op.newlyBlocked);
    } else {
      StepKeepsState(w, op);
      StepKeepsSequence(w, op);
    }
  }

  lemma StepKeepsState(w: World, op: Op)
    requires Inv(w.s, w.h) && !op.Pop?
    ensures Inv(Step(w, op).s, Step(w, op).h)
  {
    hide Inv, WriteStep, ResumeStep, CloseStep, AckStep, LoseStep, CancelStep, StopStep, SendResetStep, ResetAckedStep,
         ResetLostStep, Remove;
    match op
    case Write(p) => if !w.s.writing { WriteKeeps(w.s, w.h, p); }
    case Resume => if w.s.writing { ResumeKeeps(w.s, w.h); }
    case Close => if !w.s.writing { CloseKeeps(w.s, w.h); }
    case Ack(i) => if i < |w.h.inFlight| { AckKeeps(w.s, w.h, i); }
    case Lose(i) => if i < |w.h.inFlight| { LoseKeeps(w.s, w.h, i); }
    case Cancel(errorCode) => CancelKeeps(w.s, w.h, errorCode);
    case StopSending(errorCode) => StopKeeps(w.s, w.h, errorCode);
    case SendReset => SendResetKeeps(w.s, w.h);
    case AckReset => if w.h.resetPlace == InFlight { ResetAckedKeeps(w.s, w.h); }
    case LoseReset => if w.h.resetPlace == InFlight { ResetLostKeeps(w.s, w.h); }
  }

  // What has been sent stays sent.
  lemma SentLater(stream: seq<Byte>, writeOffset: nat, finSent: bool, all: seq<StreamFrame>, more: seq<Byte>)
    requires AllSent(stream, writeOffset, finSent, all) && (finSent ==> more == [])
    ensures AllSent(stream + more, writeOffset, finSent, all)
  {
    forall i | 0 <= i < |all| ensures Sent(stream + more, writeOffset, finSent, all[i]) {
      var f := all[i];
      assert Sent(stream, writeOffset, finSent, f);
      assert (stream + more)[f.offset..f.offset + |f.data|] == stream[f.offset..f.offset + |f.data|];
    }
  }

  lemma FinMeansFinished(s: State, h: History)
    requires Inv(s, h) && s.finSent && s.resetErr.None?
    ensures s.finishedWriting
  {
    hide Placed;
  }

  function Appended(w: World, op: Op): seq<Byte> {
    if op.Write? && !w.s.writing then Accepted(w.s, op.p) else []
  }

  lemma StepMoves(w: World, op: Op)
    requires Among(w.h.inFlight, w.all) && Among(w.h.acked, w.all) && !op.Pop?
    ensures var t := Step(w, op);
            && t.h.stream == w.h.stream + Appended(w, op)
            && t.s.writeOffset == w.s.writeOffset && t.s.finSent == w.s.finSent
            && Among(t.h.inFlight, w.all) && Among(t.h.acked, w.all)
  {
    assert op.Write? || w.h.stream + [] == w.h.stream;
  }

  lemma StepKeepsSequence(w: World, op: Op)
    requires WorldInv(w) && !op.Pop?
    ensures Sequenced(Step(w, op).s, Step(w, op).h, w.all, w.firsts)
  {
    hide Inv, AllSent, Among, Contiguous, Payload, Step;
    var more := Appended(w, op);
    StepMoves(w, op);
    if w.s.finSent && w.s.resetErr.None? {
      FinMeansFinished(w.s, w.h);
    }
    SentLater(w.h.stream, w.s.writeOffset, w.s.finSent, w.all, more);
    assert (w.h.stream + more)[..w.s.writeOffset] == w.h.stream[..w.s.writeOffset];
  }

  lemma PopKeepsInv(w: World, maxBytes: Budget, window: nat, newlyBlocked: bool)
    requires WorldInv(w)
    ensures WorldInv(Popped(w, PopStep(w.s, maxBytes, window, newlyBlocked)))
  {
    hide Inv, Sequenced, PopStep;
    var r := PopStep(w.s, maxBytes, window, newlyBlocked);
    PopKeeps(w.s, w.h, maxBytes, window, newlyBlocked);
    PopMoves(w.s, w.h, maxBytes, window, newlyBlocked);
    if r.frame.None? {
      assert w.h.inFlight + [] == w.h.inFlight && w.all + [] == w.all && w.firsts + [] == w.firsts;
      NothingSent(w, r);
    } else {
      FrameSent(w, r);
    }
  }

  lemma NothingSent(w: World, r: Pops)
    requires Sequenced(w.s, w.h, w.all, w.firsts) && r.s.writeOffset == w.s.writeOffset && r.s.finSent == w.s.finSent
    ensures Sequenced(r.s, w.h, w.all, w.firsts)
  {
  }

  // A frame is either new, and moves the write offset, or a retransmission.
  lemma PopMoves(s: State, h: History, maxBytes: Budget, window: nat, newlyBlocked: bool)
    requires Inv(s, h)
    ensures var r := PopStep(s, maxBytes, window, newlyBlocked);
            && (s.finSent ==> r.s.finSent && r.s.writeOffset == s.writeOffset)
            && (r.frame.None? ==> r.s.writeOffset == s.writeOffset && r.s.finSent == s.finSent)
            && (r.frame.Some? ==>
                  if s.queue == [] then r.frame.value.offset == s.writeOffset
                      && r.s.writeOffset == s.writeOffset + |r.frame.value.data|
                  else r.s.writeOffset == s.writeOffset)
            && r.s.resetErr == s.resetErr && (s.resetErr.Some? ==> r.s == s && r.frame.None?)
  {
    hide Placed, MaxStreamDataLen, Length;
  }

  lemma FrameSent(w: World, r: Pops)
    requires Sequenced(w.s, w.h, w.all, w.firsts) && r.frame.Some? && r.s.resetErr.None?
    requires Inv(r.s, w.h.(inFlight := w.h.inFlight + [r.frame.value]))
    requires w.s.finSent ==> r.s.finSent && r.s.writeOffset == w.s.writeOffset
    requires if w.s.queue == [] then r.frame.value.offset == w.s.writeOffset
             && r.s.writeOffset == w.s.writeOffset + |r.frame.value.data|
             else r.s.writeOffset == w.s.writeOffset
    ensures Sequenced(r.s, w.h.(inFlight := w.h.inFlight + [r.frame.value]), w.all + [r.frame.value],
                      w.firsts + if w.s.queue == [] then [r.frame.value] else [])
  {
    hide Contiguous, Payload;
    var f := r.frame.value;
    var h := w.h.(inFlight := w.h.inFlight + [f]);
    LastInFlight(h.stream, w.s.writeOffset, w.s.finSent, r.s.writeOffset, r.s.finSent, Where(r.s, h), w.all);
    if w.s.queue == [] {
      NewPayload(h.stream, w.s.writeOffset, w.firsts, f);
    } else {
      assert w.firsts + [] == w.firsts;
    }
  }

  lemma NewPayload(stream: seq<Byte>, writeOffset: nat, firsts: seq<StreamFrame>, f: StreamFrame)
    requires Contiguous(firsts) && writeOffset <= |stream| && Payload(firsts) == stream[..writeOffset]
    requires f.offset == writeOffset && IsSlice(stream, f.offset, f.data)
    ensures Contiguous(firsts + [f])
    ensures writeOffset + |f.data| <= |stream| && Payload(firsts + [f]) == stream[..writeOffset + |f.data|]
  {
    AppendPayload(firsts, f);
    assert stream[..writeOffset] + stream[writeOffset..writeOffset + |f.data|] == stream[..writeOffset + |f.data|];
  }

  lemma LastInFlight(stream: seq<Byte>, writeOffset: nat, finSent: bool, writeOffset': nat, finSent': bool, p: Places,
                     all: seq<StreamFrame>)
    requires p.inFlight != [] && Placed(stream, writeOffset', finSent', p) && AllSent(stream, writeOffset, finSent, all)
    requires writeOffset <= writeOffset' && (finSent ==> finSent' && writeOffset' == writeOffset)
    ensures var f := p.inFlight[|p.inFlight| - 1];
            IsSlice(stream, f.offset, f.data) && AllSent(stream, writeOffset', finSent', all + [f])
  {
    assert forall i | 0 <= i < |all| :: Sent(stream, writeOffset, finSent, all[i])
                                        ==> Sent(stream, writeOffset', finSent', all[i]);
  }

  lemma {:induction false} RunKeepsInv(streamID: nat, ops: seq<Op>)
    ensures WorldInv(Run(streamID, ops))
  {
    hide WorldInv, Step;
    if ops == [] {
      StartInv(streamID);
    } else {
      RunKeepsInv(streamID, ops[..|ops| - 1]);
      StepKeepsInv(Run(streamID, ops[..|ops| - 1]), ops[|ops| - 1]);
    }
  }

  lemma StartInv(streamID: nat)
    ensures WorldInv(Start(streamID))
  {
    InitialInv(streamID);
  }

  /** The FIN and all data are acknowledged. */
  ghost predicate Delivered(w: World) {
    Fins(w.h.acked) == 1 && forall x: nat | x < |w.h.stream| :: Copies(w.h.acked, x) == 1
  }

  /** Any run.  What is sent is part of what was written; the new frames are contiguous and carry a prefix
      of it.  Completion is reported at most once.  Without a reset, every byte that was sent is in
      exactly one frame that is acknowledged, in flight or queued for retransmission; and completion
      has been reported exactly if the FIN and all written bytes are acknowledged.  After a reset,
      the RESET_STREAM frame is in exactly one place, and the only frame outstanding. */
  lemma Conservation(streamID: nat, ops: seq<Op>)
    ensures var w := Run(streamID, ops);
            && w.h.completions <= 1
            && Contiguous(w.firsts) && Payload(w.firsts) <= w.h.stream
            && (forall f | f in w.all :: IsSlice(w.h.stream, f.offset, f.data)
                                         && (f.fin ==> f.offset + |f.data| == |w.h.stream|))
            && Among(w.h.inFlight, w.all) && Among(w.h.acked, w.all)
    ensures var w := Run(streamID, ops);
            w.s.resetErr.None? ==>
              && (forall x: nat ::
                    Copies(w.h.acked, x) + Copies(w.h.inFlight, x) + Copies(w.s.queue, x) ==
                    if x < |Payload(w.firsts)| then 1 else 0)
              && w.s.outstanding == |w.h.inFlight|
              && (w.h.completions == 1 <==> Delivered(w))
    ensures var w := Run(streamID, ops);
            w.s.resetErr.Some? ==>
              && w.s.queue == [] && w.h.resetPlace != NoReset
              && (w.s.queuedReset.Some? <==> w.h.resetPlace == Queued)
              && w.s.outstanding == if w.h.resetPlace == InFlight then 1 else 0
  {
    RunKeepsInv(streamID, ops);
    var w := Run(streamID, ops);
    hide Contiguous, Payload, Run;
    forall f | f in w.all ensures IsSlice(w.h.stream, f.offset, f.data)
        && (f.fin ==> f.offset + |f.data| == |w.h.stream|) {
      assert Sent(w.h.stream, w.s.writeOffset, w.s.finSent, f);
    }
    if w.s.resetErr.None? {
      DeliveredExactly(w.h.stream, w.s.writeOffset, w.s.finSent, Where(w.s, w.h));
    }
  }

  /** What was written: the data of the Writes that were accepted, in order. */
  lemma WrittenBy(streamID: nat, ops: seq<Op>, op: Op)
    ensures var w := Run(streamID, ops);
            Run(streamID, ops + [op]).h.stream ==
            if op.Write? && !w.s.writing && w.s.resetErr.None? && !w.s.finishedWriting then w.h.stream + op.p
                else w.h.stream
  {
    hide Completable, WriteStep, ResumeStep, CloseStep, PopStep, CancelStep, AckStep, ResetAckedStep;
    assert (ops + [op])[..|ops|] == ops;
    assert Run(streamID, ops).h.stream + [] == Run(streamID, ops).h.stream;
  }

  /** The largest offset that flow control has allowed so far: the end of a window that was open when a frame was
      asked for. */
  function Allowed(streamID: nat, ops: seq<Op>): nat {
    if ops == [] then 0
    else
      var before, op := ops[..|ops| - 1], ops[|ops| - 1];
      var end := if op.Pop? then Run(streamID, before).s.writeOffset + op.window else 0;
      if end > Allowed(streamID, before) then end else Allowed(streamID, before)
  }

  lemma StepWindow(w: World, op: Op)
    requires WorldInv(w)
    ensures Step(w, op).s.writeOffset <= w.s.writeOffset + if op.Pop? then op.window else 0
  {
    hide Inv, AllSent, Contiguous, Payload, PopStep, Pending, Maximal;
    if op.Pop? {
      PopMoves(w.s, w.h, op.maxBytes, op.window, op.newlyBlocked);
      if w.s.resetErr.None? && w.s.queue == [] {
        PopTakes(w.s, w.h, op.maxBytes, op.window, op.newlyBlocked);
        TakesWindow(w.s, PopStep(w.s, op.maxBytes, op.window, op.newlyBlocked), op.maxBytes, op.window,
                    op.newlyBlocked);
      }
    } else {
      StepMoves(w, op);
    }
  }

  /** Any run respects flow control: no frame, new or retransmitted, reaches beyond what has been allowed. */
  lemma {:induction false} FlowControlled(streamID: nat, ops: seq<Op>)
    ensures var w := Run(streamID, ops);
            && w.s.writeOffset <= Allowed(streamID, ops)
            && forall f | f in w.all :: f.offset + |f.data| <= Allowed(streamID, ops)
  {
    hide Inv, Step, Contiguous, Payload;
    RunKeepsInv(streamID, ops);
    var w := Run(streamID, ops);
    forall f | f in w.all ensures f.offset + |f.data| <= w.s.writeOffset {
      assert Sent(w.h.stream, w.s.writeOffset, w.s.finSent, f);
    }
    if ops != [] {
      var n := |ops| - 1;
      FlowControlled(streamID, ops[..n]);
      RunKeepsInv(streamID, ops[..n]);
      StepWindow(Run(streamID, ops[..n]), ops[n]);
    }
  }

  /** Completion is due: RESET_STREAM is acknowledged, and the application knows. */
  predicate Due(w: World) {
    w.h.resetPlace == Acknowledged && Aware(w.s)
  }

  /** A Write that was overtaken by a reset buffers the rest of its data, before completion is due. */
  predicate Overtakes(w: World, op: Op) {
    && op.Resume? && w.s.writing && w.s.resetErr.Some?
    && w.s.dataForWriting != [] && CanBuffer(w.s)
    && !Due(w) && !w.s.completed
  }

  ghost predicate Overtaken(streamID: nat, ops: seq<Op>) {
    exists i :: 0 <= i < |ops| && Overtakes(Run(streamID, ops[..i]), ops[i])
  }

  lemma OvertakenStep(streamID: nat, ops: seq<Op>)
    requires ops != []
    ensures var before := ops[..|ops| - 1];
            Overtaken(streamID, ops) <==> Overtaken(streamID, before)
                                          || Overtakes(Run(streamID, before), ops[|ops| - 1])
  {
    hide Overtakes, Run;
    var n := |ops| - 1;
    var before := ops[..n];
    if Overtaken(streamID, ops) {
      var i :| 0 <= i < |ops| && Overtakes(Run(streamID, ops[..i]), ops[i]);
      if i < n {
        assert ops[..i] == before[..i] && before[i] == ops[i];
      }
    }
    if Overtaken(streamID, before) {
      var i :| 0 <= i < n && Overtakes(Run(streamID, before[..i]), before[i]);
      assert ops[..i] == before[..i] && before[i] == ops[i];
    }
  }

  // What an overtaken Write leaves behind.
  ghost predicate Lingering(w: World, overtaken: bool) {
    && (w.s.resetErr.None? ==> !overtaken)
    && (w.s.resetErr.Some? && !Due(w) ==> (overtaken <==> w.s.nextFrame.Some? && !w.s.completed))
    && (w.s.resetErr.Some? && Due(w) ==> (overtaken <==> !w.s.completed) && (overtaken ==> w.s.nextFrame.Some?))
  }

  lemma LingeringStep(w: World, op: Op, overtaken: bool)
    requires Inv(w.s, w.h) && Lingering(w, overtaken)
    ensures Lingering(Step(w, op), overtaken || Overtakes(w, op))
  {
    hide Inv, Step, Lingering;
    match op
    case Pop(maxBytes, window, newlyBlocked) => LingeringPop(w, maxBytes, window, newlyBlocked, overtaken);
    case Resume => LingeringResume(w, overtaken);
    case AckReset => LingeringReset(w, op, overtaken);
    case LoseReset => LingeringReset(w, op, overtaken);
    case SendReset => LingeringReset(w, op, overtaken);
    case _ => LingeringOther(w, op, overtaken);
  }

  lemma LingeringPop(w: World, maxBytes: Budget, window: nat, newlyBlocked: bool, overtaken: bool)
    requires Inv(w.s, w.h) && Lingering(w, overtaken)
    ensures Lingering(Step(w, Pop(maxBytes, window, newlyBlocked)), overtaken)
  {
    hide PopStep, Inv;
    PopMoves(w.s, w.h, maxBytes, window, newlyBlocked);
  }

  lemma LingeringReset(w: World, op: Op, overtaken: bool)
    requires Inv(w.s, w.h) && Lingering(w, overtaken) && (op.SendReset? || op.AckReset? || op.LoseReset?)
    ensures Lingering(Step(w, op), overtaken)
  {
    hide Placed;
  }

  lemma LingeringOther(w: World, op: Op, overtaken: bool)
    requires Inv(w.s, w.h) && Lingering(w, overtaken)
    requires op.Write? || op.Close? || op.Ack? || op.Lose? || op.Cancel? || op.StopSending?
    ensures Lingering(Step(w, op), overtaken)
  {
    hide Placed, Remove;
  }

  lemma LingeringResume(w: World, overtaken: bool)
    requires Inv(w.s, w.h) && Lingering(w, overtaken)
    ensures Lingering(Step(w, Resume), overtaken || Overtakes(w, Resume))
  {
  }

  lemma {:induction false} RunLingers(streamID: nat, ops: seq<Op>)
    ensures Lingering(Run(streamID, ops), Overtaken(streamID, ops))
  {
    hide Lingering, Step, Overtaken, Overtakes;
    if ops == [] {
      NothingLingers(streamID);
    } else {
      var n := |ops| - 1;
      RunLingers(streamID, ops[..n]);
      RunKeepsInv(streamID, ops[..n]);
      OvertakenStep(streamID, ops);
      LingeringStep(Run(streamID, ops[..n]), ops[n], Overtaken(streamID, ops[..n]));
    }
  }

  lemma NothingLingers(streamID: nat)
    ensures Lingering(Start(streamID), Overtaken(streamID, []))
  {
  }

  /** After a reset, once completion is due, it has been reported if and only if no Write was overtaken. */
  lemma ResetCompletes(streamID: nat, ops: seq<Op>)
    requires Run(streamID, ops).s.resetErr.Some? && Due(Run(streamID, ops))
    ensures Run(streamID, ops).h.completions == 1 <==> !Overtaken(streamID, ops)
  {
    hide Run, Overtaken;
    RunLingers(streamID, ops);
    RunKeepsInv(streamID, ops);
  }

  /** A Write that was overtaken is never made up for: whatever happens next, completion is not reported. */
  lemma NeverCompletes(streamID: nat, ops: seq<Op>, more: seq<Op>)
    requires Overtaken(streamID, ops)
    ensures Run(streamID, ops + more).h.completions == 0
  {
    hide Run;
    var i :| 0 <= i < |ops| && Overtakes(Run(streamID, ops[..i]), ops[i]);
    var all := ops + more;
    assert all[..i] == ops[..i] && all[i] == ops[i];
    assert Overtaken(streamID, all);
    RunLingers(streamID, all);
    RunKeepsInv(streamID, all);
  }

  /** It does happen: a cancellation overtakes a Write that is about to buffer the rest of its data. */
  lemma CancelledWriteLingers(p: seq<Byte>, more: seq<Op>)
    requires MAX_PACKET_BUFFER_SIZE < |p| <= MAX_PACKET_BUFFER_SIZE + 1020
    ensures var ops := [Write(p), Pop(1024, 100000, false), Cancel(7), Resume, SendReset, AckReset];
            && Due(Run(4, ops)) && Run(4, ops).h.stream == p
            && Run(4, ops + more).h.completions == 0
  {
    hide Run, Step, Due, Overtakes;
    var ops := [Write(p), Pop(1024, 100000, false), Cancel(7), Resume, SendReset, AckReset];
    var w := OvertakeExample(p);
    assert ops[..3] == [Write(p), Pop(1024, 100000, false), Cancel(7)];
    AcknowledgeExample(w, p);
    assert Overtakes(Run(4, ops[..3]), ops[3]);
    NeverCompletes(4, ops, more);
    assert Run(4, ops) == Step(Step(Step(w, Resume), SendReset), AckReset) by {
      assert ops[..6] == ops;
      RunPrefix(4, ops, 3);
      RunPrefix(4, ops, 4);
      RunPrefix(4, ops, 5);
    }
  }

  lemma RunPrefix(streamID: nat, ops: seq<Op>, i: nat)
    requires i < |ops|
    ensures Run(streamID, ops[..i + 1]) == Step(Run(streamID, ops[..i]), ops[i])
  {
    hide Step;
    assert ops[..i + 1][..i] == ops[..i];
  }

  lemma AcknowledgeExample(w: World, p: seq<Byte>)
    requires MAX_PACKET_BUFFER_SIZE < |p| <= MAX_PACKET_BUFFER_SIZE + 1020
    requires w.s.writing && w.s.resetErr == Some(7) && w.s.dataForWriting == p[1020..] && w.s.nextFrame.None?
             && w.s.cancellationFlagged
    requires w.h.resetPlace == Queued && w.s.queuedReset.Some? && !w.s.completed && w.s.outstanding == 0
             && w.h.stream == p
    ensures Overtakes(w, Resume)
    ensures var v := Step(Step(Step(w, Resume), SendReset), AckReset); Due(v) && v.h.stream == p
  {
    hide Completable;
    assert Step(w, Resume).h.resetPlace == Queued;
  }

  lemma OvertakeExample(p: seq<Byte>) returns (w: World)
    requires MAX_PACKET_BUFFER_SIZE < |p| <= MAX_PACKET_BUFFER_SIZE + 1020
    ensures w == Run(4, [Write(p), Pop(1024, 100000, false), Cancel(7)])
    ensures w.s.writing && w.s.resetErr == Some(7) && w.s.dataForWriting == p[1020..] && w.s.nextFrame.None?
            && w.s.cancellationFlagged
    ensures w.h.resetPlace == Queued && w.s.queuedReset.Some? && !w.s.completed && w.s.outstanding == 0
            && w.h.stream == p
  {
    hide MaxStreamDataLen, Run;
    assert MaxStreamDataLen(4, 0, true, 1024) == 1020 by { BudgetFor1024(); }
    var ops := [Write(p), Pop(1024, 100000, false), Cancel(7)];
    assert ops[..0] == [] && ops[..3] == ops;
    RunPrefix(4, ops, 0);
    RunPrefix(4, ops, 1);
    RunPrefix(4, ops, 2);
    var w0 := Run(4, ops[..0]);
    assert w0 == Start(4) by { RunNothing(4); }
    var w1 := Step(w0, ops[0]);
    assert [] + p == p && w1.s.dataForWriting == p && w1.s.writing && w1.h.stream == p;
    var w2 := Step(w1, ops[1]);
    assert w2.s.dataForWriting == p[1020..];
    w := Step(w2, ops[2]);
  }

  lemma RunNothing(streamID: nat)
    ensures Run(streamID, []) == Start(streamID)
  {
  }

  lemma BudgetFor1024()
    ensures MaxStreamDataLen(4, 0, true, 1024) == 1020
  {
  }
}
