/** A stream from end to end: what one side writes, the other side reads, whatever the network does
    to the frames.
 */
module EndToEnd {
  import opened StreamBytes
  import opened Wire
  import opened FrameLedger
  import opened Tiling
  import opened FrameSorting
  import opened Reassembly
  import SendRuns
  import opened ReceiveStreaming
  import opened ReceiveRuns

  /** The network delivers a frame that was sent, in any order and as often as it likes, or not at all; or the
      application reads. */
  datatype Arrival = Delivers(index: nat, inWindow: bool) | Reads(n: nat)

  function EventOf(all: seq<StreamFrame>, a: Arrival): Event {
    match a
    case Delivers(i, inWindow) =>
      if i < |all| then Frame(all[i].offset, all[i].data, all[i].fin, None, inWindow) else ReadCall(0)
    case Reads(n) => ReadCall(n)
  }

  function Events(all: seq<StreamFrame>, arrivals: seq<Arrival>): (events: seq<Event>)
    ensures |events| == |arrivals|
    ensures forall k | 0 <= k < |events| :: events[k] == EventOf(all, arrivals[k])
  {
    if arrivals == [] then [] else Events(all, arrivals[..|arrivals| - 1]) + [EventOf(all, arrivals[|arrivals| - 1])]
  }

  /** The frame was delivered at least once. */
  ghost predicate Delivered(f: StreamFrame, all: seq<StreamFrame>, arrivals: seq<Arrival>) {
    exists k :: 0 <= k < |arrivals| && arrivals[k].Delivers? && arrivals[k].index < |all| && all[arrivals[k].index] == f
  }

  lemma EventsAreParts(all: seq<StreamFrame>, arrivals: seq<Arrival>, written: seq<Byte>)
    requires forall f | f in all :: IsSlice(written, f.offset, f.data) && (f.fin ==> f.offset + |f.data| == |written|)
    ensures PartsOfStream(Events(all, arrivals), written)
    ensures SizesAgree(Events(all, arrivals), |written|)
  {
    var events := Events(all, arrivals);
    forall e: Event | e in events && e.Frame?
      ensures IsSlice(written, e.offset, e.data) && e.offset + |e.data| <= |written|
              && (e.fin ==> e.offset + |e.data| == |written|)
    {
      var k :| 0 <= k < |events| && events[k] == e;
      assert all[arrivals[k].index] in all;
    }
  }

  // An acknowledged byte has arrived.
  lemma {:induction false} CopiesSome(fs: seq<StreamFrame>, x: nat) returns (f: StreamFrame)
    requires Copies(fs, x) > 0
    ensures f in fs && f.offset <= x < f.offset + |f.data|
  {
    if Covers(fs[0], x) > 0 {
      f := fs[0];
    } else {
      f := CopiesSome(fs[1..], x);
    }
  }

  lemma {:induction false} FinsSome(fs: seq<StreamFrame>) returns (f: StreamFrame)
    requires Fins(fs) > 0
    ensures f in fs && f.fin
  {
    if fs[0].fin {
      f := fs[0];
    } else {
      f := FinsSome(fs[1..]);
    }
  }

  lemma DeliveredArrives(f: StreamFrame, all: seq<StreamFrame>, arrivals: seq<Arrival>, x: nat)
    requires Delivered(f, all, arrivals)
    ensures f.offset <= x < f.offset + |f.data| ==> Arrived(Steps(Events(all, arrivals)), x)
    ensures exists e: Event :: e in Events(all, arrivals) && e.Frame? && e.fin == f.fin && e.offset == f.offset
                               && e.data == f.data
  {
    var k :| 0 <= k < |arrivals| && arrivals[k].Delivers? && arrivals[k].index < |all| && all[arrivals[k].index] == f;
    var e := EventOf(all, arrivals[k]);
    assert Events(all, arrivals)[k] == e;
    assert Steps(Events(all, arrivals))[k] == StepOf(e);
    assert f.offset <= x < f.offset + |f.data| ==> Carries(Steps(Events(all, arrivals))[k], x);
  }

  /** The end that the reader reports is the end of what was written. */
  lemma EndMeansAll(events: seq<Event>, written: seq<Byte>, out: seq<Byte>)
    requires EndIs(events, |out|, true) && SizesAgree(events, |written|) && out <= written
             && |written| <= MAX_BYTE_COUNT
    ensures out == written
  {
  }

  /** If every acknowledged frame was delivered and the FIN and all data are acknowledged, the reader gets to
      the end. */
  lemma CompletionMeansEnd(w: SendRuns.World, arrivals: seq<Arrival>, out: seq<Byte>, eof: bool)
    requires SendRuns.Delivered(w) && (forall f | f in w.h.acked :: Delivered(f, w.all, arrivals))
    requires SizesAgree(Events(w.all, arrivals), |w.h.stream|)
    requires out <= w.h.stream && EndIs(Events(w.all, arrivals), |out|, eof)
    requires !eof ==> !Arrived(Steps(Events(w.all, arrivals)), |out|)
    ensures eof
  {
    hide Arrived, Steps, Events, Delivered, Fins, Copies;
    var fin := FinsSome(w.h.acked);
    DeliveredArrives(fin, w.all, arrivals, 0);
    if |out| < |w.h.stream| {
      assert Copies(w.h.acked, |out|) == 1;
      var f := CopiesSome(w.h.acked, |out|);
      DeliveredArrives(f, w.all, arrivals, |out|);
    }
  }

  /** Any run of a sender, and any behaviour of the network and of the reader.  The reader gets
      a prefix of what was written, and never an error about the final size, and other errors exactly as
      Failure says; if it gets to the end, it has all of it.
      And completion at the sender means delivery: if it has been reported without a reset, and all that was
      acknowledged was in fact delivered, the reader gets all of it, and the end. */
  method Transfer(streamID: nat, ops: seq<SendRuns.Op>, arrivals: seq<Arrival>)
    returns (out: seq<Byte>, eof: bool, done: nat, err: Option<FrameError>)
    requires |SendRuns.Run(streamID, ops).h.stream| <= MAX_BYTE_COUNT
    ensures var w := SendRuns.Run(streamID, ops);
            var events := Events(w.all, arrivals);
            && done <= |events| && (forall i | 0 <= i < done :: Failure(events[..i], events[i]) == None)
            && err == (if done < |events| then Failure(events[..done], events[done]) else None)
            && (err == None <==> done == |events|)
    ensures var w := SendRuns.Run(streamID, ops);
            && out <= w.h.stream && err != Some(FinalSizeError)
            && (forall x | 0 <= x < |out| :: Arrived(Steps(Events(w.all, arrivals)[..done]), x))
            && (err == None && !eof ==> !Arrived(Steps(Events(w.all, arrivals)), |out|))
            && (err == None && eof ==> out == w.h.stream)
            && (err == None && w.s.resetErr == None && w.h.completions == 1
                && (forall f | f in w.h.acked :: Delivered(f, w.all, arrivals)) ==>
                  eof && out == w.h.stream)
  {
    hide Arrived, Steps, Events, Delivered, EndIs, SizesAgree, PartsOfStream, SendRuns.Delivered, SendRuns.Contiguous,
         SendRuns.Payload, SendRuns.Among, SendRuns.Run, Fins, Copies, IsSlice, Given, Failure;
    SendRuns.Conservation(streamID, ops);
    var w := SendRuns.Run(streamID, ops);
    var events := Events(w.all, arrivals);
    EventsAreParts(w.all, arrivals, w.h.stream);
    var s;
    ghost var books;
    s, out, eof, done, err, books := ReadStream(events, w.h.stream);
    if err == None {
      if w.s.resetErr == None && w.h.completions == 1 && forall f | f in w.h.acked :: Delivered(f, w.all, arrivals) {
        CompletionMeansEnd(w, arrivals, out, eof);
      }
      if eof {
        EndMeansAll(events, w.h.stream, out);
      }
    }
  }

  lemma SentParts(streamID: nat, ops: seq<SendRuns.Op>)
    ensures var w := SendRuns.Run(streamID, ops);
            forall f | f in w.all :: IsSlice(w.h.stream, f.offset, f.data)
                                     && (f.fin ==> f.offset + |f.data| == |w.h.stream|)
  {
    hide SendRuns.Run, IsSlice, SendRuns.Delivered, SendRuns.Contiguous, SendRuns.Payload, SendRuns.Among, Copies;
    SendRuns.Conservation(streamID, ops);
  }

  /** With room in the windows, the reader does not fail before 20000 frames have arrived. */
  lemma FewArrivals(streamID: nat, ops: seq<SendRuns.Op>, arrivals: seq<Arrival>, i: nat)
    requires forall k | 0 <= k < |arrivals| && arrivals[k].Delivers? :: arrivals[k].inWindow
    requires i < |arrivals| && i < MAX_STREAM_FRAME_SORTER_GAPS - 1
    ensures var events := Events(SendRuns.Run(streamID, ops).all, arrivals);
            Failure(events[..i], events[i]) == None
  {
    hide SendRuns.Run, Failure, SizesAgree, Events, EventOf;
    var w := SendRuns.Run(streamID, ops);
    SentAgree(streamID, ops, arrivals);
    InWindow(w.all, arrivals[i]);
    EarlySucceeds(Events(w.all, arrivals), i, |w.h.stream|);
  }

  lemma SentAgree(streamID: nat, ops: seq<SendRuns.Op>, arrivals: seq<Arrival>)
    ensures var w := SendRuns.Run(streamID, ops); SizesAgree(Events(w.all, arrivals), |w.h.stream|)
  {
    hide SendRuns.Run, SizesAgree, PartsOfStream, IsSlice, Events;
    var w := SendRuns.Run(streamID, ops);
    SentParts(streamID, ops);
    EventsAreParts(w.all, arrivals, w.h.stream);
  }

  lemma InWindow(all: seq<StreamFrame>, a: Arrival)
    requires a.Delivers? ==> a.inWindow
    ensures EventOf(all, a).Frame? ==> EventOf(all, a).inWindow
  {
  }
}
