/** Whole runs of a receive stream. */
module ReceiveRuns {
  import opened StreamBytes
  import opened Tiling
  import opened FrameSorting
  import opened Reassembly
  import opened ReceiveStreaming

  datatype Event =
    | Frame(offset: nat, data: seq<Byte>, fin: bool, doneCb: Option<Callback>, inWindow: bool)
    | ReadCall(n: nat)

  function StepOf(e: Event): Step {
    match e
    case Frame(offset, data, _, doneCb, _) => Arrive(offset, data, doneCb)
    case ReadCall(_) => Step.Read
  }

  function Steps(events: seq<Event>): seq<Step> {
    seq(|events|, i requires 0 <= i < |events| => StepOf(events[i]))
  }

  ghost predicate PartsOfStream(events: seq<Event>, stream: seq<Byte>) {
    forall e: Event | e in events && e.Frame? :: IsSlice(stream, e.offset, e.data)
  }

  /** The end of what has arrived. */
  ghost function Highest(events: seq<Event>): nat {
    if events == [] then 0
    else
      var before, e := Highest(events[..|events| - 1]), events[|events| - 1];
      if e.Frame? then Max(before, e.offset + |e.data|) else before
  }

  ghost predicate HasFin(events: seq<Event>) {
    exists e: Event :: e in events && e.Frame? && e.fin
  }

  /** The final size must stay the same, and nothing may lie beyond it. */
  ghost predicate SizeConflict(events: seq<Event>, e: Event)
    requires e.Frame?
  {
    SizeMismatch(HasFin(events), Highest(events), e.offset + |e.data|, e.fin)
  }

  /** How an event fails after others that did not. */
  ghost function Failure(events: seq<Event>, e: Event): Option<FrameError> {
    if !e.Frame? then None
    else if SizeConflict(events, e) then Some(FinalSizeError)
    else if e.offset + |e.data| > Highest(events) && !e.inWindow then Some(FlowControlError)
    else if Overflows(Steps(events), e.offset, e.data) then Some(TooManyGapsError)
    else None
  }

  /** All frames agree on the final size, if one of them has given it; highest is the end of what
      has arrived. */
  ghost predicate FinalSize(events: seq<Event>, known: bool, size: nat, highest: nat) {
    && (known <==> HasFin(events)) && highest == Highest(events)
    && (forall e: Event | e in events && e.Frame? && e.fin :: e.offset + |e.data| == size)
    && (forall e: Event | e in events && e.Frame? :: e.offset + |e.data| <= highest)
    && highest <= size && (!known ==> size == MAX_BYTE_COUNT) && (known ==> size == highest)
  }

  /** The frames are those of a stream of n bytes. */
  ghost predicate SizesAgree(events: seq<Event>, n: nat) {
    forall e: Event | e in events && e.Frame? :: e.offset + |e.data| <= n && (e.fin ==> e.offset + |e.data| == n)
  }

  lemma {:induction false} HighestAgrees(events: seq<Event>, n: nat)
    requires SizesAgree(events, n)
    ensures Highest(events) <= n
  {
    if events != [] {
      assert events[|events| - 1] in events;
      HighestAgrees(events[..|events| - 1], n);
    }
  }

  lemma {:induction false} HighestCovers(events: seq<Event>, e: Event)
    requires e in events && e.Frame?
    ensures e.offset + |e.data| <= Highest(events)
  {
    var n := |events| - 1;
    if events[n] != e {
      assert e in events[..n];
      HighestCovers(events[..n], e);
    }
  }

  // A frame of such a stream is never inconsistent with those before it.
  lemma NoConflict(events: seq<Event>, e: Event, n: nat)
    requires e.Frame? && SizesAgree(events + [e], n)
    ensures !SizeConflict(events, e)
  {
    hide Highest;
    var all := events + [e];
    assert forall f :: f in all <==> f in events || f == e;
    assert e in all;
    HighestAgrees(events, n);
    if HasFin(events) {
      var f :| f in events && f.Frame? && f.fin;
      HighestCovers(events, f);
    }
  }

  /** The end is reported after n bytes exactly if the frames with a FIN end there; no frame goes beyond
      it.  (The largest offset stands for an unknown size, and is reported as the end without a FIN.) */
  ghost predicate EndIs(events: seq<Event>, n: nat, eof: bool) {
    && (forall e: Event | e in events && e.Frame? && e.fin :: e.offset + |e.data| == n <==> eof)
    && (eof ==> n == MAX_BYTE_COUNT || exists e: Event :: e in events && e.Frame? && e.fin && e.offset + |e.data| == n)
    && (eof ==> forall e: Event | e in events && e.Frame? :: e.offset + |e.data| <= n)
  }

  lemma StepsAppend(events: seq<Event>, e: Event)
    ensures Steps(events + [e]) == Steps(events) + [StepOf(e)]
  {
  }

  lemma OneMore(events: seq<Event>, e: Event)
    ensures forall f :: f in events + [e] <==> f in events || f == e
    ensures HasFin(events + [e]) <==> HasFin(events) || (e.Frame? && e.fin)
    ensures Highest(events + [e]) == if e.Frame? then Max(Highest(events), e.offset + |e.data|) else Highest(events)
  {
    var all := events + [e];
    assert all[..|events|] == events;
    assert e in all;
    assert forall f :: f in all <==> f in events || f == e;
    if HasFin(events) {
      var f :| f in events && f.Frame? && f.fin;
      assert f in all;
    }
  }

  lemma FinalSizeFrame(events: seq<Event>, known: bool, size: nat, highest: nat, e: Event, size': nat)
    requires FinalSize(events, known, size, highest) && e.Frame? && Max(highest, e.offset + |e.data|) <= size'
    requires size' == (if e.fin then e.offset + |e.data| else size) && (known ==> size' == size)
    requires known || e.fin ==> size' == Max(highest, e.offset + |e.data|)
    ensures FinalSize(events + [e], known || e.fin, size', Max(highest, e.offset + |e.data|))
  {
    OneMore(events, e);
    assert !known ==> forall f: Event | f in events && f.Frame? :: !f.fin;
    hide HasFin, Highest;
  }

  lemma FinalSizeRead(events: seq<Event>, known: bool, size: nat, highest: nat, e: Event)
    requires FinalSize(events, known, size, highest) && e.ReadCall?
    ensures FinalSize(events + [e], known, size, highest)
  {
    hide HasFin, Highest;
    OneMore(events, e);
  }

  // What holds between a stream that has seen the given events, and the bytes read from it.
  ghost predicate Matches(s: ReceiveStream, events: seq<Event>, stream: seq<Byte>, out: seq<Byte>)
    reads s, s.frameQueue
  {
    && s.Valid() && s.Settled() && s.stream == stream
    && |out| == s.readPos && out <= stream
    && GapsAre(s.frameQueue.gapTree, Steps(events))
    && FinalSize(events, s.receivedFinalOffset, s.finalOffset, s.highestReceived)
    && s.AllCallbacks() == Given(Steps(events))
  }

  lemma Extend(stream: seq<Byte>, out: seq<Byte>, data: seq<Byte>)
    requires out <= stream && IsSlice(stream, |out|, data)
    ensures out + data <= stream
  {
    assert stream[..|out|] + stream[|out|..|out| + |data|] == stream[..|out| + |data|];
  }

  /** What is stored and what is missing, and where the callbacks are: with stored data, invoked by the sorter, kept for
      the frame that is being read, or invoked once it was read. */
  datatype Account = Account(
    stored: Queue,
    gaps: Gaps,
    dropped: multiset<Callback>,
    held: multiset<Callback>,
    read: multiset<Callback>)

  ghost function AccountOf(s: ReceiveStream): Account
    reads s`invoked, s`errorRead, s`currentFrameDone, s.frameQueue`queue, s.frameQueue`gapTree, s.frameQueue`released
  {
    Account(s.frameQueue.queue, s.frameQueue.gapTree, s.frameQueue.released, s.Held(), s.invoked)
  }

  /** What the sorter sees: what is read is handed out. */
  ghost function LedgerOf(a: Account): Ledger {
    Ledger(a.stored, a.gaps, a.dropped, a.read + a.held)
  }

  /** A frame brings its callback, which is stored or invoked by the sorter.  A read moves stored ones to the reader. */
  ghost predicate Settles(a: Account, e: Event, b: Account) {
    Moves(LedgerOf(a), StepOf(e), LedgerOf(b)) && (e.Frame? ==> b.held == a.held && b.read == a.read)
  }

  ghost function Ledgers(books: seq<Account>): seq<Ledger> {
    seq(|books|, i requires 0 <= i < |books| => LedgerOf(books[i]))
  }

  /** The accounts are settled event by event, from nothing, and the books of the sorter are kept. */
  ghost predicate AllSettled(books: seq<Account>, events: seq<Event>) {
    && |books| == |events| + 1 && Kept(Ledgers(books), Steps(events))
    && forall i | 0 <= i < |events| :: Settles(books[i], events[i], books[i + 1])
  }

  lemma SettledMore(books: seq<Account>, events: seq<Event>, e: Event, b: Account)
    requires AllSettled(books, events) && Settles(books[|events|], e, b) && GapsAre(b.gaps, Steps(events + [e]))
    ensures AllSettled(books + [b], events + [e])
  {
    hide Moves, GapsAre, Kept;
    var books', events' := books + [b], events + [e];
    assert Ledgers(books') == Ledgers(books) + [LedgerOf(b)];
    StepsAppend(events, e);
    KeptMore(Ledgers(books), Steps(events), StepOf(e), LedgerOf(b));
    forall i | 0 <= i < |events'| ensures Settles(books'[i], events'[i], books'[i + 1]) {
      if i < |events| {
        assert Settles(books[i], events[i], books[i + 1]);
      }
    }
  }

  lemma AllOf(s: ReceiveStream)
    ensures s.AllCallbacks() == Callbacks(AccountOf(s).stored) + AccountOf(s).dropped + s.popped
  {
  }

  lemma PaidOf(s: ReceiveStream)
    requires s.Valid()
    ensures Paid(s.popped, AccountOf(s).read, AccountOf(s).held)
  {
    hide Tiles, Agrees, Position, NothingFrom, Sizes, Paid;
  }

  // The reader's own callbacks stay the same.
  lemma FrameSettles(a: Account, e: Event, b: Account, popped: multiset<Callback>)
    requires e.Frame? && b.held == a.held && b.read == a.read
    requires Provenance(a.stored, a.gaps, b.stored, e.offset, e.data, e.doneCb)
    requires Callbacks(b.stored) + b.dropped + popped == Callbacks(a.stored) + a.dropped + popped + Calls(e.doneCb)
    ensures Settles(a, e, b)
  {
    hide Calls, Callbacks, Provenance;
    var before, after := Callbacks(a.stored) + a.dropped, Callbacks(b.stored) + b.dropped;
    assert before + Calls(e.doneCb) + popped == before + popped + Calls(e.doneCb);
    Cancel(after, before + Calls(e.doneCb), popped);
  }

  lemma ReadSettles(a: Account, e: Event, b: Account, popped: multiset<Callback>, popped': multiset<Callback>)
    requires e.ReadCall? && b.dropped == a.dropped && Paid(popped, a.read, a.held) && Paid(popped', b.read, b.held)
    requires Callbacks(b.stored) + b.dropped + popped' == Callbacks(a.stored) + a.dropped + popped
    requires Leftover(a.stored, b.stored)
    ensures Settles(a, e, b)
  {
    hide Callbacks, Leftover;
    var before, after := Callbacks(a.stored), Callbacks(b.stored);
    assert after + popped' + b.dropped == after + b.dropped + popped';
    assert before + popped + a.dropped == before + a.dropped + popped;
    Cancel(after + popped', before + popped, a.dropped);
    LeftoverCallbacks(a.stored, b.stored);
    More(before, after, popped, popped');
  }

  lemma More(before: multiset<Callback>, after: multiset<Callback>, popped: multiset<Callback>,
             popped': multiset<Callback>)
    requires after + popped' == before + popped && after <= before
    ensures popped <= popped'
  {
    forall x | x in popped ensures popped[x] <= popped'[x] {
      assert (after + popped')[x] == after[x] + popped'[x] && (before + popped)[x] == before[x] + popped[x];
    }
  }

  lemma Cancel(a: multiset<Callback>, b: multiset<Callback>, c: multiset<Callback>)
    requires a + c == b + c
    ensures a == b
  {
    assert a == (a + c) - c;
    assert b == (b + c) - c;
  }

  method TakeFrame(s: ReceiveStream, e: Event, ghost events: seq<Event>, ghost stream: seq<Byte>, ghost out: seq<Byte>)
    returns (err: Option<FrameError>)
    requires e.Frame? && Matches(s, events, stream, out) && IsSlice(stream, e.offset, e.data)
    modifies s, s.frameQueue
    ensures err == Failure(events, e)
    ensures err == None ==> Matches(s, events + [e], stream, out) && Settles(old(AccountOf(s)), e, AccountOf(s))
    ensures err == Some(FinalSizeError) ==> forall n :: !SizesAgree(events + [e], n)
  {
    hide SizesAgree, Overflows, Splits, HasFin, Highest, Arrived, ReceiveStream.Valid, ReceiveStream.Settled,
         ReceiveStream.AllCallbacks, GapsAre, FinalSize, Fills, IsSlice, Steps, Given, Calls, Missing, Settles,
         Callbacks, Provenance;
    ghost var g, known, size, highest := s.frameQueue.gapTree, s.receivedFinalOffset, s.finalOffset, s.highestReceived;
    ghost var a, popped := AccountOf(s), s.popped;
    AllOf(s);
    GapsExact(s, events, stream, out, e);
    SizesExact(s, events, stream, out, e);
    err := s.HandleStreamFrame(e.offset, e.data, e.fin, e.doneCb, e.inWindow);
    assert err != None ==> err.value == FinalSizeError || err.value == FlowControlError
                           || err.value == TooManyGapsError;
    if err == None {
      AllOf(s);
      FrameSettles(a, e, AccountOf(s), popped);
      StepsAppend(events, e);
      ArriveFills(g, s.frameQueue.gapTree, Steps(events), StepOf(e));
      FinalSizeFrame(events, known, size, highest, e, s.finalOffset);
      GivenAppend(Steps(events), StepOf(e));
    } else if err == Some(FinalSizeError) {
      forall n ensures !SizesAgree(events + [e], n) {
        if SizesAgree(events + [e], n) {
          NoConflict(events, e, n);
        }
      }
    }
  }

  lemma GapsExact(s: ReceiveStream, events: seq<Event>, stream: seq<Byte>, out: seq<Byte>, e: Event)
    requires e.Frame? && Matches(s, events, stream, out)
    ensures |s.frameQueue.gapTree| == MAX_STREAM_FRAME_SORTER_GAPS
            && Splits(s.frameQueue.gapTree, e.offset, e.data) <==>
            Overflows(Steps(events), e.offset, e.data)
  {
    hide Entries, Holes, Apart, Linked, Agrees, Paid, Position, NothingFrom, Given, Callbacks, Splits, SplitsHole,
         GapsAre, FinalSize, Steps,
         Completion, HoleStarts;
    var g, readPos := s.frameQueue.gapTree, s.frameQueue.readPos;
    GapStarts(g, readPos, Steps(events));
    SplitsExactly(g, readPos, Steps(events), e.offset, e.data);
    assert |g| == |g.Keys|;
  }

  lemma SizesExact(s: ReceiveStream, events: seq<Event>, stream: seq<Byte>, out: seq<Byte>, e: Event)
    requires e.Frame? && Matches(s, events, stream, out)
    ensures s.Inconsistent(e.offset + |e.data|, e.fin) <==> SizeConflict(events, e)
    ensures s.highestReceived == Highest(events)
  {
    hide ReceiveStream.Valid, Given, GapsAre, Steps, ReceiveStream.AllCallbacks, ReceiveStream.Settled;
  }

  method TakeRead(s: ReceiveStream, n: nat, ghost events: seq<Event>, ghost stream: seq<Byte>, out: seq<Byte>)
    returns (out': seq<Byte>, r: ReadResult)
    requires Matches(s, events, stream, out)
    modifies s, s.frameQueue
    ensures Matches(s, events, stream, out') && Matches(s, events + [ReadCall(n)], stream, out')
    ensures Settles(old(AccountOf(s)), ReadCall(n), AccountOf(s))
    ensures out <= out' && |out'| <= |out| + n
    ensures r == EOF ==> |out'| == s.finalOffset && s.errorRead
    ensures r == WouldBlock ==> Missing(s.frameQueue.gapTree, |out'|) && |out'| < s.finalOffset
    ensures r == Ok && |out'| < |out| + n ==> |out| < |out'|
  {
    hide ReceiveStream.Valid, ReceiveStream.Settled, ReceiveStream.AllCallbacks, GapsAre, FinalSize, IsSlice, Steps,
         Given, Missing, Settles, Callbacks, Paid, Calls;
    var data, newlyCompleted;
    ghost var a, popped := AccountOf(s), s.popped;
    AllOf(s);
    PaidOf(s);
    data, r, newlyCompleted := s.Read(n);
    AllOf(s);
    PaidOf(s);
    ReadSettles(a, ReadCall(n), AccountOf(s), popped, s.popped);
    Extend(stream, out, data);
    out' := out + data;
    StepsAppend(events, ReadCall(n));
    ReadFills(s.frameQueue.gapTree, Steps(events));
    FinalSizeRead(events, s.receivedFinalOffset, s.finalOffset, s.highestReceived, ReadCall(n));
    GivenAppend(Steps(events), Step.Read);
  }

  method TakeEvent(s: ReceiveStream, e: Event, ghost events: seq<Event>, ghost stream: seq<Byte>, out: seq<Byte>)
    returns (out': seq<Byte>, err: Option<FrameError>)
    requires Matches(s, events, stream, out) && out <= stream && (e.Frame? ==> IsSlice(stream, e.offset, e.data))
    modifies s, s.frameQueue
    ensures err == Failure(events, e) && out' <= stream
    ensures err == None ==> Matches(s, events + [e], stream, out') && Settles(old(AccountOf(s)), e, AccountOf(s))
    ensures err != None ==> forall x | 0 <= x < |out'| :: Arrived(Steps(events), x)
    ensures err == Some(FinalSizeError) ==> forall n :: !SizesAgree(events + [e], n)
  {
    hide SizesAgree, Arrived, Matches, IsSlice, Steps, Failure, Settles, AccountOf;
    if e.Frame? {
      MatchesArrived(s, events, stream, out);
      err := TakeFrame(s, e, events, stream, out);
      out' := out;
    } else {
      var r;
      ReadsSucceed(events, e);
      out', r := TakeRead(s, e.n, events, stream, out);
      err := None;
      MatchesOut(s, events, stream, out');
    }
  }

  // Read until the stream ends, or the call would wait.
  method ReadOn(s: ReceiveStream, ghost events: seq<Event>, ghost stream: seq<Byte>, out: seq<Byte>)
    returns (out': seq<Byte>, eof: bool)
    requires Matches(s, events, stream, out)
    modifies s, s.frameQueue
    ensures Matches(s, events, stream, out')
    ensures if eof then |out'| == s.finalOffset && s.errorRead else Missing(s.frameQueue.gapTree, |out'|)
                                                                    && |out'| < s.finalOffset
    ensures Settles(old(AccountOf(s)), ReadCall(0), AccountOf(s))
  {
    hide ReceiveStream.Valid, ReceiveStream.Settled, ReceiveStream.AllCallbacks, GapsAre, FinalSize, Given, Missing,
         Steps, AccountOf;
    out' := out;
    var r := Ok;
    while r == Ok
      invariant Matches(s, events, stream, out')
      invariant Settles(old(AccountOf(s)), ReadCall(0), AccountOf(s))
      invariant r == EOF ==> |out'| == s.finalOffset && s.errorRead
      invariant r == WouldBlock ==> Missing(s.frameQueue.gapTree, |out'|) && |out'| < s.finalOffset
      decreases |stream| - |out'|, r == Ok
    {
      StreamBound(s, events, stream, out');
      out', r := TakeRead(s, MAX_BYTE_COUNT + 1, events, stream, out');
      StreamBound(s, events, stream, out');
    }
    eof := r == EOF;
  }

  lemma StreamBound(s: ReceiveStream, events: seq<Event>, stream: seq<Byte>, out: seq<Byte>)
    requires Matches(s, events, stream, out)
    ensures |out| <= |stream| <= MAX_BYTE_COUNT
  {
    hide Tiles, Missing, Agrees, GapsAre, FinalSize, Given;
  }

  lemma Summary(s: ReceiveStream, events: seq<Event>, stream: seq<Byte>, out: seq<Byte>, eof: bool)
    requires Matches(s, events, stream, out)
    requires if eof then |out| == s.finalOffset else Missing(s.frameQueue.gapTree, |out|) && |out| < s.finalOffset
    ensures forall x | 0 <= x < |out| :: Arrived(Steps(events), x)
    ensures !eof ==> !Arrived(Steps(events), |out|)
    ensures s.frameQueue.readPos >= |out|
  {
    hide Arrived, Callbacks, Agrees, FinalSize, Given, Steps;
    s.Bounds();
    PositionBounds(stream, s.readPos, s.currentFrame, s.readPosInFrame, s.frameQueue.readPos);
    forall x | 0 <= x < |out| ensures Arrived(Steps(events), x) {
      assert !Missing(s.frameQueue.gapTree, x);
    }
  }

  /** Frames arrive in any order, interleaved with reads of any size, up to the first error, which happens exactly
      as Failure says; at the end the application reads
      until the stream ends or the call would wait.  Without an error, what was read is the longest
      prefix of the stream that has arrived; the end is reported exactly if that is as long as the
      frames with a FIN say, on which all of them agree; and every callback
      was invoked by the sorter, or by the reader once its data was read, or is still stored, which none
      is after the end. */
  method ReadStream(events: seq<Event>, ghost stream: seq<Byte>)
    returns (s: ReceiveStream, out: seq<Byte>, eof: bool, done: nat, err: Option<FrameError>, ghost books: seq<Account>)
    requires |stream| <= MAX_BYTE_COUNT && PartsOfStream(events, stream)
    ensures done <= |events| && forall i | 0 <= i < done :: Failure(events[..i], events[i]) == None
    ensures err == if done < |events| then Failure(events[..done], events[done]) else None
    ensures err == None <==> done == |events|
    ensures out <= stream && forall x | 0 <= x < |out| :: Arrived(Steps(events[..done]), x)
    ensures err == Some(FinalSizeError) ==> forall n :: !SizesAgree(events, n)
    ensures fresh(s) && fresh(s.frameQueue)
    ensures err == None ==>
              && (!eof ==> !Arrived(Steps(events), |out|))
              && EndIs(events, |out|, eof) && Matches(s, events, stream, out)
              && AllSettled(books, events + [ReadCall(0)]) && books[|events| + 1] == AccountOf(s)
              && Total(AccountOf(s)) == Given(Steps(events))
              && (eof ==> AccountOf(s).stored == map[] && AccountOf(s).held == multiset{})
  {
    hide SizesAgree, Arrived, Matches, IsSlice, Given, Steps, EndIs, Failure, AllSettled, AccountOf, Total, Settles,
         GapsAre, ReceiveStream.Valid, ReceiveStream.Settled, ReceiveStream.AllCallbacks;
    s := new ReceiveStream(stream);
    out, eof, done, err := [], false, 0, None;
    FirstMatch(s, stream);
    FirstAccount(s);
    books := [AccountOf(s)];
    assert events[..0] == [];
    while done < |events|
      invariant done <= |events| && fresh(s) && fresh(s.frameQueue) && err == None
      invariant forall i | 0 <= i < done :: Failure(events[..i], events[i]) == None
      invariant Matches(s, events[..done], stream, out) && out <= stream
      invariant |books| == done + 1 && AllSettled(books, events[..done]) && books[done] == AccountOf(s)
    {
      assert events[done] in events && events[..done + 1] == events[..done] + [events[done]];
      out, err := TakeEvent(s, events[done], events[..done], stream, out);
      if err != None {
        EarlierDisagree(events, done);
        return;
      }
      GapsOf(s, events[..done + 1], stream, out);
      SettledMore(books, events[..done], events[done], AccountOf(s));
      books := books + [AccountOf(s)];
      done := done + 1;
    }
    assert events[..done] == events;
    out, eof := Finish(s, events, stream, out);
    GapsOf(s, events, stream, out);
    StepsAppend(events, ReadCall(0));
    ReadFills(AccountOf(s).gaps, Steps(events));
    SettledMore(books, events, ReadCall(0), AccountOf(s));
    books := books + [AccountOf(s)];
  }

  lemma GapsOf(s: ReceiveStream, events: seq<Event>, stream: seq<Byte>, out: seq<Byte>)
    requires Matches(s, events, stream, out)
    ensures GapsAre(AccountOf(s).gaps, Steps(events))
  {
    hide GapsAre, Steps, FinalSize, Given, ReceiveStream.Valid;
  }

  ghost function Total(a: Account): multiset<Callback> {
    a.dropped + a.read + (Callbacks(a.stored) + a.held)
  }

  lemma FirstAccount(s: ReceiveStream)
    requires s.frameQueue.queue == map[] && s.frameQueue.released == multiset{} && s.invoked == multiset{}
    requires s.Held() == multiset{} && s.frameQueue.gapTree == map[0 := MAX_BYTE_COUNT]
    ensures AllSettled([AccountOf(s)], [])
  {
    hide Kept;
    KeptNone();
    assert |Steps([])| == 0;
    assert LedgerOf(AccountOf(s)) == NOTHING_STORED;
    assert Ledgers([AccountOf(s)]) == [NOTHING_STORED];
  }

  /** In any run of the stream, a callback that is given once has not been invoked, and is not kept for the frame that
      is being read, while a large part of its frame is stored, or a part of a frame that was all new. */
  lemma BufferWaits(books: seq<Account>, events: seq<Event>, n: nat, k: nat)
    requires AllSettled(books, events) && n <= |events| && k in books[n].stored
    requires var i := Origin(Ledgers(books), n, k);
             && i < |events| && events[i].Frame? && Keeps(Steps(events), i, books[n].stored[k])
             && events[i].doneCb.Some? && Given(Steps(events))[events[i].doneCb.value] == 1
    ensures var cb := events[Origin(Ledgers(books), n, k)].doneCb.value;
            cb !in books[n].dropped && cb !in books[n].held && cb !in books[n].read
  {
    hide Kept, Settles, Given, Keeps, Origin;
    CallbackWaits(Ledgers(books), Steps(events), n, k);
  }

  // Two bytes arrive, and the first one is read.
  method ReadHalf(a: Byte, b: Byte) returns (s: ReceiveStream)
    ensures fresh(s) && fresh(s.frameQueue) && s.Valid() && s.Settled() && s.stream == [a, b] && s.readPos == 1
    ensures s.highestReceived == 2 && s.finalOffset == MAX_BYTE_COUNT && !s.receivedFinalOffset
    ensures !Missing(s.frameQueue.gapTree, 1) && s.frameQueue.readPos == 2 && !s.currentFrameIsLast
  {
    hide ReceiveStream.Valid, ReceiveStream.Settled, ReceiveStream.AllCallbacks, Missing, Fills, Provenance, Leftover;
    ghost var stream := [a, b];
    s := new ReceiveStream(stream);
    ghost var g := s.frameQueue.gapTree;
    assert IsSlice(stream, 0, [a, b]) && |g| == 1;
    var err := s.HandleStreamFrame(0, [a, b], false, None, true);
    ErrorIs(err);
    ghost var q := s.frameQueue.queue;
    FirstEntry([a, b], q);
    StillFilled(g, s.frameQueue.gapTree, 0, [a, b], 0);
    StillFilled(g, s.frameQueue.gapTree, 0, [a, b], 1);
    var _, _, _ := s.Read(1);
    ReadAhead(s, q);
  }

  /** The end is not reported with the last byte if it becomes known only after the last frame was begun. */
  method LateFin(a: Byte, b: Byte) returns (s: ReceiveStream, data: seq<Byte>, r: ReadResult)
    ensures fresh(s) && data == [b] && s.readPos == s.finalOffset == 2 && s.receivedFinalOffset && r == Ok
  {
    hide ReceiveStream.Valid, ReceiveStream.Settled, ReceiveStream.AllCallbacks, Missing, Fills, Provenance, Leftover;
    s := ReadHalf(a, b);
    ghost var g := s.frameQueue.gapTree;
    assert IsSlice(s.stream, 2, []);
    var err := s.HandleStreamFrame(2, [], true, None, true);
    ErrorIs(err);
    StillFilled(g, s.frameQueue.gapTree, 2, [], 1);
    var newly;
    data, r, newly := s.Read(1);
    assert s.stream[1..2] == [b];
  }

  lemma ErrorIs(err: Option<FrameError>)
    ensures err == None || err == Some(FinalSizeError) || err == Some(FlowControlError) || err == Some(TooManyGapsError)
  {
    match err
    case None =>
    case Some(e) =>
      assert e == FinalSizeError || e == FlowControlError || e == TooManyGapsError;
  }

  lemma FirstEntry(data: seq<Byte>, q: Queue)
    requires |data| == 2 && Provenance(map[], map[0 := MAX_BYTE_COUNT], q, 0, data, None)
    ensures forall k | k in q :: k == 0
  {
    if q != map[] {
      var s: nat, e: nat :| StoredAt(map[], map[0 := MAX_BYTE_COUNT], q, 0, data, None, s, e);
      assert 0 in map[0 := MAX_BYTE_COUNT];
      assert Missing(map[0 := MAX_BYTE_COUNT], 0);
    }
  }

  lemma StillFilled(g0: Gaps, g: Gaps, offset: nat, data: seq<Byte>, x: nat)
    requires Fills(g0, g, offset, data) && (offset <= x < offset + |data| || !Missing(g0, x))
    ensures !Missing(g, x)
  {
  }

  // The only entry has been handed out.
  lemma ReadAhead(s: ReceiveStream, q: Queue)
    requires s.Valid() && s.readPos == 1 && s.highestReceived == 2 && s.finalOffset == MAX_BYTE_COUNT
    requires (forall k | k in q :: k == 0) && Leftover(q, s.frameQueue.queue) && !Missing(s.frameQueue.gapTree, 1)
    ensures s.frameQueue.readPos == 2 && !s.currentFrameIsLast
  {
    s.Bounds();
    s.ReadPosBounded();
    hide Missing, Position, Paid, Agrees, NothingFrom, Held, Linked, Apart;
    if s.frameQueue.readPos == 1 {
      NothingHeld(s.frameQueue.queue, s.frameQueue.readPos, 1);
      TilesPartition(s.frameQueue.queue, s.frameQueue.gapTree, 1, 1);
    }
  }

  lemma NothingHeld(q: Queue, readPos: nat, x: nat)
    requires Entries(q, readPos) && readPos >= 1 && forall k | k in q :: k == 0
    ensures !Held(q, x)
  {
  }

  /** Frames of one stream within the window do not fail before there are 20000. */
  lemma EarlySucceeds(events: seq<Event>, i: nat, n: nat)
    requires SizesAgree(events, n) && i < |events| && i < MAX_STREAM_FRAME_SORTER_GAPS - 1
             && (events[i].Frame? ==> events[i].inWindow)
    ensures Failure(events[..i], events[i]) == None
  {
    hide SizesAgree, SizeConflict, HoleStarts, SplitsHole, Highest;
    EarlierAgree(events, i, n);
    if events[i].Frame? {
      NoConflict(events[..i], events[i], n);
      FewHoles(Steps(events[..i]));
    }
  }

  lemma ReadsSucceed(events: seq<Event>, e: Event)
    requires e.ReadCall?
    ensures Failure(events, e) == None
  {
  }

  lemma MatchesArrived(s: ReceiveStream, events: seq<Event>, stream: seq<Byte>, out: seq<Byte>)
    requires Matches(s, events, stream, out)
    ensures forall x | 0 <= x < |out| :: Arrived(Steps(events), x)
  {
    hide Arrived, Callbacks, Agrees, FinalSize, Given, Steps, NothingFrom, Paid, Completion;
    PositionBounds(stream, s.readPos, s.currentFrame, s.readPosInFrame, s.frameQueue.readPos);
    forall x | 0 <= x < |out| ensures Arrived(Steps(events), x) {
      assert !Missing(s.frameQueue.gapTree, x);
    }
  }

  method Finish(s: ReceiveStream, ghost events: seq<Event>, ghost stream: seq<Byte>, out: seq<Byte>)
    returns (out': seq<Byte>, eof: bool)
    requires Matches(s, events, stream, out)
    modifies s, s.frameQueue
    ensures Matches(s, events, stream, out')
    ensures out' <= stream && (forall x | 0 <= x < |out'| :: Arrived(Steps(events), x))
    ensures !eof ==> !Arrived(Steps(events), |out'|)
    ensures EndIs(events, |out'|, eof)
    ensures Settles(old(AccountOf(s)), ReadCall(0), AccountOf(s)) && Total(AccountOf(s)) == Given(Steps(events))
    ensures eof ==> AccountOf(s).stored == map[] && AccountOf(s).held == multiset{}
  {
    hide Arrived, Matches, Given, Steps, Callbacks, EndIs, ReceiveStream.Held, Missing, Settles;
    out', eof := ReadOn(s, events, stream, out);
    Summary(s, events, stream, out', eof);
    Ends(s, events, stream, out', eof);
    if eof {
      MatchesValid(s, events, stream, out');
      NothingStored(s);
    }
  }

  lemma NothingStored(s: ReceiveStream)
    requires s.Valid() && s.errorRead
    ensures s.frameQueue.queue == map[] && s.Held() == multiset{}
  {
    hide Agrees, Paid;
    PositionBounds(s.stream, s.readPos, s.currentFrame, s.readPosInFrame, s.frameQueue.readPos);
    forall k | k in s.frameQueue.queue ensures false {
      TilesPartition(s.frameQueue.queue, s.frameQueue.gapTree, s.frameQueue.readPos, k);
    }
    assert s.frameQueue.queue == map[];
  }

  lemma EarlierAgree(events: seq<Event>, i: nat, n: nat)
    requires i < |events|
    ensures SizesAgree(events, n) ==> SizesAgree(events[..i] + [events[i]], n)
  {
    assert events[..i] + [events[i]] == events[..i + 1];
  }

  lemma EarlierDisagree(events: seq<Event>, i: nat)
    requires i < |events|
    ensures (forall n :: !SizesAgree(events[..i] + [events[i]], n)) ==> forall n :: !SizesAgree(events, n)
  {
    hide SizesAgree;
    forall n ensures SizesAgree(events, n) ==> SizesAgree(events[..i] + [events[i]], n) {
      EarlierAgree(events, i, n);
    }
  }

  lemma MatchesOut(s: ReceiveStream, events: seq<Event>, stream: seq<Byte>, out: seq<Byte>)
    requires Matches(s, events, stream, out)
    ensures out <= stream
  {
  }

  lemma MatchesValid(s: ReceiveStream, events: seq<Event>, stream: seq<Byte>, out: seq<Byte>)
    requires Matches(s, events, stream, out)
    ensures s.Valid()
  {
  }

  lemma FirstMatch(s: ReceiveStream, stream: seq<Byte>)
    requires s.Valid() && s.Settled() && s.stream == stream && s.readPos == 0 && s.AllCallbacks() == multiset{}
    requires s.frameQueue.gapTree == map[0 := MAX_BYTE_COUNT] && s.finalOffset == MAX_BYTE_COUNT
             && !s.receivedFinalOffset && s.highestReceived == 0
    ensures Matches(s, [], stream, [])
  {
    hide Tiles, Agrees, ReceiveStream.Valid, ReceiveStream.Settled;
    forall x: nat | x < MAX_BYTE_COUNT ensures Missing(s.frameQueue.gapTree, x) {
      assert 0 in s.frameQueue.gapTree;
    }
  }

  lemma Ends(s: ReceiveStream, events: seq<Event>, stream: seq<Byte>, out: seq<Byte>, eof: bool)
    requires Matches(s, events, stream, out)
    requires if eof then |out| == s.finalOffset else |out| < s.finalOffset
    ensures out <= stream
    ensures EndIs(events, |out|, eof)
    ensures s.frameQueue.released + s.invoked + (Callbacks(s.frameQueue.queue) + s.Held()) == Given(Steps(events))
  {
    hide Tiles, Missing, Agrees, GapsAre, Given, Callbacks, Position, Steps, Calls;
    AllPaid(Callbacks(s.frameQueue.queue), s.frameQueue.released, s.popped, s.invoked, s.Held());
  }

  lemma AllPaid(stored: multiset<Callback>, released: multiset<Callback>, popped: multiset<Callback>,
                invoked: multiset<Callback>, held: multiset<Callback>)
    requires Paid(popped, invoked, held)
    ensures released + invoked + (stored + held) == stored + released + popped
  {
  }
}
