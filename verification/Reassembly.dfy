/** Whole runs of the frame sorter, compared with a plain byte sequence. */
module Reassembly {
  import opened StreamBytes
  import opened Tiling
  import opened GapTree
  import opened FrameSorting

  datatype Step = Arrive(offset: nat, data: seq<Byte>, doneCb: Option<Callback>) | Read

  /** Some frame of the run carries offset x. */
  ghost predicate Arrived(steps: seq<Step>, x: nat) {
    exists i :: 0 <= i < |steps| && Carries(steps[i], x)
  }

  ghost predicate Carries(step: Step, x: nat) {
    step.Arrive? && step.offset <= x < step.offset + |step.data|
  }

  /** Every frame of the run is a part of the stream. */
  ghost predicate PartsOf(steps: seq<Step>, stream: seq<Byte>) {
    forall i | 0 <= i < |steps| && steps[i].Arrive? :: IsSlice(stream, steps[i].offset, steps[i].data)
  }

  /** The callbacks handed to Push in the run. */
  ghost function Given(steps: seq<Step>): multiset<Callback> {
    if steps == [] then multiset{}
    else
      var last := steps[|steps| - 1];
      Given(steps[..|steps| - 1]) + if last.Arrive? then Calls(last.doneCb) else multiset{}
  }

  ghost predicate Agrees(q: Queue, stream: seq<Byte>) {
    forall k | k in q :: IsSlice(stream, k, q[k].data)
  }

  // The gaps are exactly what has not arrived.
  ghost predicate GapsAre(g: Gaps, steps: seq<Step>) {
    forall x: nat | x < MAX_BYTE_COUNT :: Missing(g, x) <==> !Arrived(steps, x)
  }

  // The first offset of a run of offsets that have not arrived.
  ghost predicate HoleStart(steps: seq<Step>, x: nat) {
    !Arrived(steps, x) && (x == 0 || Arrived(steps, x - 1))
  }

  ghost function HoleStarts(steps: seq<Step>): set<nat> {
    set x: nat | x < MAX_BYTE_COUNT && HoleStart(steps, x)
  }

  /** The frame lies strictly inside such a run. */
  ghost predicate SplitsHole(steps: seq<Step>, offset: nat, data: seq<Byte>) {
    && data != [] && 0 < offset && offset + |data| < MAX_BYTE_COUNT
    && forall x | offset - 1 <= x <= offset + |data| :: !Arrived(steps, x)
  }

  /** The frame would leave more holes than the sorter tolerates. */
  ghost predicate Overflows(steps: seq<Step>, offset: nat, data: seq<Byte>) {
    |HoleStarts(steps)| == MAX_STREAM_FRAME_SORTER_GAPS && SplitsHole(steps, offset, data)
  }

  ghost predicate OverflowsAt(steps: seq<Step>, i: nat)
    requires i < |steps|
  {
    steps[i].Arrive? && Overflows(steps[..i], steps[i].offset, steps[i].data)
  }

  lemma GapStarts(g: Gaps, readPos: nat, steps: seq<Step>)
    requires Holes(g, readPos) && GapsAre(g, steps)
    ensures g.Keys == HoleStarts(steps)
  {
    hide Arrived, Missing;
    forall x: nat | x < MAX_BYTE_COUNT ensures x in g <==> HoleStart(steps, x) {
      KeyStarts(g, readPos, x);
    }
    assert forall k | k in g :: k < MAX_BYTE_COUNT;
    assert forall k | k in HoleStarts(steps) :: k < MAX_BYTE_COUNT && HoleStart(steps, k);
  }

  lemma KeyStarts(g: Gaps, readPos: nat, x: nat)
    requires Holes(g, readPos)
    ensures x in g <==> Missing(g, x) && (x == 0 || !Missing(g, x - 1))
  {
    if x in g {
      assert x <= x < g[x];
      assert forall j | j in g :: j < x ==> g[j] < x;
    } else {
      assert 0 < x ==> forall k | k in g :: k <= x < g[k] ==> k <= x - 1 < g[k];
    }
  }

  lemma SplitsExactly(g: Gaps, readPos: nat, steps: seq<Step>, offset: nat, data: seq<Byte>)
    requires Holes(g, readPos) && GapsAre(g, steps)
    ensures Splits(g, offset, data) <==> SplitsHole(steps, offset, data)
  {
    hide Arrived, Missing;
    if Splits(g, offset, data) {
      var k :| k in g && k < offset && offset + |data| < g[k];
      forall x | offset - 1 <= x <= offset + |data| ensures !Arrived(steps, x) {
        Inside(g, k, x);
      }
    }
    if SplitsHole(steps, offset, data) {
      assert forall x: nat | offset - 1 <= x <= offset + |data| :: Missing(g, x);
      GapAround(g, readPos, offset, data);
    }
  }

  lemma Inside(g: Gaps, k: nat, x: nat)
    requires k in g && k <= x < g[k]
    ensures Missing(g, x)
  {
  }

  lemma GapAround(g: Gaps, readPos: nat, offset: nat, data: seq<Byte>)
    requires Holes(g, readPos) && data != [] && 0 < offset
    requires forall x: nat | offset - 1 <= x <= offset + |data| :: Missing(g, x)
    ensures Splits(g, offset, data)
  {
    assert Missing(g, offset - 1);
    var k :| k in g && k <= offset - 1 < g[k];
    hide Missing;
    GapEnds(g, readPos, k);
  }

  lemma GapEnds(g: Gaps, readPos: nat, k: nat)
    requires Holes(g, readPos) && k in g
    ensures !Missing(g, g[k])
  {
    forall j | j in g ensures !(j <= g[k] < g[j]) {
      assert j < k ==> g[j] < k;
      assert k < j ==> g[k] < j;
    }
  }

  /** A frame adds at most one hole. */
  lemma OneMoreHole(steps: seq<Step>, step: Step)
    ensures |HoleStarts(steps + [step])| <= |HoleStarts(steps)| + if step.Arrive? then 1 else 0
  {
    hide Arrived;
    var more := if step.Arrive? then {step.offset + |step.data|} else {};
    forall x: nat | x < MAX_BYTE_COUNT && HoleStart(steps + [step], x) ensures x in HoleStarts(steps) + more {
      ArrivedMore(steps, step, x);
      if x > 0 {
        ArrivedMore(steps, step, x - 1);
      }
    }
    assert HoleStarts(steps + [step]) <= HoleStarts(steps) + more;
    SubsetSize(HoleStarts(steps + [step]), HoleStarts(steps) + more);
    assert |HoleStarts(steps) + more| <= |HoleStarts(steps)| + |more|;
  }

  lemma {:induction false} FewHoles(steps: seq<Step>)
    ensures |HoleStarts(steps)| <= 1 + |steps|
  {
    if steps == [] {
      assert HoleStarts([]) <= {0};
      SubsetSize(HoleStarts([]), {0});
    } else {
      var n := |steps| - 1;
      FewHoles(steps[..n]);
      OneMoreHole(steps[..n], steps[n]);
      assert steps == steps[..n] + [steps[n]];
    }
  }

  /** The first 19999 frames are never too many. */
  lemma FewFrames(steps: seq<Step>, i: nat)
    requires i < |steps| && i < MAX_STREAM_FRAME_SORTER_GAPS - 1
    ensures !OverflowsAt(steps, i)
  {
    FewHoles(steps[..i]);
  }

  lemma PushedPartsAgree(q0: Queue, g0: Gaps, q: Queue, offset: nat, data: seq<Byte>, doneCb: Option<Callback>,
                         stream: seq<Byte>)
    requires Agrees(q0, stream) && IsSlice(stream, offset, data) && Provenance(q0, g0, q, offset, data, doneCb)
    ensures Agrees(q, stream)
  {
    hide Copied, NothingNew, Missing;
    if q != q0 {
      var s: nat, e: nat :| StoredAt(q0, g0, q, offset, data, doneCb, s, e);
      SliceOfSlice(stream, offset, data, s - offset, e - offset);
    }
  }

  lemma ArriveFills(g0: Gaps, g: Gaps, steps: seq<Step>, step: Step)
    requires step.Arrive? && Fills(g0, g, step.offset, step.data)
    requires GapsAre(g0, steps)
    ensures GapsAre(g, steps + [step])
  {
    forall x: nat | x < MAX_BYTE_COUNT ensures Missing(g, x) <==> !Arrived(steps + [step], x) {
      ArrivedMore(steps, step, x);
    }
  }

  lemma ArrivedMore(steps: seq<Step>, step: Step, x: nat)
    ensures Arrived(steps + [step], x) <==> Arrived(steps, x) || Carries(step, x)
  {
    var all := steps + [step];
    if Arrived(steps, x) {
      var i :| 0 <= i < |steps| && Carries(steps[i], x);
      assert Carries(all[i], x);
    }
    if Carries(step, x) {
      assert Carries(all[|steps|], x);
    }
  }

  lemma ReadFills(g: Gaps, steps: seq<Step>)
    requires GapsAre(g, steps)
    ensures GapsAre(g, steps + [Read])
  {
    forall x: nat | x < MAX_BYTE_COUNT ensures Missing(g, x) <==> !Arrived(steps + [Read], x) {
      ArrivedMore(steps, Read, x);
    }
  }

  lemma PopExtends(q: Queue, readPos: nat, stream: seq<Byte>, out: seq<Byte>)
    requires Agrees(q, stream) && readPos in q && |out| == readPos && out <= stream
    ensures out + q[readPos].data <= stream
  {
    assert IsSlice(stream, readPos, q[readPos].data);
    var n := |q[readPos].data|;
    assert stream[..readPos] + stream[readPos..readPos + n] == stream[..readPos + n];
  }

  // What holds between a sorter that has taken the given steps and what was read from it.
  ghost predicate Follows(sorter: FrameSorter, steps: seq<Step>, stream: seq<Byte>, out: seq<Byte>)
    reads sorter
  {
    && sorter.Valid() && sorter.readPos == |out|
    && out <= stream && Agrees(sorter.queue, stream)
    && GapsAre(sorter.gapTree, steps)
  }

  /** The entry is a part of the frame. */
  ghost predicate PartOfFrame(step: Step, k: nat, entry: Entry) {
    && step.Arrive? && step.offset <= k && k + |entry.data| <= step.offset + |step.data|
    && entry.data == step.data[k - step.offset..k - step.offset + |entry.data|]
  }

  /** The entry keeps the callback of the frame, and is a part of it. */
  ghost predicate Backs(step: Step, q: Queue, k: nat)
    requires k in q
  {
    PartOfFrame(step, k, q[k]) && step.doneCb == q[k].doneCb
  }

  /** Every stored callback belongs to a frame of which a part is stored with it. */
  ghost predicate Owned(q: Queue, steps: seq<Step>) {
    forall k | k in q && q[k].doneCb.Some? :: exists i :: 0 <= i < |steps| && Backs(steps[i], q, k)
  }

  ghost predicate Caught(sorter: FrameSorter, steps: seq<Step>, stream: seq<Byte>, out: seq<Byte>,
                         handedOut: multiset<Callback>)
    reads sorter
  {
    && Follows(sorter, steps, stream, out)
    && Callbacks(sorter.queue) + sorter.released + handedOut == Given(steps)
  }

  /** What is stored and what is missing, and where the callbacks are: with stored data, invoked by the sorter, or
      handed out with data that was read. */
  datatype Ledger = Ledger(stored: Queue, gaps: Gaps, invoked: multiset<Callback>, handedOut: multiset<Callback>)

  const NOTHING_STORED := Ledger(map[], map[0 := MAX_BYTE_COUNT], multiset{}, multiset{})

  ghost function Books(sorter: FrameSorter, handedOut: multiset<Callback>): Ledger
    reads sorter`queue, sorter`gapTree, sorter`released
  {
    Ledger(sorter.queue, sorter.gapTree, sorter.released, handedOut)
  }

  /** A frame brings its callback, which is stored or invoked, like those of the data that it replaces.  A read hands
      out callbacks that were stored. */
  ghost predicate Moves(a: Ledger, step: Step, b: Ledger) {
    match step
    case Arrive(offset, data, doneCb) =>
      && b.handedOut == a.handedOut
      && Callbacks(b.stored) + b.invoked == Callbacks(a.stored) + a.invoked + Calls(doneCb)
      && Provenance(a.stored, a.gaps, b.stored, offset, data, doneCb)
    case Read =>
      && b.invoked == a.invoked && a.handedOut <= b.handedOut
      && Callbacks(b.stored) + b.handedOut == Callbacks(a.stored) + a.handedOut
      && Leftover(a.stored, b.stored)
  }

  /** The books are kept step by step, from nothing.  At any time, what is missing is what has not arrived. */
  ghost predicate Kept(books: seq<Ledger>, steps: seq<Step>) {
    && |books| == |steps| + 1 && books[0] == NOTHING_STORED
    && (forall i | 0 <= i < |steps| :: Moves(books[i], steps[i], books[i + 1]))
    && forall i | 0 <= i < |books| :: GapsAre(books[i].gaps, steps[..i])
  }

  lemma KeptMore(books: seq<Ledger>, steps: seq<Step>, step: Step, b: Ledger)
    requires Kept(books, steps) && Moves(books[|steps|], step, b) && GapsAre(b.gaps, steps + [step])
    ensures Kept(books + [b], steps + [step])
  {
    hide Moves, GapsAre;
    var books', steps' := books + [b], steps + [step];
    forall i | 0 <= i < |steps'| ensures Moves(books'[i], steps'[i], books'[i + 1]) {
      if i < |steps| {
        assert Moves(books[i], steps[i], books[i + 1]);
      }
    }
    forall i | 0 <= i < |books'| ensures GapsAre(books'[i].gaps, steps'[..i]) {
      if i < |books| {
        assert GapsAre(books[i].gaps, steps[..i]) && steps'[..i] == steps[..i];
      } else {
        assert steps'[..i] == steps';
      }
    }
  }

  /** The step that stored the entry at k, which is there after n steps. */
  ghost function Origin(books: seq<Ledger>, n: nat, k: nat): nat
    requires n < |books| && k in books[n].stored
  {
    if n == 0 then 0
    else if k in books[n - 1].stored && books[n].stored[k] == books[n - 1].stored[k] then Origin(books, n - 1, k)
    else n - 1
  }

  // A frame is kept with its callback if the part that is stored is large, or if all of it was new.
  ghost predicate Keeps(steps: seq<Step>, i: nat, entry: Entry)
    requires i < |steps| && steps[i].Arrive?
  {
    || |entry.data| >= MIN_STREAM_FRAME_BUFFER_SIZE
    || forall x | steps[i].offset <= x < steps[i].offset + |steps[i].data| ::
         x < MAX_BYTE_COUNT && !Arrived(steps[..i], x)
  }

  /** Every entry is a part of the frame that stored it, and has the callback of that frame or none.  It has the
      callback if it is large, or if all of the frame was new. */
  lemma {:induction false} StoredFrom(books: seq<Ledger>, steps: seq<Step>, n: nat, k: nat)
    requires Kept(books, steps) && n <= |steps| && k in books[n].stored
    ensures var i, entry := Origin(books, n, k), books[n].stored[k];
            && i < n && PartOfFrame(steps[i], k, entry)
            && (entry.doneCb == None || entry.doneCb == steps[i].doneCb)
            && (Keeps(steps, i, entry) ==> entry.doneCb == steps[i].doneCb)
  {
    hide Moves, GapsAre, Arrived;
    if n > 0 {
      assert Moves(books[n - 1], steps[n - 1], books[n]) && GapsAre(books[n - 1].gaps, steps[..n - 1]);
      if k in books[n - 1].stored && books[n].stored[k] == books[n - 1].stored[k] {
        StoredFrom(books, steps, n - 1, k);
      } else {
        JustStored(books[n - 1], steps, n - 1, books[n], k);
      }
    }
  }

  lemma JustStored(a: Ledger, steps: seq<Step>, i: nat, b: Ledger, k: nat)
    requires i < |steps| && Moves(a, steps[i], b) && GapsAre(a.gaps, steps[..i])
    requires k in b.stored && !(k in a.stored && b.stored[k] == a.stored[k])
    ensures var entry := b.stored[k];
            && PartOfFrame(steps[i], k, entry) && (entry.doneCb == None || entry.doneCb == steps[i].doneCb)
            && (Keeps(steps, i, entry) ==> entry.doneCb == steps[i].doneCb)
  {
    hide Arrived, Missing, Callbacks, GapsAre, Keeps, NothingNew;
    var step := steps[i];
    assert step.Arrive?;
    assert b.stored != a.stored;
    var s: nat, e: nat :| StoredAt(a.stored, a.gaps, b.stored, step.offset, step.data, step.doneCb, s, e);
    assert k == s;
    if Keeps(steps, i, b.stored[k]) && e - s < MIN_STREAM_FRAME_BUFFER_SIZE {
      KeepsMissing(a.gaps, steps, i, b.stored[k]);
    }
  }

  lemma KeepsMissing(g: Gaps, steps: seq<Step>, i: nat, entry: Entry)
    requires i < |steps| && steps[i].Arrive? && GapsAre(g, steps[..i])
    requires Keeps(steps, i, entry) && |entry.data| < MIN_STREAM_FRAME_BUFFER_SIZE && steps[i].data != []
    ensures Missing(g, steps[i].offset) && Missing(g, steps[i].offset + |steps[i].data| - 1)
    ensures !NothingNew(g, steps[i].offset, steps[i].data)
  {
    hide Arrived, Missing;
    var first, last := steps[i].offset, steps[i].offset + |steps[i].data| - 1;
    assert !Arrived(steps[..i], first) && !Arrived(steps[..i], last);
  }

  lemma {:induction false} KeptTotal(books: seq<Ledger>, steps: seq<Step>, n: nat)
    requires Kept(books, steps) && n <= |steps|
    ensures Callbacks(books[n].stored) + books[n].invoked + books[n].handedOut == Given(steps[..n])
  {
    hide GapsAre, Provenance, Callbacks;
    if n == 0 {
      KeptNone();
    } else {
      KeptTotal(books, steps, n - 1);
      assert Moves(books[n - 1], steps[n - 1], books[n]);
      assert steps[..n][..n - 1] == steps[..n - 1];
      MovesTotal(books[n - 1], steps[n - 1], books[n]);
    }
  }

  lemma MovesTotal(a: Ledger, step: Step, b: Ledger)
    requires Moves(a, step, b)
    ensures Callbacks(b.stored) + b.invoked + b.handedOut ==
            Callbacks(a.stored) + a.invoked + a.handedOut + if step.Arrive? then Calls(step.doneCb) else multiset{}
  {
    hide Callbacks, Provenance, Calls, Leftover;
    match step
    case Arrive(_, _, doneCb) =>
      Reorder(Callbacks(b.stored) + b.invoked, Callbacks(a.stored) + a.invoked, Calls(doneCb), a.handedOut);
    case Read =>
      assert Callbacks(b.stored) + b.invoked + b.handedOut == Callbacks(b.stored) + b.handedOut + a.invoked;
  }

  lemma Reorder(b: multiset<Callback>, a: multiset<Callback>, c: multiset<Callback>, d: multiset<Callback>)
    requires b == a + c
    ensures b + d == a + d + c
  {
  }

  lemma GivenAppend(steps: seq<Step>, step: Step)
    ensures Given(steps + [step]) == Given(steps) + if step.Arrive? then Calls(step.doneCb) else multiset{}
  {
    assert (steps + [step])[..|steps|] == steps;
  }

  lemma {:induction false} GivenLess(steps: seq<Step>, n: nat)
    requires n <= |steps|
    ensures Given(steps[..n]) <= Given(steps)
  {
    if n < |steps| {
      assert steps[..|steps| - 1][..n] == steps[..n];
      GivenLess(steps[..|steps| - 1], n);
    } else {
      assert steps[..n] == steps;
    }
  }

  /** A callback that is given once is not invoked or handed out while a large part of its frame is stored, or a part
      of a frame that was all new. */
  lemma CallbackWaits(books: seq<Ledger>, steps: seq<Step>, n: nat, k: nat)
    requires Kept(books, steps) && n <= |steps| && k in books[n].stored
    requires var i := Origin(books, n, k);
             && i < |steps| && steps[i].Arrive? && Keeps(steps, i, books[n].stored[k])
             && steps[i].doneCb.Some? && Given(steps)[steps[i].doneCb.value] == 1
    ensures var cb := steps[Origin(books, n, k)].doneCb.value; cb !in books[n].invoked && cb !in books[n].handedOut
  {
    hide Moves, GapsAre, Callbacks, Given, Keeps, Origin, PartOfFrame;
    StoredFrom(books, steps, n, k);
    KeptTotal(books, steps, n);
    GivenLess(steps, n);
    HeldNotReleased(books[n].stored, books[n].invoked, books[n].handedOut, steps[..n], k);
  }

  lemma AllOwned(books: seq<Ledger>, steps: seq<Step>, n: nat)
    requires Kept(books, steps) && n <= |steps|
    ensures Owned(books[n].stored, steps)
  {
    hide Moves, GapsAre, Keeps, PartOfFrame;
    var q := books[n].stored;
    forall k | k in q && q[k].doneCb.Some? ensures exists i :: 0 <= i < |steps| && Backs(steps[i], q, k) {
      StoredFrom(books, steps, n, k);
      assert Backs(steps[Origin(books, n, k)], q, k);
    }
  }

  method TakeStep(sorter: FrameSorter, ghost steps: seq<Step>, step: Step, ghost stream: seq<Byte>, out: seq<Byte>,
                  handedOut: multiset<Callback>)
    returns (out': seq<Byte>, handedOut': multiset<Callback>, ok: bool)
    requires |stream| <= MAX_BYTE_COUNT && Caught(sorter, steps, stream, out, handedOut)
    requires step.Arrive? ==> IsSlice(stream, step.offset, step.data)
    modifies sorter
    ensures out' <= stream
    ensures ok <==> !(step.Arrive? && Overflows(steps, step.offset, step.data))
    ensures ok ==> Caught(sorter, steps + [step], stream, out', handedOut')
    ensures ok ==> GapsAre(sorter.gapTree, steps + [step])
    ensures ok ==> Moves(old(Books(sorter, handedOut)), step, Books(sorter, handedOut'))
    ensures !ok ==> out' == out
  {
    hide Holes, Entries, Apart, Linked, HoleStarts, SplitsHole, Missing, Callbacks, Arrived, Provenance, Fills, Agrees,
         GapsAre, Splits, IsSlice, Moves, Given, Calls;
    ghost var q0, g0, a := sorter.queue, sorter.gapTree, Books(sorter, handedOut);
    out', handedOut', ok := out, handedOut, true;
    GivenAppend(steps, step);
    if step.Arrive? {
      assert step.offset + |step.data| <= |stream| by { SliceBound(stream, step.offset, step.data); }
      GapStarts(g0, sorter.readPos, steps);
      assert |g0| == |g0.Keys|;
      SplitsExactly(g0, sorter.readPos, steps, step.offset, step.data);
      ok := sorter.Push(step.data, step.offset, step.doneCb);
      if ok {
        PushedPartsAgree(q0, g0, sorter.queue, step.offset, step.data, step.doneCb, stream);
        ArriveFills(g0, sorter.gapTree, steps, step);
        ArriveMoves(a, step, Books(sorter, handedOut));
        MovesTotal(a, step, Books(sorter, handedOut));
      }
    } else {
      ReadFills(g0, steps);
      out', handedOut' := ReadOne(sorter, out, handedOut, stream);
      MovesTotal(a, step, Books(sorter, handedOut'));
    }
  }

  lemma ArriveMoves(a: Ledger, step: Step, b: Ledger)
    requires step.Arrive? && b.handedOut == a.handedOut
    requires Callbacks(b.stored) + b.invoked == Callbacks(a.stored) + a.invoked + Calls(step.doneCb)
    requires Provenance(a.stored, a.gaps, b.stored, step.offset, step.data, step.doneCb)
    ensures Moves(a, step, b)
  {
  }

  lemma SliceBound(stream: seq<Byte>, offset: nat, data: seq<Byte>)
    requires IsSlice(stream, offset, data)
    ensures offset + |data| <= |stream|
  {
  }

  /** Frames arrive in any order, interleaved with reads, up to the first frame that leaves too many
      holes; at the end everything readable is read.  Whatever was read is a prefix of the stream the
      frames were cut from, and has arrived.  Without such a frame, it is the longest prefix that has arrived, and every
      callback was invoked by the sorter, or handed out with its data, or is still stored with a part of its frame.
      The books say what was stored and where the callbacks were after each step. */
  method Reassemble(steps: seq<Step>, ghost stream: seq<Byte>)
    returns (sorter: FrameSorter, out: seq<Byte>, done: nat, handedOut: multiset<Callback>, ghost books: seq<Ledger>)
    requires |stream| <= MAX_BYTE_COUNT && PartsOf(steps, stream)
    ensures done <= |steps| && (forall i | 0 <= i < done :: !OverflowsAt(steps, i))
            && (done < |steps| ==> OverflowsAt(steps, done))
    ensures out <= stream && forall x | 0 <= x < |out| :: Arrived(steps[..done], x)
    ensures fresh(sorter)
    ensures done == |steps| ==>
              && !Arrived(steps, |out|) && sorter.Valid() && sorter.readPos == |out|
              && GapsAre(sorter.gapTree, steps) && Agrees(sorter.queue, stream) && Owned(sorter.queue, steps)
              && Callbacks(sorter.queue) + sorter.released + handedOut == Given(steps)
              && Kept(books, steps + [Step.Read]) && books[|steps| + 1] == Books(sorter, handedOut)
  {
    hide Tiles, Missing, Callbacks, Arrived, Agrees, GapsAre, Caught, Follows, IsSlice, Given, Overflows, Owned, Kept,
         Moves;
    sorter := new FrameSorter();
    out, handedOut, done := [], multiset{}, 0;
    NothingYet(sorter, stream);
    books := [Books(sorter, handedOut)];
    KeptNone();
    assert steps[..0] == [];
    while done < |steps|
      invariant done <= |steps| && fresh(sorter)
      invariant forall i | 0 <= i < done :: !OverflowsAt(steps, i)
      invariant Caught(sorter, steps[..done], stream, out, handedOut)
      invariant |books| == done + 1 && Kept(books, steps[..done]) && books[done] == Books(sorter, handedOut)
    {
      assert steps[..done + 1] == steps[..done] + [steps[done]];
      CaughtArrived(sorter, steps[..done], stream, out, handedOut);
      var ok;
      out, handedOut, ok := TakeStep(sorter, steps[..done], steps[done], stream, out, handedOut);
      if !ok {
        return;
      }
      KeptMore(books, steps[..done], steps[done], Books(sorter, handedOut));
      books := books + [Books(sorter, handedOut)];
      done := done + 1;
    }
    assert steps[..done] == steps;
    out, handedOut := Drain(sorter, steps, stream, out, handedOut);
    CaughtParts(sorter, steps, stream, out, handedOut);
    ReadFills(sorter.gapTree, steps);
    KeptMore(books, steps, Step.Read, Books(sorter, handedOut));
    books := books + [Books(sorter, handedOut)];
    OwnedAtEnd(books, steps, sorter.queue);
    ReadSoFar(sorter, steps, stream, out);
  }

  lemma KeptNone()
    ensures Callbacks(map[]) == multiset{} && Kept([NOTHING_STORED], [])
  {
    forall x: nat | x < MAX_BYTE_COUNT ensures Missing(map[0 := MAX_BYTE_COUNT], x) {
      assert 0 in map[0 := MAX_BYTE_COUNT];
    }
  }

  lemma OwnedAtEnd(books: seq<Ledger>, steps: seq<Step>, q: Queue)
    requires Kept(books, steps + [Step.Read]) && books[|steps| + 1].stored == q
    ensures Owned(q, steps)
  {
    hide Kept, Owned;
    AllOwned(books, steps + [Step.Read], |steps| + 1);
    ReadOwnsNothing(q, steps);
  }

  lemma ReadOwnsNothing(q: Queue, steps: seq<Step>)
    requires Owned(q, steps + [Step.Read])
    ensures Owned(q, steps)
  {
    hide PartOfFrame;
    forall k | k in q && q[k].doneCb.Some? ensures exists i :: 0 <= i < |steps| && Backs(steps[i], q, k) {
      var i :| 0 <= i < |steps| + 1 && Backs((steps + [Step.Read])[i], q, k);
      assert i < |steps| by { NotBacked(q, k); }
      assert Backs(steps[i], q, k);
    }
  }

  lemma NotBacked(q: Queue, k: nat)
    requires k in q
    ensures !Backs(Step.Read, q, k)
  {
  }

  /** A callback that is given once is not invoked or handed out while a part of its frame is stored with it. */
  lemma HeldNotReleased(q: Queue, released: multiset<Callback>, handedOut: multiset<Callback>, steps: seq<Step>, k: nat)
    requires Callbacks(q) + released + handedOut == Given(steps)
    requires k in q && q[k].doneCb.Some? && Given(steps)[q[k].doneCb.value] <= 1
    ensures q[k].doneCb.value !in released && q[k].doneCb.value !in handedOut
  {
    hide Callbacks, Given;
    RemoveCallbacks(q, k);
    assert Callbacks(q)[q[k].doneCb.value] >= 1;
  }

  lemma CaughtArrived(sorter: FrameSorter, steps: seq<Step>, stream: seq<Byte>, out: seq<Byte>,
                      handedOut: multiset<Callback>)
    requires |stream| <= MAX_BYTE_COUNT && Caught(sorter, steps, stream, out, handedOut)
    ensures forall x | 0 <= x < |out| :: Arrived(steps, x)
  {
    forall x | 0 <= x < |out| ensures Arrived(steps, x) {
      assert !Missing(sorter.gapTree, x);
    }
  }

  method Drain(sorter: FrameSorter, ghost steps: seq<Step>, ghost stream: seq<Byte>, out: seq<Byte>,
               handedOut: multiset<Callback>)
    returns (out': seq<Byte>, handedOut': multiset<Callback>)
    requires Caught(sorter, steps, stream, out, handedOut)
    modifies sorter
    ensures Caught(sorter, steps, stream, out', handedOut')
    ensures |out'| == MAX_BYTE_COUNT || Missing(sorter.gapTree, |out'|)
    ensures Moves(old(Books(sorter, handedOut)), Step.Read, Books(sorter, handedOut'))
  {
    hide Tiles, Missing, Callbacks, Agrees, GapsAre, Given;
    out', handedOut' := out, handedOut;
    var more := true;
    while more
      invariant Caught(sorter, steps, stream, out', handedOut')
      invariant Moves(old(Books(sorter, handedOut)), Step.Read, Books(sorter, handedOut'))
      invariant !more ==> |out'| == MAX_BYTE_COUNT || Missing(sorter.gapTree, |out'|)
      decreases |stream| - |out'|, more
    {
      var n := |out'|;
      out', handedOut' := ReadOne(sorter, out', handedOut', stream);
      more := |out'| > n;
    }
  }

  method ReadOne(sorter: FrameSorter, out: seq<Byte>, handedOut: multiset<Callback>, ghost stream: seq<Byte>)
    returns (out': seq<Byte>, handedOut': multiset<Callback>)
    requires sorter.Valid() && sorter.readPos == |out|
    requires out <= stream && Agrees(sorter.queue, stream)
    modifies sorter`queue, sorter`readPos
    ensures sorter.Valid() && sorter.readPos == |out'|
    ensures out <= out' <= stream && Agrees(sorter.queue, stream)
    ensures out' == out <==> |out| == MAX_BYTE_COUNT || Missing(sorter.gapTree, |out|)
    ensures Leftover(old(sorter.queue), sorter.queue)
    ensures Callbacks(sorter.queue) + sorter.released + handedOut'
            == old(Callbacks(sorter.queue) + sorter.released + handedOut)
    ensures Moves(old(Books(sorter, handedOut)), Step.Read, Books(sorter, handedOut'))
  {
    hide Tiles, Missing, Callbacks;
    ghost var q0 := sorter.queue;
    var _, data, doneCb := sorter.Pop();
    if data != [] {
      PopExtends(q0, |out|, stream, out);
    }
    out', handedOut' := out + data, handedOut + Calls(doneCb);
  }

  lemma NothingYet(sorter: FrameSorter, stream: seq<Byte>)
    requires sorter.Valid() && sorter.queue == map[] && sorter.readPos == 0
    requires sorter.gapTree == map[0 := MAX_BYTE_COUNT] && sorter.released == multiset{}
    ensures Follows(sorter, [], stream, []) && Caught(sorter, [], stream, [], multiset{})
  {
    forall x: nat | x < MAX_BYTE_COUNT ensures Missing(map[0 := MAX_BYTE_COUNT], x) {
      assert 0 in map[0 := MAX_BYTE_COUNT];
    }
  }

  lemma CaughtParts(sorter: FrameSorter, steps: seq<Step>, stream: seq<Byte>, out: seq<Byte>,
                    handedOut: multiset<Callback>)
    requires Caught(sorter, steps, stream, out, handedOut)
    ensures Follows(sorter, steps, stream, out) && out <= stream && sorter.readPos == |out| && sorter.Valid()
    ensures GapsAre(sorter.gapTree, steps) && Agrees(sorter.queue, stream)
    ensures Callbacks(sorter.queue) + sorter.released + handedOut == Given(steps)
  {
  }

  lemma ReadSoFar(sorter: FrameSorter, steps: seq<Step>, stream: seq<Byte>, out: seq<Byte>)
    requires |stream| <= MAX_BYTE_COUNT && PartsOf(steps, stream)
    requires Follows(sorter, steps, stream, out)
    requires |out| == MAX_BYTE_COUNT || Missing(sorter.gapTree, |out|)
    ensures forall x | 0 <= x < |out| :: Arrived(steps, x)
    ensures !Arrived(steps, |out|)
  {
    forall x | 0 <= x < |out| ensures Arrived(steps, x) {
      assert !Missing(sorter.gapTree, x);
    }
    if |out| == MAX_BYTE_COUNT {
      forall i | 0 <= i < |steps| ensures !Carries(steps[i], |out|) {
      }
    }
  }

  /** If the frames cover the whole stream, reassembly returns all of it. */
  lemma CoveredIsComplete(steps: seq<Step>, stream: seq<Byte>, out: seq<Byte>)
    requires out <= stream && !Arrived(steps, |out|)
    requires forall x | 0 <= x < |stream| :: Arrived(steps, x)
    ensures out == stream
  {
    assert |out| == |stream|;
  }
}
