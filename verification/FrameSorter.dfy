/** Reassembly of a byte stream from frames that arrive in any order, overlap, repeat or
    were split differently on retransmission.
 */
module FrameSorting {
  import opened StreamBytes
  import opened Tiling
  import opened GapTree

  const MAX_STREAM_FRAME_SORTER_GAPS: nat := 20000

  // Frames cut below this size are copied, so that their buffer is released at once.
  const MIN_STREAM_FRAME_BUFFER_SIZE: nat := 128

  datatype PushResult = Stored | Duplicate | TooManyGaps

  function Calls(doneCb: Option<Callback>): multiset<Callback> {
    if doneCb.Some? then multiset{doneCb.value} else multiset{}
  }

  ghost function SomeKey(q: Queue): (k: nat)
    requires q != map[]
    ensures k in q
  {
    var k :| k in q;
    k
  }

  /** The callbacks of all buffered entries. */
  ghost function Callbacks(q: Queue): multiset<Callback>
    decreases |q|
  {
    if q == map[] then multiset{}
    else
      var k := SomeKey(q);
      Callbacks(q - {k}) + Calls(q[k].doneCb)
  }

  lemma {:induction false} RemoveCallbacks(q: Queue, k: nat)
    requires k in q
    ensures Callbacks(q) == Callbacks(q - {k}) + Calls(q[k].doneCb)
    decreases |q|
  {
    var j := SomeKey(q);
    if j != k {
      RemoveCallbacks(q - {j}, k);
      RemoveCallbacks(q - {k}, j);
      RemoveTwo(q, j, k);
    }
  }

  lemma RemoveTwo(q: Queue, j: nat, k: nat)
    ensures q - {j} - {k} == q - {k} - {j}
  {
  }

  lemma InsertCallbacks(q: Queue, k: nat, entry: Entry)
    requires k !in q
    ensures Callbacks(q[k := entry]) == Callbacks(q) + Calls(entry.doneCb)
  {
    RemoveCallbacks(q[k := entry], k);
    assert q[k := entry] - {k} == q;
  }

  /** Every entry of q was there before. */
  ghost predicate Leftover(q0: Queue, q: Queue) {
    forall k | k in q :: k in q0 && q[k] == q0[k]
  }

  lemma {:induction false} LeftoverCallbacks(q0: Queue, q: Queue)
    requires Leftover(q0, q)
    ensures Callbacks(q) <= Callbacks(q0)
    decreases |q0|
  {
    hide Callbacks;
    if k :| k in q0 && k !in q {
      LeftoverCallbacks(q0 - {k}, q);
      RemoveCallbacks(q0, k);
    } else {
      assert q0 == q;
    }
  }

  /** Nothing of the frame is missing. */
  ghost predicate NothingNew(g: Gaps, offset: nat, data: seq<Byte>) {
    forall x | offset <= x < offset + |data| :: !Missing(g, x)
  }

  /** The part of the frame that is stored is small, and was cut from it.  A frame also counts as cut if nothing of it
      is missing and it ends where an entry starts. */
  ghost predicate Copied(q0: Queue, g0: Gaps, offset: nat, data: seq<Byte>, n: nat) {
    n < MIN_STREAM_FRAME_BUFFER_SIZE && (n < |data| || (offset + |data| in q0 && NothingNew(g0, offset, data)))
  }

  /** The part [s, e) of the frame is stored in place of the entries that it covers.  It has everything of the frame
      that is missing.  It keeps the callback of the frame, unless it is copied. */
  ghost predicate StoredAt(q0: Queue, g0: Gaps, q: Queue, offset: nat, data: seq<Byte>, doneCb: Option<Callback>,
                           s: nat, e: nat) {
    && offset <= s < e <= offset + |data|
    && (forall x | offset <= x < offset + |data| && !(s <= x < e) :: !Missing(g0, x))
    && (forall k | k in q0 && s <= k < e :: EndOf(q0, k) <= e)
    && q == Without(q0, s, e)[s := Entry(data[s - offset..e - offset],
                                         if Copied(q0, g0, offset, data, e - s) then None else doneCb)]
  }

  /** Nothing of the frame is missing and nothing changes, or a part of it is stored. */
  ghost predicate Provenance(q0: Queue, g0: Gaps, q: Queue, offset: nat, data: seq<Byte>, doneCb: Option<Callback>) {
    || (q == q0 && NothingNew(g0, offset, data))
    || exists s: nat, e: nat :: StoredAt(q0, g0, q, offset, data, doneCb, s, e)
  }

  /** A frame that is all new is stored as it is, with its callback. */
  lemma NewIsKept(q0: Queue, g0: Gaps, q: Queue, offset: nat, data: seq<Byte>, doneCb: Option<Callback>)
    requires Provenance(q0, g0, q, offset, data, doneCb)
    requires data != [] && forall x | offset <= x < offset + |data| :: Missing(g0, x)
    ensures offset in q && q[offset] == Entry(data, doneCb)
  {
    hide Missing, StoredAt;
    assert Missing(g0, offset);
    var s: nat, e: nat :| StoredAt(q0, g0, q, offset, data, doneCb, s, e);
    StoredWhole(q0, g0, q, offset, data, doneCb, s, e);
  }

  lemma StoredWhole(q0: Queue, g0: Gaps, q: Queue, offset: nat, data: seq<Byte>, doneCb: Option<Callback>, s: nat,
                    e: nat)
    requires StoredAt(q0, g0, q, offset, data, doneCb, s, e)
    requires data != [] && forall x | offset <= x < offset + |data| :: Missing(g0, x)
    ensures offset in q && q[offset] == Entry(data, doneCb)
  {
    hide Missing, Without;
    assert Missing(g0, offset) && Missing(g0, offset + |data| - 1);
    assert s == offset && e == offset + |data|;
    assert data[0..|data|] == data;
  }

  lemma NothingRemoved(q: Queue, k: nat)
    requires k !in q
    ensures q - {k} == q && Callbacks(q) + Calls(None) == Callbacks(q)
  {
    hide Callbacks;
  }

  lemma SliceStart(data: seq<Byte>, lo: nat, hi: nat, n: nat)
    requires lo <= hi <= |data| && n <= hi - lo
    ensures data[lo..hi][..n] == data[lo..lo + n]
  {
  }

  class FrameSorter {
    var queue: Queue
    var readPos: nat
    var gapTree: Gaps
    var released: multiset<Callback>  // the callbacks invoked so far

    ghost predicate Valid()
      reads this
    {
      Tiles(queue, gapTree, readPos) && |gapTree| <= MAX_STREAM_FRAME_SORTER_GAPS
    }

    constructor ()
      ensures Valid()
      ensures queue == map[] && readPos == 0 && gapTree == map[0 := MAX_BYTE_COUNT] && released == multiset{}
    {
      queue := map[];
      readPos := 0;
      gapTree := map[0 := MAX_BYTE_COUNT];
      released := multiset{};
    }

    // Drop the entry at pos, and tell its owner.
    method Drop(pos: nat)
      requires pos in queue
      modifies this`queue, this`released
      ensures queue == old(queue) - {pos}
      ensures Callbacks(queue) + released == old(Callbacks(queue) + released)
    {
      RemoveCallbacks(queue, pos);
      var oldEntry := queue[pos];
      queue := queue - {pos};
      released := released + Calls(oldEntry.doneCb);
    }

    // Delete the entries that follow each other from pos on.  Everything in [lo, hi) is
    // gone already; the deletion moves hi up to the next gap, or not at all.
    method DeleteConsecutive(pos: nat, ghost q0: Queue, ghost g0: Gaps, ghost lo: nat, ghost hi: nat)
      returns (ghost hi': nat)
      requires Tiles(q0, g0, readPos)
      requires queue == Without(q0, lo, hi) && lo <= pos <= hi
      requires pos == hi ==> Boundary(q0, g0, hi)
      modifies this`queue, this`released
      ensures hi <= hi' && queue == Without(q0, lo, hi') && NoGaps(g0, hi, hi')
      ensures pos < hi ==> hi' == hi
      ensures pos == hi ==> hi' in g0 || hi' == MAX_BYTE_COUNT
      ensures Callbacks(queue) + released == old(Callbacks(queue) + released)
    {
      hide Callbacks, Tiles;
      hi' := hi;
      if pos < hi {
        assert pos !in queue;
      }
      var p := pos;
      while p in queue
        invariant if pos < hi then p == pos && hi' == hi && queue == old(queue)
                  else p == hi' && Cleared(q0, g0, queue, lo, hi, p)
        invariant Callbacks(queue) + released == old(Callbacks(queue) + released)
        decreases MAX_BYTE_COUNT - p
      {
        var oldEntryLen := |queue[p].data|;
        ClearNext(q0, g0, readPos, queue, lo, hi, p);
        Drop(p);
        p := p + oldEntryLen;
        hi' := p;
      }
    }

    // The entries from start on that the new frame [start, end) makes redundant.
    method ReplaceConsecutive(start: nat, end: nat) returns (pos: nat, replaced: bool, cut: bool, duplicate: bool)
      requires Tiles(queue, gapTree, readPos)
      requires start < end <= MAX_BYTE_COUNT
      modifies this`queue, this`released
      ensures duplicate ==> queue == old(queue) && released == old(released)
      ensures duplicate ==> start in old(queue) && end <= old(EndOf(queue, start))
      ensures start <= pos <= end && queue == Without(old(queue), start, pos)
      ensures !duplicate ==> (cut <==> pos in old(queue))
      ensures cut ==> replaced && end < old(EndOf(queue, pos))
      ensures replaced <==> start < pos
      ensures replaced ==> start in old(queue) && Cleared(old(queue), gapTree, queue, start, start, pos)
      ensures Callbacks(queue) + released == old(Callbacks(queue) + released)
    {
      hide Callbacks, Tiles;
      ghost var q0 := queue;
      pos, replaced, cut, duplicate := start, false, false, false;
      assert queue == Without(q0, start, start);
      while pos in queue
        invariant start <= pos <= end && queue == Without(q0, start, pos)
        invariant replaced <==> start < pos
        invariant if replaced then start in q0 && Cleared(q0, gapTree, queue, start, start, pos)
                  else released == old(released)
        invariant Callbacks(queue) + released == old(Callbacks(queue) + released)
        decreases end - pos, pos in queue
      {
        var oldEntryLen := |queue[pos].data|;
        if end - pos > oldEntryLen || (replaced && end - pos == oldEntryLen) {
          ClearNext(q0, gapTree, readPos, queue, start, start, pos);
          Drop(pos);
          pos := pos + oldEntryLen;
          replaced := true;
        } else {
          duplicate := !replaced;
          cut := replaced;
          return;
        }
      }
    }

    // Delete what lies strictly between the first and the last matched gap: the entries,
    // and the gaps themselves.
    method DeleteCovered(gaps: seq<Interval>, start: nat, end: nat, ghost q0: Queue, ghost g0: Gaps, ghost lo: nat,
                         ghost hi: nat)
      requires Tiles(q0, g0, readPos) && Matches(g0, start, end, gaps) && |gaps| > 1
      requires queue == Without(q0, lo, hi) && lo <= gaps[0].end
      requires hi == gaps[0].end || hi == gaps[1].start
      requires forall k | k in g0 && gaps[0].start < k :: k in gapTree && gapTree[k] == g0[k]
      requires forall k | k in gapTree && gaps[0].start < k :: k in g0
      modifies this`queue, this`released, this`gapTree
      ensures queue == Without(q0, lo, gaps[|gaps| - 1].start)
      ensures gapTree == WithoutGaps(old(gapTree), gaps[0].start + 1, gaps[|gaps| - 1].start)
      ensures Callbacks(queue) + released == old(Callbacks(queue) + released)
    {
      hide Callbacks, Tiles, Matches;
      var endGapStart := gaps[|gaps| - 1].start;
      MatchedGap(q0, g0, readPos, start, end, gaps, 0);
      ghost var next := DeleteConsecutive(gaps[0].end, q0, g0, lo, hi);
      NextMatch(q0, g0, readPos, start, end, gaps, 0, hi, next);
      assert gapTree == WithoutGaps(gapTree, gaps[0].start + 1, gaps[1].start) by {
        NothingBetween(q0, g0, readPos, start, end, gaps, 0);
      }
      var i := 1;
      while i < |gaps|
        invariant 1 <= i < |gaps|
        invariant queue == Without(q0, lo, gaps[i].start) && lo <= gaps[i].start
        invariant gapTree == WithoutGaps(old(gapTree), gaps[0].start + 1, gaps[i].start)
        invariant Callbacks(queue) + released == old(Callbacks(queue) + released)
        decreases |gaps| - i
      {
        var g := gaps[i];
        MatchedGap(q0, g0, readPos, start, end, gaps, i);
        if g.end >= endGapStart {
          break;
        }
        SkipGap(q0, g0, readPos, lo, g.start);
        ghost var next := DeleteConsecutive(g.end, q0, g0, lo, g.end);
        NextMatch(q0, g0, readPos, start, end, gaps, i, g.end, next);
        NothingBetween(q0, g0, readPos, start, end, gaps, i);
        gapTree := gapTree - {g.start};
        i := i + 1;
      }
    }

    // Shorten, split or delete the first matched gap.
    method TrimStartGap(startGap: Interval, start: nat, end: nat, replaced: bool) returns (adjusted: bool)
      requires InTree(gapTree, startGap)
      modifies this`gapTree
      ensures gapTree == StartTrimmed(old(gapTree), startGap, start, end, replaced)
      ensures adjusted == (startGap.start < start && !replaced)
    {
      adjusted := false;
      if start <= startGap.start {
        if end >= startGap.end {
          gapTree := gapTree - {startGap.start};
        } else {
          gapTree := gapTree - {startGap.start};
          gapTree := gapTree[end := startGap.end];
        }
      } else if !replaced {
        gapTree := gapTree - {startGap.start};
        gapTree := gapTree[startGap.start := start];
        adjusted := true;
      }
    }

    // Shorten or delete the last matched gap, or insert the second half of a split one.
    method TrimEndGap(endGap: Interval, end: nat, startGapEqualsEndGap: bool, adjusted: bool)
      modifies this`gapTree
      ensures gapTree == EndTrimmed(old(gapTree), endGap, end, startGapEqualsEndGap, adjusted)
    {
      if end == endGap.end {
        if !startGapEqualsEndGap {
          gapTree := gapTree - {endGap.start};
        }
      } else if startGapEqualsEndGap && adjusted {
        gapTree := gapTree[end := endGap.end];
      } else if !startGapEqualsEndGap {
        gapTree := gapTree - {endGap.start};
        gapTree := gapTree[end := endGap.end];
      }
    }

    // The part of the frame that remains after the replacement of entries.
    method ShortenFrame(data: seq<Byte>, offset: nat, gapStart: nat, pos: nat, late: bool, cut: bool)
      returns (start: nat, end: nat, d: seq<Byte>, wasCut: bool)
      requires cut ==> !late && offset <= pos <= offset + |data|
      requires late ==> offset <= gapStart <= offset + |data|
      ensures start == (if late then gapStart else offset) && end == if cut then pos else offset + |data|
      ensures start <= end && d == data[start - offset..end - offset]
      ensures wasCut == (cut || late)
    {
      start, end, d, wasCut := offset, offset + |data|, data, false;
      if cut {
        // The existing frame is longer than the new one: end where it starts.
        d := d[..pos - start];
        end := pos;
        wasCut := true;
      }
      if late {
        // Start at the start of the gap.
        d := d[gapStart - start..];
        start := gapStart;
        wasCut := true;
      }
    }

    // Make room for the part [s, e) of the frame that will be stored.
    method MakeRoom(data: seq<Byte>, offset: nat, gaps: seq<Interval>, pos: nat, replaced: bool, cut: bool,
                    ghost q0: Queue)
      returns (s: nat, e: nat, d: seq<Byte>, wasCut: bool)
      requires data != [] && offset + |data| <= MAX_BYTE_COUNT && |gaps| > 0
      requires Tiles(q0, gapTree, readPos) && Matches(gapTree, offset, offset + |data|, gaps)
      requires queue == Without(q0, offset, pos)
      requires AfterReplace(q0, gapTree, offset, offset + |data|, gaps, pos, replaced, cut)
      modifies this`queue, this`released, this`gapTree
      ensures IsFinal(offset, offset + |data|, gaps, pos, replaced, cut, s, e)
      ensures offset <= s < e <= offset + |data| && d == data[s - offset..e - offset]
      ensures wasCut <==> cut || e - s < |data|
      ensures queue == Without(q0, s, e)
      ensures gapTree == Remaining(old(gapTree), gaps[0], gaps[|gaps| - 1], s, e)
      ensures Callbacks(queue) + released == old(Callbacks(queue) + released)
    {
      hide Callbacks, Tiles, Matches, Without, WithoutGaps, Remaining, StartTrimmed, EndTrimmed;
      ghost var g0 := gapTree;
      MatchedEnds(q0, g0, readPos, offset, offset + |data|, gaps);
      var startGap, endGap := gaps[0], gaps[|gaps| - 1];
      var startGapEqualsEndGap := |gaps| == 1;
      var startsInGap := startGap.start <= offset <= startGap.end;
      var endsInGap := endGap.start <= offset + |data| < endGap.end;
      var start, end;
      start, end, d, wasCut := ShortenFrame(data, offset, startGap.start, pos, !startsInGap && !replaced, cut);
      ghost var end1 := end;
      var adjusted := TrimStartGap(startGap, start, end, replaced);
      ghost var hi := if startsInGap && replaced then pos else startGap.end;
      ClearedUpTo(q0, g0, readPos, offset, offset + |data|, gaps, pos, replaced, cut, start, hi);
      if !startGapEqualsEndGap {
        StartTrimmedAgrees(g0, startGap, start, end, replaced);
        DeleteCovered(gaps, offset, offset + |data|, q0, g0, start, hi);
      }
      if !endsInGap && start != endGap.end && end > endGap.end {
        // End at the end of the gap.
        SliceStart(data, start - offset, end - offset, endGap.end - start);
        d := d[..endGap.end - start];
        end := endGap.end;
        wasCut := true;
      }
      TrimEndGap(endGap, end, startGapEqualsEndGap, adjusted);
      s, e := start, end;
      TrimmedIsRemaining(q0, g0, readPos, offset, offset + |data|, gaps, pos, replaced, cut, s, end1, e);
      RoomMade(q0, g0, readPos, gaps, s, e, if startGapEqualsEndGap then hi else endGap.start);
    }

    // Store what remains of the frame in the gaps that it covers.
    method StoreInGap(data: seq<Byte>, offset: nat, doneCb: Option<Callback>, gaps: seq<Interval>, pos: nat,
                      replaced: bool, cut: bool, ghost q0: Queue)
      returns (r: PushResult)
      requires data != [] && offset + |data| <= MAX_BYTE_COUNT && |gaps| > 0
      requires |gapTree| <= MAX_STREAM_FRAME_SORTER_GAPS
      requires Tiles(q0, gapTree, readPos) && Matches(gapTree, offset, offset + |data|, gaps)
      requires queue == Without(q0, offset, pos)
      requires AfterReplace(q0, gapTree, offset, offset + |data|, gaps, pos, replaced, cut)
      modifies this`queue, this`released, this`gapTree
      ensures r == TooManyGaps <==> |old(gapTree)| == MAX_STREAM_FRAME_SORTER_GAPS && Splits(old(gapTree), offset, data)
      ensures r == Stored || r == TooManyGaps
      ensures r == Stored ==> Valid()
      ensures r == Stored ==> Fills(old(gapTree), gapTree, offset, data)
      ensures r == Stored ==> Provenance(q0, old(gapTree), queue, offset, data, doneCb)
      ensures r == Stored ==> Callbacks(queue) + released == old(Callbacks(queue) + released) + Calls(doneCb)
    {
      hide Callbacks, Tiles, Matches, Missing, Provenance, Splits, Fills, AfterReplace, IsFinal, Without, Remaining,
           Copied;
      ghost var g0 := gapTree;
      var s, e, d, wasCut := MakeRoom(data, offset, gaps, pos, replaced, cut, q0);
      FinalRange(q0, g0, readPos, offset, offset + |data|, gaps, pos, replaced, cut, s, e);
      CopiedExactly(q0, g0, readPos, offset, data, gaps, pos, replaced, cut, s, e);
      var cb := doneCb;
      if wasCut && |d| < MIN_STREAM_FRAME_BUFFER_SIZE {
        // The data is copied, the buffer it came in is free.
        released := released + Calls(cb);
        cb := None;
      }
      GapCount(q0, g0, readPos, offset, data, gaps, s, e);
      if |gapTree| > MAX_STREAM_FRAME_SORTER_GAPS {
        return TooManyGaps;
      }
      StoreFrame(q0, g0, readPos, offset, data, gaps[0], gaps[|gaps| - 1], s, e, Entry(d, cb), doneCb);
      queue := queue[s := Entry(d, cb)];
      return Stored;
    }

    method PushImpl(data: seq<Byte>, offset: nat, doneCb: Option<Callback>) returns (r: PushResult)
      requires Valid() && offset + |data| <= MAX_BYTE_COUNT
      modifies this`queue, this`released, this`gapTree
      ensures r == TooManyGaps <==> |old(gapTree)| == MAX_STREAM_FRAME_SORTER_GAPS && Splits(old(gapTree), offset, data)
      ensures r == Duplicate ==> queue == old(queue) && released == old(released) && gapTree == old(gapTree)
      ensures r == Duplicate ==> NothingNew(gapTree, offset, data)
      ensures r == Stored ==> Valid()
      ensures r == Stored ==> Fills(old(gapTree), gapTree, offset, data)
      ensures r == Stored ==> Provenance(old(queue), old(gapTree), queue, offset, data, doneCb)
      ensures r == Stored ==> Callbacks(queue) + released == old(Callbacks(queue) + released) + Calls(doneCb)
    {
      hide Callbacks, Tiles, Matches, Missing, Provenance, Splits, Fills, AfterReplace, IsFinal, Without, Remaining;
      ghost var q0, g0 := queue, gapTree;
      if |data| == 0 {
        CoveredNotSplit(g0, offset, data);
        return Duplicate;
      }
      var start, end := offset, offset + |data|;
      var gaps := Match(gapTree, start, end);
      if |gaps| == 0 {
        Unmatched(q0, g0, readPos, start, end, gaps);
        CoveredNotSplit(g0, offset, data);
        return Duplicate;
      }
      if |gaps| == 1 && end <= gaps[0].start {
        Unmatched(q0, g0, readPos, start, end, gaps);
        CoveredNotSplit(g0, offset, data);
        return Duplicate;
      }
      var pos, replaced, cut, duplicate := ReplaceConsecutive(start, end);
      if duplicate {
        HeldAlready(q0, g0, readPos, start, end);
        CoveredNotSplit(g0, offset, data);
        return Duplicate;
      }
      ReplacedRange(q0, g0, readPos, start, end, gaps, pos, replaced, cut);
      r := StoreInGap(data, offset, doneCb, gaps, pos, replaced, cut, q0);
    }

    /** Take in a frame.  Unless the gap limit is hit, which happens exactly when the frame
        splits a gap while there are as many gaps as allowed, the offsets of the frame and
        no others stop missing.  A part of it is stored in place of the entries that it covers,
        and keeps the callback unless it is a small part that is copied; a frame that is all new
        is stored as it is.  No callback is lost or invoked twice. */
    method Push(data: seq<Byte>, offset: nat, doneCb: Option<Callback>) returns (ok: bool)
      requires Valid() && offset + |data| <= MAX_BYTE_COUNT
      modifies this`queue, this`released, this`gapTree
      ensures !ok <==> |old(gapTree)| == MAX_STREAM_FRAME_SORTER_GAPS && Splits(old(gapTree), offset, data)
      ensures ok ==> Valid()
      ensures ok ==> Fills(old(gapTree), gapTree, offset, data)
      ensures ok ==> Provenance(old(queue), old(gapTree), queue, offset, data, doneCb)
      ensures ok && data != [] && (forall x | offset <= x < offset + |data| :: Missing(old(gapTree), x)) ==>
                offset in queue && queue[offset] == Entry(data, doneCb)
      ensures ok ==> Callbacks(queue) + released == old(Callbacks(queue) + released) + Calls(doneCb)
    {
      hide Callbacks, Tiles, Missing, Splits, Provenance;
      ghost var q0, g0 := queue, gapTree;
      var r := PushImpl(data, offset, doneCb);
      if r == Duplicate {
        DuplicateProvenance(q0, g0, offset, data, doneCb);
        released := released + Calls(doneCb);
      }
      if r != TooManyGaps && data != [] && forall x | offset <= x < offset + |data| :: Missing(g0, x) {
        NewIsKept(q0, g0, queue, offset, data, doneCb);
      }
      ok := r != TooManyGaps;
    }

    /** Hand out the entry at the read position, if there is one. */
    method Pop() returns (offset: nat, data: seq<Byte>, doneCb: Option<Callback>)
      requires Valid()
      modifies this`queue, this`readPos
      ensures Valid()
      ensures offset == old(readPos) && readPos == offset + |data|
      ensures data == [] <==> offset !in old(queue)
      ensures data == [] <==> Missing(gapTree, offset) || offset == MAX_BYTE_COUNT
      ensures queue == old(queue) - {offset}
      ensures if data == [] then doneCb == None else old(queue[readPos]) == Entry(data, doneCb)
      ensures Callbacks(queue) + Calls(doneCb) == old(Callbacks(queue))
    {
      hide Callbacks, Calls, Tiles, Missing;
      NextTile(queue, gapTree, readPos);
      offset := readPos;
      if readPos !in queue {
        NothingRemoved(queue, readPos);
        return offset, [], None;
      }
      PopEntry(queue, gapTree, readPos);
      data, doneCb := queue[readPos].data, queue[readPos].doneCb;
      queue := queue - {readPos};
      readPos := readPos + |data|;
    }

    method HasMoreData() returns (more: bool)
      ensures more <==> queue != map[]
    {
      more := |queue| > 0;
    }
  }

  ghost predicate NoGaps(g: Gaps, lo: nat, hi: nat) {
    forall k | k in g :: !(lo <= k < hi)
  }

  /** q is q0 without the entries in [lo, p), and no gap starts between from and p. */
  ghost predicate Cleared(q0: Queue, g0: Gaps, q: Queue, lo: nat, from: nat, p: nat) {
    && lo <= from <= p
    && q == Without(q0, lo, p)
    && Boundary(q0, g0, p)
    && NoGaps(g0, from, p)
  }

  lemma ClearNext(q0: Queue, g0: Gaps, readPos: nat, q: Queue, lo: nat, from: nat, p: nat)
    requires Tiles(q0, g0, readPos)
    requires p in q && Cleared(q0, g0, q, lo, from, p)
    ensures p < EndOf(q0, p) <= MAX_BYTE_COUNT
    ensures Cleared(q0, g0, q - {p}, lo, from, EndOf(q0, p))
  {
    assert Boundary(q0, g0, EndOf(q0, p));
  }

  lemma SkipGap(q0: Queue, g0: Gaps, readPos: nat, lo: nat, k: nat)
    requires Tiles(q0, g0, readPos)
    requires k in g0 && lo <= k
    ensures Without(q0, lo, k) == Without(q0, lo, g0[k])
  {
    forall j | j in q0 ensures !(k <= j < g0[k]) {
      assert EndOf(q0, j) <= k || g0[k] <= j;
    }
  }

  lemma MatchedGap(q0: Queue, g0: Gaps, readPos: nat, start: nat, end: nat, ms: seq<Interval>, i: nat)
    requires Tiles(q0, g0, readPos) && Matches(g0, start, end, ms) && i < |ms|
    ensures InTree(g0, ms[i]) && ms[i].start < ms[i].end <= MAX_BYTE_COUNT
    ensures Boundary(q0, g0, ms[i].end)
    ensures forall j | i < j < |ms| :: ms[i].end < ms[j].start
    ensures i + 1 < |ms| ==> ms[i].end < ms[|ms| - 1].start
    ensures i + 1 == |ms| ==> ms[|ms| - 1].start < ms[i].end
  {
    assert Boundary(q0, g0, g0[ms[i].start]);
  }

  lemma NothingBetween(q0: Queue, g0: Gaps, readPos: nat, start: nat, end: nat, ms: seq<Interval>, i: nat)
    requires Tiles(q0, g0, readPos) && Matches(g0, start, end, ms) && i + 1 < |ms|
    ensures forall k | k in g0 :: !(ms[i].start < k < ms[i + 1].start)
  {
    forall k | k in g0 ensures !(ms[i].start < k < ms[i + 1].start) {
      if ms[i].start < k < ms[i + 1].start {
        assert Touches(g0, k, start, end);
      }
    }
  }

  // The deletion that starts at the end of one matched gap stops at the next one.
  lemma NextMatch(q0: Queue, g0: Gaps, readPos: nat, start: nat, end: nat, ms: seq<Interval>, i: nat, hi: nat,
                  next: nat)
    requires Tiles(q0, g0, readPos) && Matches(g0, start, end, ms) && i + 1 < |ms|
    requires hi == ms[i].end || hi == ms[i + 1].start
    requires hi <= next && NoGaps(g0, hi, next)
    requires ms[i].end < hi ==> next == hi
    requires ms[i].end == hi ==> next in g0 || next == MAX_BYTE_COUNT
    ensures next == ms[i + 1].start
  {
    MatchedGap(q0, g0, readPos, start, end, ms, i);
    MatchedGap(q0, g0, readPos, start, end, ms, i + 1);
    if hi == ms[i].end {
      assert next <= ms[i + 1].start;
      NothingBetween(q0, g0, readPos, start, end, ms, i);
    }
  }

  /** The pushed frame lies strictly inside one gap, which it splits in two. */
  ghost predicate Splits(g: Gaps, offset: nat, data: seq<Byte>) {
    data != [] && exists k :: k in g && k < offset && offset + |data| < g[k]
  }

  lemma Unmatched(q0: Queue, g0: Gaps, readPos: nat, start: nat, end: nat, ms: seq<Interval>)
    requires Tiles(q0, g0, readPos) && Matches(g0, start, end, ms)
    requires ms == [] || (|ms| == 1 && end <= ms[0].start)
    ensures forall x | start <= x < end :: !Missing(g0, x)
  {
    forall k | k in g0 && Touches(g0, k, start, end) ensures end <= k {
    }
  }

  lemma HeldAlready(q0: Queue, g0: Gaps, readPos: nat, start: nat, end: nat)
    requires Tiles(q0, g0, readPos)
    requires start in q0 && end <= EndOf(q0, start)
    ensures forall x | start <= x < end :: !Missing(g0, x)
  {
    forall k | k in g0 ensures EndOf(q0, start) <= k || g0[k] <= start {
    }
  }

  lemma CoveredNotSplit(g: Gaps, offset: nat, data: seq<Byte>)
    requires forall x | offset <= x < offset + |data| :: !Missing(g, x)
    ensures !Splits(g, offset, data)
  {
    if data != [] {
      assert !Missing(g, offset);
    }
  }

  // What the first loop of Push leaves, in terms of the matched gaps.
  ghost predicate AfterReplace(q0: Queue, g0: Gaps, start: nat, end: nat, ms: seq<Interval>, pos: nat, replaced: bool,
                               cut: bool)
    requires |ms| > 0
  {
    var startsInGap := ms[0].start <= start <= ms[0].end;
    && start <= pos <= end
    && (replaced <==> start < pos)
    && (startsInGap || start < ms[0].start < end)
    && (startsInGap && !replaced ==> start < ms[0].end)
    && (startsInGap && replaced ==> start == ms[0].end)
    && (startsInGap && replaced && |ms| == 1 ==> if cut then pos in q0 && end < EndOf(q0, pos)
        else pos == end == MAX_BYTE_COUNT)
    && (startsInGap && replaced && |ms| > 1 ==> pos == ms[1].start)
    && (!startsInGap && replaced ==> pos == ms[0].start)
    && (replaced ==> start in q0)
    && (cut ==> |ms| == 1 && startsInGap && replaced)
  }

  lemma ReplacedRange(q0: Queue, g0: Gaps, readPos: nat, start: nat, end: nat, ms: seq<Interval>, pos: nat,
                      replaced: bool, cut: bool)
    requires Tiles(q0, g0, readPos) && Matches(g0, start, end, ms) && |ms| > 0
    requires start < end <= MAX_BYTE_COUNT && (|ms| == 1 ==> ms[0].start < end)
    requires start <= pos <= end
    requires cut <==> pos in q0
    requires cut ==> replaced && end < EndOf(q0, pos)
    requires replaced <==> start < pos
    requires replaced ==> start in q0 && Boundary(q0, g0, pos) && NoGaps(g0, start, pos)
    ensures AfterReplace(q0, g0, start, end, ms, pos, replaced, cut)
  {
    MatchedGap(q0, g0, readPos, start, end, ms, 0);
  }

  lemma EmptyGap(q0: Queue, g0: Gaps, readPos: nat, k: nat)
    requires Tiles(q0, g0, readPos) && k in g0
    ensures forall j | j in q0 :: !(k <= j < g0[k])
  {
    forall j | j in q0 ensures !(k <= j < g0[k]) {
      assert EndOf(q0, j) <= k || g0[k] <= j;
    }
  }

  lemma MatchedEnds(q0: Queue, g0: Gaps, readPos: nat, start: nat, end: nat, ms: seq<Interval>)
    requires Tiles(q0, g0, readPos) && Matches(g0, start, end, ms) && |ms| > 0
    ensures var first, last := ms[0], ms[|ms| - 1];
            && InTree(g0, first) && InTree(g0, last)
            && first.start < first.end && last.start < last.end <= MAX_BYTE_COUNT
            && start <= first.end && last.start <= end
            && (|ms| == 1 || first.end < last.start)
            && (forall k | k in g0 && k < first.start :: g0[k] < start)
            && (forall k | k in g0 && last.start < k :: end < k)
  {
    MatchedGap(q0, g0, readPos, start, end, ms, 0);
    forall k | k in g0
      ensures k < ms[0].start ==> g0[k] < start
      ensures ms[|ms| - 1].start < k ==> end < k
    {
      if Touches(g0, k, start, end) {
        assert Interval(k, g0[k]) in ms;
      }
    }
  }

  lemma DuplicateProvenance(q: Queue, g: Gaps, offset: nat, data: seq<Byte>, doneCb: Option<Callback>)
    requires NothingNew(g, offset, data)
    ensures Provenance(q, g, q, offset, data, doneCb)
  {
  }

  // The range [s, e) that Push finally stores.
  ghost predicate IsFinal(start: nat, end: nat, ms: seq<Interval>, pos: nat, replaced: bool, cut: bool, s: nat, e: nat)
    requires |ms| > 0
  {
    var first, last := ms[0], ms[|ms| - 1];
    && s == (if first.start <= start <= first.end || replaced then start else first.start)
    && e == (if cut then pos else if s != last.end && last.end < end then last.end else end)
  }

  lemma FinalRange(q0: Queue, g0: Gaps, readPos: nat, start: nat, end: nat, ms: seq<Interval>, pos: nat, replaced: bool,
                   cut: bool, s: nat, e: nat)
    requires Tiles(q0, g0, readPos) && Matches(g0, start, end, ms) && |ms| > 0
    requires start < end <= MAX_BYTE_COUNT
    requires AfterReplace(q0, g0, start, end, ms, pos, replaced, cut)
    requires IsFinal(start, end, ms, pos, replaced, cut, s, e)
    ensures Spans(g0, ms[0], ms[|ms| - 1], s, e)
    ensures readPos <= s && start <= s < e <= end
    ensures NotInside(q0, s) && NotInside(q0, e)
    ensures forall x | start <= x < end && !(s <= x < e) :: !Missing(g0, x)
  {
    hide Tiles, Matches, NotInside, Spans, IsFinal, AfterReplace, Missing;
    FinalSpans(q0, g0, readPos, start, end, ms, pos, replaced, cut, s, e);
    FinalEnds(q0, g0, readPos, start, end, ms, pos, replaced, cut, s, e);
    FinalRest(q0, g0, readPos, start, end, ms, pos, replaced, cut, s, e);
  }

  lemma FinalSpans(q0: Queue, g0: Gaps, readPos: nat, start: nat, end: nat, ms: seq<Interval>, pos: nat, replaced: bool,
                   cut: bool, s: nat, e: nat)
    requires Tiles(q0, g0, readPos) && Matches(g0, start, end, ms) && |ms| > 0
    requires start < end <= MAX_BYTE_COUNT
    requires AfterReplace(q0, g0, start, end, ms, pos, replaced, cut)
    requires IsFinal(start, end, ms, pos, replaced, cut, s, e)
    ensures Spans(g0, ms[0], ms[|ms| - 1], s, e)
    ensures readPos <= s && start <= s < e <= end
  {
    hide Matches, Linked, Apart;
    MatchedEnds(q0, g0, readPos, start, end, ms);
  }

  lemma FinalEnds(q0: Queue, g0: Gaps, readPos: nat, start: nat, end: nat, ms: seq<Interval>, pos: nat, replaced: bool,
                  cut: bool, s: nat, e: nat)
    requires Tiles(q0, g0, readPos) && Matches(g0, start, end, ms) && |ms| > 0
    requires start < end <= MAX_BYTE_COUNT
    requires AfterReplace(q0, g0, start, end, ms, pos, replaced, cut)
    requires IsFinal(start, end, ms, pos, replaced, cut, s, e) && Spans(g0, ms[0], ms[|ms| - 1], s, e)
    ensures NotInside(q0, s) && NotInside(q0, e)
  {
    hide Matches, Linked, Spans, NotInside;
    MatchedEnds(q0, g0, readPos, start, end, ms);
    FinalUncut(q0, g0, readPos, ms[0], ms[|ms| - 1], start, end, pos, cut, s, e);
  }

  lemma FinalRest(q0: Queue, g0: Gaps, readPos: nat, start: nat, end: nat, ms: seq<Interval>, pos: nat, replaced: bool,
                  cut: bool, s: nat, e: nat)
    requires Tiles(q0, g0, readPos) && Matches(g0, start, end, ms) && |ms| > 0
    requires start < end <= MAX_BYTE_COUNT
    requires AfterReplace(q0, g0, start, end, ms, pos, replaced, cut)
    requires IsFinal(start, end, ms, pos, replaced, cut, s, e)
    ensures forall x | start <= x < end && !(s <= x < e) :: !Missing(g0, x)
  {
    hide Matches, Linked, Apart;
    MatchedEnds(q0, g0, readPos, start, end, ms);
  }

  // When the part [s, e) is copied.
  lemma CopiedExactly(q0: Queue, g0: Gaps, readPos: nat, offset: nat, data: seq<Byte>, ms: seq<Interval>, pos: nat,
                      replaced: bool, cut: bool, s: nat, e: nat)
    requires Tiles(q0, g0, readPos) && Matches(g0, offset, offset + |data|, ms) && |ms| > 0
    requires data != [] && offset + |data| <= MAX_BYTE_COUNT
    requires AfterReplace(q0, g0, offset, offset + |data|, ms, pos, replaced, cut)
    requires IsFinal(offset, offset + |data|, ms, pos, replaced, cut, s, e) && offset <= s < e <= offset + |data|
    ensures Copied(q0, g0, offset, data, e - s) <==> (cut || e - s < |data|) && e - s < MIN_STREAM_FRAME_BUFFER_SIZE
  {
    hide Tiles, Matches, AfterReplace, NothingNew;
    if e - s == |data| {
      if cut {
        CutHolds(q0, g0, readPos, offset, data, ms, pos, replaced, cut);
      } else if NothingNew(g0, offset, data) {
        UncutEnds(q0, g0, readPos, offset, data, ms, pos, replaced, s, e);
      }
    }
  }

  lemma CutHolds(q0: Queue, g0: Gaps, readPos: nat, offset: nat, data: seq<Byte>, ms: seq<Interval>, pos: nat,
                 replaced: bool, cut: bool)
    requires Tiles(q0, g0, readPos) && Matches(g0, offset, offset + |data|, ms) && |ms| > 0
    requires AfterReplace(q0, g0, offset, offset + |data|, ms, pos, replaced, cut) && cut
    ensures pos in q0 && NothingNew(g0, offset, data)
  {
    hide Tiles, Matches;
    MatchedEnds(q0, g0, readPos, offset, offset + |data|, ms);
  }

  lemma UncutEnds(q0: Queue, g0: Gaps, readPos: nat, offset: nat, data: seq<Byte>, ms: seq<Interval>, pos: nat,
                  replaced: bool, s: nat, e: nat)
    requires Tiles(q0, g0, readPos) && Matches(g0, offset, offset + |data|, ms) && |ms| > 0
    requires data != [] && offset + |data| <= MAX_BYTE_COUNT && NothingNew(g0, offset, data)
    requires AfterReplace(q0, g0, offset, offset + |data|, ms, pos, replaced, false)
    requires IsFinal(offset, offset + |data|, ms, pos, replaced, false, s, e) && s == offset
    ensures offset + |data| !in q0
  {
    hide Matches, Linked;
    var end := offset + |data|;
    MatchedGap(q0, g0, readPos, offset, end, ms, 0);
    assert offset == ms[0].end by { NotMissing(g0, offset, data, ms[0].start); }
    if |ms| > 1 {
      MatchedGap(q0, g0, readPos, offset, end, ms, 1);
      assert pos == end by { NotMissing(g0, offset, data, ms[1].start); }
    }
  }

  lemma NotMissing(g: Gaps, offset: nat, data: seq<Byte>, k: nat)
    requires k in g && NothingNew(g, offset, data)
    ensures g[k] <= k || g[k] <= offset || offset + |data| <= k || data == []
  {
    if k < g[k] && offset < g[k] && k < offset + |data| && data != [] {
      assert Missing(g, Max(k, offset));
    }
  }

  lemma FinalUncut(q0: Queue, g0: Gaps, readPos: nat, first: Interval, last: Interval, start: nat, end: nat, pos: nat,
                   cut: bool, s: nat, e: nat)
    requires Entries(q0, readPos) && Holes(g0, readPos) && Apart(q0, g0)
    requires Spans(g0, first, last, s, e)
    requires s in q0 || first.start <= s < first.end
    requires if cut then e == pos && pos in q0 && end < EndOf(q0, pos) else e == Min(end, last.end)
                                                                            || (e == end && end == MAX_BYTE_COUNT)
    requires forall k | k in g0 && last.start < k :: end < k
    ensures NotInside(q0, s) && NotInside(q0, e)
  {
  }

  function StartTrimmed(g: Gaps, startGap: Interval, start: nat, end: nat, replaced: bool): Gaps {
    if start <= startGap.start then
      if end >= startGap.end then g - {startGap.start} else (g - {startGap.start})[end := startGap.end]
    else if !replaced then g[startGap.start := start]
    else g
  }

  function EndTrimmed(g: Gaps, endGap: Interval, end: nat, single: bool, adjusted: bool): Gaps {
    if end == endGap.end then
      if single then g else g - {endGap.start}
    else if single then
      if adjusted then g[end := endGap.end] else g
    else (g - {endGap.start})[end := endGap.end]
  }

  lemma StartTrimmedAgrees(g0: Gaps, startGap: Interval, start: nat, end: nat, replaced: bool)
    requires InTree(g0, startGap) && startGap.end <= end
    ensures var g := StartTrimmed(g0, startGap, start, end, replaced);
            && (forall k | k in g0 && startGap.start < k :: k in g && g[k] == g0[k])
            && (forall k | k in g && startGap.start < k :: k in g0)
  {
  }

  lemma ClearedUpTo(q0: Queue, g0: Gaps, readPos: nat, offset: nat, frameEnd: nat, ms: seq<Interval>, pos: nat,
                    replaced: bool, cut: bool, s: nat, hi: nat)
    requires Tiles(q0, g0, readPos) && Matches(g0, offset, frameEnd, ms) && |ms| > 0
    requires AfterReplace(q0, g0, offset, frameEnd, ms, pos, replaced, cut)
    requires var startsInGap := ms[0].start <= offset <= ms[0].end;
             && s == (if startsInGap || replaced then offset else ms[0].start)
             && hi == (if startsInGap && replaced then pos else ms[0].end)
    ensures Without(q0, offset, pos) == Without(q0, s, hi)
  {
    EmptyGap(q0, g0, readPos, ms[0].start);
  }

  lemma RoomMade(q0: Queue, g0: Gaps, readPos: nat, ms: seq<Interval>, s: nat, e: nat, hi: nat)
    requires Tiles(q0, g0, readPos) && |ms| > 0 && InTree(g0, ms[|ms| - 1])
    requires hi == e || (ms[|ms| - 1].start <= e <= ms[|ms| - 1].end && ms[|ms| - 1].start <= hi <= ms[|ms| - 1].end)
    ensures Without(q0, s, hi) == Without(q0, s, e)
  {
    if hi != e {
      EmptyGap(q0, g0, readPos, ms[|ms| - 1].start);
    }
  }

  lemma TrimmedIsRemaining(q0: Queue, g0: Gaps, readPos: nat, offset: nat, frameEnd: nat, ms: seq<Interval>,
                           pos: nat, replaced: bool, cut: bool, s: nat, end1: nat, e: nat)
    requires Tiles(q0, g0, readPos) && Matches(g0, offset, frameEnd, ms) && |ms| > 0
    requires AfterReplace(q0, g0, offset, frameEnd, ms, pos, replaced, cut)
    requires IsFinal(offset, frameEnd, ms, pos, replaced, cut, s, e)
    requires end1 == if cut then pos else frameEnd
    ensures var first, last := ms[0], ms[|ms| - 1];
            var g1 := StartTrimmed(g0, first, s, end1, replaced);
            var g2 := if |ms| == 1 then g1 else WithoutGaps(g1, first.start + 1, last.start);
            EndTrimmed(g2, last, e, |ms| == 1, first.start < s && !replaced) == Remaining(g0, first, last, s, e)
  {
    hide Matches, Tiles;
    MatchedEnds(q0, g0, readPos, offset, frameEnd, ms);
  }

  /** The offsets of the frame, and no others, stop missing. */
  ghost predicate Fills(g0: Gaps, g: Gaps, offset: nat, data: seq<Byte>) {
    forall x: nat :: Missing(g, x) <==> Missing(g0, x) && !(offset <= x < offset + |data|)
  }

  lemma GapCount(q0: Queue, g0: Gaps, readPos: nat, offset: nat, data: seq<Byte>, ms: seq<Interval>, s: nat, e: nat)
    requires Tiles(q0, g0, readPos) && |ms| > 0 && data != []
    requires Matches(g0, offset, offset + |data|, ms)
    requires Spans(g0, ms[0], ms[|ms| - 1], s, e)
    requires offset <= s < e <= offset + |data|
    requires forall x | offset <= x < offset + |data| && !(s <= x < e) :: !Missing(g0, x)
    ensures if Splits(g0, offset, data) then |Remaining(g0, ms[0], ms[|ms| - 1], s, e)| == |g0| + 1
            else |Remaining(g0, ms[0], ms[|ms| - 1], s, e)| <= |g0|
  {
    var first, last := ms[0], ms[|ms| - 1];
    RemainingSize(g0, readPos, first, last, s, e);
    hide Remaining, Spans, Linked;
    if Splits(g0, offset, data) {
      var k :| k in g0 && k < offset && offset + |data| < g0[k];
      SplitIsSingle(g0, readPos, offset, data, ms, k);
      assert Missing(g0, offset) && Missing(g0, offset + |data| - 1);
    } else if first == last {
      GapEndsMissing(g0, readPos, first);
    }
  }

  lemma GapEndsMissing(g0: Gaps, readPos: nat, gap: Interval)
    requires Holes(g0, readPos) && InTree(g0, gap)
    ensures gap.start < gap.end && Missing(g0, gap.start) && Missing(g0, gap.end - 1)
  {
    assert gap.start in g0;
  }

  lemma SplitIsSingle(g0: Gaps, readPos: nat, offset: nat, data: seq<Byte>, ms: seq<Interval>, k: nat)
    requires Holes(g0, readPos) && |ms| > 0
    requires Matches(g0, offset, offset + |data|, ms)
    requires k in g0 && k < offset && offset + |data| < g0[k]
    ensures ms[0] == ms[|ms| - 1] == Interval(k, g0[k])
  {
    assert Touches(g0, k, offset, offset + |data|);
    assert Touches(g0, ms[0].start, offset, offset + |data|);
    assert Touches(g0, ms[|ms| - 1].start, offset, offset + |data|);
  }

  lemma StoreFrame(q0: Queue, g0: Gaps, readPos: nat, offset: nat, data: seq<Byte>, first: Interval, last: Interval,
                   s: nat, e: nat, entry: Entry, doneCb: Option<Callback>)
    requires Tiles(q0, g0, readPos) && offset + |data| <= MAX_BYTE_COUNT
    requires Spans(g0, first, last, s, e)
    requires readPos <= s && offset <= s < e <= offset + |data|
    requires NotInside(q0, s) && NotInside(q0, e)
    requires forall x | offset <= x < offset + |data| && !(s <= x < e) :: !Missing(g0, x)
    requires entry == Entry(data[s - offset..e - offset],
                            if Copied(q0, g0, offset, data, e - s) then None else doneCb)
    ensures var q, g := Without(q0, s, e)[s := entry], Remaining(g0, first, last, s, e);
            Tiles(q, g, readPos) && Fills(g0, g, offset, data) && Provenance(q0, g0, q, offset, data, doneCb)
    ensures Callbacks(Without(q0, s, e)[s := entry]) == Callbacks(Without(q0, s, e)) + Calls(entry.doneCb)
  {
    hide Tiles, Holes, Callbacks, Remaining, Carved, Missing, Copied;
    var q, g := Without(q0, s, e)[s := entry], Remaining(g0, first, last, s, e);
    TilesHoles(q0, g0, readPos);
    RemainingIsCarved(g0, readPos, first, last, s, e);
    WriteKeepsTiles(q0, g0, readPos, q, g, s, e, entry);
    assert StoredAt(q0, g0, q, offset, data, doneCb, s, e);
    InsertCallbacks(Without(q0, s, e), s, entry);
    forall x: nat ensures Missing(g, x) <==> Missing(g0, x) && !(offset <= x < offset + |data|) {
      CarvedMissing(g0, g, readPos, s, e, x);
    }
  }

  lemma TilesHoles(q: Queue, g: Gaps, readPos: nat)
    requires Tiles(q, g, readPos)
    ensures Holes(g, readPos)
  {
  }

  lemma NextTile(q: Queue, g: Gaps, readPos: nat)
    requires Tiles(q, g, readPos)
    ensures readPos !in q <==> Missing(g, readPos) || readPos == MAX_BYTE_COUNT
    ensures readPos in q ==> q[readPos].data != []
  {
    if readPos in q {
      forall k | k in g ensures EndOf(q, readPos) <= k {
      }
    }
  }

  lemma PopEntry(q: Queue, g: Gaps, readPos: nat)
    requires Tiles(q, g, readPos) && readPos in q
    ensures Tiles(q - {readPos}, g, readPos + |q[readPos].data|)
    ensures Callbacks(q - {readPos}) + Calls(q[readPos].doneCb) == Callbacks(q)
  {
    hide Callbacks, Tiles;
    RemoveCallbacks(q, readPos);
    PopKeepsTiles(q, g, readPos);
  }

  lemma PopKeepsTiles(q: Queue, g: Gaps, readPos: nat)
    requires Tiles(q, g, readPos) && readPos in q
    ensures Tiles(q - {readPos}, g, EndOf(q, readPos))
  {
    var q', next := q - {readPos}, EndOf(q, readPos);
    assert Boundary(q, g, next);
    forall k | k in g ensures next <= k {
    }
    assert Holes(g, next);
    assert Entries(q', next);
    hide Apart, Entries, Holes;
    PopKeepsLinked(q, g, readPos);
  }

  lemma PopKeepsLinked(q: Queue, g: Gaps, readPos: nat)
    requires Tiles(q, g, readPos) && readPos in q
    ensures Linked(q - {readPos}, g, EndOf(q, readPos))
  {
    hide Apart;
    var q' := q - {readPos};
    assert Boundary(q, g, EndOf(q, readPos));
    forall k | k in q' ensures Boundary(q', g, EndOf(q', k)) {
      assert Boundary(q, g, EndOf(q, k));
    }
    forall k | k in g ensures Boundary(q', g, g[k]) {
      assert Boundary(q, g, g[k]);
    }
  }
}
