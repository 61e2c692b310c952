/** The gap index of the frame sorter: a balanced tree ordered by gap start.  No two gaps
    share a start, so it is a map from start to end; Match lists, in ascending order, the
    gaps that overlap or touch an interval.
 */
module GapTree {
  import opened StreamBytes
  import opened Tiling

  datatype Interval = Interval(start: nat, end: nat)

  ghost predicate Touches(g: Gaps, k: nat, start: nat, end: nat)
    requires k in g
  {
    k <= end && start <= g[k]
  }

  ghost predicate Matches(g: Gaps, start: nat, end: nat, ms: seq<Interval>) {
    && (forall i | 0 <= i < |ms| ::
          ms[i].start in g && ms[i].end == g[ms[i].start] && Touches(g, ms[i].start, start, end))
    && (forall i, j | 0 <= i < j < |ms| :: ms[i].start < ms[j].start)
    && (forall k | k in g && Touches(g, k, start, end) :: Interval(k, g[k]) in ms)
  }

  method Match(g: Gaps, start: nat, end: nat) returns (ms: seq<Interval>)
    ensures Matches(g, start, end, ms)
  {
    var rest: set<nat> := set k | k in g && k <= end && start <= g[k];
    ms := [];
    while rest != {}
      invariant Listed(g, start, end, ms, rest)
      decreases |rest|
    {
      var k := Least(rest);
      ListNext(g, start, end, ms, rest, k);
      ms := ms + [Interval(k, g[k])];
      rest := rest - {k};
    }
  }

  method Least(s: set<nat>) returns (k: nat)
    requires s != {}
    ensures k in s && forall j | j in s :: k <= j
  {
    k :| k in s;
    var rest := s - {k};
    while rest != {}
      invariant k in s && rest <= s
      invariant forall j | j in s :: k <= j || j in rest
      decreases |rest|
    {
      var j :| j in rest;
      if j < k {
        k := j;
      }
      rest := rest - {j};
    }
  }

  // ms lists the touching gaps in order, except for those in rest, which come later.
  ghost predicate Listed(g: Gaps, start: nat, end: nat, ms: seq<Interval>, rest: set<nat>) {
    && (forall k | k in rest :: k in g && Touches(g, k, start, end))
    && (forall i | 0 <= i < |ms| ::
          ms[i].start in g && ms[i].end == g[ms[i].start] && Touches(g, ms[i].start, start, end))
    && (forall i, k | 0 <= i < |ms| && k in rest :: ms[i].start < k)
    && (forall i, j | 0 <= i < j < |ms| :: ms[i].start < ms[j].start)
    && (forall k | k in g && Touches(g, k, start, end) :: k in rest || Interval(k, g[k]) in ms)
  }

  lemma ListNext(g: Gaps, start: nat, end: nat, ms: seq<Interval>, rest: set<nat>, k: nat)
    requires Listed(g, start, end, ms, rest)
    requires k in rest && forall j | j in rest :: k <= j
    ensures Listed(g, start, end, ms + [Interval(k, g[k])], rest - {k})
  {
    var ms' := ms + [Interval(k, g[k])];
    forall j | j in g && Touches(g, j, start, end) ensures j in rest - {k} || Interval(j, g[j]) in ms' {
      if j == k {
        assert ms'[|ms|] == Interval(j, g[j]);
      } else if j !in rest {
        var i :| 0 <= i < |ms| && ms[i] == Interval(j, g[j]);
        assert ms'[i] == Interval(j, g[j]);
      }
    }
  }

  function WithoutGaps(g: Gaps, lo: nat, hi: nat): Gaps {
    map k | k in g && !(lo <= k < hi) :: g[k]
  }

  /** What Push leaves of the gaps when the matched gaps run from first to last and the
      new entry covers [s, e). */
  function Remaining(g0: Gaps, first: Interval, last: Interval, s: nat, e: nat): Gaps {
    var others := WithoutGaps(g0, first.start, last.start + 1);
    var left := if first.start < s then others[first.start := Min(first.end, s)] else others;
    if e < last.end then left[e := last.end] else left
  }

  ghost predicate InTree(g: Gaps, i: Interval) {
    i.start in g && i.end == g[i.start]
  }

  /** The range [s, e) lies between the first and the last matched gap, and no other gap
      reaches into it. */
  ghost predicate Spans(g0: Gaps, first: Interval, last: Interval, s: nat, e: nat) {
    && InTree(g0, first) && InTree(g0, last)
    && first.start <= last.start
    && s < e && s <= first.end && last.start <= e
    && (forall k | k in g0 && k < first.start :: g0[k] <= s)
    && (forall k | k in g0 && last.start < k :: e <= k)
  }

  lemma RemainingIsCarved(g0: Gaps, readPos: nat, first: Interval, last: Interval, s: nat, e: nat)
    requires Holes(g0, readPos) && Spans(g0, first, last, s, e)
    ensures Carved(g0, Remaining(g0, first, last, s, e), s, e)
  {
    var g := Remaining(g0, first, last, s, e);
    forall k | k in g0
      ensures k < s ==> k in g && g[k] == Min(g0[k], s)
      ensures e <= k ==> k in g && g[k] == g0[k]
      ensures k < e < g0[k] ==> e in g && g[e] == g0[k]
    {
      OldGapCarved(g0, readPos, first, last, s, e, k);
    }
    forall k | k in g
      ensures s <= k ==> e <= k && (k in g0 || (k == e && Missing(g0, e)))
      ensures k < s ==> k in g0
    {
      assert k == first.start || k == e || (k in g0 && !(first.start <= k <= last.start));
    }
  }

  lemma OldGapCarved(g0: Gaps, readPos: nat, first: Interval, last: Interval, s: nat, e: nat, k: nat)
    requires Holes(g0, readPos) && Spans(g0, first, last, s, e)
    requires k in g0
    ensures var g := Remaining(g0, first, last, s, e);
            && (k < s ==> k in g && g[k] == Min(g0[k], s))
            && (e <= k ==> k in g && g[k] == g0[k])
            && (k < e < g0[k] ==> e in g && g[e] == g0[k])
  {
    if k < first.start || last.start < k {
    } else if k == last.start {
    } else if k == first.start {
    } else {
      assert first.end < k && g0[k] < last.start;
    }
  }

  /** A push adds a gap only when it splits one, and then exactly one. */
  lemma RemainingSize(g0: Gaps, readPos: nat, first: Interval, last: Interval, s: nat, e: nat)
    requires Holes(g0, readPos) && Spans(g0, first, last, s, e)
    ensures var splits := first == last && first.start < s && e < first.end;
            if splits then |Remaining(g0, first, last, s, e)| == |g0| + 1
            else |Remaining(g0, first, last, s, e)| <= |g0|
  {
    hide Holes;
    var others := WithoutGaps(g0, first.start, last.start + 1);
    var left := if first.start < s then others[first.start := Min(first.end, s)] else others;
    OthersSize(g0, readPos, first, last, s, e);
    UpdateSize(others, first.start, Min(first.end, s));
    UpdateSize(left, e, last.end);
  }

  lemma OthersSize(g0: Gaps, readPos: nat, first: Interval, last: Interval, s: nat, e: nat)
    requires Holes(g0, readPos) && Spans(g0, first, last, s, e)
    ensures first == last ==> |WithoutGaps(g0, first.start, last.start + 1)| == |g0| - 1
    ensures first != last ==> |WithoutGaps(g0, first.start, last.start + 1)| <= |g0| - 2
    ensures first == last && first.start < s && e < first.end ==> e !in g0
  {
    hide Holes;
    var others := WithoutGaps(g0, first.start, last.start + 1);
    if first == last {
      assert others.Keys == g0.Keys - {first.start};
      EndIsNoStart(g0, readPos, first, e);
    } else {
      SubsetSize(others.Keys, g0.Keys - {first.start} - {last.start});
    }
  }

  lemma EndIsNoStart(g0: Gaps, readPos: nat, gap: Interval, e: nat)
    requires Holes(g0, readPos) && InTree(g0, gap)
    ensures gap.start < e < gap.end ==> e !in g0
  {
  }

  lemma UpdateSize(g: Gaps, k: nat, v: nat)
    ensures |g[k := v]| == if k in g then |g| else |g| + 1
  {
    assert g[k := v].Keys == g.Keys + {k};
  }

  lemma {:induction false} SubsetSize<T>(a: set<T>, b: set<T>)
    requires a <= b
    ensures |a| <= |b|
    decreases |a|
  {
    if x :| x in a {
      SubsetSize(a - {x}, b - {x});
    }
  }
}
