/** The path MTU search of RFC 8899, section 5.3, as a state machine: a binary search that
    tolerates the loss of MAX_LOST_MTU_PROBES - 1 probes that would have fit the path.
 */
module MtuSearch {
  import opened StreamBytes

  const INVALID_BYTE_COUNT: int := -1
  const MAX_MTU_DIFF: int := 20
  const MAX_LOST_MTU_PROBES: nat := 3
  // The generation is a uint8.
  const GENERATIONS: nat := 256

  /** lost holds the sizes of the smallest lost probes, in ascending order; the maximum of
      the search range counts as the first one. */
  datatype Search = Search(
    inFlight: int,
    min: int,
    lost: seq<int>,
    lastProbeWasLost: bool,
    generation: nat)

  predicate Sorted(s: seq<int>) {
    forall i, j | 0 <= i < j < |s| :: s[i] <= s[j]
  }

  /** What every operation keeps. */
  ghost predicate WellFormed(s: Search) {
    && 1 <= |s.lost| <= MAX_LOST_MTU_PROBES
    && Sorted(s.lost)
    && 0 <= s.min
    && (forall i | 0 <= i < |s.lost| :: 0 <= s.lost[i])
    && (|s.lost| == 1 || s.min <= s.lost[0])
    && (s.inFlight == INVALID_BYTE_COUNT || (!Done(s) && s.inFlight == ProbeSize(s)))
  }

  function MaxOf(s: Search): int
    requires |s.lost| > 0
  {
    s.lost[|s.lost| - 1]
  }

  predicate Done(s: Search)
    requires |s.lost| > 0
  {
    MaxOf(s) - s.min <= MAX_MTU_DIFF + 1
  }

  function ProbeSize(s: Search): int
    requires |s.lost| > 0
  {
    if s.lastProbeWasLost then (s.min + s.lost[0]) / 2 else (s.min + MaxOf(s)) / 2
  }

  function Start(start: int, max: int, generation: nat): Search {
    Search(INVALID_BYTE_COUNT, start, [max], false, generation)
  }

  function Probe(s: Search): Search
    requires |s.lost| > 0
  {
    s.(inFlight := ProbeSize(s))
  }

  /** The index of the first entry above size. */
  function FirstAbove(lost: seq<int>, size: int): (p: nat)
    ensures p <= |lost|
    ensures forall i | 0 <= i < p :: lost[i] <= size
    ensures p < |lost| ==> size < lost[p]
  {
    if lost == [] || size < lost[0] then 0 else 1 + FirstAbove(lost[1..], size)
  }

  function Smallest(lost: seq<int>): seq<int> {
    if |lost| <= MAX_LOST_MTU_PROBES then lost else lost[..MAX_LOST_MTU_PROBES]
  }

  /** The path carries the probe: search above its size, and forget the losses it refutes. */
  function Acked(s: Search): Search {
    var p := FirstAbove(s.lost, s.inFlight);
    var lost := if p < |s.lost| then s.lost[p..] else s.lost;
    s.(min := s.inFlight, lost := lost, lastProbeWasLost := false, inFlight := INVALID_BYTE_COUNT)
  }

  /** Note the loss, and keep only the smallest losses. */
  function Lost(s: Search): Search {
    var p := FirstAbove(s.lost, s.inFlight);
    var lost := if p < |s.lost| then Smallest(s.lost[..p] + [s.inFlight] + s.lost[p..]) else s.lost;
    s.(lost := lost, lastProbeWasLost := true, inFlight := INVALID_BYTE_COUNT)
  }

  /** The number of entries in [lo, hi). */
  function Count(lost: seq<int>, lo: int, hi: int): nat {
    if lost == [] then 0
    else (if lo <= lost[0] < hi then 1 else 0) + Count(lost[1..], lo, hi)
  }

  lemma {:induction false} CountConcat(a: seq<int>, b: seq<int>, lo: int, hi: int)
    ensures Count(a + b, lo, hi) == Count(a, lo, hi) + Count(b, lo, hi)
  {
    if a == [] {
      assert a + b == b;
    } else {
      CountConcat(a[1..], b, lo, hi);
      assert (a + b)[1..] == a[1..] + b;
    }
  }

  lemma {:induction false} CountBounds(s: seq<int>, lo: int, hi: int)
    ensures Count(s, lo, hi) <= |s|
    ensures (forall i | 0 <= i < |s| :: lo <= s[i] < hi) ==> Count(s, lo, hi) == |s|
    ensures (forall i | 0 <= i < |s| :: !(lo <= s[i] < hi)) ==> Count(s, lo, hi) == 0
  {
    if s != [] {
      CountBounds(s[1..], lo, hi);
    }
  }

  /** A probe in flight is at least the current size and below every refuting bound. */
  lemma ProbeInRange(s: Search)
    requires WellFormed(s) && s.inFlight != INVALID_BYTE_COUNT
    ensures 0 <= s.min <= s.inFlight < MaxOf(s)
    ensures !s.lastProbeWasLost ==> s.min < s.inFlight
    ensures FirstAbove(s.lost, s.inFlight) < |s.lost|
    ensures s.lastProbeWasLost && s.min < s.inFlight ==> s.inFlight < s.lost[0]
  {
    assert s.lost[|s.lost| - 1] > s.inFlight;
  }

  lemma AckedKeeps(s: Search)
    requires WellFormed(s) && s.inFlight != INVALID_BYTE_COUNT
    ensures WellFormed(Acked(s)) && MaxOf(Acked(s)) == MaxOf(s)
  {
    hide FirstAbove, Sorted;
    ProbeInRange(s);
    DropSorted(s.lost, FirstAbove(s.lost, s.inFlight));
  }

  // The entries from p on.
  lemma DropSorted(lost: seq<int>, p: nat)
    requires Sorted(lost) && p < |lost| && forall i | 0 <= i < |lost| :: 0 <= lost[i]
    ensures Sorted(lost[p..]) && |lost[p..]| == |lost| - p
    ensures lost[p..][0] == lost[p] && lost[p..][|lost| - p - 1] == lost[|lost| - 1]
    ensures forall i | 0 <= i < |lost[p..]| :: 0 <= lost[p..][i]
  {
  }

  lemma InsertSorted(lost: seq<int>, size: int, p: nat)
    requires Sorted(lost) && p < |lost|
    requires (forall i | 0 <= i < p :: lost[i] <= size) && size < lost[p]
    ensures Sorted(lost[..p] + [size] + lost[p..])
  {
    var r := lost[..p] + [size] + lost[p..];
    forall i, j | 0 <= i < j < |r| ensures r[i] <= r[j] {
      assert r[i] == if i < p then lost[i] else if i == p then size else lost[i - 1];
      assert r[j] == if j < p then lost[j] else if j == p then size else lost[j - 1];
    }
  }

  // The entries after a loss, before they are cut to the smallest ones.
  function Inserted(s: Search): seq<int>
    requires |s.lost| > 0
  {
    var p := FirstAbove(s.lost, s.inFlight);
    s.lost[..p] + [s.inFlight] + s.lost[p..]
  }

  lemma InsertedFacts(s: Search)
    requires WellFormed(s) && s.inFlight != INVALID_BYTE_COUNT
    ensures var r := Inserted(s);
            && Sorted(r) && |r| == |s.lost| + 1
            && Lost(s).lost == Smallest(r)
            && (forall i | 0 <= i < |r| :: s.min <= r[i])
            && r[|s.lost|] == MaxOf(s)
  {
    hide FirstAbove, ProbeSize, Sorted;
    ProbeInRange(s);
    AboveMin(s);
    var p := FirstAbove(s.lost, s.inFlight);
    InsertSorted(s.lost, s.inFlight, p);
  }

  lemma AboveMin(s: Search)
    requires WellFormed(s) && s.min <= MaxOf(s)
    ensures forall i | 0 <= i < |s.lost| :: s.min <= s.lost[i]
  {
    hide ProbeSize;
  }

  lemma LostKeeps(s: Search)
    requires WellFormed(s) && s.inFlight != INVALID_BYTE_COUNT
    ensures WellFormed(Lost(s))
    ensures MaxOf(Lost(s)) <= MaxOf(s)
    ensures |s.lost| < MAX_LOST_MTU_PROBES ==> MaxOf(Lost(s)) == MaxOf(s)
  {
    hide FirstAbove, Inserted, ProbeSize, Done;
    InsertedFacts(s);
  }

  /** The number of steps the search can still take: a lexicographic measure of the width
      of the search range, the free slots and duplicates of the maximum, whether the last
      probe was lost, and the losses at the current size. */
  function Rank(s: Search): int
    requires |s.lost| > 0
  {
    Digits(
      Max(0, MaxOf(s) - s.min),
      3 - Count(s.lost, s.min + 1, MaxOf(s) + 1) + Count(s.lost, MaxOf(s), MaxOf(s) + 1),
      if s.lastProbeWasLost then 1 else 0,
      3 - Count(s.lost, s.min, s.min + 1))
  }

  lemma RankBound(s: Search)
    requires WellFormed(s)
    ensures 0 <= Rank(s)
  {
    hide Count;
    CountBounds(s.lost, s.min + 1, MaxOf(s) + 1);
    CountBounds(s.lost, MaxOf(s), MaxOf(s) + 1);
    CountBounds(s.lost, s.min, s.min + 1);
  }

  function Digits(a: int, b: int, c: int, d: int): int {
    ((a * 7 + b) * 2 + c) * 4 + d
  }

  lemma DigitsLess(a: int, b: int, c: int, d: int, a': int, b': int, c': int, d': int)
    requires 0 <= a' && 0 <= b < 7 && 0 <= b' < 7 && 0 <= c < 2 && 0 <= c' < 2 && 0 <= d < 4 && 0 <= d' < 4
    requires a' < a || (a' == a && (b' < b || (b' == b && (c' < c || (c' == c && d' < d)))))
    ensures 0 <= Digits(a', b', c', d') < Digits(a, b, c, d)
  {
  }

  lemma CountOne(x: int, lo: int, hi: int)
    ensures Count([x], lo, hi) == if lo <= x < hi then 1 else 0
  {
    assert [x][1..] == [];
  }

  lemma LostCounts(s: Search, lo: int, hi: int)
    requires WellFormed(s) && s.inFlight != INVALID_BYTE_COUNT
    ensures Count(Lost(s).lost, lo, hi) ==
            Count(s.lost, lo, hi)
            + (if lo <= s.inFlight < hi then 1 else 0)
            - (if |s.lost| == MAX_LOST_MTU_PROBES && lo <= MaxOf(s) < hi then 1 else 0)
  {
    hide Count, WellFormed, Sorted, Lost;
    assert 1 <= |s.lost| <= MAX_LOST_MTU_PROBES by { LostLength(s); }
    InsertedFacts(s);
    CountInserted(s, lo, hi);
    hide Inserted;
    var r := Inserted(s);
    if |s.lost| == MAX_LOST_MTU_PROBES {
      assert r == r[..MAX_LOST_MTU_PROBES] + [MaxOf(s)];
      CountConcat(r[..MAX_LOST_MTU_PROBES], [MaxOf(s)], lo, hi);
      CountOne(MaxOf(s), lo, hi);
    }
  }

  lemma LostLength(s: Search)
    requires WellFormed(s)
    ensures 1 <= |s.lost| <= MAX_LOST_MTU_PROBES
  {
  }

  lemma CountInserted(s: Search, lo: int, hi: int)
    requires |s.lost| > 0
    ensures Count(Inserted(s), lo, hi) == Count(s.lost, lo, hi) + if lo <= s.inFlight < hi then 1 else 0
  {
    hide Count, FirstAbove;
    var p := FirstAbove(s.lost, s.inFlight);
    assert s.lost == s.lost[..p] + s.lost[p..];
    CountConcat(s.lost[..p], s.lost[p..], lo, hi);
    CountConcat(s.lost[..p] + [s.inFlight], s.lost[p..], lo, hi);
    CountConcat(s.lost[..p], [s.inFlight], lo, hi);
    CountOne(s.inFlight, lo, hi);
  }

  lemma AckedCounts(s: Search, lo: int, hi: int)
    requires WellFormed(s) && s.inFlight != INVALID_BYTE_COUNT
    ensures Count(Acked(s).lost, lo, hi) <= Count(s.lost, lo, hi)
    ensures s.inFlight < lo ==> Count(Acked(s).lost, lo, hi) == Count(s.lost, lo, hi)
  {
    hide Count, FirstAbove;
    ProbeInRange(s);
    hide WellFormed, Sorted;
    var p := FirstAbove(s.lost, s.inFlight);
    DropCounts(s.lost, p, s.inFlight, lo, hi);
  }

  lemma DropCounts(lost: seq<int>, p: nat, size: int, lo: int, hi: int)
    requires p <= |lost| && forall i | 0 <= i < p :: lost[i] <= size
    ensures Count(lost[p..], lo, hi) <= Count(lost, lo, hi)
    ensures size < lo ==> Count(lost[p..], lo, hi) == Count(lost, lo, hi)
  {
    hide Count;
    assert lost == lost[..p] + lost[p..];
    CountConcat(lost[..p], lost[p..], lo, hi);
    CountBounds(lost[..p], lo, hi);
  }

  // The second digit of the rank is between 1 and 6.
  lemma RankDigits(s: Search)
    requires WellFormed(s)
    ensures Count(s.lost, s.min + 1, MaxOf(s) + 1) <= 3
    ensures 1 <= Count(s.lost, MaxOf(s), MaxOf(s) + 1) <= 3
    ensures Count(s.lost, s.min, s.min + 1) <= 3
  {
    CountBounds(s.lost, s.min + 1, MaxOf(s) + 1);
    CountBounds(s.lost, MaxOf(s), MaxOf(s) + 1);
    CountBounds(s.lost, s.min, s.min + 1);
    var n := |s.lost| - 1;
    assert s.lost == s.lost[..n] + [MaxOf(s)];
    CountConcat(s.lost[..n], [MaxOf(s)], MaxOf(s), MaxOf(s) + 1);
  }

  /** Every acknowledged probe brings the search closer to its end. */
  lemma AckedRank(s: Search)
    requires WellFormed(s) && s.inFlight != INVALID_BYTE_COUNT
    ensures 0 <= Rank(Acked(s)) < Rank(s)
  {
    hide Count, Digits;
    AckedKeeps(s);
    ProbeInRange(s);
    if s.inFlight == s.min {
      AckedCounts(s, s.min + 1, MaxOf(s) + 1);
      AckedCounts(s, MaxOf(s), MaxOf(s) + 1);
    }
    RankLess(s, Acked(s));
  }

  /** ... and so does every lost one. */
  lemma LostRank(s: Search)
    requires WellFormed(s) && s.inFlight != INVALID_BYTE_COUNT
    ensures 0 <= Rank(Lost(s)) < Rank(s)
  {
    hide Count, Digits;
    LostKeeps(s);
    ProbeInRange(s);
    LostCounts(s, s.min + 1, MaxOf(s) + 1);
    LostCounts(s, MaxOf(s), MaxOf(s) + 1);
    LostCounts(s, s.min, s.min + 1);
    hide WellFormed, Sorted, FirstAbove, Smallest;
    RankLess(s, Lost(s));
  }

  lemma RankLess(s: Search, s': Search)
    requires WellFormed(s) && WellFormed(s') && s.min < MaxOf(s)
    requires var (m, m') := (MaxOf(s), MaxOf(s'));
             var b := Count(s.lost, m, m + 1) - Count(s.lost, s.min + 1, m + 1);
             var b' := Count(s'.lost, m', m' + 1) - Count(s'.lost, s'.min + 1, m' + 1);
             || m' - s'.min < m - s.min
             || (m' - s'.min == m - s.min && b' < b)
             || (m' - s'.min == m - s.min && b' == b && s.lastProbeWasLost && !s'.lastProbeWasLost)
             || (m' - s'.min == m - s.min && b' == b && s.lastProbeWasLost == s'.lastProbeWasLost
                 && Count(s.lost, s.min, s.min + 1) < Count(s'.lost, s'.min, s'.min + 1))
    ensures 0 <= Rank(s') < Rank(s)
  {
    hide Count, Digits;
    RankDigits(s);
    RankDigits(s');
    hide WellFormed;
    DigitsLess(
      Max(0, MaxOf(s) - s.min),
      3 - Count(s.lost, s.min + 1, MaxOf(s) + 1) + Count(s.lost, MaxOf(s), MaxOf(s) + 1),
      if s.lastProbeWasLost then 1 else 0,
      3 - Count(s.lost, s.min, s.min + 1),
      Max(0, MaxOf(s') - s'.min),
      3 - Count(s'.lost, s'.min + 1, MaxOf(s') + 1) + Count(s'.lost, MaxOf(s'), MaxOf(s') + 1),
      if s'.lastProbeWasLost then 1 else 0,
      3 - Count(s'.lost, s'.min, s'.min + 1));
  }
}
