/** The value-level invariant of the frame sorter.

    The sorter keeps buffered entries, keyed by their offset, and gaps, keyed by their
    start.  Together they must tile the offsets from the read position up to
    MAX_BYTE_COUNT.  Writing a new entry over [s, e) drops the entries in that range and
    carves the range out of the gaps; the lemmas here show that this keeps the tiling.
 */
module Tiling {
  import opened StreamBytes

  type Callback = nat

  datatype Entry = Entry(data: seq<Byte>, doneCb: Option<Callback>)

  type Queue = map<nat, Entry>

  type Gaps = map<nat, nat>

  function EndOf(q: Queue, k: nat): nat
    requires k in q
  {
    k + |q[k].data|
  }

  /** Offset x has not been received yet. */
  ghost predicate Missing(g: Gaps, x: nat) {
    exists k :: k in g && k <= x < g[k]
  }

  /** Offset x is held by a buffered entry. */
  ghost predicate Held(q: Queue, x: nat) {
    exists k :: k in q && k <= x < EndOf(q, k)
  }

  ghost predicate Entries(q: Queue, readPos: nat) {
    && (forall k | k in q :: readPos <= k && q[k].data != [] && EndOf(q, k) <= MAX_BYTE_COUNT)
    && (forall j, k | j in q && k in q && j < k :: EndOf(q, j) <= k)
  }

  ghost predicate Holes(g: Gaps, readPos: nat) {
    && (forall k | k in g :: readPos <= k < g[k] <= MAX_BYTE_COUNT)
    && (forall j, k | j in g && k in g && j < k :: g[j] < k)
  }

  ghost predicate Apart(q: Queue, g: Gaps) {
    forall j, k | j in q && k in g :: EndOf(q, j) <= k || g[k] <= j
  }

  /** An offset at which an entry or a gap starts, or the end of the offset space. */
  predicate Boundary(q: Queue, g: Gaps, x: nat) {
    x in q || x in g || x == MAX_BYTE_COUNT
  }

  ghost predicate Linked(q: Queue, g: Gaps, readPos: nat) {
    && Boundary(q, g, readPos)
    && (forall k {:trigger Boundary(q, g, EndOf(q, k))} | k in q :: Boundary(q, g, EndOf(q, k)))
    && (forall k {:trigger Boundary(q, g, g[k])} | k in g :: Boundary(q, g, g[k]))
  }

  ghost predicate Tiles(q: Queue, g: Gaps, readPos: nat) {
    Entries(q, readPos) && Holes(g, readPos) && Apart(q, g) && Linked(q, g, readPos)
  }

  /** Tiles means what its name says: from the read position on, every offset is either
      missing or held, and never both. */
  lemma TilesPartition(q: Queue, g: Gaps, readPos: nat, x: nat)
    requires Tiles(q, g, readPos)
    requires readPos <= x < MAX_BYTE_COUNT
    ensures Missing(g, x) <==> !Held(q, x)
  {
    TilesCover(q, g, readPos, readPos, x);
    if k :| k in g && k <= x < g[k] {
      forall j | j in q ensures !(j <= x < EndOf(q, j)) {
        assert EndOf(q, j) <= k || g[k] <= j;
      }
    }
  }

  lemma {:induction false} TilesCover(q: Queue, g: Gaps, readPos: nat, p: nat, x: nat)
    requires Tiles(q, g, readPos)
    requires Boundary(q, g, p) && p <= x < MAX_BYTE_COUNT
    ensures Missing(g, x) || Held(q, x)
    decreases x - p
  {
    var next := if p in q then EndOf(q, p) else g[p];
    assert Boundary(q, g, next);
    if next <= x {
      TilesCover(q, g, readPos, next, x);
    }
  }

  /** No entry contains x strictly inside. */
  ghost predicate NotInside(q: Queue, x: nat) {
    forall k | k in q :: !(k < x < EndOf(q, k))
  }

  function Without(q: Queue, lo: nat, hi: nat): Queue {
    map k | k in q && !(lo <= k < hi) :: q[k]
  }

  /** g is g0 with [s, e) carved out. */
  ghost predicate Carved(g0: Gaps, g: Gaps, s: nat, e: nat) {
    && (forall k | k in g0 && k < s :: k in g && g[k] == Min(g0[k], s))
    && (forall k | k in g0 && e <= k :: k in g && g[k] == g0[k])
    && (forall k | k in g0 && k < e < g0[k] :: e in g && g[e] == g0[k])
    && (forall k | k in g && s <= k ::
          e <= k && (k in g0 || (k == e && Missing(g0, e))))
    && (forall k | k in g && k < s :: k in g0)
  }

  /** Writing an entry over [s, e) keeps the tiling, provided neither end of the range
      cuts a buffered entry in two, and exactly the offsets of the range stop missing. */
  lemma WriteKeepsTiles(q0: Queue, g0: Gaps, readPos: nat, q: Queue, g: Gaps, s: nat, e: nat, entry: Entry)
    requires Tiles(q0, g0, readPos)
    requires readPos <= s < e <= MAX_BYTE_COUNT
    requires NotInside(q0, s) && NotInside(q0, e)
    requires |entry.data| == e - s
    requires Carved(g0, g, s, e)
    requires q == Without(q0, s, e)[s := entry]
    ensures Tiles(q, g, readPos)
  {
    CarvedKeepsHoles(g0, g, readPos, s, e);
    assert Entries(q, readPos);
    WriteKeepsApart(q0, g0, readPos, q, g, s, e, entry);
    WriteKeepsLinked(q0, g0, readPos, q, g, s, e, entry);
  }

  lemma CarvedKeepsHoles(g0: Gaps, g: Gaps, readPos: nat, s: nat, e: nat)
    requires Holes(g0, readPos) && readPos <= s < e <= MAX_BYTE_COUNT
    requires Carved(g0, g, s, e)
    ensures Holes(g, readPos)
    ensures forall k | k in g :: k < s ==> g[k] <= s
    ensures forall k | k in g :: s <= k ==> e <= k
  {
    hide Missing;
    forall k | k in g ensures readPos <= k < g[k] <= MAX_BYTE_COUNT && (k < s ==> g[k] <= s) && (s <= k ==> e <= k) {
      var _ := CarvedFrom(g0, g, readPos, s, e, k);
    }
    forall j, k | j in g && k in g && j < k ensures g[j] < k {
      var i := CarvedFrom(g0, g, readPos, s, e, j);
      if (j < s) == (k < s) {
        assert k in g0;
        assert g0[i] < k;
      }
    }
  }

  // What is left of a gap, or a gap that was left alone.
  lemma CarvedFrom(g0: Gaps, g: Gaps, readPos: nat, s: nat, e: nat, k: nat) returns (i: nat)
    requires Holes(g0, readPos) && readPos <= s < e <= MAX_BYTE_COUNT
    requires Carved(g0, g, s, e) && k in g
    ensures i in g0 && i <= k && k < g[k] <= g0[i]
    ensures k < s ==> g[k] <= s
    ensures s <= k ==> e <= k
  {
    if k in g0 {
      i := k;
    } else {
      i :| i in g0 && i <= e < g0[i];
    }
  }

  lemma WriteKeepsApart(q0: Queue, g0: Gaps, readPos: nat, q: Queue, g: Gaps, s: nat, e: nat, entry: Entry)
    requires Entries(q0, readPos) && Holes(g0, readPos) && Apart(q0, g0)
    requires readPos <= s < e <= MAX_BYTE_COUNT
    requires NotInside(q0, s) && NotInside(q0, e)
    requires |entry.data| == e - s
    requires Carved(g0, g, s, e)
    requires q == Without(q0, s, e)[s := entry]
    ensures Apart(q, g)
  {
    CarvedKeepsHoles(g0, g, readPos, s, e);
    forall j, k | j in q && k in g ensures EndOf(q, j) <= k || g[k] <= j {
      if j != s {
        if k in g0 {
          assert EndOf(q0, j) <= k || g0[k] <= j;
        } else {
          var i :| i in g0 && i <= e < g0[i];
          assert EndOf(q0, j) <= i || g0[i] <= j;
        }
      }
    }
  }

  lemma WriteKeepsLinked(q0: Queue, g0: Gaps, readPos: nat, q: Queue, g: Gaps, s: nat, e: nat, entry: Entry)
    requires Tiles(q0, g0, readPos)
    requires readPos <= s < e <= MAX_BYTE_COUNT
    requires NotInside(q0, s) && NotInside(q0, e)
    requires |entry.data| == e - s
    requires Carved(g0, g, s, e)
    requires q == Without(q0, s, e)[s := entry]
    ensures Linked(q, g, readPos)
  {
    BoundarySurvives(q0, g0, q, g, s, e, entry, readPos);
    forall k | k in q ensures Boundary(q, g, EndOf(q, k)) {
      WrittenEntryLinked(q0, g0, readPos, q, g, s, e, entry, k);
    }
    forall k | k in g ensures Boundary(q, g, g[k]) {
      CarvedGapLinked(q0, g0, readPos, q, g, s, e, entry, k);
    }
  }

  lemma WrittenEntryLinked(q0: Queue, g0: Gaps, readPos: nat, q: Queue, g: Gaps, s: nat, e: nat, entry: Entry, k: nat)
    requires Tiles(q0, g0, readPos)
    requires readPos <= s < e <= MAX_BYTE_COUNT
    requires NotInside(q0, s) && NotInside(q0, e)
    requires |entry.data| == e - s
    requires Carved(g0, g, s, e)
    requires q == Without(q0, s, e)[s := entry]
    requires k in q
    ensures Boundary(q, g, EndOf(q, k))
  {
    if k == s {
      EndIsBoundary(q0, g0, readPos, g, s, e);
    } else {
      var x := EndOf(q0, k);
      assert !(s < x < e) && Boundary(q0, g0, x);
      BoundarySurvives(q0, g0, q, g, s, e, entry, x);
    }
  }

  lemma CarvedGapLinked(q0: Queue, g0: Gaps, readPos: nat, q: Queue, g: Gaps, s: nat, e: nat, entry: Entry, k: nat)
    requires Tiles(q0, g0, readPos)
    requires readPos <= s < e <= MAX_BYTE_COUNT
    requires Carved(g0, g, s, e)
    requires q == Without(q0, s, e)[s := entry]
    requires k in g
    ensures Boundary(q, g, g[k])
  {
    CarvedGapEnd(g0, g, readPos, s, e, k);
    if g[k] != s {
      var i :| i in g0 && g[k] == g0[i];
      BoundarySurvives(q0, g0, q, g, s, e, entry, g0[i]);
    }
  }

  lemma CarvedGapEnd(g0: Gaps, g: Gaps, readPos: nat, s: nat, e: nat, k: nat)
    requires Holes(g0, readPos) && readPos <= s < e <= MAX_BYTE_COUNT
    requires Carved(g0, g, s, e)
    requires k in g
    ensures g[k] <= s || e < g[k]
    ensures g[k] == s || exists i :: i in g0 && g[k] == g0[i]
  {
    if s <= k && k !in g0 {
      var i :| i in g0 && i <= e < g0[i];
      assert g[k] == g0[i];
    }
  }

  lemma BoundarySurvives(q0: Queue, g0: Gaps, q: Queue, g: Gaps, s: nat, e: nat, entry: Entry, x: nat)
    requires Carved(g0, g, s, e)
    requires q == Without(q0, s, e)[s := entry]
    requires Boundary(q0, g0, x) && !(s < x < e)
    ensures Boundary(q, g, x)
  {
  }

  // Past a written range, the next tile starts right at its end.
  lemma EndIsBoundary(q0: Queue, g0: Gaps, readPos: nat, g: Gaps, s: nat, e: nat)
    requires Tiles(q0, g0, readPos)
    requires readPos <= s < e <= MAX_BYTE_COUNT
    requires NotInside(q0, e)
    requires Carved(g0, g, s, e)
    ensures e in q0 || e in g || e == MAX_BYTE_COUNT
  {
    if e < MAX_BYTE_COUNT {
      TilesCover(q0, g0, readPos, readPos, e);
      if e !in q0 {
        var k :| k in g0 && k <= e < g0[k];
        assert e in g;
      }
    }
  }

  lemma CarvedMissing(g0: Gaps, g: Gaps, readPos: nat, s: nat, e: nat, x: nat)
    requires Holes(g0, readPos) && readPos <= s < e <= MAX_BYTE_COUNT
    requires Carved(g0, g, s, e)
    ensures Missing(g, x) <==> Missing(g0, x) && !(s <= x < e)
  {
    CarvedKeepsHoles(g0, g, readPos, s, e);
    if k :| k in g && k <= x < g[k] {
      if k !in g0 {
        var i :| i in g0 && i <= e < g0[i];
        assert i <= x < g0[i];
      }
    }
    if Missing(g0, x) && !(s <= x < e) {
      var k :| k in g0 && k <= x < g0[k];
      if x < s {
        assert k in g;
      } else if e <= k {
        assert k in g;
      } else {
        assert e in g;
      }
    }
  }
}
