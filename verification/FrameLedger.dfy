/** Bookkeeping of the stream offsets that lists of STREAM frames carry, counted with
    multiplicity, so that "every byte is in exactly one place" is an equation.
 */
module FrameLedger {
  import opened StreamBytes
  import opened Wire

  function Covers(f: StreamFrame, x: nat): nat {
    if f.offset <= x < f.offset + |f.data| then 1 else 0
  }

  /** The number of frames that carry offset x. */
  function Copies(fs: seq<StreamFrame>, x: nat): nat {
    if fs == [] then 0 else Covers(fs[0], x) + Copies(fs[1..], x)
  }

  function FinOf(f: StreamFrame): nat {
    if f.fin then 1 else 0
  }

  /** The number of frames with a FIN. */
  function Fins(fs: seq<StreamFrame>): nat {
    if fs == [] then 0 else FinOf(fs[0]) + Fins(fs[1..])
  }

  function Remove(fs: seq<StreamFrame>, i: nat): (r: seq<StreamFrame>)
    requires i < |fs|
    ensures |r| == |fs| - 1
  {
    fs[..i] + fs[i + 1..]
  }

  lemma {:induction false} CopiesConcat(a: seq<StreamFrame>, b: seq<StreamFrame>, x: nat)
    ensures Copies(a + b, x) == Copies(a, x) + Copies(b, x)
  {
    if a == [] {
      assert a + b == b;
    } else {
      CopiesConcat(a[1..], b, x);
      assert (a + b)[1..] == a[1..] + b;
    }
  }

  lemma {:induction false} FinsConcat(a: seq<StreamFrame>, b: seq<StreamFrame>)
    ensures Fins(a + b) == Fins(a) + Fins(b)
  {
    if a == [] {
      assert a + b == b;
    } else {
      FinsConcat(a[1..], b);
      assert (a + b)[1..] == a[1..] + b;
    }
  }

  lemma Append(fs: seq<StreamFrame>, f: StreamFrame)
    ensures forall x: nat :: Copies(fs + [f], x) == Copies(fs, x) + Covers(f, x)
    ensures Fins(fs + [f]) == Fins(fs) + FinOf(f)
  {
    FinsConcat(fs, [f]);
    assert [f][1..] == [];
    forall x: nat ensures Copies(fs + [f], x) == Copies(fs, x) + Covers(f, x) {
      CopiesConcat(fs, [f], x);
    }
  }

  lemma TakeOut(fs: seq<StreamFrame>, i: nat)
    requires i < |fs|
    ensures forall x: nat :: Copies(fs, x) == Copies(Remove(fs, i), x) + Covers(fs[i], x)
    ensures Fins(fs) == Fins(Remove(fs, i)) + FinOf(fs[i])
  {
    hide Copies, Fins, Covers, FinOf;
    var a, b := fs[..i], fs[i + 1..];
    assert fs == a + [fs[i]] + b;
    FinsConcat(a + [fs[i]], b);
    FinsConcat(a, b);
    Append(a, fs[i]);
    forall x: nat ensures Copies(fs, x) == Copies(Remove(fs, i), x) + Covers(fs[i], x) {
      CopiesConcat(a + [fs[i]], b, x);
      CopiesConcat(a, b, x);
    }
  }

  lemma First(fs: seq<StreamFrame>)
    requires fs != []
    ensures forall x: nat :: Copies(fs, x) == Copies(fs[1..], x) + Covers(fs[0], x)
    ensures Fins(fs) == Fins(fs[1..]) + FinOf(fs[0])
  {
  }

  /** A frame that carries data or the FIN leaves a trace in the ledger. */
  lemma Trace(fs: seq<StreamFrame>)
    requires forall i | 0 <= i < |fs| :: fs[i].data != [] || fs[i].fin
    ensures fs != [] ==> Fins(fs) > 0 || Copies(fs, fs[0].offset) > 0
  {
  }
}
