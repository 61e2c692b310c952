/** Bytes as 8-bit words, and their values. */
module MachineBytes {

  lemma Successor(b: bv8)
    requires b != 0xFF
    ensures (b + 1) as nat == b as nat + 1
  {
  }

  ghost function ByteOf(n: nat): (b: bv8)
    requires n < 256
    ensures b as nat == n
  {
    if n == 0 then 0 else Successor(ByteOf(n - 1)); ByteOf(n - 1) + 1
  }

  lemma RoundTrips(n: nat)
    requires n < 256
    ensures (n as bv8) as nat == n
  {
    assert n as bv8 == ByteOf(n);
  }

  /** The value of a big-endian number. */
  ghost function BigEndian(s: seq<bv8>): nat {
    if s == [] then 0 else BigEndian(s[..|s| - 1]) * 256 + s[|s| - 1] as nat
  }

  // The largest number with that many bytes.
  ghost predicate AllOnes(s: seq<bv8>) {
    forall i | 0 <= i < |s| :: s[i] == 0xFF
  }

  function Zeros(n: nat): seq<bv8> {
    seq(n, _ => 0 as bv8)
  }

  lemma {:induction false} BigEndianZeros(n: nat)
    ensures BigEndian(Zeros(n)) == 0
  {
    if n > 0 {
      assert Zeros(n)[..n - 1] == Zeros(n - 1);
      BigEndianZeros(n - 1);
    }
  }

  function Power256(n: nat): (p: nat)
    ensures p > 0
  {
    if n == 0 then 1 else 256 * Power256(n - 1)
  }

  lemma {:induction false} BigEndianBound(s: seq<bv8>)
    ensures BigEndian(s) < Power256(|s|)
    ensures AllOnes(s) ==> BigEndian(s) == Power256(|s|) - 1
    ensures BigEndian(s) == Power256(|s|) - 1 ==> AllOnes(s)
  {
    if s != [] {
      var n := |s| - 1;
      BigEndianBound(s[..n]);
      LastByte(s[n]);
      if BigEndian(s) == Power256(|s|) - 1 {
        assert BigEndian(s[..n]) == Power256(n) - 1 && s[n] == 0xFF;
        forall i | 0 <= i < |s| ensures s[i] == 0xFF {
          if i < n {
            assert s[..n][i] == 0xFF;
          }
        }
      }
    }
  }

  lemma LastByte(b: bv8)
    ensures b as nat < 256 && (b as nat == 255 <==> b == 0xFF)
  {
  }

  /** The next number; the last byte changes fastest. */
  ghost function Increment(s: seq<bv8>): (r: seq<bv8>)
    ensures |r| == |s|
  {
    if s == [] then []
    else if s[|s| - 1] != 0xFF then s[..|s| - 1] + [s[|s| - 1] + 1]
    else Increment(s[..|s| - 1]) + [0]
  }

  lemma {:induction false} IncrementValue(s: seq<bv8>)
    requires !AllOnes(s)
    ensures BigEndian(Increment(s)) == BigEndian(s) + 1
  {
    var n := |s| - 1;
    var r := Increment(s);
    if s[n] != 0xFF {
      assert r[..n] == s[..n];
      Successor(s[n]);
    } else {
      assert r[..n] == Increment(s[..n]);
      IncrementValue(s[..n]);
    }
  }

  lemma Spread(d: int, m: int)
    requires m >= 0
    ensures d >= 1 ==> d * m >= m
    ensures d <= -1 ==> d * m <= -m
  {
  }

  lemma MultipleMod(a: nat, k: nat, m: nat)
    requires 0 < m && a == k * m
    ensures a % m == 0
  {
    var q, r := a / m, a % m;
    assert a == q * m + r;
    var d := k - q;
    assert d * m == r;
    Spread(d, m);
  }
}
