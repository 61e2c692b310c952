/** The constant-time check of CBC padding, on machine words. */
module Padding {
  import opened MachineBytes

  const TWO_31 := 0x8000_0000
  const TWO_32 := 0x1_0000_0000
  const TWO_64 := 0x1_0000_0000_0000_0000

  // Subtraction of unsigned 64-bit words wraps around.
  function Sub64(a: nat, b: nat): (t: nat)
    requires a < TWO_64 && b < TWO_64
    ensures t < TWO_64
  {
    (a - b) % TWO_64
  }

  // The complement of a word, truncated to 32 bits, as a signed number.
  function ComplementAsInt32(t: nat): int
    requires t < TWO_64
  {
    var low := (TWO_64 - 1 - t) % TWO_32;
    if low < TWO_31 then low else low - TWO_32
  }

  // An arithmetic shift by 31 bits, truncated to a byte.
  function SignByte(x: int): bv8 {
    (x / TWO_31 % 256) as bv8
  }

  /** The byte is 255 if bit 31 of t is clear, and 0 if it is set. */
  function Mask(t: nat): bv8
    requires t < TWO_64
  {
    SignByte(ComplementAsInt32(t))
  }

  lemma MaskIsBit31(t: nat)
    requires t < TWO_64
    ensures Mask(t) == if t / TWO_31 % 2 == 0 then 0xFF else 0
  {
    ComplementSign(t);
    SignByteOf(ComplementAsInt32(t));
  }

  lemma ComplementSign(t: nat)
    requires t < TWO_64
    ensures -TWO_31 <= ComplementAsInt32(t) < TWO_31
    ensures ComplementAsInt32(t) < 0 <==> t / TWO_31 % 2 == 0
  {
    var q, r := t / TWO_32, t % TWO_32;
    assert TWO_64 - 1 - t == (TWO_32 - 1 - q) * TWO_32 + (TWO_32 - 1 - r);
    assert (TWO_64 - 1 - t) % TWO_32 == TWO_32 - 1 - r;
    assert t / TWO_31 == 2 * q + r / TWO_31;
  }

  lemma SignByteOf(x: int)
    requires -TWO_31 <= x < TWO_31
    ensures SignByte(x) == if x < 0 then 0xFF else 0
  {
    if x < 0 {
      assert x / TWO_31 == -1;
    } else {
      assert x / TWO_31 == 0;
    }
  }

  // Replicates the sign bit across the byte.
  function ArithmeticShift7(b: bv8): bv8 {
    if b & 0x80 != 0 then 0xFF else 0
  }

  function AllBits(good: bv8): bv8 {
    var g1 := good & (good << 4);
    var g2 := g1 & (g1 << 2);
    var g3 := g2 & (g2 << 1);
    ArithmeticShift7(g3)
  }

  lemma AllBitsSet(good: bv8)
    ensures AllBits(good) == if good == 0xFF then 0xFF else 0
  {
  }

  lemma ClearDifference(good: bv8, mask: bv8, p: bv8, b: bv8)
    requires mask == 0 || mask == 0xFF
    ensures good & !((mask & p) ^ (mask & b)) == 0xFF <==> good == 0xFF && (mask == 0 || p == b)
  {
  }

  function Last(payload: seq<bv8>): bv8
    requires payload != []
  {
    payload[|payload| - 1]
  }

  /** The last byte says how many bytes before it have the same value. */
  ghost predicate GoodPadding(payload: seq<bv8>) {
    && payload != []
    && Last(payload) as nat < |payload|
    && (forall k | |payload| - 1 - Last(payload) as nat <= k < |payload| :: payload[k] == Last(payload))
  }

  // Bit 31 of the length without padding, which the code takes for a sign bit.
  predicate LooksNegative(payload: seq<bv8>)
    requires payload != []
  {
    (|payload| - 1 - Last(payload) as nat) / TWO_31 % 2 == 1
  }

  // The loop has compared the last n bytes.
  ghost predicate SameSoFar(payload: seq<bv8>, n: nat)
    requires payload != [] && n <= |payload|
  {
    forall k | |payload| - n <= k < |payload| && |payload| - 1 - Last(payload) as nat <= k ::
        payload[k] == Last(payload)
  }

  lemma NoneCompared(payload: seq<bv8>)
    requires payload != []
    ensures SameSoFar(payload, 0)
  {
  }

  lemma OneMore(payload: seq<bv8>, n: nat)
    requires payload != [] && n < |payload|
    ensures SameSoFar(payload, n + 1) <==> SameSoFar(payload, n)
                                           && (n > Last(payload) as nat || payload[|payload| - 1 - n] == Last(payload))
  {
  }

  lemma AllCompared(payload: seq<bv8>, n: nat)
    requires payload != [] && n <= |payload| && (n == |payload| || n == 256)
    ensures Last(payload) as nat < |payload| ==> (SameSoFar(payload, n) <==> GoodPadding(payload))
  {
  }

  lemma MaskCompares(p: nat, i: nat)
    requires p < 256 && i < 256
    ensures Mask(Sub64(p, i)) == if i <= p then 0xFF else 0
  {
    MaskIsBit31(Sub64(p, i));
    if i <= p {
      assert Sub64(p, i) == p - i;
    } else {
      assert Sub64(p, i) == TWO_64 - (i - p);
    }
  }

  /** The length of the padding to remove, and whether it was well formed: 255 exactly for good
      padding, as long as the length does not look negative. */
  method ExtractPadding(payload: seq<bv8>) returns (toRemove: nat, good: bv8)
    requires |payload| < TWO_64 / 2
    ensures payload == [] ==> toRemove == 0 && good == 0
    ensures payload != [] ==>
              if GoodPadding(payload) && !LooksNegative(payload)
              then good == 0xFF && toRemove == Last(payload) as nat + 1
              else good == 0 && toRemove == 1
  {
    hide Mask, Sub64, AllBits, SameSoFar;
    if |payload| < 1 {
      return 0, 0;
    }
    var paddingLen := payload[|payload| - 1];
    good := Mask(Sub64(|payload| - 1, paddingLen as nat));
    FirstMask(|payload| - 1, paddingLen as nat);
    good := CompareAll(payload, good);
    AllBitsSet(good);
    good := AllBits(good);
    KeepOrZero(paddingLen, good);
    paddingLen := paddingLen & good;
    toRemove := paddingLen as nat + 1;
  }

  lemma KeepOrZero(p: bv8, good: bv8)
    requires good == 0 || good == 0xFF
    ensures p & good == if good == 0xFF then p else 0
  {
  }

  // The loop over the last bytes, without a branch on their values.
  method CompareAll(payload: seq<bv8>, first: bv8) returns (good: bv8)
    requires payload != [] && first == if Last(payload) as nat < |payload| && !LooksNegative(payload) then 0xFF else 0
    ensures good == 0xFF <==> GoodPadding(payload) && !LooksNegative(payload)
  {
    hide Mask, Sub64, SameSoFar, LooksNegative, GoodPadding;
    var paddingLen := payload[|payload| - 1];
    good := first;
    NoneCompared(payload);
    var toCheck := 256;
    if toCheck > |payload| {
      toCheck := |payload|;
    }
    for i := 0 to toCheck
      invariant good == 0xFF <==> first == 0xFF && SameSoFar(payload, i)
    {
      good := CompareOne(payload, paddingLen as nat, good, i);
    }
    AllCompared(payload, toCheck);
    Impossible(payload);
  }

  lemma Impossible(payload: seq<bv8>)
    ensures GoodPadding(payload) ==> Last(payload) as nat < |payload|
  {
  }

  method CompareOne(payload: seq<bv8>, pad: nat, good: bv8, i: nat) returns (good': bv8)
    requires payload != [] && pad == Last(payload) as nat && i < |payload| && i < 256
    ensures good' == 0xFF && SameSoFar(payload, i) <==> good == 0xFF && SameSoFar(payload, i + 1)
    ensures (good' == 0xFF ==> good == 0xFF) && (SameSoFar(payload, i + 1) ==> SameSoFar(payload, i))
  {
    hide Mask, Sub64, SameSoFar;
    var paddingLen := payload[|payload| - 1];
    var mask := Mask(Sub64(pad, i));
    MaskCompares(pad, i);
    var b := payload[|payload| - 1 - i];
    ClearDifference(good, mask, paddingLen, b);
    OneMore(payload, i);
    good' := good & !((mask & paddingLen) ^ (mask & b));
  }

  lemma FirstMask(n: nat, p: nat)
    requires n < TWO_64 / 2 && p < 256
    ensures Mask(Sub64(n, p)) == if p <= n && (n - p) / TWO_31 % 2 == 0 then 0xFF else 0
  {
    MaskIsBit31(Sub64(n, p));
    if p <= n {
      assert Sub64(n, p) == n - p;
    } else {
      assert Sub64(n, p) == TWO_64 - (p - n);
    }
  }

  /** For all payloads below 2^31 bytes, that is a correct check; ... */
  lemma ShortPayload(payload: seq<bv8>)
    requires GoodPadding(payload) && |payload| < TWO_31
    ensures !LooksNegative(payload)
  {
  }

  /** ... above, well-formed padding is refused. */
  lemma LongPayloadRefused()
    ensures var payload := seq(TWO_31 + 1, _ => 0 as bv8);
            GoodPadding(payload) && LooksNegative(payload)
  {
  }

  /** The padding written by the sender: at least one byte, up to the next multiple of the block size. */
  function PaddingLen(n: nat, blockSize: nat): (p: nat)
    requires 0 < blockSize
    ensures 0 < p <= blockSize && (n + p) % blockSize == 0
  {
    FillsBlock(n, blockSize);
    blockSize - n % blockSize
  }

  lemma FillsBlock(n: nat, blockSize: nat)
    requires 0 < blockSize
    ensures (n + (blockSize - n % blockSize)) % blockSize == 0
  {
    var q := n / blockSize;
    assert n + (blockSize - n % blockSize) == (q + 1) * blockSize;
    MultipleMod(n + (blockSize - n % blockSize), q + 1, blockSize);
  }

  method Pad(data: seq<bv8>, blockSize: nat) returns (dst: seq<bv8>)
    requires 0 < blockSize <= 256
    ensures |dst| % blockSize == 0 && |data| < |dst| <= |data| + blockSize && data <= dst
    ensures GoodPadding(dst) && dst[..|dst| - (Last(dst) as nat + 1)] == data
  {
    var paddingLen := PaddingLen(|data|, blockSize);
    RoundTrips(paddingLen - 1);
    dst := Fill(data, paddingLen, (paddingLen - 1) as bv8);
  }

  method Fill(data: seq<bv8>, n: nat, b: bv8) returns (dst: seq<bv8>)
    ensures |dst| == |data| + n && dst[..|data|] == data
    ensures forall j | |data| <= j < |dst| :: dst[j] == b
  {
    dst := data;
    for i := |data| to |data| + n
      invariant |dst| == i && dst[..|data|] == data
      invariant forall j | |data| <= j < i :: dst[j] == b
    {
      dst := dst + [b];
    }
  }

  /** The receiver takes off exactly what the sender put on. */
  method PadAndRemove(data: seq<bv8>, blockSize: nat) returns (result: seq<bv8>, good: bv8)
    requires 0 < blockSize <= 256 && |data| + blockSize < TWO_31
    ensures result == data && good == 0xFF
  {
    var dst := Pad(data, blockSize);
    ShortPayload(dst);
    var toRemove;
    toRemove, good := ExtractPadding(dst);
    result := dst[..|dst| - toRemove];
  }
}
