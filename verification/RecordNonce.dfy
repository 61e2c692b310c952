/** Nonces of the TLS 1.3 record layer: a fixed mask, combined with the sequence number. */
module RecordNonce {
  import opened StreamBytes
  import opened MachineBytes

  const AEAD_NONCE_LENGTH := 12
  const SEQ_LENGTH := 8

  /** An authenticated cipher under some key.  Its functions take a nonce, a text and additional data. */
  datatype Aead = Aead(
    seal: (seq<bv8>, seq<bv8>, seq<bv8>) -> seq<bv8>,
    open: (seq<bv8>, seq<bv8>, seq<bv8>) -> Option<seq<bv8>>,
    overhead: nat)

  /** What is assumed of the cipher. */
  ghost predicate Inverts(a: Aead) {
    forall nonce, text, data ::
      && a.open(nonce, a.seal(nonce, text, data), data) == Some(text)
      && |a.seal(nonce, text, data)| == |text| + a.overhead
  }

  function XorNonce(mask: seq<bv8>, nonce: seq<bv8>): (r: seq<bv8>)
    requires |mask| == AEAD_NONCE_LENGTH && |nonce| == SEQ_LENGTH
    ensures |r| == AEAD_NONCE_LENGTH
  {
    seq(AEAD_NONCE_LENGTH, i requires 0 <= i < AEAD_NONCE_LENGTH => if i < 4 then mask[i] else mask[i] ^ nonce[i - 4])
  }

  lemma XorTwice(mask: seq<bv8>, nonce: seq<bv8>)
    requires |mask| == AEAD_NONCE_LENGTH && |nonce| == SEQ_LENGTH
    ensures XorNonce(XorNonce(mask, nonce), nonce) == mask
  {
    forall i | 0 <= i < AEAD_NONCE_LENGTH ensures XorNonce(XorNonce(mask, nonce), nonce)[i] == mask[i] {
      if i >= 4 {
        XorBack(mask[i], nonce[i - 4]);
      }
    }
  }

  lemma XorBack(a: bv8, b: bv8)
    ensures (a ^ b) ^ b == a
  {
  }

  // The sequence number can be read off the nonce.
  ghost function Recover(mask: seq<bv8>, r: seq<bv8>): seq<bv8>
    requires |mask| == |r| == AEAD_NONCE_LENGTH
  {
    seq(SEQ_LENGTH, i requires 0 <= i < SEQ_LENGTH => r[i + 4] ^ mask[i + 4])
  }

  lemma RecoverXor(mask: seq<bv8>, nonce: seq<bv8>)
    requires |mask| == AEAD_NONCE_LENGTH && |nonce| == SEQ_LENGTH
    ensures Recover(mask, XorNonce(mask, nonce)) == nonce
  {
    forall i | 0 <= i < SEQ_LENGTH ensures Recover(mask, XorNonce(mask, nonce))[i] == nonce[i] {
      XorAway(mask[i + 4], nonce[i]);
    }
  }

  lemma XorAway(a: bv8, b: bv8)
    ensures (a ^ b) ^ a == b
  {
  }

  class XorNonceAead {
    const nonceMask: array<bv8>
    const aead: Aead

    constructor (aead: Aead, mask: seq<bv8>)
      requires |mask| == AEAD_NONCE_LENGTH
      ensures fresh(nonceMask) && nonceMask.Length == AEAD_NONCE_LENGTH && nonceMask[..] == mask && this.aead == aead
    {
      this.aead := aead;
      nonceMask := new bv8[AEAD_NONCE_LENGTH](i requires 0 <= i < AEAD_NONCE_LENGTH => mask[i]);
    }

    method Xor(nonce: seq<bv8>)
      requires nonceMask.Length == AEAD_NONCE_LENGTH && |nonce| == SEQ_LENGTH
      modifies nonceMask
      ensures nonceMask[..] == XorNonce(old(nonceMask[..]), nonce)
    {
      for i := 0 to SEQ_LENGTH
        invariant forall j | 0 <= j < AEAD_NONCE_LENGTH ::
                    nonceMask[j] == if 4 <= j < 4 + i then old(nonceMask[j]) ^ nonce[j - 4] else old(nonceMask[j])
      {
        nonceMask[4 + i] := nonceMask[4 + i] ^ nonce[i];
      }
    }

    /** Seal with the mask changed in place, and changed back. */
    method Seal(nonce: seq<bv8>, plaintext: seq<bv8>, data: seq<bv8>) returns (result: seq<bv8>)
      requires nonceMask.Length == AEAD_NONCE_LENGTH && |nonce| == SEQ_LENGTH
      modifies nonceMask
      ensures nonceMask[..] == old(nonceMask[..])
      ensures result == aead.seal(XorNonce(nonceMask[..], nonce), plaintext, data)
    {
      XorTwice(nonceMask[..], nonce);
      Xor(nonce);
      result := aead.seal(nonceMask[..], plaintext, data);
      Xor(nonce);
    }

    method Open(nonce: seq<bv8>, ciphertext: seq<bv8>, data: seq<bv8>) returns (result: Option<seq<bv8>>)
      requires nonceMask.Length == AEAD_NONCE_LENGTH && |nonce| == SEQ_LENGTH
      modifies nonceMask
      ensures nonceMask[..] == old(nonceMask[..])
      ensures result == aead.open(XorNonce(nonceMask[..], nonce), ciphertext, data)
    {
      XorTwice(nonceMask[..], nonce);
      Xor(nonce);
      result := aead.open(nonceMask[..], ciphertext, data);
      Xor(nonce);
    }
  }

  /** The sequence number of the record with index k. */
  ghost function SeqAt(k: nat): (s: seq<bv8>)
    ensures |s| == SEQ_LENGTH
  {
    if k == 0 then Zeros(SEQ_LENGTH) else Increment(SeqAt(k - 1))
  }

  const RECORD_LIMIT: nat := 0x1_0000_0000_0000_0000

  lemma {:induction false} SeqValue(k: nat)
    requires k < RECORD_LIMIT
    ensures BigEndian(SeqAt(k)) == k
    ensures AllOnes(SeqAt(k)) <==> k == RECORD_LIMIT - 1
  {
    PowerEight();
    if k == 0 {
      BigEndianZeros(SEQ_LENGTH);
    } else {
      SeqValue(k - 1);
      IncrementValue(SeqAt(k - 1));
    }
    BigEndianBound(SeqAt(k));
  }

  lemma PowerEight()
    ensures Power256(SEQ_LENGTH) == RECORD_LIMIT
  {
    assert Power256(1) == 256;
    assert Power256(2) == 0x1_0000;
    assert Power256(4) == 0x1_0000_0000 by {
      assert Power256(3) == 0x100_0000;
    }
    assert Power256(6) == 0x1_0000_0000_0000 by {
      assert Power256(5) == 0x100_0000_0000;
    }
    assert Power256(7) == 0x100_0000_0000_0000;
  }

  /** No nonce is used for two records under one key. */
  lemma NoncesDiffer(mask: seq<bv8>, i: nat, j: nat)
    requires |mask| == AEAD_NONCE_LENGTH && i < j < RECORD_LIMIT
    ensures XorNonce(mask, SeqAt(i)) != XorNonce(mask, SeqAt(j))
  {
    hide XorNonce, Recover, SeqAt;
    SeqValue(i);
    SeqValue(j);
    RecoverXor(mask, SeqAt(i));
    RecoverXor(mask, SeqAt(j));
  }
}
