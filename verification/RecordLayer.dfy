/** One direction of a TLS 1.3 connection: records are padded, sealed and numbered. */
module RecordLayer {
  import opened StreamBytes
  import opened MachineBytes
  import opened RecordNonce
  import opened RecordPadding

  const TYPE_CHANGE_CIPHER_SPEC: bv8 := 20

  datatype Plain = Plain(typ: bv8, payload: seq<bv8>, padding: nat)

  datatype Alert = BadRecordMAC | UnexpectedMessage | RecordOverflow

  datatype Opened = Record(payload: seq<bv8>, typ: bv8) | Refused(alert: Alert)

  /** What is encrypted: the payload, its type, and zeros. */
  function Inner(p: Plain): seq<bv8> {
    p.payload + [p.typ] + Zeros(p.padding)
  }

  // The version is frozen, and the type is that of application data.
  function Header(n: nat): (h: seq<bv8>)
    ensures |h| == RECORD_HEADER_LEN
  {
    [TYPE_APPLICATION_DATA, 3, 3, (n / 256 % 256) as bv8, (n % 256) as bv8]
  }

  /** The length that the header of a record announces. */
  function LengthIn(record: seq<bv8>): nat
    requires |record| >= RECORD_HEADER_LEN
  {
    record[3] as int * 256 + record[4] as int
  }

  lemma HeaderLength(n: nat)
    ensures LengthIn(Header(n)) == n % 65536
    ensures Header(n)[..3] == [TYPE_APPLICATION_DATA, 3, 3]
  {
    var high, low := n / 256 % 256, n % 256;
    RoundTrips(high);
    RoundTrips(low);
    TwoBytes(n);
    assert Header(n)[3] == high as bv8 && Header(n)[4] == low as bv8;
  }

  lemma TwoBytes(n: nat)
    ensures n / 256 % 256 * 256 + n % 256 == n % 65536
  {
  }

  // The header is sealed with the length that is expected, and has that of the result.
  function SealRecord(a: Aead, mask: seq<bv8>, number: seq<bv8>, p: Plain): seq<bv8>
    requires |mask| == AEAD_NONCE_LENGTH && |number| == SEQ_LENGTH
  {
    var sealed := a.seal(XorNonce(mask, number), Inner(p), Header(|Inner(p)| + a.overhead));
    Header(|sealed|) + sealed
  }

  /** The header says that the record is application data of TLS 1.2, and gives the length of the rest, as far as two
      bytes can. */
  predicate Announced(record: seq<bv8>) {
    && |record| >= RECORD_HEADER_LEN && record[..3] == [23, 3, 3]
    && record[3] as int * 256 + record[4] as int == (|record| - RECORD_HEADER_LEN) % 65536
  }

  lemma SealedHeader(a: Aead, mask: seq<bv8>, number: seq<bv8>, p: Plain)
    requires |mask| == AEAD_NONCE_LENGTH && |number| == SEQ_LENGTH
    ensures Announced(SealRecord(a, mask, number, p))
  {
    hide XorNonce;
    var sealed := a.seal(XorNonce(mask, number), Inner(p), Header(|Inner(p)| + a.overhead));
    HeaderLength(|sealed|);
    hide Header;
    assert (Header(|sealed|) + sealed)[..3] == Header(|sealed|)[..3];
  }

  /** The last byte that is not zero is the type. */
  function Unpad(text: seq<bv8>): Opened {
    if text == [] then Refused(UnexpectedMessage)
    else
      var n := |text| - 1;
      if text[n] != 0 then Record(text[..n], text[n]) else Unpad(text[..n])
  }

  function OpenRecord(a: Aead, mask: seq<bv8>, number: seq<bv8>, record: seq<bv8>): Opened
    requires |mask| == AEAD_NONCE_LENGTH && |number| == SEQ_LENGTH && |record| >= RECORD_HEADER_LEN
  {
    var header, body := record[..RECORD_HEADER_LEN], record[RECORD_HEADER_LEN..];
    if record[0] == TYPE_CHANGE_CIPHER_SPEC then Record(body, record[0])
    else
      match a.open(XorNonce(mask, number), body, header)
      case None => Refused(BadRecordMAC)
      case Some(text) =>
        if record[0] != TYPE_APPLICATION_DATA then Refused(UnexpectedMessage)
        else if |text| > MAX_PLAINTEXT + 1 then Refused(RecordOverflow)
        else if text == [] then Record([], record[0])
        else Unpad(text)
  }

  lemma {:induction false} UnpadInner(p: Plain)
    requires p.typ != 0
    ensures Unpad(Inner(p)) == Record(p.payload, p.typ)
    decreases p.padding
  {
    var text := Inner(p);
    var n := |text| - 1;
    if p.padding == 0 {
      assert text[n] == p.typ && text[..n] == p.payload;
    } else {
      assert text[n] == 0 && text[..n] == Inner(p.(padding := p.padding - 1));
      UnpadInner(p.(padding := p.padding - 1));
    }
  }

  /** A record comes out as it went in, whatever its padding, if it is not too large; otherwise it is
      refused. */
  lemma OpenSealed(a: Aead, mask: seq<bv8>, number: seq<bv8>, p: Plain)
    requires Inverts(a) && |mask| == AEAD_NONCE_LENGTH && |number| == SEQ_LENGTH && p.typ != 0
    ensures |SealRecord(a, mask, number, p)| >= RECORD_HEADER_LEN
    ensures OpenRecord(a, mask, number, SealRecord(a, mask, number, p)) ==
            if |p.payload| + p.padding <= MAX_PLAINTEXT then Record(p.payload, p.typ) else Refused(RecordOverflow)
  {
    hide Unpad, XorNonce;
    var record := SealRecord(a, mask, number, p);
    var header := Header(|Inner(p)| + a.overhead);
    assert record[..RECORD_HEADER_LEN] == header;
    assert record[RECORD_HEADER_LEN..] == a.seal(XorNonce(mask, number), Inner(p), header);
    UnpadInner(p);
  }

  /** What the receiver finds in a record.  A disguised message that is nothing but its type becomes
      empty application data. */
  function Sent(lens: Lengths, typ: bv8, payload: seq<bv8>, padding: nat): Plain {
    if !Disguises(lens, typ, payload) then Plain(typ, payload, padding)
    else if |payload| == 1 then Plain(TYPE_APPLICATION_DATA, [], padding + 1)
    else Plain(typ, payload[0 := TYPE_APPLICATION_DATA][1 := 0], padding)
  }

  lemma SentInner(lens: Lengths, typ: bv8, payload: seq<bv8>, padding: nat)
    ensures Inner(Sent(lens, typ, payload, padding)) == Text(lens, typ, payload) + Zeros(padding)
  {
    if Disguises(lens, typ, payload) {
      if |payload| == 1 {
        assert [0 as bv8] + Zeros(padding) == Zeros(padding + 1);
        assert Text(lens, typ, payload) == [TYPE_APPLICATION_DATA, 0];
      } else {
        assert Text(lens, typ, payload) == payload[0 := TYPE_APPLICATION_DATA][1 := 0] + [typ];
      }
    }
  }

  /** A record has the length that it imitates exactly if it fits and is too large for noise. */
  lemma SealedImitates(a: Aead, mask: seq<bv8>, number: seq<bv8>, lens: Lengths, payload: seq<bv8>, draw: nat)
    requires Inverts(a) && |mask| == AEAD_NONCE_LENGTH && |number| == SEQ_LENGTH
             && Imitates(lens, TYPE_HANDSHAKE, payload)
    ensures var padding := Padding(lens, TYPE_HANDSHAKE, payload, a.overhead, draw);
            var target := lens[Slot(payload[0])];
            |SealRecord(a, mask, number, Sent(lens, TYPE_HANDSHAKE, payload, padding))| == target <==>
            1350 <= Size(|payload|, a.overhead) <= target
  {
    hide ChoosePadding, XorNonce;
    var padding := Padding(lens, TYPE_HANDSHAKE, payload, a.overhead, draw);
    SentInner(lens, TYPE_HANDSHAKE, payload, padding);
    ImitationExact(|payload|, a.overhead, lens[Slot(payload[0])], draw);
  }

  class HalfConn {
    const number: array<bv8>
    var cipher: XorNonceAead
    var handshakeLen: Lengths

    ghost predicate Valid()
      reads this
    {
      && number.Length == SEQ_LENGTH && cipher.nonceMask.Length == AEAD_NONCE_LENGTH && number != cipher.nonceMask
    }

    constructor (aead: Aead, mask: seq<bv8>, handshakeLen: Lengths)
      requires |mask| == AEAD_NONCE_LENGTH
      ensures this.handshakeLen == handshakeLen
      ensures Valid() && fresh(number) && fresh(cipher) && fresh(cipher.nonceMask)
      ensures number[..] == SeqAt(0) && cipher.aead == aead && cipher.nonceMask[..] == mask
    {
      number := new bv8[SEQ_LENGTH](_ => 0);
      cipher := new XorNonceAead(aead, mask);
      this.handshakeLen := handshakeLen;
    }

    /** New keys: the numbers start again. */
    method SetTrafficSecret(aead: Aead, mask: seq<bv8>)
      requires Valid() && |mask| == AEAD_NONCE_LENGTH
      modifies this`cipher, number
      ensures Valid() && fresh(cipher) && fresh(cipher.nonceMask)
      ensures number[..] == SeqAt(0) && cipher.aead == aead && cipher.nonceMask[..] == mask
    {
      cipher := new XorNonceAead(aead, mask);
      for i := 0 to SEQ_LENGTH
        modifies number
        invariant forall j | 0 <= j < i :: number[j] == 0
      {
        number[i] := 0;
      }
    }

    /** The next sequence number; there must be one. */
    method IncSeq()
      requires number.Length == SEQ_LENGTH && !AllOnes(number[..])
      modifies number
      ensures number[..] == Increment(old(number[..]))
    {
      hide Increment;
      ghost var before := number[..];
      assert before[..8] == before && before + Zeros(0) == before;
      var i := 7;
      while i >= 0
        invariant -1 <= i < SEQ_LENGTH
        invariant number[..i + 1] == before[..i + 1]
        invariant forall j | i < j < SEQ_LENGTH :: number[j] == 0 && before[j] == 0xFF
        invariant Increment(before) == Increment(before[..i + 1]) + Zeros(7 - i)
      {
        IncrementLast(before, i);
        assert number[i] == number[..i + 1][i] && number[..i] == number[..i + 1][..i] == before[..i];
        number[i] := number[i] + 1;
        assert number[..][..i] == number[..i];
        if number[i] != 0 {
          Assembled(number[..], before, i);
          return;
        }
        i := i - 1;
      }
      assert false;  // here the code panics
    }

    // The length that the record should have, and its text.
    method Imitate(typ: bv8, payload: seq<bv8>) returns (text: seq<bv8>, target: nat)
      requires typ == TYPE_HANDSHAKE && handshakeLen[1] != 0 ==> payload != []
      modifies this`handshakeLen
      ensures handshakeLen == LengthsAfter(old(handshakeLen), typ, payload)
      ensures text == Text(old(handshakeLen), typ, payload) && target == Target(old(handshakeLen), typ, payload)
    {
      text, target := payload + [typ], 0;
      if typ == TYPE_HANDSHAKE && handshakeLen[1] != 0 {
        match payload[0]
        case ENCRYPTED_EXTENSIONS =>
          target, handshakeLen := handshakeLen[2], handshakeLen[2 := 0];
        case CERTIFICATE =>
          target, handshakeLen := handshakeLen[3], handshakeLen[3 := 0];
        case CERTIFICATE_VERIFY =>
          target, handshakeLen := handshakeLen[4], handshakeLen[4 := 0];
        case FINISHED =>
          target, handshakeLen := handshakeLen[5], handshakeLen[5 := 0];
        case NEW_SESSION_TICKET =>
          target, handshakeLen := handshakeLen[6], handshakeLen[6 := 0];
          text := text[0 := TYPE_APPLICATION_DATA][1 := 0];
        case _ =>
      }
    }

    /** Append the type and the padding.  Nothing is returned where the code panics. */
    method PadRecord(typ: bv8, payload: seq<bv8>, draw: nat) returns (inner: Option<seq<bv8>>)
      requires Drawn(|payload|, draw)
      modifies this`handshakeLen
      ensures handshakeLen == LengthsAfter(old(handshakeLen), typ, payload)
      ensures inner.None? <==> Panics(old(handshakeLen), typ, payload, cipher.aead.overhead, draw)
      ensures inner.Some? ==>
                var padding := Padding(old(handshakeLen), typ, payload, cipher.aead.overhead, draw);
                inner.value == Inner(Sent(old(handshakeLen), typ, payload, padding))
    {
      hide Text, Sent, Inner, LengthsAfter;
      if typ == TYPE_HANDSHAKE && handshakeLen[1] != 0 && payload == [] {
        assert LengthsAfter(handshakeLen, typ, payload) == handshakeLen by { NothingUsed(handshakeLen, typ); }
        return None;
      }
      SentInner(handshakeLen, typ, payload, Padding(handshakeLen, typ, payload, cipher.aead.overhead, draw));
      var text, target := Imitate(typ, payload);
      var padding := 0;
      if typ == TYPE_HANDSHAKE {
        var size := RECORD_HEADER_LEN + |text| + cipher.aead.overhead;
        padding := target - size;
        if padding < 0 {
          padding := 0;
        }
        var maxAllowedPadding := 1350 - size;
        if maxAllowedPadding > 0 {
          var randAdd := if |payload| < 200 then 100 + draw else 30 + draw;
          if randAdd > maxAllowedPadding {
            randAdd := maxAllowedPadding;
          }
          padding := padding + randAdd;
        }
        if padding > BUFFER_SIZE {
          return None;
        }
      }
      inner := Some(text + Zeros(padding));
    }

    /** Encrypt a record.  The sequence number is the nonce, and moves on.  The header gives the length of the rest. */
    method Encrypt(typ: bv8, payload: seq<bv8>, draw: nat) returns (record: Option<seq<bv8>>)
      requires Valid() && !AllOnes(number[..]) && Drawn(|payload|, draw)
      modifies this`handshakeLen, number, cipher.nonceMask
      ensures cipher.nonceMask[..] == old(cipher.nonceMask[..])
      ensures handshakeLen == LengthsAfter(old(handshakeLen), typ, payload)
      ensures record.None? <==> Panics(old(handshakeLen), typ, payload, cipher.aead.overhead, draw)
      ensures record.None? ==> number[..] == old(number[..])
      ensures record.Some? ==>
                && number[..] == Increment(old(number[..]))
                && var padding := Padding(old(handshakeLen), typ, payload, cipher.aead.overhead, draw);
                   record.value == SealRecord(cipher.aead, cipher.nonceMask[..], old(number[..]),
                                              Sent(old(handshakeLen), typ, payload, padding))
      ensures record.Some? ==> Announced(record.value)
    {
      hide Announced, Header, Increment, XorNonce, AllOnes, Inner, Padding, Panics, Sent, LengthsAfter;
      var nonce := number[..];
      var inner := PadRecord(typ, payload, draw);
      if inner.None? {
        return None;
      }
      var sealed := cipher.Seal(nonce, inner.value, Header(|inner.value| + cipher.aead.overhead));
      record := Some(Header(|sealed|) + sealed);
      ghost var padding := Padding(old(handshakeLen), typ, payload, cipher.aead.overhead, draw);
      SealedHeader(cipher.aead, cipher.nonceMask[..], nonce, Sent(old(handshakeLen), typ, payload, padding));
      IncSeq();
    }

    /** Decrypt a record.  The sequence number moves on if the record is accepted, unless it is a
        change_cipher_spec record, which is not encrypted. */
    method Decrypt(record: seq<bv8>) returns (r: Opened)
      requires Valid() && !AllOnes(number[..]) && |record| >= RECORD_HEADER_LEN
      modifies number, cipher.nonceMask
      ensures cipher.nonceMask[..] == old(cipher.nonceMask[..])
      ensures r == OpenRecord(cipher.aead, cipher.nonceMask[..], old(number[..]), record)
      ensures record[0] == 20 ==> r == Record(record[5..], 20)
      ensures record[0] != 20 ==>
                var text := cipher.aead.open(XorNonce(cipher.nonceMask[..], old(number[..])), record[5..], record[..5]);
                && (r == Refused(BadRecordMAC) <==> text.None?)
                && (r == Refused(RecordOverflow) <==> text.Some? && record[0] == 23 && |text.value| > 16385)
                && (r.Record? ==> record[0] == 23 && text.Some? && r.payload <= text.value)
      ensures number[..] == if r.Record? && record[0] != TYPE_CHANGE_CIPHER_SPEC then Increment(old(number[..]))
              else old(number[..])
    {
      hide Increment, XorNonce, AllOnes, Unpad;
      var typ := record[0];
      var payload := record[RECORD_HEADER_LEN..];
      if typ == TYPE_CHANGE_CIPHER_SPEC {
        return Record(payload, typ);
      }
      var plaintext := cipher.Open(number[..], payload, record[..RECORD_HEADER_LEN]);
      if plaintext.None? {
        return Refused(BadRecordMAC);
      }
      if typ != TYPE_APPLICATION_DATA {
        return Refused(UnexpectedMessage);
      }
      if |plaintext.value| > MAX_PLAINTEXT + 1 {
        return Refused(RecordOverflow);
      }
      r := FindType(plaintext.value, typ);
      if r.Record? {
        IncSeq();
      }
    }
  }

  lemma Assembled(s: seq<bv8>, before: seq<bv8>, i: nat)
    requires |s| == |before| == SEQ_LENGTH && i < SEQ_LENGTH && s[..i] == before[..i] && s[i] == before[i] + 1
    requires forall j | i < j < SEQ_LENGTH :: s[j] == 0
    ensures s == before[..i] + [before[i] + 1] + Zeros(7 - i)
  {
    assert s == s[..i] + [s[i]] + s[i + 1..] && s[i + 1..] == Zeros(7 - i);
  }

  lemma NothingUsed(lens: Lengths, typ: bv8)
    ensures LengthsAfter(lens, typ, []) == lens
  {
  }

  // Remove padding, scanning from the end.
  method FindType(plaintext: seq<bv8>, typ: bv8) returns (r: Opened)
    ensures r == if plaintext == [] then Record([], typ) else Unpad(plaintext)
    ensures r == Refused(UnexpectedMessage) || (r.Record? && r.payload <= plaintext)
  {
    r := Record(plaintext, typ);
    var i := |plaintext| - 1;
    assert plaintext[..|plaintext|] == plaintext;
    while i >= 0
      invariant -1 <= i < |plaintext|
      invariant plaintext == [] ==> i == -1
      invariant plaintext != [] ==> 0 <= i && Unpad(plaintext) == Unpad(plaintext[..i + 1])
      decreases i
    {
      assert plaintext[..i + 1][..i] == plaintext[..i];
      if plaintext[i] != 0 {
        return Record(plaintext[..i], plaintext[i]);
      }
      if i == 0 {
        return Refused(UnexpectedMessage);
      }
      i := i - 1;
    }
  }

  lemma IncrementLast(s: seq<bv8>, i: nat)
    requires i < |s|
    ensures s[i] != 0xFF ==> Increment(s[..i + 1]) == s[..i] + [s[i] + 1] && s[i] + 1 != 0
    ensures s[i] == 0xFF ==> s[i] + 1 == 0
    ensures s[i] == 0xFF ==> Increment(s[..i + 1]) == Increment(s[..i]) + [0]
    ensures s[i] == 0xFF ==> forall n: nat :: Increment(s[..i + 1]) + Zeros(n) == Increment(s[..i]) + Zeros(n + 1)
  {
    var p := s[..i + 1];
    assert p[..i] == s[..i];
    if s[i] == 0xFF {
      forall n: nat ensures Increment(p) + Zeros(n) == Increment(s[..i]) + Zeros(n + 1) {
        assert [0] + Zeros(n) == Zeros(n + 1);
      }
    }
  }
}
