/** Data of any size is cut into records; the receiver gets it back. */
module RecordRuns {
  import opened StreamBytes
  import opened MachineBytes
  import opened RecordNonce
  import opened RecordPadding
  import opened RecordLayer
  import opened RecordFraming

  const TCP_MSS_ESTIMATE := 1208
  const RECORD_SIZE_BOOST_THRESHOLD := 128 * 1024

  // The random numbers of the padding, by message, record and payload size.
  type Draws = (nat, nat, nat) -> nat

  ghost predicate InRange(draws: Draws) {
    forall k, i, n :: Drawn(n, draws(k, i, n))
  }

  function Join(plains: seq<Plain>): seq<bv8> {
    if plains == [] then [] else Join(plains[..|plains| - 1]) + plains[|plains| - 1].payload
  }

  lemma JoinAppend(plains: seq<Plain>, p: Plain)
    ensures Join(plains + [p]) == Join(plains) + p.payload
  {
    assert (plains + [p])[..|plains|] == plains;
  }

  /** The records on the wire are those of the given plaintexts, numbered from 0. */
  ghost predicate Carries(a: Aead, mask: seq<bv8>, wire: seq<seq<bv8>>, plains: seq<Plain>)
    requires |mask| == AEAD_NONCE_LENGTH
  {
    && |wire| == |plains|
    && (forall i | 0 <= i < |wire| :: wire[i] == SealRecord(a, mask, SeqAt(i), plains[i]))
  }

  ghost predicate Fits(p: Plain) {
    p.typ != 0 && |p.payload| + p.padding <= MAX_PLAINTEXT
  }

  lemma PaddedFits(lens: Lengths, typ: bv8, payload: seq<bv8>, overhead: nat, draw: nat)
    requires Recorded(lens) && Drawn(|payload|, draw) && typ != 0 && |payload| <= MAX_PLAINTEXT
    ensures Fits(Sent(lens, typ, payload, Padding(lens, typ, payload, overhead, draw)))
  {
    hide ChoosePadding;
    TargetBound(lens, typ, payload);
    PaddedSize(typ, |payload|, overhead, Target(lens, typ, payload), draw);
  }

  // Handshake messages are cut into records of the largest size.
  function Cut(data: seq<bv8>): nat {
    Min(|data|, MAX_PLAINTEXT)
  }

  /** The lengths that are left to imitate after a message. */
  function LengthsLater(lens: Lengths, typ: bv8, data: seq<bv8>): Lengths
    decreases |data|
  {
    if typ != TYPE_HANDSHAKE || data == [] then lens
    else LengthsLater(LengthsAfter(lens, typ, data[..Cut(data)]), typ, data[Cut(data)..])
  }

  /** Whether the code panics while it writes the message, from its record number i on. */
  predicate MessagePanics(lens: Lengths, typ: bv8, data: seq<bv8>, overhead: nat, draws: Draws, k: nat, i: nat)
    decreases |data|
  {
    && typ == TYPE_HANDSHAKE && data != []
    && (|| Panics(lens, typ, data[..Cut(data)], overhead, draws(k, i, Cut(data)))
        || MessagePanics(LengthsAfter(lens, typ, data[..Cut(data)]), typ, data[Cut(data)..], overhead, draws, k, i + 1))
  }

  ghost function Open(p: Plain): Opened {
    Record(p.payload, p.typ)
  }

  /** The records that the receiver of a handshake message sees. */
  ghost function Shown(lens: Lengths, data: seq<bv8>): seq<Opened>
    decreases |data|
  {
    if data == [] then []
    else
      var payload := data[..Cut(data)];
      [Open(Sent(lens, TYPE_HANDSHAKE, payload, 0))] + Shown(LengthsAfter(lens, TYPE_HANDSHAKE, payload),
                                                             data[Cut(data)..])
  }

  ghost function OpenAll(plains: seq<Plain>): seq<Opened> {
    seq(|plains|, i requires 0 <= i < |plains| => Open(plains[i]))
  }

  /** The new records are those of a message, except for the rest. */
  ghost predicate Written(typ: bv8, lens: Lengths, data: seq<bv8>, now: Lengths, rest: seq<bv8>, plains: seq<Plain>) {
    if typ == TYPE_HANDSHAKE then OpenAll(plains) + Shown(now, rest) == Shown(lens, data)
    else Join(plains) + rest == data && forall i | 0 <= i < |plains| :: plains[i].typ == typ
  }

  lemma WrittenNothing(typ: bv8, lens: Lengths, data: seq<bv8>)
    ensures Written(typ, lens, data, lens, data, [])
  {
    assert OpenAll([]) + Shown(lens, data) == Shown(lens, data);
    assert Join([]) + data == data;
  }

  lemma WrittenOne(typ: bv8, lens: Lengths, data: seq<bv8>, now: Lengths, rest: seq<bv8>, plains: seq<Plain>, m: nat,
                   padding: nat)
    requires Written(typ, lens, data, now, rest, plains) && 0 < m <= |rest|
    requires typ == TYPE_HANDSHAKE ==> m == Cut(rest)
    ensures var p := Sent(now, typ, rest[..m], padding);
            Written(typ, lens, data, LengthsAfter(now, typ, rest[..m]), rest[m..], plains + [p])
  {
    hide Join, LengthsAfter;
    var p := Sent(now, typ, rest[..m], padding);
    if typ == TYPE_HANDSHAKE {
      var later := Shown(LengthsAfter(now, typ, rest[..m]), rest[m..]);
      assert Shown(now, rest) == [Open(p)] + later;
      assert OpenAll(plains + [p]) == OpenAll(plains) + [Open(p)];
      assert OpenAll(plains + [p]) + later == OpenAll(plains) + Shown(now, rest);
    } else {
      JoinAppend(plains, p);
      assert Join(plains) + rest[..m] + rest[m..] == Join(plains) + rest;
    }
  }

  /** Only the last record of a message can be short enough to fail. */
  lemma ShortMessagePanics(lens: Lengths, typ: bv8, data: seq<bv8>, overhead: nat, draws: Draws, k: nat)
    requires Recorded(lens) && InRange(draws) && |data| <= MAX_PLAINTEXT
    ensures MessagePanics(lens, typ, data, overhead, draws, k, 0) <==>
            && Imitates(lens, typ, data) && |data| < 200
            && lens[Slot(data[0])] + draws(k, 0, |data|) > 8098 + |data| + overhead
  {
    hide ChoosePadding;
    if data != [] {
      var draw := draws(k, 0, |data|);
      assert data[..Cut(data)] == data && data[Cut(data)..] == [];
      PaddingExceeds(typ, |data|, overhead, Target(lens, typ, data), draw);
      assert Drawn(|data|, draw);
    }
  }

  /** No message fails if all lengths to imitate are small enough. */
  lemma {:induction false} SafeLengths(lens: Lengths, typ: bv8, data: seq<bv8>, overhead: nat, draws: Draws, k: nat,
                                       i: nat)
    requires Recorded(lens) && InRange(draws) && forall j | 2 <= j < 7 :: lens[j] <= 7850 + overhead
    ensures !MessagePanics(lens, typ, data, overhead, draws, k, i)
    decreases |data|
  {
    hide ChoosePadding;
    if data != [] {
      var m := Cut(data);
      PaddingExceeds(typ, m, overhead, Target(lens, typ, data[..m]), draws(k, i, m));
      assert Drawn(m, draws(k, i, m));
      SafeLengths(LengthsAfter(lens, typ, data[..m]), typ, data[m..], overhead, draws, k, i + 1);
    }
  }

  /** The message that stands for a session ticket is seen as empty application data. */
  lemma FakeTicket(lens: Lengths)
    requires lens[1] != 0
    ensures Shown(lens, [NEW_SESSION_TICKET]) == [Record([], TYPE_APPLICATION_DATA)]
  {
    var data := [NEW_SESSION_TICKET];
    assert data[..Cut(data)] == data && data[Cut(data)..] == [];
    assert Shown(LengthsAfter(lens, TYPE_HANDSHAKE, data), []) == [];
  }

  ghost function Received(got: seq<Opened>): seq<bv8> {
    if got == [] then []
    else Received(got[..|got| - 1]) + match got[|got| - 1] case Record(payload, _) => payload case Refused(_) => []
  }

  // No record of the message starts like a session ticket while there is something to imitate.
  ghost predicate NoTicket(lens: Lengths, data: seq<bv8>) {
    lens[1] != 0 ==> forall j: nat | j * MAX_PLAINTEXT < |data| :: data[j * MAX_PLAINTEXT] != NEW_SESSION_TICKET
  }

  ghost predicate ShownAsIs(got: seq<Opened>, data: seq<bv8>) {
    Received(got) == data && forall i | 0 <= i < |got| :: got[i].Record? && got[i].typ == TYPE_HANDSHAKE
  }

  lemma {:induction false} ReceivedFirst(o: Opened, got: seq<Opened>)
    requires o.Record?
    ensures Received([o] + got) == o.payload + Received(got)
  {
    var n := |got|;
    if n == 0 {
      assert [o] + got == [o] && Received([o][..0]) == [];
    } else {
      assert ([o] + got)[..n] == [o] + got[..n - 1];
      ReceivedFirst(o, got[..n - 1]);
    }
  }

  lemma NoTicketStep(lens: Lengths, data: seq<bv8>)
    requires data != []
    ensures var m := Cut(data);
            NoTicket(lens, data) <==>
            !Disguises(lens, TYPE_HANDSHAKE, data[..m])
              && NoTicket(LengthsAfter(lens, TYPE_HANDSHAKE, data[..m]), data[m..])
  {
    var m := Cut(data);
    var after, rest := LengthsAfter(lens, TYPE_HANDSHAKE, data[..m]), data[m..];
    assert after[1] == lens[1];
    assert data[0 * MAX_PLAINTEXT] == data[..m][0];
    if lens[1] != 0 && !Disguises(lens, TYPE_HANDSHAKE, data[..m]) {
      if NoTicket(after, rest) {
        forall j: nat | j * MAX_PLAINTEXT < |data| ensures data[j * MAX_PLAINTEXT] != NEW_SESSION_TICKET {
          if j > 0 {
            assert data[j * MAX_PLAINTEXT] == rest[(j - 1) * MAX_PLAINTEXT];
          }
        }
      }
      if NoTicket(lens, data) {
        forall j: nat | j * MAX_PLAINTEXT < |rest| ensures rest[j * MAX_PLAINTEXT] != NEW_SESSION_TICKET {
          assert rest[j * MAX_PLAINTEXT] == data[(j + 1) * MAX_PLAINTEXT];
        }
      }
    }
  }

  // The first record of a message decides, unless it is as it should be.
  lemma FirstShown(lens: Lengths, payload: seq<bv8>, rest: seq<bv8>, later: seq<Opened>)
    requires payload != []
    ensures var o := Open(Sent(lens, TYPE_HANDSHAKE, payload, 0));
            ShownAsIs([o] + later, payload + rest) <==> !Disguises(lens, TYPE_HANDSHAKE, payload)
                                                        && ShownAsIs(later, rest)
  {
    hide Received;
    var o := Open(Sent(lens, TYPE_HANDSHAKE, payload, 0));
    ReceivedFirst(o, later);
    assert forall i | 0 <= i < |later| :: later[i] == ([o] + later)[i + 1];
    if Disguises(lens, TYPE_HANDSHAKE, payload) {
      assert ([o] + later)[0] == o;
      assert o.typ == TYPE_HANDSHAKE ==> (o.payload + Received(later))[0] != (payload + rest)[0];
    } else {
      assert (payload + Received(later))[|payload|..] == Received(later) && (payload + rest)[|payload|..] == rest;
    }
  }

  /** The receiver of a handshake message sees it as it is, exactly if nothing in it is taken for a ticket. */
  lemma {:induction false} ShownFaithful(lens: Lengths, data: seq<bv8>)
    ensures ShownAsIs(Shown(lens, data), data) <==> NoTicket(lens, data)
    decreases |data|
  {
    hide Received, NoTicket, LengthsAfter, ShownAsIs, Sent, Disguises;
    if data == [] {
      NoTicketInNothing(lens);
    } else {
      var m := Cut(data);
      var after := LengthsAfter(lens, TYPE_HANDSHAKE, data[..m]);
      NoTicketStep(lens, data);
      ShownFaithful(after, data[m..]);
      FirstShown(lens, data[..m], data[m..], Shown(after, data[m..]));
      assert data == data[..m] + data[m..];
    }
  }

  lemma NoTicketInNothing(lens: Lengths)
    ensures ShownAsIs([], []) && NoTicket(lens, [])
  {
  }

  class Conn {
    const out: HalfConn
    const dynamicRecordSizingDisabled: bool
    var packetsSent: nat
    var bytesSent: nat
    var wire: seq<seq<bv8>>
    ghost var plains: seq<Plain>

    ghost predicate Valid()
      reads this`wire, this`plains, out, out.number, out.cipher.nonceMask
    {
      && out.Valid() && Recorded(out.handshakeLen)
      && out.cipher.aead.overhead < TCP_MSS_ESTIMATE - RECORD_HEADER_LEN - 1
      && out.number[..] == SeqAt(|wire|)
      && Carries(out.cipher.aead, out.cipher.nonceMask[..], wire, plains)
      && (forall i | 0 <= i < |plains| :: Fits(plains[i]))
    }

    constructor (aead: Aead, mask: seq<bv8>, handshakeLen: Lengths, dynamicRecordSizingDisabled: bool)
      requires Recorded(handshakeLen) && |mask| == AEAD_NONCE_LENGTH
               && aead.overhead < TCP_MSS_ESTIMATE - RECORD_HEADER_LEN - 1
      ensures Valid() && fresh(out) && fresh(out.number) && fresh(out.cipher.nonceMask)
      ensures wire == [] && plains == [] && out.handshakeLen == handshakeLen
      ensures out.cipher.aead == aead && out.cipher.nonceMask[..] == mask
    {
      out := new HalfConn(aead, mask, handshakeLen);
      this.dynamicRecordSizingDisabled := dynamicRecordSizingDisabled;
      packetsSent, bytesSent, wire, plains := 0, 0, [], [];
    }

    /** Records grow from the size of a TCP segment to the maximum. */
    method MaxPayloadSizeForWrite(typ: bv8) returns (n: nat)
      requires out.cipher.aead.overhead < TCP_MSS_ESTIMATE - RECORD_HEADER_LEN - 1
      modifies this`packetsSent
      ensures 0 < n <= MAX_PLAINTEXT
      ensures dynamicRecordSizingDisabled || typ != TYPE_APPLICATION_DATA || bytesSent >= RECORD_SIZE_BOOST_THRESHOLD
              ==> n == MAX_PLAINTEXT
      ensures var segment := TCP_MSS_ESTIMATE - RECORD_HEADER_LEN - 1 - out.cipher.aead.overhead;
              && (n < MAX_PLAINTEXT ==> n % segment == 0)
              && (packetsSent > old(packetsSent) ==> n == if packetsSent > 1001 then MAX_PLAINTEXT
                  else Min(segment * packetsSent, MAX_PLAINTEXT))
      ensures packetsSent == old(packetsSent) + if dynamicRecordSizingDisabled || typ != TYPE_APPLICATION_DATA
              || bytesSent >= RECORD_SIZE_BOOST_THRESHOLD then 0 else 1
    {
      if dynamicRecordSizingDisabled || typ != TYPE_APPLICATION_DATA {
        return MAX_PLAINTEXT;
      }
      if bytesSent >= RECORD_SIZE_BOOST_THRESHOLD {
        return MAX_PLAINTEXT;
      }
      var payloadBytes := TCP_MSS_ESTIMATE - RECORD_HEADER_LEN - out.cipher.aead.overhead;
      payloadBytes := payloadBytes - 1;
      var pkt := packetsSent;
      packetsSent := packetsSent + 1;
      if pkt > 1000 {
        return MAX_PLAINTEXT;
      }
      n := payloadBytes * (pkt + 1);
      MultipleMod(n, pkt + 1, payloadBytes);
      Spread(pkt + 1, payloadBytes);
      if n > MAX_PLAINTEXT {
        n := MAX_PLAINTEXT;
      }
    }

    /** Write data as a sequence of records, up to a panic. */
    method WriteRecord(typ: bv8, data: seq<bv8>, draws: Draws, k: nat) returns (panicked: bool)
      requires Valid() && typ != 0 && InRange(draws) && |wire| + |data| < RECORD_LIMIT
      modifies this, out`handshakeLen, out.number, out.cipher.nonceMask
      ensures Valid() && out.cipher.nonceMask[..] == old(out.cipher.nonceMask[..])
      ensures |wire| <= |old(wire)| + |data| && old(wire) <= wire && old(plains) <= plains
      ensures panicked <==> MessagePanics(old(out.handshakeLen), typ, data, out.cipher.aead.overhead, draws, k, 0)
      ensures !panicked ==> out.handshakeLen == LengthsLater(old(out.handshakeLen), typ, data)
      ensures !panicked ==> Written(typ, old(out.handshakeLen), data, out.handshakeLen, [], plains[|old(plains)|..])
    {
      hide Valid, Written, LengthsAfter, Panics, Padding, Sent;
      hide LengthsLater, MessagePanics, InRange;
      var rest := data;
      var i := 0;
      ghost var lens := out.handshakeLen;
      ghost var overhead := out.cipher.aead.overhead;
      assert plains[|plains|..] == [];
      WrittenNothing(typ, lens, data);
      while |rest| > 0
        invariant Valid() && out.cipher.nonceMask[..] == old(out.cipher.nonceMask[..])
        invariant |wire| + |rest| <= |old(wire)| + |data| && old(wire) <= wire && old(plains) <= plains
        invariant MessagePanics(lens, typ, data, overhead, draws, k, 0) == MessagePanics(out.handshakeLen, typ, rest,
            overhead, draws, k, i)
        invariant LengthsLater(lens, typ, data) == LengthsLater(out.handshakeLen, typ, rest)
        invariant Written(typ, lens, data, out.handshakeLen, rest, plains[|old(plains)|..])
      {
        var m := |rest|;
        ValidOverhead();
        var maxPayload := MaxPayloadSizeForWrite(typ);
        if m > maxPayload {
          m := maxPayload;
        }
        ghost var now, news := out.handshakeLen, plains[|old(plains)|..];
        InRangeAt(draws, k, i, m);
        StepOf(now, typ, rest, m, overhead, draws, k, i);
        panicked := WriteOne(typ, rest[..m], draws(k, i, m));
        if panicked {
          return;
        }
        ghost var padding := Padding(now, typ, rest[..m], overhead, draws(k, i, m));
        WrittenOne(typ, lens, data, now, rest, news, m, padding);
        assert plains[|old(plains)|..] == news + [Sent(now, typ, rest[..m], padding)];
        rest := rest[m..];
        i := i + 1;
      }
      StepOf(out.handshakeLen, typ, [], 0, overhead, draws, k, i);
      panicked := false;
    }

    lemma ValidOverhead()
      requires Valid()
      ensures out.cipher.aead.overhead < TCP_MSS_ESTIMATE - RECORD_HEADER_LEN - 1
    {
    }

    method WriteOne(typ: bv8, payload: seq<bv8>, draw: nat) returns (panicked: bool)
      requires Valid() && typ != 0 && Drawn(|payload|, draw)
      requires |payload| <= MAX_PLAINTEXT && |wire| + 1 < RECORD_LIMIT
      modifies this`wire, this`bytesSent, this`plains, out`handshakeLen, out.number, out.cipher.nonceMask
      ensures Valid() && out.cipher.nonceMask[..] == old(out.cipher.nonceMask[..])
      ensures out.handshakeLen == LengthsAfter(old(out.handshakeLen), typ, payload)
      ensures panicked <==> Panics(old(out.handshakeLen), typ, payload, out.cipher.aead.overhead, draw)
      ensures panicked ==> wire == old(wire) && plains == old(plains)
      ensures !panicked ==>
                && |wire| == |old(wire)| + 1 && old(wire) <= wire
                && var padding := Padding(old(out.handshakeLen), typ, payload, out.cipher.aead.overhead, draw);
                   plains == old(plains) + [Sent(old(out.handshakeLen), typ, payload, padding)]
    {
      hide SealRecord, SeqAt, AllOnes, Padding, Fits, Join, Panics, LengthsAfter, Sent, Drawn, Recorded;
      SeqValue(|wire|);
      NextSeq(|wire|);
      TargetBound(out.handshakeLen, typ, payload);
      PaddedFits(out.handshakeLen, typ, payload, out.cipher.aead.overhead, draw);
      ghost var padding := Padding(out.handshakeLen, typ, payload, out.cipher.aead.overhead, draw);
      ghost var p := Sent(out.handshakeLen, typ, payload, padding);
      var record := out.Encrypt(typ, payload, draw);
      if record.None? {
        return true;
      }
      wire := wire + [record.value];
      bytesSent := bytesSent + |record.value|;
      plains := plains + [p];
      panicked := false;
    }
  }

  /** The records on the wire can be told apart by their headers, exactly if none is too large. */
  lemma WireSplits(conn: Conn, handshakeComplete: bool)
    requires conn.Valid() && Inverts(conn.out.cipher.aead)
    ensures Deframe(Flatten(conn.wire), handshakeComplete) == conn.wire <==>
            forall r | r in conn.wire :: |r| <= RECORD_HEADER_LEN + MAX_CIPHERTEXT
    ensures conn.out.cipher.aead.overhead <= 255 ==> Deframe(Flatten(conn.wire), handshakeComplete) == conn.wire
  {
    hide SealRecord, SeqAt, Inverts, Framed, Fits;
    forall r | r in conn.wire
      ensures Framed(r) && |r| <= RECORD_HEADER_LEN + MAX_PLAINTEXT + 1 + conn.out.cipher.aead.overhead
    {
      var i :| 0 <= i < |conn.wire| && conn.wire[i] == r;
      SealedFramed(conn.out.cipher.aead, conn.out.cipher.nonceMask[..], SeqAt(i), conn.plains[i]);
    }
    DeframeExact(conn.wire, handshakeComplete);
  }

  lemma SealedFramed(a: Aead, mask: seq<bv8>, number: seq<bv8>, p: Plain)
    requires Inverts(a) && |mask| == AEAD_NONCE_LENGTH && |number| == SEQ_LENGTH && Fits(p)
             && a.overhead < TCP_MSS_ESTIMATE
    ensures var record := SealRecord(a, mask, number, p);
            Framed(record) && |record| <= RECORD_HEADER_LEN + MAX_PLAINTEXT + 1 + a.overhead
  {
    hide Announced, SealRecord, Inverts;
    SealedHeader(a, mask, number, p);
    SealedSize(a, mask, number, p);
  }

  lemma SealedSize(a: Aead, mask: seq<bv8>, number: seq<bv8>, p: Plain)
    requires Inverts(a) && |mask| == AEAD_NONCE_LENGTH && |number| == SEQ_LENGTH
    ensures |SealRecord(a, mask, number, p)| == RECORD_HEADER_LEN + |p.payload| + 1 + p.padding + a.overhead
  {
    hide XorNonce, Header;
  }

  lemma InRangeAt(draws: Draws, k: nat, i: nat, m: nat)
    requires InRange(draws)
    ensures Drawn(m, draws(k, i, m))
  {
  }

  // One record of a message: what may happen to the rest of it.
  lemma StepOf(lens: Lengths, typ: bv8, rest: seq<bv8>, m: nat, overhead: nat, draws: Draws, k: nat, i: nat)
    requires m <= |rest| && (rest != [] ==> 0 < m) && (typ == TYPE_HANDSHAKE ==> m == Cut(rest))
    ensures rest == [] ==> !MessagePanics(lens, typ, rest, overhead, draws, k, i)
                           && LengthsLater(lens, typ, rest) == lens
    ensures rest != [] ==> var after := LengthsAfter(lens, typ, rest[..m]);
              && LengthsLater(lens, typ, rest) == LengthsLater(after, typ, rest[m..])
              && (MessagePanics(lens, typ, rest, overhead, draws, k, i) <==>
                  || Panics(lens, typ, rest[..m], overhead, draws(k, i, m))
                  || MessagePanics(after, typ, rest[m..], overhead, draws, k, i + 1))
  {
  }

  datatype Message = Message(typ: bv8, data: seq<bv8>)

  function TotalSize(messages: seq<Message>): nat {
    if messages == [] then 0 else TotalSize(messages[..|messages| - 1]) + |messages[|messages| - 1].data|
  }

  method ReceiveOne(in_: HalfConn, ghost i: nat, record: seq<bv8>, ghost p: Plain) returns (r: Opened)
    requires in_.Valid() && in_.number[..] == SeqAt(i) && i + 1 < RECORD_LIMIT && Fits(p) && Inverts(in_.cipher.aead)
    requires record == SealRecord(in_.cipher.aead, in_.cipher.nonceMask[..], SeqAt(i), p)
    modifies in_.number, in_.cipher.nonceMask
    ensures in_.Valid() && in_.cipher.nonceMask[..] == old(in_.cipher.nonceMask[..])
    ensures r == Record(p.payload, p.typ) && in_.number[..] == SeqAt(i + 1)
    ensures |record| >= RECORD_HEADER_LEN
    ensures r == OpenRecord(in_.cipher.aead, in_.cipher.nonceMask[..], SeqAt(i), record)
  {
    hide SealRecord, OpenRecord, SeqAt, AllOnes, Inverts;
    OpenSealed(in_.cipher.aead, in_.cipher.nonceMask[..], SeqAt(i), p);
    SealedType(in_.cipher.aead, in_.cipher.nonceMask[..], SeqAt(i), p);
    SeqValue(i);
    NextSeq(i);
    r := in_.Decrypt(record);
  }

  /** Each record is opened under its own number. */
  ghost predicate Decrypted(a: Aead, mask: seq<bv8>, wire: seq<seq<bv8>>, got: seq<Opened>)
    requires |mask| == AEAD_NONCE_LENGTH
  {
    && |got| == |wire|
    && forall i | 0 <= i < |wire| ::
         |wire[i]| >= RECORD_HEADER_LEN && got[i] == OpenRecord(a, mask, SeqAt(i), wire[i])
  }

  /** Decrypt records in the order in which they were sent. */
  method Receive(a: Aead, mask: seq<bv8>, wire: seq<seq<bv8>>, ghost plains: seq<Plain>)
    returns (got: seq<Opened>, number: seq<bv8>)
    requires Inverts(a) && |mask| == AEAD_NONCE_LENGTH && |wire| < RECORD_LIMIT
    requires Carries(a, mask, wire, plains) && forall i | 0 <= i < |plains| :: Fits(plains[i])
    ensures |got| == |plains| && forall i | 0 <= i < |got| :: got[i] == Record(plains[i].payload, plains[i].typ)
    ensures number == SeqAt(|wire|) && Decrypted(a, mask, wire, got)
  {
    hide SealRecord, OpenRecord, SeqAt, AllOnes, Inverts;
    var in_ := new HalfConn(a, mask, [0, 0, 0, 0, 0, 0, 0]);
    got := [];
    for i := 0 to |wire|
      invariant in_.Valid() && fresh(in_) && fresh(in_.number) && fresh(in_.cipher.nonceMask)
      invariant in_.cipher.aead == a && in_.cipher.nonceMask[..] == mask && in_.number[..] == SeqAt(i)
      invariant |got| == i && forall j | 0 <= j < i :: got[j] == Record(plains[j].payload, plains[j].typ)
      invariant Decrypted(a, mask, wire[..i], got)
    {
      var r := ReceiveOne(in_, i, wire[i], plains[i]);
      got := got + [r];
    }
    number := in_.number[..];
    assert wire[..|wire|] == wire;
  }

  lemma SealedType(a: Aead, mask: seq<bv8>, number: seq<bv8>, p: Plain)
    requires |mask| == AEAD_NONCE_LENGTH && |number| == SEQ_LENGTH
    ensures |SealRecord(a, mask, number, p)| >= RECORD_HEADER_LEN
            && SealRecord(a, mask, number, p)[0] == TYPE_APPLICATION_DATA
  {
  }

  lemma NextSeq(k: nat)
    ensures SeqAt(k + 1) == Increment(SeqAt(k))
  {
  }

  lemma {:induction false} ReceivedJoin(got: seq<Opened>, plains: seq<Plain>)
    requires |got| == |plains| && forall i | 0 <= i < |got| :: got[i] == Record(plains[i].payload, plains[i].typ)
    ensures Received(got) == Join(plains)
  {
    if got != [] {
      ReceivedJoin(got[..|got| - 1], plains[..|plains| - 1]);
    }
  }

  /** The lengths that are left to imitate after some messages. */
  function LengthsAt(lens: Lengths, messages: seq<Message>): Lengths {
    if messages == [] then lens
    else
      var n := |messages| - 1;
      LengthsLater(LengthsAt(lens, messages[..n]), messages[n].typ, messages[n].data)
  }

  predicate FailsAt(lens: Lengths, messages: seq<Message>, overhead: nat, draws: Draws, k: nat)
    requires k < |messages|
  {
    MessagePanics(LengthsAt(lens, messages[..k]), messages[k].typ, messages[k].data, overhead, draws, k, 0)
  }

  ghost predicate Part(lens: Lengths, m: Message, plains: seq<Plain>) {
    Written(m.typ, lens, m.data, LengthsLater(lens, m.typ, m.data), [], plains)
  }

  /** What the receiver gets of a message. */
  ghost predicate Delivered(lens: Lengths, m: Message, got: seq<Opened>) {
    if m.typ == TYPE_HANDSHAKE then got == Shown(lens, m.data)
    else Received(got) == m.data && forall i | 0 <= i < |got| :: got[i].Record? && got[i].typ == m.typ
  }

  lemma PartDelivered(lens: Lengths, m: Message, plains: seq<Plain>, got: seq<Opened>)
    requires Part(lens, m, plains) && |got| == |plains| && forall i | 0 <= i < |got| ::
             got[i] == Record(plains[i].payload, plains[i].typ)
    ensures Delivered(lens, m, got)
  {
    ReceivedJoin(got, plains);
    assert got == OpenAll(plains);
    assert Shown(LengthsLater(lens, m.typ, m.data), []) == [];
  }

  // The starts of the messages among the records; the last one is the end.
  ghost predicate Starts(starts: seq<nat>, n: nat, end: nat) {
    && |starts| == n + 1 && starts[0] == 0 && starts[n] == end
    && (forall i, j | 0 <= i <= j <= n :: starts[i] <= starts[j])
  }

  ghost predicate Parts(lens: Lengths, messages: seq<Message>, done: nat, starts: seq<nat>, plains: seq<Plain>) {
    && done <= |messages| && |starts| == done + 1 && (forall k | 0 <= k <= done :: starts[k] <= |plains|)
    && (forall k | 0 <= k < done :: starts[k] <= starts[k + 1])
    && (forall k | 0 <= k < done ::
          Part(LengthsAt(lens, messages[..k]), messages[k], plains[starts[k]..starts[k + 1]]))
  }

  lemma NoParts(lens: Lengths, messages: seq<Message>)
    ensures Starts([0], 0, 0) && Parts(lens, messages, 0, [0], [])
  {
  }

  lemma MoreRecords(lens: Lengths, messages: seq<Message>, done: nat, starts: seq<nat>, before: seq<Plain>,
                    after: seq<Plain>)
    requires Parts(lens, messages, done, starts, before) && before <= after
    ensures Parts(lens, messages, done, starts, after)
  {
    hide Part, LengthsAt;
    forall k | 0 <= k < done ensures Part(LengthsAt(lens, messages[..k]), messages[k],
                                          after[starts[k]..starts[k + 1]]) {
      assert after[starts[k]..starts[k + 1]] == before[starts[k]..starts[k + 1]];
    }
  }

  lemma NextPart(lens: Lengths, messages: seq<Message>, done: nat, starts: seq<nat>, before: seq<Plain>,
                 after: seq<Plain>)
    requires Starts(starts, done, |before|) && Parts(lens, messages, done, starts, after) && before <= after
             && done < |messages|
    requires Part(LengthsAt(lens, messages[..done]), messages[done], after[|before|..])
    ensures Starts(starts + [|after|], done + 1, |after|) && Parts(lens, messages, done + 1, starts + [|after|], after)
  {
    hide Part, LengthsAt;
    var more := starts + [|after|];
    assert after[more[done]..more[done + 1]] == after[|before|..];
    forall k | 0 <= k < done ensures Part(LengthsAt(lens, messages[..k]), messages[k], after[more[k]..more[k + 1]]) {
      assert more[k] == starts[k] && more[k + 1] == starts[k + 1];
    }
  }

  method SendAll(conn: Conn, messages: seq<Message>, draws: Draws) returns (done: nat, starts: seq<nat>)
    requires conn.Valid() && conn.wire == [] && conn.plains == [] && InRange(draws)
             && TotalSize(messages) < RECORD_LIMIT
    requires forall m | m in messages :: m.typ != 0
    modifies conn, conn.out`handshakeLen, conn.out.number, conn.out.cipher.nonceMask
    ensures conn.Valid() && conn.out.cipher.nonceMask[..] == old(conn.out.cipher.nonceMask[..])
    ensures done <= |messages| && |conn.wire| == |conn.plains| <= TotalSize(messages)
    ensures forall k | 0 <= k < done ::
            !FailsAt(old(conn.out.handshakeLen), messages, conn.out.cipher.aead.overhead, draws, k)
    ensures done < |messages|
            ==> FailsAt(old(conn.out.handshakeLen), messages, conn.out.cipher.aead.overhead, draws, done)
    ensures exists end: nat :: Starts(starts, done, end) && end <= |conn.wire|
                               && (done == |messages| ==> end == |conn.wire|)
    ensures Parts(old(conn.out.handshakeLen), messages, done, starts, conn.plains)
  {
    hide InRange, Conn.Valid, TotalSize, Parts, FailsAt, LengthsAt, Starts;
    starts, done := [0], 0;
    NoSize();
    ghost var lens := conn.out.handshakeLen;
    ghost var overhead := conn.out.cipher.aead.overhead;
    assert messages[..0] == [];
    AtStart(lens);
    NoParts(lens, messages);
    while done < |messages|
      invariant done <= |messages|
      invariant conn.Valid() && conn.out.cipher.nonceMask[..] == old(conn.out.cipher.nonceMask[..])
      invariant |conn.wire| == |conn.plains| <= TotalSize(messages[..done]) <= TotalSize(messages)
      invariant Starts(starts, done, |conn.wire|)
      invariant conn.out.handshakeLen == LengthsAt(lens, messages[..done])
      invariant forall i | 0 <= i < done :: !FailsAt(lens, messages, overhead, draws, i)
      invariant Parts(lens, messages, done, starts, conn.plains)
    {
      var m := messages[done];
      SizeStep(messages, done);
      ghost var before, now := conn.plains, conn.out.handshakeLen;
      var panicked := conn.WriteRecord(m.typ, m.data, draws, done);
      ValidLengths(conn);
      MessageStep(lens, messages, overhead, draws, done);
      MoreRecords(lens, messages, done, starts, before, conn.plains);
      if panicked {
        return;
      }
      NextPart(lens, messages, done, starts, before, conn.plains);
      starts := starts + [|conn.wire|];
      done := done + 1;
    }
    assert messages[..|messages|] == messages;
  }

  lemma AtStart(lens: Lengths)
    ensures LengthsAt(lens, []) == lens
  {
  }

  lemma MessageStep(lens: Lengths, messages: seq<Message>, overhead: nat, draws: Draws, k: nat)
    requires k < |messages|
    ensures LengthsAt(lens, messages[..k + 1]) == LengthsLater(LengthsAt(lens, messages[..k]), messages[k].typ,
                                                               messages[k].data)
    ensures FailsAt(lens, messages, overhead, draws, k) ==
            MessagePanics(LengthsAt(lens, messages[..k]), messages[k].typ, messages[k].data, overhead, draws, k, 0)
  {
    assert messages[..k + 1][..k] == messages[..k];
  }

  lemma NoSize()
    ensures TotalSize([]) == 0
  {
  }

  lemma {:induction false} SizeStep(messages: seq<Message>, k: nat)
    requires k < |messages|
    ensures TotalSize(messages[..k + 1]) == TotalSize(messages[..k]) + |messages[k].data|
    ensures TotalSize(messages[..k + 1]) <= TotalSize(messages)
    decreases |messages| - k
  {
    assert messages[..k + 1][..k] == messages[..k];
    if k + 1 < |messages| {
      SizeStep(messages, k + 1);
    } else {
      assert messages[..k + 1] == messages;
    }
  }

  lemma ValidLengths(conn: Conn)
    requires conn.Valid()
    ensures |conn.wire| == |conn.plains|
  {
  }

  /** Any messages, cut into records with any random padding, are received as they were sent: with their
      types, in order, and with nothing added or lost, up to the first one on which the sender panics.
      Both ends count alike.  What is on the wire is a sequence of bytes, in which the receiver finds the
      records by their headers, up to the first one that is too large; there is none if the cipher adds at
      most 255 bytes. */
  method Transfer(a: Aead, mask: seq<bv8>, lens: Lengths, dynamicRecordSizingDisabled: bool, messages: seq<Message>,
                  draws: Draws, handshakeComplete: bool)
    returns (done: nat, got: seq<Opened>, starts: seq<nat>, sent: seq<bv8>, received: seq<bv8>, raw: seq<bv8>,
             records: seq<seq<bv8>>)
    requires Inverts(a) && |mask| == AEAD_NONCE_LENGTH && a.overhead < TCP_MSS_ESTIMATE - RECORD_HEADER_LEN - 1
    requires Recorded(lens) && InRange(draws) && TotalSize(messages) < RECORD_LIMIT
    requires forall m | m in messages :: m.typ != 0
    ensures done <= |messages|
    ensures forall k | 0 <= k < done :: !FailsAt(lens, messages, a.overhead, draws, k)
    ensures done < |messages| ==> FailsAt(lens, messages, a.overhead, draws, done)
    ensures |starts| == done + 1 && Starts(starts, done, starts[done]) && starts[done] <= |got|
    ensures done == |messages| ==> starts[done] == |got|
    ensures forall k | 0 <= k < done ::
              Delivered(LengthsAt(lens, messages[..k]), messages[k], got[starts[k]..starts[k + 1]])
    ensures sent == received == SeqAt(|got|)
    ensures records == Deframe(raw, handshakeComplete) && Flatten(records) <= raw
    ensures a.overhead <= 255 ==> Flatten(records) == raw && Decrypted(a, mask, records, got)
  {
    hide InRange, TotalSize, Inverts, SeqAt, Fits, Delivered, FailsAt, LengthsAt, Part, Deframe, Flatten, Decrypted,
         Parts, SealRecord, Recorded;
    var conn := new Conn(a, mask, lens, dynamicRecordSizingDisabled);
    done, starts := SendAll(conn, messages, draws);
    sent := conn.out.number[..];
    ghost var plains := conn.plains;
    raw := Flatten(conn.wire);
    var rest, r;
    records, rest, r := ReadRecords(raw, handshakeComplete);
    ghost var wire := conn.wire;
    WireSplits(conn, handshakeComplete);
    got, received := Receive(a, mask, conn.wire, plains);
    PartsDelivered(lens, messages, done, starts, plains, got);
  }

  lemma PartsDelivered(lens: Lengths, messages: seq<Message>, done: nat, starts: seq<nat>, plains: seq<Plain>,
                       got: seq<Opened>)
    requires Parts(lens, messages, done, starts, plains)
    requires |got| == |plains| && forall i | 0 <= i < |got| :: got[i] == Record(plains[i].payload, plains[i].typ)
    ensures forall k | 0 <= k < done ::
              Delivered(LengthsAt(lens, messages[..k]), messages[k], got[starts[k]..starts[k + 1]])
  {
    hide Part, Delivered, LengthsAt;
    forall k | 0 <= k < done ensures Delivered(LengthsAt(lens, messages[..k]), messages[k],
                                               got[starts[k]..starts[k + 1]]) {
      PartDelivered(LengthsAt(lens, messages[..k]), messages[k], plains[starts[k]..starts[k + 1]],
                    got[starts[k]..starts[k + 1]]);
    }
  }
}
