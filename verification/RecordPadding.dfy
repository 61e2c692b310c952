/** How the handshake records of a server are disguised: each is padded towards the length of the record of
    another server that it imitates, with noise on top. */
module RecordPadding {
  import opened StreamBytes
  import opened MachineBytes

  const MAX_PLAINTEXT := 16384
  const RECORD_HEADER_LEN := 5
  const TYPE_HANDSHAKE: bv8 := 22
  const TYPE_APPLICATION_DATA: bv8 := 23
  const NEW_SESSION_TICKET: bv8 := 4
  const ENCRYPTED_EXTENSIONS: bv8 := 8
  const CERTIFICATE: bv8 := 11
  const CERTIFICATE_VERIFY: bv8 := 15
  const FINISHED: bv8 := 20

  // The buffer of zeros from which padding is taken, which is also the longest record that is imitated.
  const BUFFER_SIZE := 8192

  // The lengths of the records to imitate, by message; 0 if there is none.
  type Lengths = s: seq<nat> | |s| == 7 witness [0, 0, 0, 0, 0, 0, 0]

  ghost predicate Recorded(lens: Lengths) {
    forall i | 0 <= i < 7 :: lens[i] <= BUFFER_SIZE
  }

  function Slot(message: bv8): nat {
    if message == ENCRYPTED_EXTENSIONS then 2
    else if message == CERTIFICATE then 3
    else if message == CERTIFICATE_VERIFY then 4
    else if message == FINISHED then 5
    else if message == NEW_SESSION_TICKET then 6
    else 0
  }

  predicate Imitates(lens: Lengths, typ: bv8, payload: seq<bv8>) {
    typ == TYPE_HANDSHAKE && lens[1] != 0 && payload != [] && Slot(payload[0]) != 0
  }

  function Target(lens: Lengths, typ: bv8, payload: seq<bv8>): nat {
    if Imitates(lens, typ, payload) then lens[Slot(payload[0])] else 0
  }

  /** A length is used once. */
  function LengthsAfter(lens: Lengths, typ: bv8, payload: seq<bv8>): Lengths {
    if Imitates(lens, typ, payload) then lens[Slot(payload[0]) := 0] else lens
  }

  /** A session ticket is sent as application data. */
  predicate Disguises(lens: Lengths, typ: bv8, payload: seq<bv8>) {
    Imitates(lens, typ, payload) && payload[0] == NEW_SESSION_TICKET
  }

  // The size of a record that is not padded.
  function Size(payloadLen: nat, overhead: nat): nat {
    RECORD_HEADER_LEN + payloadLen + 1 + overhead
  }

  function Noise(payloadLen: nat, draw: nat): nat {
    if payloadLen < 200 then 100 + draw else 30 + draw
  }

  predicate Drawn(payloadLen: nat, draw: nat) {
    draw < if payloadLen < 200 then 250 else 120
  }

  /** Up to the size that is imitated, and then some noise in small packets.  draw is a random number. */
  function ChoosePadding(typ: bv8, payloadLen: nat, overhead: nat, target: nat, draw: nat): nat {
    if typ != TYPE_HANDSHAKE then 0
    else
      var size := Size(payloadLen, overhead);
      var toTarget := if target > size then target - size else 0;
      toTarget + if size < 1350 then Min(Noise(payloadLen, draw), 1350 - size) else 0
  }

  function Padding(lens: Lengths, typ: bv8, payload: seq<bv8>, overhead: nat, draw: nat): nat {
    ChoosePadding(typ, |payload|, overhead, Target(lens, typ, payload), draw)
  }

  /** The text of a record without its padding: the payload and its type. */
  function Text(lens: Lengths, typ: bv8, payload: seq<bv8>): (text: seq<bv8>)
    ensures |text| == |payload| + 1
  {
    var text := payload + [typ];
    if Disguises(lens, typ, payload) then text[0 := TYPE_APPLICATION_DATA][1 := 0] else text
  }

  /** The code panics if it looks at the first byte of an empty handshake message, or if the padding is
      longer than the buffer that it is taken from. */
  predicate Panics(lens: Lengths, typ: bv8, payload: seq<bv8>, overhead: nat, draw: nat) {
    || (typ == TYPE_HANDSHAKE && lens[1] != 0 && payload == [])
    || Padding(lens, typ, payload, overhead, draw) > BUFFER_SIZE
  }

  /** Solved for the length that is imitated: only short messages in place of long records fail. */
  lemma PaddingExceeds(typ: bv8, payloadLen: nat, overhead: nat, target: nat, draw: nat)
    requires Drawn(payloadLen, draw) && target <= BUFFER_SIZE
    ensures ChoosePadding(typ, payloadLen, overhead, target, draw) > BUFFER_SIZE <==>
            typ == TYPE_HANDSHAKE && payloadLen < 200 && target + draw > 8098 + payloadLen + overhead
  {
  }

  /** Hence the fate of a message: it may be sent safely, fail with bad luck, or always fail. */
  lemma PaddingFate(payloadLen: nat, overhead: nat, target: nat)
    requires payloadLen < 200 && target <= BUFFER_SIZE
    ensures (forall draw: nat | Drawn(payloadLen, draw) ::
             ChoosePadding(TYPE_HANDSHAKE, payloadLen, overhead, target, draw) <= BUFFER_SIZE)
            <==> target <= 7849 + payloadLen + overhead
    ensures (forall draw: nat | Drawn(payloadLen, draw) ::
             ChoosePadding(TYPE_HANDSHAKE, payloadLen, overhead, target, draw) > BUFFER_SIZE)
            <==> target > 8098 + payloadLen + overhead
  {
    hide ChoosePadding;
    forall draw: nat | Drawn(payloadLen, draw)
      ensures ChoosePadding(TYPE_HANDSHAKE, payloadLen, overhead, target, draw) > BUFFER_SIZE <==>
              target + draw > 8098 + payloadLen + overhead
    {
      PaddingExceeds(TYPE_HANDSHAKE, payloadLen, overhead, target, draw);
    }
    assert Drawn(payloadLen, 0) && Drawn(payloadLen, 249);
  }

  /** A Finished message in place of the longest record fails whatever is drawn. */
  lemma LongestFinishedPanics(lens: Lengths, payload: seq<bv8>, draw: nat)
    requires lens[1] != 0 && lens[5] == BUFFER_SIZE && |payload| == 36 && payload[0] == FINISHED && Drawn(36, draw)
    ensures Panics(lens, TYPE_HANDSHAKE, payload, 16, draw)
  {
    PaddingExceeds(TYPE_HANDSHAKE, 36, 16, BUFFER_SIZE, draw);
  }

  /** Padding never makes a record too large. */
  lemma PaddedSize(typ: bv8, payloadLen: nat, overhead: nat, target: nat, draw: nat)
    requires Drawn(payloadLen, draw) && target <= BUFFER_SIZE && payloadLen <= MAX_PLAINTEXT
    ensures payloadLen + ChoosePadding(typ, payloadLen, overhead, target, draw) <= MAX_PLAINTEXT
  {
  }

  /** The imitation is perfect exactly for records that fit the length and are too large for noise. */
  lemma ImitationExact(payloadLen: nat, overhead: nat, target: nat, draw: nat)
    ensures var size := Size(payloadLen, overhead);
            size + ChoosePadding(TYPE_HANDSHAKE, payloadLen, overhead, target, draw) == target <==>
              1350 <= size <= target
  {
  }

  /** Without a record to imitate, a record that is padded stays within 1350 bytes; up to there it gets between 100 and
      349 bytes if it is small, and between 30 and 149 otherwise. */
  lemma NoisePadding(typ: bv8, payloadLen: nat, overhead: nat, draw: nat)
    ensures var padding := ChoosePadding(typ, payloadLen, overhead, 0, draw);
            padding > 0 <==> typ == TYPE_HANDSHAKE && Size(payloadLen, overhead) < 1350
    ensures var padding := ChoosePadding(typ, payloadLen, overhead, 0, draw);
            padding > 0 ==> Size(payloadLen, overhead) + padding <= 1350
    ensures var padding := ChoosePadding(typ, payloadLen, overhead, 0, draw);
            padding > 0 && Drawn(payloadLen, draw) ==>
              Size(payloadLen, overhead) + padding == 1350
              || (if payloadLen < 200 then 100 <= padding < 350 else 30 <= padding < 150)
  {
  }

  /** The messages of a server each imitate the record of their own kind, and each record is imitated once. */
  lemma FlightImitates(lens: Lengths, encryptedExtensions: seq<bv8>, certificate: seq<bv8>, verify: seq<bv8>,
                       finished: seq<bv8>, ticket: seq<bv8>, later: seq<bv8>)
    requires lens[1] != 0 && encryptedExtensions != [] && certificate != [] && verify != [] && finished != []
             && ticket != []
    requires encryptedExtensions[0] == 8 && certificate[0] == 11 && verify[0] == 15 && finished[0] == 20
             && ticket[0] == 4
    ensures var l1 := LengthsAfter(lens, TYPE_HANDSHAKE, encryptedExtensions);
            var l2 := LengthsAfter(l1, TYPE_HANDSHAKE, certificate);
            var l3 := LengthsAfter(l2, TYPE_HANDSHAKE, verify);
            var l4 := LengthsAfter(l3, TYPE_HANDSHAKE, finished);
            var l5 := LengthsAfter(l4, TYPE_HANDSHAKE, ticket);
            && Target(lens, TYPE_HANDSHAKE, encryptedExtensions) == lens[2]
            && Target(l1, TYPE_HANDSHAKE, certificate) == lens[3]
            && Target(l2, TYPE_HANDSHAKE, verify) == lens[4]
            && Target(l3, TYPE_HANDSHAKE, finished) == lens[5]
            && Target(l4, TYPE_HANDSHAKE, ticket) == lens[6]
            && Target(l5, TYPE_HANDSHAKE, later) == 0
  {
  }

  lemma TargetBound(lens: Lengths, typ: bv8, payload: seq<bv8>)
    requires Recorded(lens)
    ensures Target(lens, typ, payload) <= BUFFER_SIZE && Recorded(LengthsAfter(lens, typ, payload))
  {
  }
}
