/** Records on the wire: the receiver finds their ends by the lengths in their headers. */
module RecordFraming {
  import opened RecordPadding
  import opened RecordLayer

  const MAX_CIPHERTEXT: nat := 16384 + 256
  const SSL2_TYPE: bv8 := 0x80

  datatype Incoming = Whole(record: seq<bv8>, rest: seq<bv8>) | Incomplete | WrongVersion | Oversized

  /** The next record of what has arrived, or why there is none. */
  function Next(raw: seq<bv8>, handshakeComplete: bool): Incoming {
    if |raw| < RECORD_HEADER_LEN then Incomplete
    else if !handshakeComplete && raw[0] == SSL2_TYPE then WrongVersion
    else if raw[1] != 3 || raw[2] != 3 then WrongVersion
    else
      var n := LengthIn(raw);
      if n > MAX_CIPHERTEXT then Oversized
      else if |raw| < RECORD_HEADER_LEN + n then Incomplete
      else Whole(raw[..RECORD_HEADER_LEN + n], raw[RECORD_HEADER_LEN + n..])
  }

  function Deframe(raw: seq<bv8>, handshakeComplete: bool): seq<seq<bv8>>
    decreases |raw|
  {
    match Next(raw, handshakeComplete)
    case Whole(record, rest) => [record] + Deframe(rest, handshakeComplete)
    case _ => []
  }

  /** Read all records that have arrived; r says why there are no more. */
  method ReadRecords(raw: seq<bv8>, handshakeComplete: bool)
    returns (records: seq<seq<bv8>>, rest: seq<bv8>, r: Incoming)
    ensures records == Deframe(raw, handshakeComplete) && Flatten(records) + rest == raw
    ensures r == Next(rest, handshakeComplete) && !r.Whole?
  {
    hide Next, Flatten, Deframe;
    records, rest, r := [], raw, Next(raw, handshakeComplete);
    FlattenNothing();
    assert [] + raw == raw && [] + Deframe(raw, handshakeComplete) == Deframe(raw, handshakeComplete);
    while r.Whole?
      invariant records + Deframe(rest, handshakeComplete) == Deframe(raw, handshakeComplete)
      invariant Flatten(records) + rest == raw && r == Next(rest, handshakeComplete)
      decreases |rest|
    {
      NextIsPart(rest, handshakeComplete);
      DeframeNext(rest, handshakeComplete);
      FlattenAppend(records, r.record);
      assert Flatten(records) + (r.record + r.rest) == Flatten(records) + r.record + r.rest;
      assert records + ([r.record] + Deframe(r.rest, handshakeComplete))
          == records + [r.record] + Deframe(r.rest, handshakeComplete);
      records, rest := records + [r.record], r.rest;
      r := Next(rest, handshakeComplete);
    }
    DeframeNext(rest, handshakeComplete);
    assert records + [] == records;
  }

  lemma FlattenNothing()
    ensures Flatten([]) == []
  {
  }

  lemma DeframeNext(raw: seq<bv8>, handshakeComplete: bool)
    ensures Deframe(raw, handshakeComplete) ==
            match Next(raw, handshakeComplete)
            case Whole(record, rest) => [record] + Deframe(rest, handshakeComplete)
            case _ => []
  {
  }

  lemma NextIsPart(raw: seq<bv8>, handshakeComplete: bool)
    requires Next(raw, handshakeComplete).Whole?
    ensures var r := Next(raw, handshakeComplete); r.record + r.rest == raw && |r.rest| < |raw|
  {
  }

  function Flatten(records: seq<seq<bv8>>): seq<bv8> {
    if records == [] then [] else records[0] + Flatten(records[1..])
  }

  lemma {:induction false} FlattenAppend(records: seq<seq<bv8>>, record: seq<bv8>)
    ensures Flatten(records + [record]) == Flatten(records) + record
  {
    if records == [] {
      assert [record][1..] == [] && record + [] == record;
    } else {
      assert (records + [record])[1..] == records[1..] + [record];
      FlattenAppend(records[1..], record);
    }
  }

  /** Two bytes are enough for the length that the header announces. */
  predicate Framed(record: seq<bv8>) {
    Announced(record) && |record| < RECORD_HEADER_LEN + 65536
  }

  lemma FramedLength(record: seq<bv8>)
    requires Framed(record)
    ensures LengthIn(record) == |record| - RECORD_HEADER_LEN
    ensures record[0] == TYPE_APPLICATION_DATA && record[1] == 3 && record[2] == 3
  {
    SmallMod(|record| - RECORD_HEADER_LEN);
    assert record[0] == record[..3][0] && record[1] == record[..3][1] && record[2] == record[..3][2];
  }

  lemma SmallMod(n: nat)
    requires n < 65536
    ensures n % 65536 == n
  {
  }

  lemma NextFramed(record: seq<bv8>, rest: seq<bv8>, handshakeComplete: bool)
    requires Framed(record)
    ensures Next(record + rest, handshakeComplete) ==
            if |record| <= RECORD_HEADER_LEN + MAX_CIPHERTEXT then Whole(record, rest) else Oversized
  {
    var raw := record + rest;
    FramedLength(record);
    hide Announced;
    assert raw[..|record|] == record && raw[|record|..] == rest;
  }

  /** Records that follow each other on the wire are told apart again, exactly if none is too large. */
  lemma {:induction false} DeframeExact(records: seq<seq<bv8>>, handshakeComplete: bool)
    requires forall r | r in records :: Framed(r)
    ensures Deframe(Flatten(records), handshakeComplete) == records <==>
            forall r | r in records :: |r| <= RECORD_HEADER_LEN + MAX_CIPHERTEXT
    decreases |records|
  {
    hide Framed, Next;
    if records == [] {
      assert Next([], handshakeComplete) == Incomplete by { NothingNext(handshakeComplete); }
    } else {
      assert forall r | r in records[1..] :: r in records;
      NextFramed(records[0], Flatten(records[1..]), handshakeComplete);
      DeframeExact(records[1..], handshakeComplete);
      assert records == [records[0]] + records[1..];
      if Deframe(Flatten(records), handshakeComplete) == records {
        assert Deframe(Flatten(records), handshakeComplete)[1..] == records[1..];
      }
    }
  }

  lemma NothingNext(handshakeComplete: bool)
    ensures Next([], handshakeComplete) == Incomplete
  {
  }
}
