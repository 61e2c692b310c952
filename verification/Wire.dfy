/** The parts of the frame encoding that packet-size arithmetic depends on. */
module Wire {
  import opened StreamBytes

  const MAX_VARINT1: nat := 63
  const MAX_VARINT2: nat := 16383
  const MAX_VARINT4: nat := 1073741823

  // Frames are packed into at most this many bytes: a packet whose length fits a two-byte
  // varint, plus the two bytes that the last STREAM frame saves.
  const MAX_BUDGET: int := 16385

  /** The encoded size of a variable-length integer. */
  function VarintLen(i: nat): (n: nat)
    ensures 1 <= n <= 8
  {
    if i <= MAX_VARINT1 then 1
    else if i <= MAX_VARINT2 then 2
    else if i <= MAX_VARINT4 then 4
    else 8
  }

  datatype StreamFrame = StreamFrame(
    streamID: nat,
    offset: nat,
    data: seq<Byte>,
    fin: bool,
    dataLenPresent: bool)

  datatype CryptoFrame = CryptoFrame(offset: nat, data: seq<Byte>)

  function StreamHeaderLen(streamID: nat, offset: nat): (n: nat)
    ensures 2 <= n <= 17
  {
    1 + VarintLen(streamID) + if offset != 0 then VarintLen(offset) else 0
  }

  /** The encoded size of a STREAM frame with this much data. */
  function StreamLen(streamID: nat, offset: nat, dataLen: nat, dataLenPresent: bool): nat {
    StreamHeaderLen(streamID, offset) + (if dataLenPresent then VarintLen(dataLen) else 0) + dataLen
  }

  function Length(f: StreamFrame): nat {
    StreamLen(f.streamID, f.offset, |f.data|, f.dataLenPresent)
  }

  function MaxStreamDataLen(streamID: nat, offset: nat, dataLenPresent: bool, maxSize: int): nat {
    var headerLen := StreamHeaderLen(streamID, offset) + if dataLenPresent then 1 else 0;
    if headerLen > maxSize then 0
    else
      var maxDataLen := maxSize - headerLen;
      if dataLenPresent && VarintLen(maxDataLen) != 1 then maxDataLen - 1 else maxDataLen
  }

  /** The estimate allows for a length of one or two bytes. */
  predicate Estimable(streamID: nat, offset: nat, dataLenPresent: bool, maxSize: int) {
    dataLenPresent ==> MaxStreamDataLen(streamID, offset, dataLenPresent, maxSize) <= MAX_VARINT2
  }

  lemma SmallBudget(streamID: nat, offset: nat, dataLenPresent: bool, maxSize: int)
    requires maxSize <= MAX_BUDGET
    ensures Estimable(streamID, offset, dataLenPresent, maxSize)
  {
  }

  lemma EstimateExact(streamID: nat, offset: nat, dataLen: nat, dataLenPresent: bool, maxSize: int)
    requires Estimable(streamID, offset, dataLenPresent, maxSize) && 0 < dataLen
    ensures StreamLen(streamID, offset, dataLen, dataLenPresent) <= maxSize <==>
            dataLen <= MaxStreamDataLen(streamID, offset, dataLenPresent, maxSize)
  {
  }

  /** The estimate is exact, so that precisely the non-empty frames up to this size fit, if and only if it
      does not need a longer length. */
  lemma MaxStreamDataLenExact(streamID: nat, offset: nat, dataLenPresent: bool, maxSize: int)
    ensures (forall dataLen: nat | 0 < dataLen ::
               StreamLen(streamID, offset, dataLen, dataLenPresent) <= maxSize <==>
               dataLen <= MaxStreamDataLen(streamID, offset, dataLenPresent, maxSize))
            <==> Estimable(streamID, offset, dataLenPresent, maxSize)
  {
    if Estimable(streamID, offset, dataLenPresent, maxSize) {
      forall dataLen: nat | 0 < dataLen
        ensures StreamLen(streamID, offset, dataLen, dataLenPresent) <= maxSize <==>
                dataLen <= MaxStreamDataLen(streamID, offset, dataLenPresent, maxSize)
      {
        EstimateExact(streamID, offset, dataLen, dataLenPresent, maxSize);
      }
    } else {
      var n := MaxStreamDataLen(streamID, offset, dataLenPresent, maxSize);
      assert StreamLen(streamID, offset, n, dataLenPresent) > maxSize;
    }
  }

  /** A frame of the estimated size can be two bytes too large. */
  lemma MaxStreamDataLenTooLarge()
    ensures MaxStreamDataLen(0, 0, true, 20003) == 19999
    ensures StreamLen(0, 0, 19999, true) == 20005
  {
  }

  function CryptoLen(offset: nat, dataLen: nat): nat {
    1 + VarintLen(offset) + VarintLen(dataLen) + dataLen
  }

  function MaxCryptoDataLen(offset: nat, maxSize: int): nat {
    var headerLen := 1 + VarintLen(offset) + 1;
    if headerLen > maxSize then 0
    else
      var maxDataLen := maxSize - headerLen;
      if VarintLen(maxDataLen) != 1 then maxDataLen - 1 else maxDataLen
  }

  predicate CryptoEstimable(offset: nat, maxSize: int) {
    MaxCryptoDataLen(offset, maxSize) <= MAX_VARINT2
  }

  lemma CryptoEstimateExact(offset: nat, dataLen: nat, maxSize: int)
    requires CryptoEstimable(offset, maxSize) && 0 < dataLen
    ensures CryptoLen(offset, dataLen) <= maxSize <==> dataLen <= MaxCryptoDataLen(offset, maxSize)
  {
  }

  lemma MaxCryptoDataLenExact(offset: nat, maxSize: int)
    ensures (forall dataLen: nat | 0 < dataLen ::
               CryptoLen(offset, dataLen) <= maxSize <==> dataLen <= MaxCryptoDataLen(offset, maxSize))
            <==> CryptoEstimable(offset, maxSize)
  {
    if CryptoEstimable(offset, maxSize) {
      forall dataLen: nat | 0 < dataLen
        ensures CryptoLen(offset, dataLen) <= maxSize <==> dataLen <= MaxCryptoDataLen(offset, maxSize)
      {
        CryptoEstimateExact(offset, dataLen, maxSize);
      }
    } else {
      assert CryptoLen(offset, MaxCryptoDataLen(offset, maxSize)) > maxSize;
    }
  }

  datatype Split = Whole | TooSmall | Parts(first: StreamFrame, rest: StreamFrame)

  /** Split a frame such that its first part is not larger than maxSize.  The code panics if the estimate
      exceeds the data. */
  function MaybeSplitOffFrame(f: StreamFrame, maxSize: int): Split
    requires MaxStreamDataLen(f.streamID, f.offset, f.dataLenPresent, maxSize) <= |f.data| || Length(f) <= maxSize
  {
    if maxSize >= Length(f) then Whole
    else
      var n := MaxStreamDataLen(f.streamID, f.offset, f.dataLenPresent, maxSize);
      if n == 0 then TooSmall
      else Parts(f.(data := f.data[..n], fin := false), f.(data := f.data[n..], offset := f.offset + n))
  }

  /** The parts of a split frame carry the same bytes, in order; the first part fits, neither
      is empty, and the FIN stays at the end. */
  ghost predicate GoodSplit(f: StreamFrame, maxSize: int) {
    && (MaxStreamDataLen(f.streamID, f.offset, f.dataLenPresent, maxSize) <= |f.data| || Length(f) <= maxSize)
    && match MaybeSplitOffFrame(f, maxSize)
       case Whole => Length(f) <= maxSize
       case TooSmall => forall n | 0 < n :: StreamLen(f.streamID, f.offset, n, f.dataLenPresent) > maxSize
       case Parts(first, rest) =>
         && Length(first) <= maxSize
         && first.data != [] && rest.data != []
         && first.data + rest.data == f.data
         && first.offset == f.offset && rest.offset == f.offset + |first.data|
         && !first.fin && rest.fin == f.fin
  }

  /** A frame that does not fit is split well if and only if the estimate is exact. */
  lemma SplitCorrect(f: StreamFrame, maxSize: int)
    ensures GoodSplit(f, maxSize) <==> Length(f) <= maxSize
                                       || Estimable(f.streamID, f.offset, f.dataLenPresent, maxSize)
  {
    if Length(f) > maxSize {
      if Estimable(f.streamID, f.offset, f.dataLenPresent, maxSize) {
        SplitFits(f, maxSize);
      } else {
        var n := MaxStreamDataLen(f.streamID, f.offset, f.dataLenPresent, maxSize);
        assert StreamLen(f.streamID, f.offset, n, f.dataLenPresent) > maxSize;
      }
    }
  }

  lemma SplitFits(f: StreamFrame, maxSize: int)
    requires Estimable(f.streamID, f.offset, f.dataLenPresent, maxSize)
    ensures GoodSplit(f, maxSize)
  {
    if f.data != [] {
      EstimateExact(f.streamID, f.offset, |f.data|, f.dataLenPresent, maxSize);
    }
    var n := MaxStreamDataLen(f.streamID, f.offset, f.dataLenPresent, maxSize);
    if n > 0 {
      EstimateExact(f.streamID, f.offset, n, f.dataLenPresent, maxSize);
    } else {
      forall m: nat | 0 < m ensures StreamLen(f.streamID, f.offset, m, f.dataLenPresent) > maxSize {
        EstimateExact(f.streamID, f.offset, m, f.dataLenPresent, maxSize);
      }
    }
  }

  /** Frames whose length takes two bytes are split well for every packet. */
  lemma SmallFrameSplits(f: StreamFrame, maxSize: int)
    requires |f.data| <= MAX_VARINT2
    ensures GoodSplit(f, maxSize)
  {
    SplitCorrect(f, maxSize);
  }
}
