/** The Initial crypto stream, changed in place. */
module CryptoSending {
  import opened StreamBytes
  import opened Wire
  import opened ClientHello
  import opened CryptoStates

  class InitialCryptoStream {
    var writeOffset: nat
    var writeBuf: seq<Byte>
    var scramble: bool
    var end: int
    var cuts: seq<Cut>

    function Now(): State
      reads this
    {
      State(writeOffset, writeBuf, scramble, end, cuts)
    }

    constructor (scramble: bool)
      ensures Now() == CryptoStates.Initial(scramble) && Bounded(Now())
    {
      writeOffset, writeBuf := 0, [];
      this.scramble := scramble;
      end := 0;
      cuts := [NO_CUT, NO_CUT];
    }

    method CheckData() returns (more: bool)
      requires |cuts| == 2
      ensures more == HasData(Now())
    {
      if scramble && writeOffset == 0 && cuts[0].start == NONE {
        return false;
      }
      more := |writeBuf| > 0;
    }

    /** Queue data.  Once the whole ClientHello has been written, the cuts are chosen. */
    method Write(p: seq<Byte>) returns (failed: bool)
      requires Bounded(Now())
      modifies this`writeBuf, this`scramble, this`end, this`cuts
      ensures Bounded(Now()) && (Now(), failed) == WriteStep(old(Now()), p)
    {
      hide Locate, NewCuts;
      WriteBounded(Now(), p);
      writeBuf := writeBuf + p;
      failed := false;
      if !scramble {
        return;
      }
      if cuts[0].start != NONE {
        return;
      }
      var r := FindSNIAndECH(writeBuf);
      if r == UnexpectedEOF {
        return;
      }
      if r == Malformed {
        return true;
      }
      if r.sniPos == -1 && r.echPos == -1 {
        scramble := false;
        return;
      }
      end := |writeBuf|;
      cuts := ChosenCuts(r, end, cuts[1]);
    }

    /** Set both cuts, then sort them: the result holds both, those that are valid in ascending order, but an invalid
        one may come first. */
    static method ChosenCuts(r: Located, end: int, second: Cut) returns (cuts: seq<Cut>)
      requires r.Found?
      ensures cuts == NewCuts(r, end, second)
      ensures var sni := Cut(r.sniPos + r.sniLen / 2, r.sniPos + r.sniLen);
              var ech := if r.echPos > 0 then Cut(r.echPos + 1, Min(r.echPos + 17, end)) else second;
              multiset(cuts) == multiset{sni, ech}
      ensures cuts[0].start != NONE && cuts[1].start != NONE ==> cuts[0].start <= cuts[1].start
    {
      cuts := [Cut(r.sniPos + r.sniLen / 2, r.sniPos + r.sniLen), second];
      if r.echPos > 0 {
        var start := r.echPos + 1;
        cuts := cuts[1 := Cut(start, Min(start + 16, end))];
      }
      var c := Compare(cuts[1], cuts[0]);
      if c < 0 {
        cuts := [cuts[1], cuts[0]];
      }
    }

    static method Compare(a: Cut, b: Cut) returns (c: int)
      ensures c < 0 <==> a.start != NONE && a.start <= b.start
    {
      if a.start == NONE {
        return 1;
      }
      if a.start > b.start {
        return 1;
      }
      return -1;
    }

    /** Pop a frame of at most maxLen bytes. */
    method PopCryptoFrame(maxLen: int) returns (f: Option<CryptoFrame>)
      requires Bounded(Now())
      modifies this`writeOffset, this`writeBuf, this`scramble, this`end, this`cuts
      ensures Bounded(Now()) && (Now(), f) == PopStep(old(Now()), maxLen)
    {
      hide PlainStep, SkippedStep, AroundStep;
      if !scramble {
        f := PopPlain(maxLen);
      } else if writeOffset == end {
        f := PopSkipped(maxLen);
      } else {
        f := PopAroundCuts(maxLen);
      }
    }

    method PopPlain(maxLen: int) returns (f: Option<CryptoFrame>)
      modifies this`writeOffset, this`writeBuf
      ensures (Now(), f) == PlainStep(old(Now()), maxLen)
    {
      hide MaxCryptoDataLen;
      var n := Min(MaxCryptoDataLen(writeOffset, maxLen), |writeBuf|);
      if n <= 0 {
        return None;
      }
      f := Some(CryptoFrame(writeOffset, writeBuf[..n]));
      writeBuf := writeBuf[n..];
      writeOffset := writeOffset + n;
    }

    // All but the cuts has been sent: send what was skipped.
    method PopSkipped(maxLen: int) returns (f: Option<CryptoFrame>)
      requires Bounded(Now()) && scramble
      modifies this`writeBuf, this`scramble, this`end, this`cuts
      ensures (Now(), f) == SkippedStep(old(Now()), maxLen)
    {
      hide MaxCryptoDataLen;
      ghost var s := Now();
      ghost var i0 := FirstCut(cuts);
      ghost var n0 := if CutsLeft(cuts)
          then Min(MaxCryptoDataLen(cuts[i0].start, maxLen), cuts[i0].end - cuts[i0].start) else 0;
      var foundCuts := false;
      f := None;
      var i := 0;
      while i < 2
        invariant 0 <= i <= 2 && scramble && writeBuf == s.writeBuf && end == s.end && |cuts| == 2
        invariant f.None? ==> cuts == s.cuts && !foundCuts && (i > 0 ==> cuts[0].start == NONE)
                              && (i > 1 ==> cuts[1].start == NONE)
        invariant f.Some? ==> CutsLeft(s.cuts) && n0 > 0 && i > i0 && cuts == s.cuts[i0 := Rest(s.cuts[i0], n0)]
        invariant f.Some?
                  ==> f.value == CryptoFrame(s.cuts[i0].start, s.writeBuf[s.cuts[i0].start..s.cuts[i0].start + n0])
        invariant f.Some? ==> (foundCuts <==> cuts[i0].start != NONE || (i > 1 && cuts[1].start != NONE))
      {
        var c := cuts[i];
        if c.start == NONE {
          i := i + 1;
          continue;
        }
        foundCuts := true;
        if f.Some? {
          break;
        }
        var n := Min(MaxCryptoDataLen(c.start, maxLen), c.end - c.start);
        if n <= 0 {
          return None;
        }
        f := Some(CryptoFrame(c.start, writeBuf[c.start..c.start + n]));
        cuts := cuts[i := Cut(c.start + n, c.end)];
        if c.start + n == c.end {
          cuts := cuts[i := NO_CUT];
          foundCuts := false;
        }
        i := i + 1;
      }
      if !foundCuts {
        writeBuf := writeBuf[end..];
        end := NONE;
        scramble := false;
      }
    }

    method FindNextCut() returns (nextCut: Cut)
      requires |cuts| == 2
      ensures nextCut == NextCut(Now())
    {
      for i := 0 to 2
        invariant forall j | 0 <= j < i :: cuts[j].start <= writeOffset
      {
        if cuts[i].start == NONE {
          continue;
        }
        if cuts[i].start > writeOffset {
          return cuts[i];
        }
      }
      nextCut := NO_CUT;
    }

    // Send up to the next cut, then skip it.
    method PopAroundCuts(maxLen: int) returns (f: Option<CryptoFrame>)
      requires Bounded(Now()) && scramble
      modifies this`writeOffset
      ensures (Now(), f) == AroundStep(old(Now()), maxLen)
    {
      hide MaxCryptoDataLen;
      var nextCut := FindNextCut();
      var maxOffset := if nextCut.start == NONE then end else nextCut.start;
      var n := Min(MaxCryptoDataLen(writeOffset, maxLen), maxOffset - writeOffset);
      if n <= 0 {
        return None;
      }
      f := Some(CryptoFrame(writeOffset, writeBuf[writeOffset..writeOffset + n]));
      writeOffset := writeOffset + n;
      if writeOffset == nextCut.start {
        writeOffset := nextCut.end;
      }
    }
  }
}
