/** The invariant of the Initial crypto stream, and why every operation keeps it. */
module CryptoInvariant {
  import opened StreamBytes
  import opened Wire
  import opened ClientHello
  import opened CryptoStates

  /** What has happened to the stream, as far as its state does not tell. */
  datatype History = History(
    written: seq<Byte>,  // everything passed to Write
    sent: seq<CryptoFrame>,  // every frame popped
    hello: seq<Byte>)  // the ClientHello, once it has been located

  const NO_HISTORY := History([], [], [])

  predicate InCut(c: Cut, x: int) {
    c.start != NONE && c.start <= x < c.end
  }

  predicate InCuts(cuts: seq<Cut>, x: int)
    requires |cuts| == 2
  {
    InCut(cuts[0], x) || InCut(cuts[1], x)
  }

  predicate CarriesOffset(f: CryptoFrame, x: int) {
    f.offset <= x < f.offset + |f.data|
  }

  ghost predicate SentAt(sent: seq<CryptoFrame>, x: int) {
    exists i :: 0 <= i < |sent| && CarriesOffset(sent[i], x)
  }

  ghost predicate AllParts(sent: seq<CryptoFrame>, written: seq<Byte>) {
    forall i | 0 <= i < |sent| :: IsSlice(written, sent[i].offset, sent[i].data)
  }

  lemma SentMore(sent: seq<CryptoFrame>, f: CryptoFrame)
    ensures forall x :: SentAt(sent + [f], x) <==> SentAt(sent, x) || CarriesOffset(f, x)
  {
    var all := sent + [f];
    forall x ensures SentAt(all, x) <==> SentAt(sent, x) || CarriesOffset(f, x) {
      if i :| 0 <= i < |sent| && CarriesOffset(sent[i], x) {
        assert CarriesOffset(all[i], x);
      }
      if CarriesOffset(f, x) {
        assert CarriesOffset(all[|sent|], x);
      }
    }
  }

  lemma PartsMore(sent: seq<CryptoFrame>, f: CryptoFrame, written: seq<Byte>)
    requires AllParts(sent, written) && IsSlice(written, f.offset, f.data)
    ensures AllParts(sent + [f], written)
  {
  }

  lemma PartsOfMore(sent: seq<CryptoFrame>, written: seq<Byte>, p: seq<Byte>)
    requires AllParts(sent, written)
    ensures AllParts(sent, written + p)
  {
    forall i | 0 <= i < |sent| ensures IsSlice(written + p, sent[i].offset, sent[i].data) {
      var f := sent[i];
      assert IsSlice(written, f.offset, f.data);
      assert (written + p)[f.offset..f.offset + |f.data|] == written[f.offset..f.offset + |f.data|];
    }
  }

  /** The cuts of a ClientHello. */
  function CutsOf(hello: seq<Byte>): (cuts: seq<Cut>)
    ensures |cuts| == 2
  {
    var r := Locate(hello);
    if r.Found? then NewCuts(r, |hello|, NO_CUT) else [NO_CUT, NO_CUT]
  }

  predicate Within(f: CryptoFrame, c: Cut) {
    c.start <= f.offset && f.offset + |f.data| <= c.end
  }

  /** The frame does not carry bytes on both sides of the start of a cut, unless it is part of the
      other cut. */
  predicate NotAcross(f: CryptoFrame, cuts: seq<Cut>)
    requires |cuts| == 2
  {
    forall j | 0 <= j < 2 && cuts[j].start != NONE && CarriesOffset(f, cuts[j].start - 1)
        && CarriesOffset(f, cuts[j].start) ::
      Within(f, cuts[1 - j])
  }

  predicate InOrder(cuts: seq<Cut>)
    requires |cuts| == 2
  {
    cuts[0].start != NONE && cuts[1].start != NONE ==> cuts[0].start <= cuts[1].start
  }

  ghost predicate CutApart(hello: seq<Byte>, sent: seq<CryptoFrame>) {
    && (forall i | 0 <= i < |sent| :: NotAcross(sent[i], CutsOf(hello)))
    && CutsOf(hello)[0].start <= |hello| && CutsOf(hello)[1].start <= |hello|
    && InOrder(CutsOf(hello))
  }

  // What is left of the cuts that were chosen.
  predicate Narrowed(cuts: seq<Cut>, chosen: seq<Cut>)
    requires |cuts| == |chosen| == 2
  {
    forall j | 0 <= j < 2 ::
      || cuts[j] == chosen[j]
      || cuts[j] == NO_CUT
      || (cuts[j].start != NONE && chosen[j].start != NONE && chosen[j].start <= cuts[j].start
          && cuts[j].end == chosen[j].end)
  }

  /** The complete ClientHello at the start of what was written, with something to cut. */
  ghost predicate IsHello(hello: seq<Byte>, written: seq<Byte>) {
    && 4 <= |hello| && hello <= written
    && |hello| == 4 + hello[1] as int * 65536 + Uint16(hello, 2)
    && Locate(hello).Found? && InBounds(hello, Locate(hello))
    && !(Locate(hello).sniPos == -1 && Locate(hello).echPos == -1)
  }

  ghost predicate Plain(s: State, h: History) {
    && |h.hello| <= s.writeOffset <= |h.written| && s.writeBuf == h.written[s.writeOffset..]
    && forall x | 0 <= x < s.writeOffset :: SentAt(h.sent, x)
  }

  /** While scrambling, everything before writeOffset was sent or is in a cut. */
  ghost predicate Scrambling(s: State, h: History)
    requires |s.cuts| == 2
  {
    && s.writeBuf == h.written && s.end == |h.hello|
    && (forall x | 0 <= x < s.writeOffset :: SentAt(h.sent, x) || InCuts(s.cuts, x))
    && (h.hello == [] ==> s.cuts == [NO_CUT, NO_CUT] && h.sent == [])
    && (h.hello != [] ==> IsHello(h.hello, h.written) && Narrowed(s.cuts, CutsOf(h.hello))
                          && (s.writeOffset < s.end ==> s.cuts == CutsOf(h.hello)))
  }

  ghost predicate Inv(s: State, h: History) {
    && Bounded(s) && AllParts(h.sent, h.written)
    && (h.hello != [] ==> CutApart(h.hello, h.sent))
    && if s.scramble then Scrambling(s, h) else Plain(s, h)
  }

  lemma InitialInv(scramble: bool)
    ensures Inv(Initial(scramble), NO_HISTORY)
  {
  }

  // A write completes the ClientHello, and there is something to cut.
  predicate Completes(s: State, p: seq<Byte>)
    requires |s.cuts| == 2
  {
    var r := Locate(s.writeBuf + p);
    s.scramble && s.cuts[0].start == NONE && r.Found? && !(r.sniPos == -1 && r.echPos == -1)
  }

  function WriteHistory(s: State, h: History, p: seq<Byte>): History
    requires |s.cuts| == 2
  {
    h.(written := h.written + p, hello := if Completes(s, p) then h.written + p else h.hello)
  }

  lemma HelloStays(hello: seq<Byte>, written: seq<Byte>, p: seq<Byte>)
    ensures IsHello(hello, written) ==> IsHello(hello, written + p)
  {
  }

  // The length field of a located ClientHello does not change, so it is located again only if
  // nothing has been written since.
  lemma NothingCutYet(hello: seq<Byte>, written: seq<Byte>)
    requires hello != [] ==> IsHello(hello, written)
    requires Locate(written).Found? && Locate(written).sniPos == -1 && Locate(written).echPos == -1
    ensures hello == []
  {
    if hello != [] {
      SameHello(hello, written);
    }
  }

  lemma SameHello(hello: seq<Byte>, written: seq<Byte>)
    requires IsHello(hello, written) && Locate(written).Found?
    ensures hello == written
  {
    assert hello[1] == written[1] && hello[2] == written[2] && hello[3] == written[3];
  }

  lemma ChooseCuts(hello: seq<Byte>, written: seq<Byte>, sent: seq<CryptoFrame>, cuts: seq<Cut>, r: Located)
    requires r == Locate(written) && r.Found? && InBounds(written, r) && |cuts| == 2
    requires !(r.sniPos == -1 && r.echPos == -1)
    requires if hello == [] then cuts == [NO_CUT, NO_CUT] && sent == []
             else IsHello(hello, written) && Narrowed(cuts, CutsOf(hello)) && CutApart(hello, sent)
    ensures var chosen := NewCuts(r, |written|, cuts[1]);
            && chosen == CutsOf(written) && Narrowed(chosen, chosen)
            && IsHello(written, written) && CutApart(written, sent) && CutsLeft(chosen)
            && (hello != [] ==> hello == written)
            && (hello != [] ==> forall x | InCuts(cuts, x) :: InCuts(chosen, x))
  {
    if hello != [] {
      SameHello(hello, written);
    }
    hide Locate;
  }

  lemma WriteKeeps(s: State, h: History, p: seq<Byte>)
    requires Inv(s, h)
    ensures Inv(WriteStep(s, p).0, WriteHistory(s, h, p))
  {
    hide Locate, SentAt, AllParts, CutApart, CutsOf, NewCuts, Narrowed, IsHello, Bounded;
    var written := h.written + p;
    WriteBounded(s, p);
    TwoCuts(s);
    PartsOfMore(h.sent, h.written, p);
    if !s.scramble {
      assert (h.written + p)[s.writeOffset..] == s.writeBuf + p;
    } else {
      HelloStays(h.hello, h.written, p);
      if s.cuts[0].start == NONE && Locate(written).Found? {
        if Completes(s, p) {
          LocateInBounds(written);
          ChooseCuts(h.hello, written, h.sent, s.cuts, Locate(written));
          NotEmpty(written);
        } else {
          NothingCutYet(h.hello, written);
          assert written[0..] == written;
          NoOffset(s, h);
        }
      }
    }
  }

  lemma TwoCuts(s: State)
    requires Bounded(s)
    ensures |s.cuts| == 2 && (s.scramble ==> s.writeOffset <= s.end <= |s.writeBuf|)
  {
  }

  lemma NotEmpty(written: seq<Byte>)
    requires Locate(written).Found?
    ensures written != []
  {
  }

  lemma NoOffset(s: State, h: History)
    requires Inv(s, h) && s.scramble && h.hello == []
    ensures s.writeOffset == 0
  {
  }

  lemma Taken(written: seq<Byte>, offset: nat, n: nat)
    requires offset + n <= |written|
    ensures |written[offset..offset + n]| == n
    ensures written[offset..][..n] == written[offset..offset + n]
    ensures written[offset..][n..] == written[offset + n..]
    ensures IsSlice(written, offset, written[offset..offset + n])
  {
  }

  lemma PlainApart(f: CryptoFrame, hello: seq<Byte>, sent: seq<CryptoFrame>)
    requires hello != [] ==> CutApart(hello, sent)
    requires |hello| <= f.offset
    ensures hello != [] ==> CutApart(hello, sent + [f])
  {
    hide CutsOf;
  }

  lemma PlainKeeps(s: State, h: History, maxLen: int)
    requires Inv(s, h) && !s.scramble
    ensures var (t, f) := PlainStep(s, maxLen);
            Inv(t, h.(sent := h.sent + if f.Some? then [f.value] else []))
  {
    hide SentAt, AllParts, MaxCryptoDataLen, CutApart;
    var n := Min(MaxCryptoDataLen(s.writeOffset, maxLen), |s.writeBuf|);
    assert h.sent + [] == h.sent;
    if n > 0 {
      var f := CryptoFrame(s.writeOffset, s.writeBuf[..n]);
      Taken(h.written, s.writeOffset, n);
      PlainApart(f, h.hello, h.sent);
      PartsMore(h.sent, f, h.written);
      SentMore(h.sent, f);
    }
  }

  lemma SkippedApart(f: CryptoFrame, hello: seq<Byte>, sent: seq<CryptoFrame>, cuts: seq<Cut>, i: nat)
    requires hello != [] ==> CutApart(hello, sent)
    requires |cuts| == 2 && i < 2 && cuts[i].start != NONE && f.offset == cuts[i].start
             && f.offset + |f.data| <= cuts[i].end
    requires hello != [] ==> Narrowed(cuts, CutsOf(hello))
    ensures hello != [] ==> CutApart(hello, sent + [f])
  {
    hide CutsOf;
  }

  // Part of a cut is sent.
  lemma SendCutKeeps(s: State, h: History, i: nat, n: nat)
    requires Inv(s, h) && s.scramble && s.writeOffset == s.end && i < 2
    requires s.cuts[i].start != NONE && 0 < n <= s.cuts[i].end - s.cuts[i].start
    ensures var c := s.cuts[i];
            var f := CryptoFrame(c.start, s.writeBuf[c.start..c.start + n]);
            Inv(s.(cuts := s.cuts[i := Rest(c, n)]), h.(sent := h.sent + [f]))
  {
    hide SentAt, AllParts, CutsOf, CutApart, Locate;
    var c := s.cuts[i];
    var f := CryptoFrame(c.start, s.writeBuf[c.start..c.start + n]);
    Taken(h.written, c.start, n);
    SkippedApart(f, h.hello, h.sent, s.cuts, i);
    PartsMore(h.sent, f, h.written);
    SentMore(h.sent, f);
  }

  lemma FinishedKeeps(s: State, h: History)
    requires Inv(s, h) && s.scramble && s.writeOffset == s.end && !CutsLeft(s.cuts)
    ensures Inv(Finished(s), h)
  {
    hide SentAt, AllParts, CutsOf, CutApart, Locate;
  }

  lemma SkippedKeeps(s: State, h: History, maxLen: int)
    requires Inv(s, h) && s.scramble && s.writeOffset == s.end
    ensures var (t, f) := SkippedStep(s, maxLen);
            Inv(t, h.(sent := h.sent + if f.Some? then [f.value] else []))
  {
    hide MaxCryptoDataLen, Scrambling, Plain, CutApart, AllParts;
    assert h.sent + [] == h.sent;
    if !CutsLeft(s.cuts) {
      FinishedKeeps(s, h);
    } else {
      var i := FirstCut(s.cuts);
      var c := s.cuts[i];
      var n := Min(MaxCryptoDataLen(c.start, maxLen), c.end - c.start);
      if n > 0 {
        SendCutKeeps(s, h, i, n);
        var t := s.(cuts := s.cuts[i := Rest(c, n)]);
        if !CutsLeft(t.cuts) {
          FinishedKeeps(t, h.(sent := h.sent + [CryptoFrame(c.start, s.writeBuf[c.start..c.start + n])]));
        }
      }
    }
  }

  lemma AroundApart(f: CryptoFrame, hello: seq<Byte>, sent: seq<CryptoFrame>, nextCut: Cut)
    requires hello != [] ==> CutApart(hello, sent)
    requires var cuts := CutsOf(hello);
             hello != [] ==> nextCut == if cuts[0].start > f.offset then cuts[0] else if cuts[1].start > f.offset
               then cuts[1] else NO_CUT
    requires nextCut.start != NONE ==> f.offset + |f.data| <= nextCut.start
    ensures hello != [] ==> CutApart(hello, sent + [f])
  {
    hide CutsOf;
  }

  lemma AroundKeeps(s: State, h: History, maxLen: int)
    requires Inv(s, h) && s.scramble && s.writeOffset < s.end
    ensures var (t, f) := AroundStep(s, maxLen);
            Inv(t, h.(sent := h.sent + if f.Some? then [f.value] else []))
  {
    hide SentAt, AllParts, MaxCryptoDataLen, CutsOf, CutApart, Locate;
    assert h.sent + [] == h.sent;
    var next := NextCut(s);
    var maxOffset := if next.start == NONE then s.end else next.start;
    var n := Min(MaxCryptoDataLen(s.writeOffset, maxLen), maxOffset - s.writeOffset);
    if n > 0 {
      var f := CryptoFrame(s.writeOffset, s.writeBuf[s.writeOffset..s.writeOffset + n]);
      Taken(h.written, s.writeOffset, n);
      AroundApart(f, h.hello, h.sent, next);
      PartsMore(h.sent, f, h.written);
      SentMore(h.sent, f);
    }
  }

  lemma PopKeeps(s: State, h: History, maxLen: int)
    requires Inv(s, h)
    ensures var (t, f) := PopStep(s, maxLen);
            Inv(t, h.(sent := h.sent + if f.Some? then [f.value] else []))
  {
    hide PlainStep, SkippedStep, AroundStep, Scrambling, Plain, CutApart, AllParts;
    if !s.scramble {
      PlainKeeps(s, h, maxLen);
    } else if s.writeOffset == s.end {
      SkippedKeeps(s, h, maxLen);
    } else {
      AroundKeeps(s, h, maxLen);
    }
  }

  /** Where a frame may end: at the end of what was written or, while there are cuts, at one of their ends or at the end
      of the ClientHello. */
  ghost predicate IsBoundary(s: State, x: int)
    requires |s.cuts| == 2
  {
    if !s.scramble then x == s.writeOffset + |s.writeBuf|
    else x == s.end || exists i :: 0 <= i < 2 && s.cuts[i].start != NONE && (x == s.cuts[i].start || x == s.cuts[i].end)
  }

  /** A frame has data, and fits if the estimate of its length is exact.  It then goes on up to a boundary, unless one
      more byte does not fit. */
  lemma PopFits(s: State, maxLen: int)
    requires Bounded(s)
    ensures var f := PopStep(s, maxLen).1;
            f.Some? ==>
              && f.value.data != []
              && (CryptoEstimable(f.value.offset, maxLen) ==>
                    && CryptoLen(f.value.offset, |f.value.data|) <= maxLen
                    && (|| IsBoundary(s, f.value.offset + |f.value.data|)
                        || CryptoLen(f.value.offset, |f.value.data| + 1) > maxLen))
    ensures !s.scramble && PopStep(s, maxLen).1.None? && CryptoEstimable(s.writeOffset, maxLen) ==>
              s.writeBuf == [] || CryptoLen(s.writeOffset, 1) > maxLen
  {
    hide MaxCryptoDataLen, CryptoLen;
    var f := PopStep(s, maxLen).1;
    if f.Some? {
      assert |f.value.data| <= MaxCryptoDataLen(f.value.offset, maxLen);
      if CryptoEstimable(f.value.offset, maxLen) {
        CryptoEstimateExact(f.value.offset, |f.value.data|, maxLen);
        CryptoEstimateExact(f.value.offset, |f.value.data| + 1, maxLen);
      }
    } else if !s.scramble && CryptoEstimable(s.writeOffset, maxLen) {
      CryptoEstimateExact(s.writeOffset, 1, maxLen);
    }
  }
}
