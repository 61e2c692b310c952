/** The sending side of the Initial crypto stream, which sends the ClientHello out of order:
    it skips ("cuts") the second half of the server name and part of the Encrypted Client
    Hello extension, and sends them last.  What each operation does, as functions on values.
 */
module CryptoStates {
  import opened StreamBytes
  import opened Wire
  import opened ClientHello

  const NONE: int := -1

  datatype Cut = Cut(start: int, end: int)

  const NO_CUT: Cut := Cut(NONE, NONE)

  predicate CutInside(c: Cut, end: int) {
    c.start == NONE || 0 <= c.start <= c.end <= end
  }

  datatype State = State(writeOffset: nat, writeBuf: seq<Byte>, scramble: bool, end: int, cuts: seq<Cut>)

  predicate Bounded(s: State) {
    && |s.cuts| == 2
    && (s.scramble ==> s.writeOffset <= s.end <= |s.writeBuf| && CutInside(s.cuts[0], s.end)
                       && CutInside(s.cuts[1], s.end))
  }

  predicate CutsLeft(cuts: seq<Cut>)
    requires |cuts| == 2
  {
    cuts[0].start != NONE || cuts[1].start != NONE
  }

  function Initial(scramble: bool): State {
    State(0, [], scramble, 0, [NO_CUT, NO_CUT])
  }

  predicate HasData(s: State)
    requires |s.cuts| == 2
  {
    !(s.scramble && s.writeOffset == 0 && s.cuts[0].start == NONE) && s.writeBuf != []
  }

  /** The cuts for a located server name and extension, in the order the sort leaves them: it
      swaps them only if the second one is valid and does not start later. */
  function NewCuts(r: Located, len: int, second: Cut): (cuts: seq<Cut>)
    requires r.Found?
    ensures |cuts| == 2
  {
    var sni := Cut(r.sniPos + r.sniLen / 2, r.sniPos + r.sniLen);
    var ech := if r.echPos > 0 then Cut(r.echPos + 1, Min(r.echPos + 17, len)) else second;
    if ech.start != NONE && ech.start <= sni.start then [ech, sni] else [sni, ech]
  }

  lemma NewCutsInside(data: seq<Byte>, r: Located, second: Cut)
    requires r.Found? && InBounds(data, r) && CutInside(second, |data|)
    ensures var cuts := NewCuts(r, |data|, second); CutInside(cuts[0], |data|) && CutInside(cuts[1], |data|)
  {
  }

  lemma CutInsideMore(c: Cut, end: int, end': int)
    requires CutInside(c, end) && end <= end'
    ensures CutInside(c, end')
  {
  }

  /** Queue data.  Once the whole ClientHello has been written, the cuts are chosen.  The second result says
      whether the ClientHello is malformed. */
  function WriteStep(s: State, p: seq<Byte>): (r: (State, bool))
    requires |s.cuts| == 2
    ensures |r.0.cuts| == 2
  {
    var t := s.(writeBuf := s.writeBuf + p);
    if !s.scramble || s.cuts[0].start != NONE then (t, false)
    else
      match Locate(t.writeBuf)
      case UnexpectedEOF => (t, false)
      case Malformed => (t, true)
      case Found(sniPos, _, echPos) =>
        if sniPos == -1 && echPos == -1 then (t.(scramble := false), false)
        else (t.(end := |t.writeBuf|, cuts := NewCuts(Locate(t.writeBuf), |t.writeBuf|, s.cuts[1])), false)
  }

  lemma WriteBounded(s: State, p: seq<Byte>)
    requires Bounded(s)
    ensures Bounded(WriteStep(s, p).0)
  {
    hide Locate, NewCuts;
    var buf := s.writeBuf + p;
    if s.scramble && Locate(buf).Found? {
      LocateInBounds(buf);
      CutInsideMore(s.cuts[1], s.end, |buf|);
      NewCutsInside(buf, Locate(buf), s.cuts[1]);
    }
  }

  function PlainStep(s: State, maxLen: int): (State, Option<CryptoFrame>) {
    var n := Min(MaxCryptoDataLen(s.writeOffset, maxLen), |s.writeBuf|);
    if n == 0 then (s, None)
    else (s.(writeBuf := s.writeBuf[n..], writeOffset := s.writeOffset + n),
          Some(CryptoFrame(s.writeOffset, s.writeBuf[..n])))
  }

  // The first valid cut.
  function FirstCut(cuts: seq<Cut>): nat
    requires |cuts| == 2
  {
    if cuts[0].start != NONE then 0 else 1
  }

  // A cut of which n bytes have been sent; it becomes invalid when all have.
  function Rest(c: Cut, n: nat): Cut {
    if c.start + n == c.end then NO_CUT else Cut(c.start + n, c.end)
  }

  // All cuts have been sent.
  function Finished(s: State): State
    requires 0 <= s.end <= |s.writeBuf|
  {
    s.(writeBuf := s.writeBuf[s.end..], end := NONE, scramble := false)
  }

  /** All but the cuts has been sent: send what was skipped. */
  function SkippedStep(s: State, maxLen: int): (r: (State, Option<CryptoFrame>))
    requires Bounded(s) && s.scramble
    ensures Bounded(r.0)
  {
    if !CutsLeft(s.cuts) then (Finished(s), None)
    else
      var i := FirstCut(s.cuts);
      var c := s.cuts[i];
      var n := Min(MaxCryptoDataLen(c.start, maxLen), c.end - c.start);
      if n == 0 then (s, None)
      else
        var t := s.(cuts := s.cuts[i := Rest(c, n)]);
        (if CutsLeft(t.cuts) then t else Finished(t), Some(CryptoFrame(c.start, s.writeBuf[c.start..c.start + n])))
  }

  function NextCut(s: State): Cut
    requires |s.cuts| == 2
  {
    if s.cuts[0].start > s.writeOffset then s.cuts[0] else if s.cuts[1].start > s.writeOffset then s.cuts[1] else NO_CUT
  }

  /** Send up to the next cut, then skip it. */
  function AroundStep(s: State, maxLen: int): (r: (State, Option<CryptoFrame>))
    requires Bounded(s) && s.scramble
    ensures Bounded(r.0)
  {
    var next := NextCut(s);
    var maxOffset := if next.start == NONE then s.end else next.start;
    var n := Min(MaxCryptoDataLen(s.writeOffset, maxLen), maxOffset - s.writeOffset);
    if n == 0 then (s, None)
    else
      (s.(writeOffset := if s.writeOffset + n == next.start then next.end else s.writeOffset + n),
       Some(CryptoFrame(s.writeOffset, s.writeBuf[s.writeOffset..s.writeOffset + n])))
  }

  function PopStep(s: State, maxLen: int): (r: (State, Option<CryptoFrame>))
    requires Bounded(s)
    ensures Bounded(r.0)
  {
    if !s.scramble then PlainStep(s, maxLen)
    else if s.writeOffset == s.end then SkippedStep(s, maxLen)
    else AroundStep(s, maxLen)
  }
}
