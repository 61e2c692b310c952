/** Whole runs of the Initial crypto stream: what of a ClientHello is sent, and in which frames. */
module CryptoRuns {
  import opened StreamBytes
  import opened Wire
  import opened ClientHello
  import opened CryptoStates
  import opened CryptoInvariant
  import opened CryptoSending

  datatype Op = Queue(p: seq<Byte>) | Pop(maxLen: int)

  datatype World = World(s: State, h: History)

  function Step(w: World, op: Op): (r: World)
    requires Bounded(w.s)
    ensures Bounded(r.s)
  {
    match op
    case Queue(p) => WriteBounded(w.s, p); World(WriteStep(w.s, p).0, WriteHistory(w.s, w.h, p))
    case Pop(maxLen) =>
      var (t, f) := PopStep(w.s, maxLen);
      World(t, w.h.(sent := w.h.sent + if f.Some? then [f.value] else []))
  }

  function Run(scramble: bool, ops: seq<Op>): (r: World)
    ensures Bounded(r.s)
  {
    if ops == [] then World(CryptoStates.Initial(scramble), NO_HISTORY)
        else Step(Run(scramble, ops[..|ops| - 1]), ops[|ops| - 1])
  }

  // The data queued, in order.
  function Queued(ops: seq<Op>): seq<Byte> {
    if ops == [] then []
    else Queued(ops[..|ops| - 1]) + match ops[|ops| - 1] case Queue(p) => p case Pop(_) => []
  }

  lemma {:induction false} RunKeepsInv(scramble: bool, ops: seq<Op>)
    ensures var w := Run(scramble, ops); Inv(w.s, w.h) && w.h.written == Queued(ops)
  {
    hide Inv, WriteStep, PopStep, Completes;
    if ops == [] {
      InitialInv(scramble);
    } else {
      var n := |ops| - 1;
      RunKeepsInv(scramble, ops[..n]);
      var w := Run(scramble, ops[..n]);
      match ops[n]
      case Queue(p) => WriteKeeps(w.s, w.h, p);
      case Pop(maxLen) =>
        PopKeeps(w.s, w.h, maxLen);
        assert Queued(ops[..n]) + [] == Queued(ops[..n]);
    }
  }

  /** Everything has been sent. */
  predicate Drained(s: State) {
    !s.scramble && s.writeBuf == []
  }

  /** Any run of writes and pops, also with budgets too small for a frame: only parts of what was
      written are sent, and once the stream is drained, all of it has been. */
  lemma AnyRun(scramble: bool, ops: seq<Op>)
    ensures var w := Run(scramble, ops);
            && AllParts(w.h.sent, Queued(ops))
            && (Drained(w.s) ==> forall x | 0 <= x < |Queued(ops)| :: SentAt(w.h.sent, x))
  {
    hide SentAt, AllParts, CutApart, Run;
    RunKeepsInv(scramble, ops);
  }

  /** The stream object does what the functions say. */
  method Replay(scramble: bool, ops: seq<Op>) returns (s: InitialCryptoStream, sent: seq<CryptoFrame>)
    ensures fresh(s) && s.Now() == Run(scramble, ops).s && sent == Run(scramble, ops).h.sent
  {
    hide WriteStep, PopStep, Bounded;
    s := new InitialCryptoStream(scramble);
    sent := [];
    assert ops[..0] == [];
    for i := 0 to |ops|
      invariant fresh(s) && Bounded(s.Now()) && s.Now() == Run(scramble, ops[..i]).s
                && sent == Run(scramble, ops[..i]).h.sent
    {
      assert ops[..i + 1][..i] == ops[..i];
      match ops[i]
      case Queue(p) =>
        var _ := s.Write(p);
      case Pop(maxLen) =>
        var f := s.PopCryptoFrame(maxLen);
        sent := sent + if f.Some? then [f.value] else [];
    }
    assert ops[..|ops|] == ops;
  }

  // A CRYPTO frame with one byte of data fits this budget, whatever its offset.
  const SMALLEST_BUDGET: int := 11

  lemma BudgetSuffices(offset: nat, maxLen: int)
    requires SMALLEST_BUDGET <= maxLen
    ensures MaxCryptoDataLen(offset, maxLen) > 0
  {
  }

  type Budgets = nat -> int

  ghost predicate Sufficient(budgets: Budgets) {
    forall i: nat :: SMALLEST_BUDGET <= budgets(i)
  }

  ghost predicate RoomAfter(budgets: Budgets, i: nat) {
    exists j: nat :: i <= j && SMALLEST_BUDGET <= budgets(j)
  }

  /** There is always another packet with room. */
  ghost predicate Fair(budgets: Budgets) {
    forall i: nat :: RoomAfter(budgets, i)
  }

  lemma SufficientIsFair(budgets: Budgets)
    requires Sufficient(budgets)
    ensures Fair(budgets)
  {
    forall i: nat ensures RoomAfter(budgets, i) {
      assert i <= i && SMALLEST_BUDGET <= budgets(i);
    }
  }

  /** A stream to which a ClientHello has been written. */
  function Hello(p: seq<Byte>): (r: World)
    ensures Bounded(r.s)
  {
    Step(World(CryptoStates.Initial(true), NO_HISTORY), Queue(p))
  }

  /** Pop n times, as long as there is data. */
  function PopOn(w: World, budgets: Budgets, n: nat): (r: World)
    requires Bounded(w.s)
    ensures Bounded(r.s)
  {
    if n == 0 then w
    else
      var v := PopOn(w, budgets, n - 1);
      if HasData(v.s) then Step(v, Pop(budgets(n - 1))) else v
  }

  function Popping(p: seq<Byte>, budgets: Budgets, n: nat): (r: World)
    ensures Bounded(r.s)
  {
    PopOn(Hello(p), budgets, n)
  }

  lemma HelloInv(p: seq<Byte>)
    ensures var w := Hello(p);
            Inv(w.s, w.h) && w.h.written == p && w.h.sent == [] && w.s.writeOffset == 0 && w.s.writeBuf == p
    ensures Hello(p).h.hello == if Completes(CryptoStates.Initial(true), p) then p else []
  {
    hide Inv, Locate, NewCuts;
    InitialInv(true);
    assert [] + p == p;
    WriteKeeps(CryptoStates.Initial(true), NO_HISTORY, p);
  }

  lemma {:induction false} PopOnInv(w: World, budgets: Budgets, n: nat)
    requires Bounded(w.s) && Inv(w.s, w.h)
    ensures var v := PopOn(w, budgets, n); Inv(v.s, v.h) && v.h.written == w.h.written && v.h.hello == w.h.hello
  {
    hide Inv, PopStep;
    if n > 0 {
      PopOnInv(w, budgets, n - 1);
      var v := PopOn(w, budgets, n - 1);
      PopKeeps(v.s, v.h, budgets(n - 1));
    }
  }

  lemma PoppingInv(p: seq<Byte>, budgets: Budgets, n: nat)
    ensures var w := Popping(p, budgets, n); Inv(w.s, w.h) && w.h.written == p && w.h.hello == Hello(p).h.hello
  {
    hide Inv, PopOn, Hello;
    HelloInv(p);
    PopOnInv(Hello(p), budgets, n);
  }

  /** A valid cut without bytes, which is never sent. */
  predicate EmptyCut(c: Cut) {
    c.start != NONE && c.start == c.end
  }

  function CutLen(c: Cut): int {
    if c.start == NONE then 0 else c.end - c.start
  }

  // What is left to send, counting the end of scrambling as a step.
  function Left(s: State): (n: nat)
    requires Bounded(s)
  {
    if s.scramble then |s.writeBuf| - s.writeOffset + CutLen(s.cuts[0]) + CutLen(s.cuts[1]) + 1 else |s.writeBuf|
  }

  // Popping goes on to the end.
  predicate Going(s: State) {
    |s.cuts| == 2
    && (s.scramble ==> CutsLeft(s.cuts) && !EmptyCut(s.cuts[0]) && !EmptyCut(s.cuts[1])
                       && !(s.writeOffset == 0 && s.cuts[0].start == NONE))
  }

  // Nothing is ever sent.
  predicate Silent(s: State) {
    |s.cuts| == 2 && s.scramble && s.writeOffset == 0 && s.cuts[0].start == NONE
  }

  // The end is never reached.
  predicate Stuck(s: State) {
    |s.cuts| == 2 && s.scramble && (EmptyCut(s.cuts[0]) || EmptyCut(s.cuts[1]))
  }

  lemma PopProgress(s: State, maxLen: int)
    requires Bounded(s) && Going(s) && (s.scramble || s.writeBuf != []) && SMALLEST_BUDGET <= maxLen
    ensures var (t, f) := PopStep(s, maxLen); f.Some? && Left(t) < Left(s) && Going(t)
    ensures HasData(s)
  {
    hide MaxCryptoDataLen;
    BudgetSuffices(s.writeOffset, maxLen);
    if s.scramble {
      BudgetSuffices(s.cuts[FirstCut(s.cuts)].start, maxLen);
      var i := FirstCut(s.cuts);
      assert s.cuts[i].start < s.cuts[i].end <= s.end;
    }
  }

  // Without room, the stream waits.
  lemma PopGoing(s: State, maxLen: int)
    requires Bounded(s) && Going(s) && HasData(s)
    ensures var t := PopStep(s, maxLen).0; Left(t) <= Left(s) && Going(t)
  {
    hide MaxCryptoDataLen;
    if s.scramble {
      var i := FirstCut(s.cuts);
      assert s.cuts[i].start < s.cuts[i].end <= s.end;
    }
  }

  lemma PopStuck(s: State, maxLen: int)
    requires Bounded(s) && Stuck(s)
    ensures Stuck(PopStep(s, maxLen).0)
  {
    hide MaxCryptoDataLen;
  }

  /** The condition under which a scrambled ClientHello gets out: nothing needs to be cut, or
      the server name to cut in half is not empty.  Without a host_name, the length of the last
      other name takes its place. */
  predicate Sendable(p: seq<Byte>) {
    var r := Locate(p);
    && r.Found?
    && ((r.sniPos == -1 && r.echPos == -1) || (if r.sniPos == -1 then r.sniLen >= 2 else r.sniLen > 0))
  }

  lemma HelloStarts(p: seq<Byte>)
    requires p != []
    ensures var s := Hello(p).s; if Sendable(p) then Going(s) else Silent(s) || Stuck(s)
  {
    hide Locate, Hello;
    LocateInBounds(p);
    HelloIs(p);
  }

  // Either nothing is scrambled, or both cuts are chosen, or none is.
  lemma HelloIs(p: seq<Byte>)
    ensures var r := Locate(p);
            var plain := State(0, p, true, 0, [NO_CUT, NO_CUT]);
            Hello(p).s == if !r.Found? then plain
                          else if r.sniPos == -1 && r.echPos == -1 then plain.(scramble := false)
                          else plain.(end := |p|, cuts := NewCuts(r, |p|, NO_CUT))
  {
    hide Locate, NewCuts;
    assert [] + p == p;
  }

  // j is the next packet with room.
  lemma {:induction false} DrainFrom(w: World, budgets: Budgets, k: nat, j: nat) returns (n: nat)
    requires Bounded(w.s) && Fair(budgets) && Going(PopOn(w, budgets, k).s) && k <= j && SMALLEST_BUDGET <= budgets(j)
    ensures Drained(PopOn(w, budgets, n).s)
    decreases Left(PopOn(w, budgets, k).s), j - k
  {
    hide PopStep, Left, HasData;
    var s := PopOn(w, budgets, k).s;
    n := k;
    if s.scramble || s.writeBuf != [] {
      PopProgress(s, SMALLEST_BUDGET);
      assert PopOn(w, budgets, k + 1).s == PopStep(s, budgets(k)).0;
      if k == j {
        PopProgress(s, budgets(k));
        assert RoomAfter(budgets, k + 1);
        var i: nat :| k + 1 <= i && SMALLEST_BUDGET <= budgets(i);
        n := DrainFrom(w, budgets, k + 1, i);
      } else {
        PopGoing(s, budgets(k));
        n := DrainFrom(w, budgets, k + 1, j);
      }
    }
  }

  lemma {:induction false} NeverDrains(w: World, budgets: Budgets, n: nat)
    requires Bounded(w.s) && (Silent(w.s) || Stuck(w.s))
    ensures var v := PopOn(w, budgets, n); v.s.scramble && (Silent(v.s) || Stuck(v.s))
    ensures Silent(w.s) ==> PopOn(w, budgets, n) == w
  {
    hide PopStep;
    if n > 0 {
      NeverDrains(w, budgets, n - 1);
      var v := PopOn(w, budgets, n - 1);
      if HasData(v.s) {
        PopStuck(v.s, budgets(n - 1));
      }
    }
  }

  /** From any state, popping on sends everything if and only if the stream is going. */
  lemma DrainsExactly(w: World, budgets: Budgets)
    requires Bounded(w.s) && (Going(w.s) || Silent(w.s) || Stuck(w.s)) && Fair(budgets)
    ensures (exists n: nat :: Drained(PopOn(w, budgets, n).s)) <==> Going(w.s)
  {
    if Going(w.s) {
      assert RoomAfter(budgets, 0);
      var j: nat :| 0 <= j && SMALLEST_BUDGET <= budgets(j);
      assert PopOn(w, budgets, 0) == w;
      var n := DrainFrom(w, budgets, 0, j);
    } else {
      forall n: nat ensures !Drained(PopOn(w, budgets, n).s) {
        NeverDrains(w, budgets, n);
      }
    }
  }

  lemma DrainedSent(w: World, budgets: Budgets, n: nat)
    requires Inv(w.s, w.h) && Drained(PopOn(w, budgets, n).s)
    ensures forall x | 0 <= x < |w.h.written| :: SentAt(PopOn(w, budgets, n).h.sent, x)
  {
    hide SentAt, AllParts, CutApart, PopOn;
    PopOnInv(w, budgets, n);
  }

  /** Whatever the budgets, as long as there are packets with room, a ClientHello is sent completely if and only if it
      is Sendable. */
  lemma SentExactly(p: seq<Byte>, budgets: Budgets)
    requires p != [] && Fair(budgets)
    ensures (exists n: nat :: Drained(Popping(p, budgets, n).s)) <==> Sendable(p)
    ensures forall n: nat | Drained(Popping(p, budgets, n).s) :: forall x | 0 <= x < |p| ::
            SentAt(Popping(p, budgets, n).h.sent, x)
  {
    hide Sendable, SentAt, Inv, PopOn, Hello, Drained, Fair, Going, Silent, Stuck;
    HelloStarts(p);
    HelloInv(p);
    GoingOrNot(Hello(p).s);
    DrainsExactly(Hello(p), budgets);
    if Sendable(p) {
      var n: nat :| Drained(PopOn(Hello(p), budgets, n).s);
      assert Drained(Popping(p, budgets, n).s);
    } else {
      forall n: nat ensures !Drained(Popping(p, budgets, n).s) {
        assert !Drained(PopOn(Hello(p), budgets, n).s);
      }
    }
    forall n: nat, x | Drained(Popping(p, budgets, n).s)
        && 0 <= x < |p| ensures SentAt(Popping(p, budgets, n).h.sent, x) {
      DrainedSent(Hello(p), budgets, n);
    }
  }

  lemma GoingOrNot(s: State)
    ensures Going(s) ==> !Silent(s) && !Stuck(s)
  {
  }

  function Zeros(n: nat): seq<Byte> {
    seq(n, _ => 0)
  }

  /** A ClientHello of 51 bytes whose only extension is an empty Encrypted Client Hello. */
  function EchOnly(): seq<Byte> {
    [1, 0, 0, 47] + Zeros(34) + [0, 0, 2, 0x13, 1, 1, 0, 0, 4, 0xfe, 0x0d, 0, 0]
  }

  lemma EchOnlyLocated()
    ensures |EchOnly()| == 51 && Locate(EchOnly()) == Found(-1, 0, 47)
  {
    var data := EchOnly();
    assert |data| == 51 && data[38..] == [0, 0, 2, 0x13, 1, 1, 0, 0, 4, 0xfe, 0x0d, 0, 0];
    assert data[38] == 0 && data[39] == 0 && data[40] == 2 && data[43] == 1 && data[44] == 0;
    assert ExtensionsStart(data) == Some(47);
    assert Uint16(data, 45) == 4 && Uint16(data, 47) == EXT_TYPE_ECH && Uint16(data, 49) == 0;
    assert Walk(data, 47, 4, 0, -1, 0, -1) == Walk(data, 47, 4, 4, -1, 0, 47);
  }

  /** Not every ClientHello is Sendable: with that extension alone, nothing is ever sent. */
  lemma EchOnlyNeverSent(budgets: Budgets, n: nat)
    ensures !Sendable(EchOnly()) && Popping(EchOnly(), budgets, n).h.sent == []
  {
    EchOnlyLocated();
    hide EchOnly, Locate;
    var p := EchOnly();
    assert [] + p == p;
    assert Silent(Hello(p).s);
    NeverDrains(Hello(p), budgets, n);
    HelloInv(p);
  }

  /** All of the server name is in one frame. */
  predicate HasName(f: CryptoFrame, r: Located)
    requires r.Found?
  {
    f.offset <= r.sniPos && r.sniPos + r.sniLen <= f.offset + |f.data|
  }

  // The name is so short, and so close behind the extension, that it is in the cut of that.
  predicate NameInOtherCut(r: Located, len: int)
    requires r.Found?
  {
    r.echPos > 0 && r.echPos + 1 <= r.sniPos && r.sniPos + r.sniLen <= Min(r.echPos + 17, len)
  }

  /** The server name has two halves, and is not hidden in the other cut. */
  predicate NameCuttable(p: seq<Byte>) {
    var r := Locate(p);
    r.Found? && r.sniPos > 0 && r.sniLen >= 2 && !NameInOtherCut(r, |p|)
  }

  lemma NameIsCut(hello: seq<Byte>, sent: seq<CryptoFrame>, i: nat)
    requires CutApart(hello, sent) && i < |sent| && NameCuttable(hello)
    ensures !HasName(sent[i], Locate(hello))
  {
    hide Locate;
    var r := Locate(hello);
    var cuts := CutsOf(hello);
    var sni := Cut(r.sniPos + r.sniLen / 2, r.sniPos + r.sniLen);
    var j := if cuts[0] == sni then 0 else 1;
    assert cuts[j] == sni;
    assert NotAcross(sent[i], cuts);
  }

  /** No frame has the whole server name. */
  ghost predicate NoneHasName(frames: seq<CryptoFrame>, p: seq<Byte>) {
    Locate(p).Found? && forall i | 0 <= i < |frames| :: !HasName(frames[i], Locate(p))
  }

  /** The purpose of the cuts: no frame has the whole name, if it can be cut in half. */
  lemma NameNeverWhole(p: seq<Byte>, budgets: Budgets, n: nat)
    requires NameCuttable(p)
    ensures NoneHasName(Popping(p, budgets, n).h.sent, p)
  {
    hide CutApart, AllParts, SentAt, Popping, HasName;
    PoppingInv(p, budgets, n);
    HelloInv(p);
    assert Completes(CryptoStates.Initial(true), p) by {
      assert [] + p == p;
    }
    LocatedNotEmpty(p);
    forall i | 0 <= i < |Popping(p, budgets, n).h.sent| ensures !HasName(Popping(p, budgets, n).h.sent[i], Locate(p)) {
      NameIsCut(p, Popping(p, budgets, n).h.sent, i);
    }
  }

  lemma LocatedNotEmpty(p: seq<Byte>)
    requires Locate(p).Found?
    ensures p != []
  {
  }

  // Budgets that never split a frame.
  function Roomy(p: seq<Byte>): Budgets {
    i => |p| + 20
  }

  lemma RoomyFits(p: seq<Byte>, offset: nat)
    ensures MaxCryptoDataLen(offset, |p| + 20) >= |p|
  {
  }

  lemma RoomySuffices(p: seq<Byte>)
    ensures Sufficient(Roomy(p))
  {
  }

  /** A name of one byte is always sent whole. */
  lemma OneByteName(p: seq<Byte>, budgets: Budgets) returns (n: nat, i: nat)
    requires Sendable(p) && Locate(p).sniPos > 0 && Locate(p).sniLen == 1 && Fair(budgets)
    ensures i < |Popping(p, budgets, n).h.sent| && HasName(Popping(p, budgets, n).h.sent[i], Locate(p))
  {
    hide Popping, Locate;
    LocatedNotEmpty(p);
    LocateInBounds(p);
    SentExactly(p, budgets);
    n :| Drained(Popping(p, budgets, n).s);
    var x := Locate(p).sniPos;
    assert SentAt(Popping(p, budgets, n).h.sent, x);
    i :| 0 <= i < |Popping(p, budgets, n).h.sent| && CarriesOffset(Popping(p, budgets, n).h.sent[i], x);
  }

  // The stream when only the cuts are left, with the extension's cut in front.
  ghost predicate AtCuts(s: State, p: seq<Byte>) {
    var r := Locate(p);
    && r.Found? && r.echPos > 0
    && s.scramble && s.writeOffset == s.end == |p| && s.writeBuf == p
    && s.cuts == [Cut(r.echPos + 1, Min(r.echPos + 17, |p|)), Cut(r.sniPos + r.sniLen / 2, r.sniPos + r.sniLen)]
  }

  lemma PoppingNext(p: seq<Byte>, budgets: Budgets, n: nat)
    requires HasData(Popping(p, budgets, n).s)
    ensures Popping(p, budgets, n + 1) == Step(Popping(p, budgets, n), Pop(budgets(n)))
  {
  }

  // Without a limit, the bytes up to the next cut are sent.
  lemma PopToCut(s: State, maxLen: int)
    requires Bounded(s) && s.scramble && s.writeOffset < s.end
             && MaxCryptoDataLen(s.writeOffset, maxLen) >= |s.writeBuf|
    ensures var next := NextCut(s);
            PopStep(s, maxLen).0 == s.(writeOffset := if next.start == NONE then s.end else next.end)
  {
    hide MaxCryptoDataLen;
  }

  lemma HelloCuts(p: seq<Byte>)
    requires Locate(p).Found? && Locate(p).sniPos > 0 && NameInOtherCut(Locate(p), |p|)
    ensures var r := Locate(p);
            Hello(p).s == State(0, p, true, |p|,
                                [Cut(r.echPos + 1, Min(r.echPos + 17, |p|)),
                                 Cut(r.sniPos + r.sniLen / 2, r.sniPos + r.sniLen)])
  {
    hide Locate;
    LocateInBounds(p);
    assert [] + p == p;
  }

  lemma PoppingFirst(p: seq<Byte>, budgets: Budgets)
    ensures Popping(p, budgets, 0) == Hello(p)
  {
  }

  // One pop that is not limited.
  lemma RoomyNext(p: seq<Byte>, n: nat)
    requires var s := Popping(p, Roomy(p), n).s; s.scramble && s.writeOffset < s.end && s.writeBuf == p
                                                 && s.cuts[0].start != NONE
    ensures var s := Popping(p, Roomy(p), n).s;
            var next := NextCut(s);
            Popping(p, Roomy(p), n + 1).s == s.(writeOffset := if next.start == NONE then s.end else next.end)
  {
    hide Popping, MaxCryptoDataLen, PopStep;
    var s := Popping(p, Roomy(p), n).s;
    RoomyFits(p, s.writeOffset);
    PopToCut(s, |p| + 20);
    PoppingNext(p, Roomy(p), n);
  }

  lemma ReachCuts(p: seq<Byte>) returns (n: nat)
    requires Sendable(p) && Locate(p).sniPos > 0 && Locate(p).sniLen >= 2 && NameInOtherCut(Locate(p), |p|)
    ensures AtCuts(Popping(p, Roomy(p), n).s, p)
  {
    hide Locate, Hello, Popping, Roomy;
    LocateInBounds(p);
    HelloCuts(p);
    var r, b := Locate(p), Roomy(p);
    var ech := Cut(r.echPos + 1, Min(r.echPos + 17, |p|));
    PoppingFirst(p, b);
    RoomyNext(p, 0);
    assert Popping(p, b, 1).s.writeOffset == ech.end;
    n := 1;
    if ech.end < |p| {
      RoomyNext(p, 1);
      n := 2;
    }
  }

  // Without a limit, the first cut is sent whole.
  lemma PopFirstCut(s: State, maxLen: int)
    requires Bounded(s) && s.scramble && s.writeOffset == s.end && 0 <= s.cuts[0].start < s.cuts[0].end
    requires MaxCryptoDataLen(s.cuts[0].start, maxLen) >= |s.writeBuf|
    ensures PopStep(s, maxLen).1 == Some(CryptoFrame(s.cuts[0].start, s.writeBuf[s.cuts[0].start..s.cuts[0].end]))
  {
    hide MaxCryptoDataLen;
  }

  lemma RoomyCut(p: seq<Byte>, n: nat)
    requires var s := Popping(p, Roomy(p), n).s;
             s.scramble && s.writeOffset == s.end && s.writeBuf == p && 0 <= s.cuts[0].start < s.cuts[0].end <= |p|
    ensures var w := Popping(p, Roomy(p), n);
            Popping(p, Roomy(p),
                    n + 1).h.sent == w.h.sent + [CryptoFrame(w.s.cuts[0].start, p[w.s.cuts[0].start..w.s.cuts[0].end])]
  {
    hide Popping, MaxCryptoDataLen, PopStep;
    var s := Popping(p, Roomy(p), n).s;
    RoomyFits(p, s.cuts[0].start);
    PopFirstCut(s, |p| + 20);
    PoppingNext(p, Roomy(p), n);
  }

  /** A name inside the cut of the extension before it is sent whole with that. */
  lemma HiddenName(p: seq<Byte>) returns (n: nat, i: nat)
    requires Sendable(p) && Locate(p).sniPos > 0 && Locate(p).sniLen >= 2 && NameInOtherCut(Locate(p), |p|)
    ensures i < |Popping(p, Roomy(p), n).h.sent| && HasName(Popping(p, Roomy(p), n).h.sent[i], Locate(p))
  {
    hide Locate, Popping, Roomy;
    LocateInBounds(p);
    var k := ReachCuts(p);
    RoomyCut(p, k);
    n, i := k + 1, |Popping(p, Roomy(p), k).h.sent|;
  }

  /** That is exact: for a ClientHello with a host_name that is sent at all, no budgets put the whole name into
      one frame if and only if it can be cut. */
  lemma NameWholeExactly(p: seq<Byte>)
    requires Sendable(p) && Locate(p).sniPos > 0
    ensures (forall budgets: Budgets, n: nat | Sufficient(budgets) :: NoneHasName(Popping(p, budgets, n).h.sent, p))
            <==> NameCuttable(p)
  {
    hide Popping, HasName, Roomy, Locate;
    if NameCuttable(p) {
      forall budgets: Budgets, n: nat | Sufficient(budgets) ensures NoneHasName(Popping(p, budgets, n).h.sent, p) {
        NameNeverWhole(p, budgets, n);
      }
    } else {
      RoomySuffices(p);
      SufficientIsFair(Roomy(p));
      var n, i;
      if Locate(p).sniLen == 1 {
        n, i := OneByteName(p, Roomy(p));
      } else {
        n, i := HiddenName(p);
      }
      assert !NoneHasName(Popping(p, Roomy(p), n).h.sent, p);
    }
  }

  /** A ClientHello of 62 bytes: an empty Encrypted Client Hello extension, and the server name "ab". */
  function ShortNameAfterEch(): seq<Byte> {
    [1, 0, 0, 58] + Zeros(34) + [0, 0, 2, 0x13, 1, 1, 0, 0, 15, 0xfe, 0x0d, 0, 0, 0, 0, 0, 7, 0, 5, 0, 0, 2, 97, 98]
  }

  lemma ShortNameTail(data: seq<Byte>)
    requires data == ShortNameAfterEch()
    ensures |data| == 62 && data[0] == 1 && data[1] == 0 && Uint16(data, 2) == 58
    ensures data[38..] == [0, 0, 2, 0x13, 1, 1, 0, 0, 15, 0xfe, 0x0d, 0, 0, 0, 0, 0, 7, 0, 5, 0, 0, 2, 97, 98]
  {
  }

  lemma ShortNameBytes(data: seq<Byte>)
    requires data == ShortNameAfterEch()
    ensures |data| == 62 && data[0] == 1 && data[1] == 0 && Uint16(data, 2) == 58
    ensures ExtensionsStart(data) == Some(47)
    ensures Uint16(data, 45) == 15 && Uint16(data, 47) == EXT_TYPE_ECH && Uint16(data, 49) == 0
    ensures Uint16(data, 51) == EXT_TYPE_SNI && Uint16(data, 53) == 7 && Uint16(data, 55) == 5 && data[57] == 0
            && Uint16(data, 58) == 2
  {
    hide ShortNameAfterEch;
    ShortNameTail(data);
    assert forall i | 0 <= i < 24 :: data[38 + i] == data[38..][i];
    assert data[38] == 0 && Uint16(data, 39) == 2 && data[43] == 1;
  }

  lemma ShortNameLocated()
    ensures |ShortNameAfterEch()| == 62 && Locate(ShortNameAfterEch()) == Found(60, 2, 47)
  {
    var data := ShortNameAfterEch();
    ShortNameBytes(data);
    hide ShortNameAfterEch, ExtensionsStart, Uint16;
    assert HostName(data, 55, 7, 2, 0) == (60, 2);
    assert NamesFit(data, 55, 7);
    assert Walk(data, 47, 15, 4, -1, 0, 47) == Found(60, 2, 47);
    assert Walk(data, 47, 15, 0, -1, 0, -1) == Walk(data, 47, 15, 4, -1, 0, 47);
  }

  /** Such a name cannot be cut: with large packets, a frame has all of it. */
  lemma ShortNameSentWhole() returns (n: nat, i: nat)
    ensures var p := ShortNameAfterEch();
            var sent := Popping(p, Roomy(p), n).h.sent;
            Locate(p) == Found(60, 2, 47) && Sendable(p) && i < |sent| && HasName(sent[i], Locate(p))
  {
    ShortNameLocated();
    hide ShortNameAfterEch, Locate, Popping;
    n, i := HiddenName(ShortNameAfterEch());
  }

  lemma PopShrinks(s: State, maxLen: int)
    requires Bounded(s) && PopStep(s, maxLen).1.Some?
    ensures Left(PopStep(s, maxLen).0) < Left(s)
  {
    hide MaxCryptoDataLen;
  }

  // A frame moves the stream on.
  lemma PopMoves(s: State, maxLen: int)
    requires Bounded(s)
    ensures var (t, f) := PopStep(s, maxLen);
            s.scramble && t.scramble && (f.Some? || s.writeOffset > 0) ==> t.writeOffset > 0
  {
    hide MaxCryptoDataLen;
  }
}
