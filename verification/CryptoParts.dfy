/** A ClientHello that is written in several parts, and may be followed by more data. */
module CryptoParts {
  import opened StreamBytes
  import opened Wire
  import opened ClientHello
  import opened CryptoStates
  import opened CryptoInvariant
  import opened CryptoSending
  import opened CryptoRuns

  function Joined(parts: seq<seq<Byte>>): seq<Byte> {
    if parts == [] then [] else Joined(parts[..|parts| - 1]) + parts[|parts| - 1]
  }

  /** A stream to which the parts have been written. */
  function Written(parts: seq<seq<Byte>>): (r: World)
    ensures Bounded(r.s)
  {
    if parts == [] then World(CryptoStates.Initial(true), NO_HISTORY)
    else Step(Written(parts[..|parts| - 1]), Queue(parts[|parts| - 1]))
  }

  lemma {:induction false} WrittenInv(parts: seq<seq<Byte>>)
    ensures var w := Written(parts);
            Inv(w.s, w.h) && w.h.written == Joined(parts) && w.h.sent == [] && w.s.writeOffset == 0
  {
    hide Inv, Locate, NewCuts, Completes;
    if parts == [] {
      InitialInv(true);
    } else {
      var n := |parts| - 1;
      WrittenInv(parts[..n]);
      WriteKeeps(Written(parts[..n]).s, Written(parts[..n]).h, parts[n]);
    }
  }

  /** The length field says where a ClientHello ends: nothing longer is one. */
  lemma FoundOnce(q: seq<Byte>, p: seq<Byte>)
    requires Locate(q).Found? && q <= p
    ensures q == p || Locate(p) == UnexpectedEOF
  {
    hide Walk, ExtensionsStart;
    assert |q| == 4 + q[1] as int * 65536 + Uint16(q, 2);
    assert Uint16(p, 2) == Uint16(q, 2) && p[0] == q[0] && p[1] == q[1];
  }

  // Before the ClientHello is complete.
  function Incomplete(p: seq<Byte>): State {
    State(0, p, true, 0, [NO_CUT, NO_CUT])
  }

  lemma WriteFirst(p: seq<Byte>, d: seq<Byte>)
    ensures WriteStep(Incomplete(p), d).0 == if Locate(p + d).Found? then Hello(p + d).s else Incomplete(p + d)
  {
    hide Locate, NewCuts, Hello;
    HelloIs(p + d);
  }

  lemma CutsAgain(r: Located, len: int)
    requires r.Found? && NewCuts(r, len, NO_CUT)[0].start == NONE
    ensures NewCuts(r, len, NewCuts(r, len, NO_CUT)[1]) == NewCuts(r, len, NO_CUT)
  {
  }

  // Once it is complete, more data only makes the buffer longer.
  lemma WriteMore(q: seq<Byte>, p: seq<Byte>, d: seq<Byte>)
    requires Locate(q).Found? && q <= p
    ensures WriteStep(Hello(q).s.(writeBuf := p), d).0 == Hello(q).s.(writeBuf := p + d)
  {
    hide Locate, NewCuts, Hello;
    HelloIs(q);
    FoundOnce(q, p + d);
    var r := Locate(q);
    var s := Hello(q).s;
    if s.scramble && s.cuts[0].start == NONE {
      CutsAgain(r, |q|);
    }
  }

  ghost predicate Complete(parts: seq<seq<Byte>>, k: nat) {
    k <= |parts| && Locate(Joined(parts[..k])).Found?
  }

  lemma {:induction false} JoinedPrefix(parts: seq<seq<Byte>>, k: nat)
    requires k <= |parts|
    ensures Joined(parts[..k]) <= Joined(parts)
  {
    if k < |parts| {
      var n := |parts| - 1;
      JoinedPrefix(parts[..n], k);
      assert parts[..n][..k] == parts[..k];
    } else {
      assert parts[..k] == parts;
    }
  }

  lemma CompleteBefore(parts: seq<seq<Byte>>, k: nat)
    requires parts != [] && k < |parts|
    ensures Complete(parts, k) <==> Complete(parts[..|parts| - 1], k)
  {
    assert parts[..|parts| - 1][..k] == parts[..k];
  }

  /** What the parts leave behind: the cuts of the ClientHello, if it is complete after some of them. */
  lemma {:induction false} WrittenIs(parts: seq<seq<Byte>>)
    ensures (forall k: nat :: !Complete(parts, k)) ==> Written(parts).s == Incomplete(Joined(parts))
    ensures forall k: nat | Complete(parts, k) ::
              Written(parts).s == Hello(Joined(parts[..k])).s.(writeBuf := Joined(parts))
  {
    hide Locate, NewCuts, Hello, WriteStep, Completes;
    if parts == [] {
      NothingComplete(parts);
    } else {
      var n := |parts| - 1;
      WrittenIs(parts[..n]);
      if k: nat :| k < |parts| && Complete(parts, k) {
        CompleteBefore(parts, k);
        assert parts[..n][..k] == parts[..k];
        PartsMore(parts, k);
      } else {
        PartsFirst(parts);
      }
    }
  }

  lemma NothingComplete(parts: seq<seq<Byte>>)
    requires parts == []
    ensures Written(parts).s == Incomplete(Joined(parts)) && forall k: nat :: !Complete(parts, k)
  {
  }

  lemma PartsFirst(parts: seq<seq<Byte>>)
    requires parts != [] && forall k: nat | k < |parts| :: !Complete(parts, k)
    requires var before := parts[..|parts| - 1];
             (forall k: nat :: !Complete(before, k)) ==> Written(before).s == Incomplete(Joined(before))
    ensures (forall k: nat :: !Complete(parts, k)) ==> Written(parts).s == Incomplete(Joined(parts))
    ensures forall k: nat | Complete(parts, k) ::
              Written(parts).s == Hello(Joined(parts[..k])).s.(writeBuf := Joined(parts))
  {
    hide Locate, NewCuts, Hello, WriteStep, Completes, Incomplete;
    var n := |parts| - 1;
    var before := parts[..n];
    forall k: nat ensures !Complete(before, k) {
      if k < |parts| {
        CompleteBefore(parts, k);
      }
    }
    WriteFirst(Joined(before), parts[n]);
    HelloBuffer(Joined(parts));
    assert parts[..|parts|] == parts;
    assert Complete(parts, |parts|) <==> Locate(Joined(parts)).Found?;
    assert Written(parts).s == WriteStep(Incomplete(Joined(before)), parts[n]).0;
  }

  lemma HelloBuffer(p: seq<Byte>)
    ensures Hello(p).s.writeBuf == p
  {
    hide Hello, Locate, NewCuts;
    HelloIs(p);
  }

  lemma PartsMore(parts: seq<seq<Byte>>, k: nat)
    requires k < |parts| && Complete(parts, k)
    requires var before := parts[..|parts| - 1];
             Written(before).s == Hello(Joined(parts[..k])).s.(writeBuf := Joined(before))
    ensures forall j: nat | Complete(parts, j) ::
              Written(parts).s == Hello(Joined(parts[..j])).s.(writeBuf := Joined(parts))
  {
    hide Locate, NewCuts, Hello, WriteStep, Completes;
    var n := |parts| - 1;
    assert parts[..n][..k] == parts[..k];
    JoinedPrefix(parts[..n], k);
    WriteMore(Joined(parts[..k]), Joined(parts[..n]), parts[n]);
    forall j: nat | Complete(parts, j) ensures Joined(parts[..j]) == Joined(parts[..k]) {
      OneHello(parts, j, k);
    }
  }

  lemma OneHello(parts: seq<seq<Byte>>, j: nat, k: nat)
    requires Complete(parts, j) && Complete(parts, k)
    ensures Joined(parts[..j]) == Joined(parts[..k])
  {
    hide Locate;
    if j <= k {
      assert parts[..k][..j] == parts[..j];
      JoinedPrefix(parts[..k], j);
      FoundOnce(Joined(parts[..j]), Joined(parts[..k]));
    } else {
      assert parts[..j][..k] == parts[..k];
      JoinedPrefix(parts[..j], k);
      FoundOnce(Joined(parts[..k]), Joined(parts[..j]));
    }
  }

  /** After some part, the ClientHello is complete, and it is Sendable. */
  ghost predicate Sends(parts: seq<seq<Byte>>) {
    exists k: nat :: k <= |parts| && Sendable(Joined(parts[..k]))
  }

  lemma PartsStart(parts: seq<seq<Byte>>)
    ensures var s := Written(parts).s; if Sends(parts) then Going(s) else Silent(s) || Stuck(s)
  {
    hide Locate, Hello, Written, Joined, Going, Silent, Stuck;
    WrittenIs(parts);
    if k: nat :| Complete(parts, k) {
      var q := Joined(parts[..k]);
      LocatedNotEmpty(q);
      HelloStarts(q);
      SameCourse(Hello(q).s, Joined(parts));
      forall j: nat | j <= |parts| && Sendable(Joined(parts[..j])) ensures Sendable(q) {
        assert Complete(parts, j);
        OneHello(parts, j, k);
      }
    } else {
      forall j: nat | j <= |parts| ensures !Sendable(Joined(parts[..j])) {
        assert !Complete(parts, j);
      }
      IncompleteSilent(Joined(parts));
    }
  }

  lemma IncompleteSilent(p: seq<Byte>)
    ensures Silent(Incomplete(p))
  {
  }

  // The buffer does not matter.
  lemma SameCourse(s: State, p: seq<Byte>)
    ensures var t := s.(writeBuf := p); Going(t) == Going(s) && Silent(t) == Silent(s) && Stuck(t) == Stuck(s)
  {
  }

  /** However the data is cut into parts, all of it is sent if and only if some parts together are a Sendable
      ClientHello. */
  lemma SentInParts(parts: seq<seq<Byte>>, budgets: Budgets)
    requires Fair(budgets)
    ensures (exists n: nat :: Drained(PopOn(Written(parts), budgets, n).s)) <==> Sends(parts)
    ensures forall n: nat | Drained(PopOn(Written(parts), budgets, n).s) :: forall x | 0 <= x < |Joined(parts)| ::
            SentAt(PopOn(Written(parts), budgets, n).h.sent, x)
  {
    hide SentAt, Inv, PopOn, Written, Drained, Fair, Sends;
    var w := Written(parts);
    PartsStart(parts);
    WrittenInv(parts);
    GoingOrNot(w.s);
    DrainsExactly(w, budgets);
    forall n: nat, x | Drained(PopOn(w, budgets, n).s)
        && 0 <= x < |Joined(parts)| ensures SentAt(PopOn(w, budgets, n).h.sent, x) {
      DrainedSent(w, budgets, n);
    }
  }

  // What is sent depends on the state.
  lemma {:induction false} SameSent(v: World, w: World, budgets: Budgets, n: nat)
    requires Bounded(v.s) && v.s == w.s && v.h.sent == w.h.sent
    ensures PopOn(v, budgets, n).s == PopOn(w, budgets, n).s
    ensures PopOn(v, budgets, n).h.sent == PopOn(w, budgets, n).h.sent
  {
    hide PopStep;
    if n > 0 {
      SameSent(v, w, budgets, n - 1);
    }
  }

  /** A ClientHello in parts is sent in the same frames as in one piece. */
  lemma SentAlike(parts: seq<seq<Byte>>, budgets: Budgets, n: nat)
    requires Locate(Joined(parts)).Found?
    ensures PopOn(Written(parts), budgets, n).h.sent == Popping(Joined(parts), budgets, n).h.sent
  {
    hide Locate, Hello, Written, Joined, Inv, PopOn;
    var p := Joined(parts);
    assert parts[..|parts|] == parts && Complete(parts, |parts|);
    WrittenIs(parts);
    WrittenInv(parts);
    HelloInv(p);
    HelloBuffer(p);
    SameSent(Written(parts), Hello(p), budgets, n);
  }

  /** However it is cut into parts, and whatever the budgets, a ClientHello with a host_name is never sent with the
      whole name in one frame, if and only if the name can be cut. */
  lemma NameWholeInParts(p: seq<Byte>)
    requires Sendable(p) && Locate(p).sniPos > 0
    ensures (forall parts, budgets: Budgets, n: nat | Joined(parts) == p && Sufficient(budgets) ::
               NoneHasName(PopOn(Written(parts), budgets, n).h.sent, p))
            <==> NameCuttable(p)
  {
    hide Locate, PopOn, Popping, Written, NoneHasName, Joined, NameCuttable, Sufficient;
    NameWholeExactly(p);
    if NameCuttable(p) {
      forall parts, budgets: Budgets, n: nat | Joined(parts) == p && Sufficient(budgets)
        ensures NoneHasName(PopOn(Written(parts), budgets, n).h.sent, p)
      {
        SentAlike(parts, budgets, n);
      }
    } else {
      var budgets: Budgets, n: nat :| Sufficient(budgets) && !NoneHasName(Popping(p, budgets, n).h.sent, p);
      JoinedOne(p);
      SentAlike([p], budgets, n);
    }
  }

  lemma JoinedOne(p: seq<Byte>)
    ensures Joined([p]) == p
  {
    assert [p][..0] == [];
  }

  /** Write a ClientHello in parts and pop frames while there is data. */
  method SendClientHello(parts: seq<seq<Byte>>, budgets: Budgets)
    returns (frames: seq<CryptoFrame>, n: nat, more: bool)
    ensures frames == PopOn(Written(parts), budgets, n).h.sent && more == HasData(PopOn(Written(parts), budgets, n).s)
    ensures more ==> PopStep(PopOn(Written(parts), budgets, n).s, budgets(n)).1 == None
    ensures AllParts(frames, Joined(parts))
    ensures Joined(parts) != [] && !more && (forall x | 0 <= x < |Joined(parts)| :: SentAt(frames, x)) ==> Sends(parts)
    ensures Sufficient(budgets) && Sends(parts) ==> !more && forall x | 0 <= x < |Joined(parts)| :: SentAt(frames, x)
    ensures NameCuttable(Joined(parts)) ==> NoneHasName(frames, Joined(parts))
  {
    hide Locate, SentAt, AllParts, Sends, NameCuttable, NoneHasName, PopStep, Inv, Sufficient, WriteStep, Completes;
    var s := new InitialCryptoStream(true);
    assert parts[..0] == [];
    for i := 0 to |parts|
      invariant fresh(s) && Bounded(s.Now()) && s.Now() == Written(parts[..i]).s
    {
      assert parts[..i + 1][..i] == parts[..i];
      var _ := s.Write(parts[i]);
    }
    assert parts[..|parts|] == parts;
    frames, n := [], 0;
    WrittenInv(parts);
    ghost var w := Written(parts);
    more := s.CheckData();
    while more
      invariant fresh(s) && Bounded(s.Now()) && s.Now() == PopOn(w, budgets, n).s
                && frames == PopOn(w, budgets, n).h.sent
      invariant more == HasData(s.Now())
      decreases Left(s.Now()), more
    {
      hide Left;
      var f := s.PopCryptoFrame(budgets(n));
      if f.None? {
        break;
      }
      PopShrinks(PopOn(w, budgets, n).s, budgets(n));
      frames := frames + [f.value];
      n := n + 1;
      more := s.CheckData();
    }
    Outcome(parts, budgets, n, more);
    if NameCuttable(Joined(parts)) {
      CuttableFound(Joined(parts));
      SentAlike(parts, budgets, n);
      NameNeverWhole(Joined(parts), budgets, n);
    }
  }

  lemma CuttableFound(p: seq<Byte>)
    requires NameCuttable(p)
    ensures Locate(p).Found?
  {
  }

  // Popping has come to an end: everything has been sent if and only if it could be.
  lemma Outcome(parts: seq<seq<Byte>>, budgets: Budgets, n: nat, more: bool)
    requires more == HasData(PopOn(Written(parts), budgets, n).s)
    requires more ==> PopStep(PopOn(Written(parts), budgets, n).s, budgets(n)).1 == None
    ensures var frames := PopOn(Written(parts), budgets, n).h.sent;
            && AllParts(frames, Joined(parts))
            && (Joined(parts) != [] && !more && (forall x | 0 <= x < |Joined(parts)| :: SentAt(frames, x)) ==>
                  Sends(parts))
            && (Sufficient(budgets) && Sends(parts) ==>
                  !more && forall x | 0 <= x < |Joined(parts)| :: SentAt(frames, x))
  {
    hide Sends, SentAt, AllParts, CutApart, PopStep, Written, PopOn;
    var w := Written(parts);
    var v := PopOn(w, budgets, n);
    PartsStart(parts);
    WrittenInv(parts);
    PopOnInv(w, budgets, n);
    if Sends(parts) {
      if Sufficient(budgets) {
        StillGoing(w, budgets, n);
        if v.s.scramble || v.s.writeBuf != [] {
          PopProgress(v.s, budgets(n));
        }
      }
    } else if !more && Joined(parts) != [] {
      SilentSent(w, budgets, n);
    }
  }

  lemma {:induction false} StillGoing(w: World, budgets: Budgets, n: nat)
    requires Bounded(w.s) && Going(w.s)
    ensures Going(PopOn(w, budgets, n).s)
  {
    hide PopStep, Going;
    if n > 0 {
      StillGoing(w, budgets, n - 1);
      var s := PopOn(w, budgets, n - 1).s;
      if HasData(s) {
        PopGoing(s, budgets(n - 1));
      }
    }
  }

  lemma {:induction false} SentMoves(w: World, budgets: Budgets, n: nat)
    requires Bounded(w.s) && (Silent(w.s) || Stuck(w.s)) && w.h.sent == []
    ensures var v := PopOn(w, budgets, n); v.s.scramble && (v.h.sent != [] ==> v.s.writeOffset > 0)
  {
    hide PopStep;
    NeverDrains(w, budgets, n);
    if n > 0 {
      SentMoves(w, budgets, n - 1);
      var v := PopOn(w, budgets, n - 1);
      PopMoves(v.s, budgets(n - 1));
    }
  }

  // Without data to offer although something is left, nothing has been sent.
  lemma SilentSent(w: World, budgets: Budgets, n: nat)
    requires Inv(w.s, w.h) && (Silent(w.s) || Stuck(w.s)) && w.h.sent == [] && w.h.written != []
    requires !HasData(PopOn(w, budgets, n).s)
    ensures !SentAt(PopOn(w, budgets, n).h.sent, 0)
  {
    hide PopOn, AllParts, CutApart;
    NeverDrains(w, budgets, n);
    SentMoves(w, budgets, n);
    PopOnInv(w, budgets, n);
  }
}
