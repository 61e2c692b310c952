/** Whole runs of the connection ID manager. */
module ConnIDRuns {
  import opened StreamBytes
  import opened ConnIDs
  import opened ConnIDStates
  import opened ConnIDManaging

  datatype Event =
    | NewID(frame: NewConnectionIDFrame, random: nat)
    | Get(random: nat)
    | GetForPath(id: PathID)
    | RetireForPath(id: PathID)
    | Sent
    | HandshakeDone

  predicate Possible(e: Event) {
    e.NewID? ==> Parsed(e.frame)
  }

  ghost function Step(s: State, e: Event): (State, Option<Error>) {
    match e
    case NewID(f, random) => AddStep(s, f, random)
    case Get(random) => (GetStep(s, random), None)
    case GetForPath(id) => (ProbeStep(s, id), None)
    case RetireForPath(id) => (RetirePathStep(s, id), None)
    case Sent => (SentStep(s), None)
    case HandshakeDone => (s.(handshakeComplete := true), None)
  }

  /** The transport parameters may bring a reset token, and the ID of a preferred address. */
  function Start(initial: seq<Byte>, token: Option<Token>, preferred: Option<NewConnID>): State {
    var s := if token.Some? then SetTokenStep(Initial(initial), token.value) else Initial(initial);
    if preferred.Some? then s.(queue := Insert(s.queue, preferred.value.(seqNum := 1))) else s
  }

  ghost function Run(start: State, es: seq<Event>): State {
    if es == [] then start else Step(Run(start, es[..|es| - 1]), es[|es| - 1]).0
  }

  // Up to the last event, there was no error.
  ghost predicate Succeeds(start: State, es: seq<Event>) {
    forall i | 0 <= i < |es| :: Possible(es[i]) && Step(Run(start, es[..i]), es[i]).1 == None
  }

  lemma SucceedsBefore(start: State, es: seq<Event>)
    requires es != [] && Succeeds(start, es)
    ensures Succeeds(start, es[..|es| - 1]) && Possible(es[|es| - 1])
    ensures Step(Run(start, es[..|es| - 1]), es[|es| - 1]).1 == None
  {
    hide Step, Run;
    var before := es[..|es| - 1];
    forall i | 0 <= i < |before| ensures Possible(before[i]) && Step(Run(start, before[..i]), before[i]).1 == None {
      assert before[..i] == es[..i] && before[i] == es[i];
    }
  }

  /** The sequence numbers in use: active, queued, or probing a path. */
  ghost function InUse(s: State): multiset<nat> {
    multiset{s.active} + Numbers(s.queue) + ProbingNumbers(s.probing)
  }

  ghost predicate InProbing(probing: map<PathID, NewConnID>, n: nat) {
    exists id | id in probing :: probing[id].seqNum == n
  }

  lemma {:induction false} ProbingHas(probing: map<PathID, NewConnID>, n: nat)
    ensures n in ProbingNumbers(probing) <==> InProbing(probing, n)
    decreases |probing|
  {
    hide ProbingNumbers, ProbingTokens;
    NoNumbers();
    if probing != map[] {
      var id :| id in probing;
      ProbingWithout(probing, id);
      ProbingHas(probing - {id}, n);
      assert forall k | k in probing && k != id :: k in probing - {id} && (probing - {id})[k] == probing[k];
    }
  }

  /** The numbers that were retired or probe a path are not above the active one and the one probed last. */
  ghost predicate Known(active: nat, highestProbing: nat, probing: map<PathID, NewConnID>, retired: multiset<nat>) {
    && (forall n | n in retired :: n <= Max(active, highestProbing))
    && (forall id | id in probing :: probing[id].seqNum <= highestProbing)
    && (highestProbing == 0 || InProbing(probing, highestProbing) || highestProbing in retired)
  }

  ghost predicate Inv(s: State) {
    && Ordered(s.queue, s.active, s.highestRetired, s.highestProbing) && s.highestRetired <= s.active
    && Known(s.active, s.highestProbing, s.probing, s.retired)
    && s.registered == TokensInUse(s.activeToken, s.probing) && !s.closed
  }

  lemma StartInv(initial: seq<Byte>, token: Option<Token>, preferred: Option<NewConnID>)
    ensures Inv(Start(initial, token, preferred))
    ensures var s := Start(initial, token, preferred);
            InUse(s) == (if preferred.Some? then multiset{0, 1} else multiset{0}) && s.retired == multiset{}
  {
    hide Inv, InUse;
    PlainStartInv(initial, token);
    if preferred.Some? {
      PreferredInv(Start(initial, token, None), preferred.value.(seqNum := 1));
    }
  }

  lemma PlainStartInv(initial: seq<Byte>, token: Option<Token>)
    ensures var s := Start(initial, token, None);
            && Inv(s) && InUse(s) == multiset{0} && s.retired == multiset{} && s.queue == [] && s.probing == map[]
            && s.active == s.highestRetired == s.highestProbing == 0
  {
    hide ProbingNumbers, ProbingTokens, Numbers;
    NoNumbers();
    NoTokens();
    NumbersNone();
  }

  lemma PreferredInv(s: State, e: NewConnID)
    requires Inv(s) && s.queue == [] && s.probing == map[] && s.active == s.highestRetired == s.highestProbing == 0
    requires e.seqNum == 1
    ensures var t := s.(queue := Insert(s.queue, e)); Inv(t) && InUse(t) == multiset{0, 1}
  {
    hide ProbingNumbers, ProbingTokens, Numbers, TokensInUse, Known;
    NoNumbers();
    NumbersNone();
    NumbersFirst(e, []);
    assert [e] + [] == [e] == Insert([], e);
    assert multiset{0} + (multiset{1} + multiset{}) + multiset{} == multiset{0, 1};
  }

  lemma RetireProbingKeeps(s: State, n: nat)
    requires Inv(s)
    ensures Inv(RetireProbing(s, n))
    ensures var t := RetireProbing(s, n);
            var moved := ProbingNumbers(Below(s.probing, n));
            InUse(t) + moved == InUse(s) && t.retired == s.retired + moved && forall x | x in moved :: x < n
  {
    hide Ordered, ProbingNumbers, ProbingTokens, Numbers, Known, InUse, TokensInUse;
    ProbingSplit(s.probing, n);
    BelowNumbers(s.probing, n);
    RetiredKnown(s.active, s.highestProbing, s.probing, s.retired, n);
    InUseLess(s, RetireProbing(s, n), ProbingNumbers(Below(s.probing, n)));
    TokensLess(s.activeToken, s.probing, Surviving(s.probing, n), ProbingTokens(Below(s.probing, n)));
  }

  lemma InUseLess(s: State, t: State, moved: multiset<nat>)
    requires t.active == s.active && t.queue == s.queue
             && ProbingNumbers(s.probing) == ProbingNumbers(t.probing) + moved
    ensures InUse(t) + moved == InUse(s)
  {
    hide ProbingNumbers, Numbers;
  }

  lemma TokensLess(token: Option<Token>, probing: map<PathID, NewConnID>, left: map<PathID, NewConnID>,
                   gone: multiset<Token>)
    requires ProbingTokens(probing) == ProbingTokens(left) + gone
    ensures TokensInUse(token, probing) - gone == TokensInUse(token, left)
  {
    hide ProbingTokens;
    assert TokensInUse(token, probing) == TokensInUse(token, left) + gone;
    TakeAway(TokensInUse(token, left), gone);
  }

  lemma TakeAway(a: multiset<Token>, b: multiset<Token>)
    ensures a + b - b == a
  {
  }

  lemma BelowNumbers(probing: map<PathID, NewConnID>, n: nat)
    ensures forall x | x in ProbingNumbers(Below(probing, n)) :: x < n && InProbing(probing, x)
  {
    hide ProbingNumbers;
    var below := Below(probing, n);
    forall x | x in ProbingNumbers(below) ensures x < n && InProbing(probing, x) {
      ProbingHas(below, x);
      var id :| id in below && below[id].seqNum == x;
      assert id in probing && probing[id].seqNum == x;
    }
  }

  lemma RetiredKnown(active: nat, highestProbing: nat, probing: map<PathID, NewConnID>, retired: multiset<nat>, n: nat)
    requires Known(active, highestProbing, probing, retired)
    ensures Known(active, highestProbing, Surviving(probing, n), retired + ProbingNumbers(Below(probing, n)))
  {
    hide ProbingNumbers;
    var below, left := Below(probing, n), Surviving(probing, n);
    forall x | x in ProbingNumbers(below) ensures x <= highestProbing {
      ProbingHas(below, x);
      var id :| id in below && below[id].seqNum == x;
      assert id in probing;
    }
    if InProbing(probing, highestProbing) {
      var id :| id in probing && probing[id].seqNum == highestProbing;
      if highestProbing >= n {
        assert id in left && left[id].seqNum == highestProbing;
      } else {
        assert id in below && below[id].seqNum == highestProbing;
        ProbingHas(below, highestProbing);
      }
    }
  }

  // The numbers that RetireQueued moves.
  ghost function MovedFromQueue(s: State, n: nat): multiset<nat> {
    if n <= s.highestRetired then multiset{} else Numbers(Dropped(s.queue, n))
  }

  lemma RetireQueuedKeeps(s: State, n: nat)
    requires Inv(s)
    ensures var t := RetireQueued(s, n);
            && Ordered(t.queue, s.active, t.highestRetired, s.highestProbing)
            && t.highestRetired == Max(s.highestRetired, n)
            && InUse(t) + MovedFromQueue(s, n) == InUse(s) && t.retired == s.retired + MovedFromQueue(s, n)
            && (forall x | x in MovedFromQueue(s, n) :: x < n)
            && (forall e :: e in t.queue <==> e in s.queue && e.seqNum >= n)
  {
    hide ProbingNumbers, ProbingTokens, Numbers, Known, TokensInUse;
    if n > s.highestRetired {
      KeptMembers(s.queue, n);
      KeptIncreasing(s.queue, n);
      KeptNumbers(s.queue, n);
      DroppedBelow(s.queue, n);
    } else {
      assert s.retired + multiset{} == s.retired && InUse(s) + multiset{} == InUse(s);
    }
  }

  lemma {:induction false} DroppedBelow(q: seq<NewConnID>, n: nat)
    ensures forall x | x in Numbers(Dropped(q, n)) :: x < n
  {
    hide Numbers;
    if q == [] {
      NumbersNone();
    } else {
      var m := |q| - 1;
      DroppedBelow(q[..m], n);
      NumbersAppend(Dropped(q[..m], n), q[m]);
      assert Dropped(q[..m], n) + [] == Dropped(q[..m], n);
    }
  }

  lemma SwitchKeeps(s: State, random: nat)
    requires s.queue != [] && Ordered(s.queue, s.active, s.highestRetired, s.highestProbing)
    requires s.registered == TokensInUse(s.activeToken, s.probing)
    ensures var t := Switch(s, random);
            && t.active > s.active && Ordered(t.queue, t.active, t.highestRetired, s.highestProbing)
            && t.registered == TokensInUse(t.activeToken, t.probing)
            && InUse(t) + multiset{s.active} == InUse(s) && t.retired == s.retired + multiset{s.active}
  {
    hide ProbingNumbers, ProbingTokens, Numbers, Ordered;
    DequeueOrdered(s.queue, s.active, s.highestRetired, s.highestProbing);
    assert s.queue == [s.queue[0]] + s.queue[1..];
    NumbersFirst(s.queue[0], s.queue[1..]);
  }

  // The numbers that a frame retires before its own ID is kept.
  ghost function MovedBy(s: State, n: nat): multiset<nat> {
    ProbingNumbers(Below(s.probing, n)) + MovedFromQueue(RetireProbing(s, n), n)
  }

  lemma RetirePriorKeeps(s: State, n: nat)
    requires Inv(s)
    ensures var t := RetirePrior(s, n);
            && Ordered(t.queue, s.active, t.highestRetired, s.highestProbing)
            && t.highestRetired == Max(s.highestRetired, n)
            && Known(Max(s.active, n), s.highestProbing, t.probing, t.retired)
            && t.registered == TokensInUse(t.activeToken, t.probing)
            && InUse(t) + MovedBy(s, n) == InUse(s) && t.retired == s.retired + MovedBy(s, n)
            && (forall x | x in MovedBy(s, n) :: x < n)
            && (forall e :: e in t.queue <==> e in s.queue && e.seqNum >= n)
            && t == s.(queue := t.queue, probing := Surviving(s.probing, n), retired := t.retired,
                       registered := t.registered,
                       highestRetired := t.highestRetired)
  {
    hide Ordered, ProbingNumbers, ProbingTokens, Numbers, Known, TokensInUse, InUse, MovedFromQueue;
    var p := RetireProbing(s, n);
    RetireProbingKeeps(s, n);
    RetireQueuedKeeps(p, n);
    KnownMore(s.active, s.highestProbing, p.probing, p.retired, MovedFromQueue(p, n), n);
  }

  lemma KnownMore(active: nat, highestProbing: nat, probing: map<PathID, NewConnID>, retired: multiset<nat>,
                  more: multiset<nat>, n: nat)
    requires Known(active, highestProbing, probing, retired) && forall x | x in more :: x <= n
    ensures Known(Max(active, n), highestProbing, probing, retired + more)
  {
  }

  /** A repeated frame that changes nothing but what it retires. */
  ghost predicate Absorbs(s: State, f: NewConnectionIDFrame) {
    !Discards(s, f) && (f.seqNum == s.active || Has(s.queue, f.seqNum))
  }

  ghost predicate Switches(s: State, f: NewConnectionIDFrame) {
    f.seqNum != s.active && s.active < f.retirePriorTo
  }

  ghost function Moved(s: State, f: NewConnectionIDFrame): multiset<nat> {
    MovedBy(s, f.retirePriorTo) + if Switches(s, f) then multiset{s.active} else multiset{}
  }

  // The frame's ID is added, and others move from in use to retired.
  ghost predicate Moves(s: State, f: NewConnectionIDFrame, t: State) {
    && InUse(t) + Moved(s, f) == InUse(s) + (if Absorbs(s, f) then multiset{} else multiset{f.seqNum})
    && t.retired == s.retired + Moved(s, f)
  }

  lemma MovedBelow(s: State, f: NewConnectionIDFrame)
    requires Inv(s)
    ensures forall x | x in Moved(s, f) :: x < f.retirePriorTo
  {
    hide Ordered, ProbingNumbers, ProbingTokens, Numbers, Known, TokensInUse, InUse, MovedBy, RetirePrior;
    RetirePriorKeeps(s, f.retirePriorTo);
  }

  lemma AcceptKeeps(s: State, f: NewConnectionIDFrame, random: nat)
    requires Inv(s) && Parsed(f) && !Discards(s, f) && AcceptStep(s, f, random).1 == None
    ensures Inv(AcceptStep(s, f, random).0) && Moves(s, f, AcceptStep(s, f, random).0)
  {
    hide Ordered, ProbingNumbers, ProbingTokens, Numbers, Known, TokensInUse, InUse, MovedBy, RetirePrior, Insert,
         Switch;
    RetirePriorKeeps(s, f.retirePriorTo);
    var t := RetirePrior(s, f.retirePriorTo);
    if f.seqNum == s.active {
      assert Max(s.active, f.retirePriorTo) == s.active;
    } else {
      EnqueueKeeps(s, f, t);
      var u := Enqueued(s, f);
      if s.active < f.retirePriorTo {
        SwitchKeeps(u, random);
        SwitchInv(u, f.retirePriorTo, random);
        Regroup(InUse(Switch(u, random)), multiset{s.active}, MovedBy(s, f.retirePriorTo));
        Regroup2(s.retired, MovedBy(s, f.retirePriorTo), multiset{s.active});
      } else {
        assert Max(s.active, f.retirePriorTo) == s.active;
      }
    }
  }

  lemma Regroup(a: multiset<nat>, b: multiset<nat>, c: multiset<nat>)
    ensures a + (c + b) == (a + b) + c
  {
  }

  lemma Regroup2(a: multiset<nat>, b: multiset<nat>, c: multiset<nat>)
    ensures a + (b + c) == (a + b) + c
  {
  }

  lemma EnqueueKeeps(s: State, f: NewConnectionIDFrame, t: State)
    requires Parsed(f) && !Discards(s, f) && f.seqNum != s.active
    requires t == RetirePrior(s, f.retirePriorTo) && t.active == s.active && t.highestProbing == s.highestProbing
    requires Ordered(t.queue, s.active, t.highestRetired, s.highestProbing)
             && t.highestRetired == Max(s.highestRetired, f.retirePriorTo)
    requires forall e :: e in t.queue <==> e in s.queue && e.seqNum >= f.retirePriorTo
    ensures var u := Enqueued(s, f);
            && u.queue != [] && Ordered(u.queue, u.active, u.highestRetired, u.highestProbing)
            && InUse(u) == InUse(t) + (if Has(s.queue, f.seqNum) then multiset{} else multiset{f.seqNum})
            && (forall e | e in u.queue :: e.seqNum >= f.retirePriorTo)
  {
    hide ProbingNumbers, Numbers, RetirePrior, Insert;
    InsertMembers(t.queue, Entry(f));
    InsertNumbers(t.queue, Entry(f));
    assert Has(t.queue, f.seqNum) <==> Has(s.queue, f.seqNum);
  }

  lemma SwitchInv(u: State, n: nat, random: nat)
    requires u.queue != [] && Ordered(u.queue, u.active, u.highestRetired, u.highestProbing) && u.active < n
             && u.highestRetired <= n
    requires forall e | e in u.queue :: e.seqNum >= n
    requires Known(Max(u.active, n), u.highestProbing, u.probing, u.retired)
             && u.registered == TokensInUse(u.activeToken, u.probing) && !u.closed
    ensures Inv(Switch(u, random))
  {
    hide Ordered, TokensInUse, InUse;
    SwitchKeeps(u, random);
    assert u.queue[0] in u.queue;
  }

  lemma DiscardKeeps(s: State, f: NewConnectionIDFrame)
    requires Inv(s) && Discards(s, f)
    ensures Inv(s.(retired := s.retired + multiset{f.seqNum}))
  {
    hide Ordered, TokensInUse;
  }

  lemma ProbeKeeps(s: State, id: PathID)
    requires Inv(s)
    ensures var t := ProbeStep(s, id); Inv(t) && InUse(t) == InUse(s) && t.retired == s.retired
  {
    hide Ordered, ProbingNumbers, ProbingTokens, Numbers, TokensInUse, Known;
    if |s.activeID| > 0 && id !in s.probing && s.queue != [] {
      var front := s.queue[0];
      DequeueOrdered(s.queue, s.active, s.highestRetired, s.highestProbing);
      ProbeInUse(s, id);
      ProbeTokens(s.activeToken, s.probing, id, front);
      FrontAbove(s);
      ProbeKnown(s, front, id);
    }
  }

  lemma ProbeInUse(s: State, id: PathID)
    requires s.queue != [] && id !in s.probing
    ensures InUse(s.(queue := s.queue[1..], probing := s.probing[id := s.queue[0]])) == InUse(s)
  {
    hide ProbingNumbers, Numbers;
    var front := s.queue[0];
    NumbersFirst(front, s.queue[1..]);
    assert s.queue == [front] + s.queue[1..];
    ProbingWith(s.probing, id, front);
  }

  lemma FrontAbove(s: State)
    requires s.queue != [] && Ordered(s.queue, s.active, s.highestRetired, s.highestProbing)
    ensures s.queue[0].seqNum >= s.highestProbing
  {
    assert s.queue[0] in s.queue;
  }

  lemma ProbeKnown(s: State, front: NewConnID, id: PathID)
    requires Known(s.active, s.highestProbing, s.probing, s.retired) && front.seqNum >= s.highestProbing
             && id !in s.probing
    ensures Known(s.active, front.seqNum, s.probing[id := front], s.retired)
  {
    var probing := s.probing[id := front];
    assert id in probing && probing[id].seqNum == front.seqNum;
  }

  lemma RetirePathKeeps(s: State, id: PathID)
    requires Inv(s)
    ensures var t := RetirePathStep(s, id);
            var moved := if |s.activeID| > 0 && id in s.probing then multiset{s.probing[id].seqNum} else multiset{};
            Inv(t) && InUse(t) + moved == InUse(s) && t.retired == s.retired + moved
  {
    hide Ordered, ProbingNumbers, ProbingTokens, Numbers;
    if |s.activeID| > 0 && id in s.probing {
      ProbingWithout(s.probing, id);
      LeaveKnown(s, id);
    }
  }

  lemma LeaveKnown(s: State, id: PathID)
    requires Known(s.active, s.highestProbing, s.probing, s.retired) && id in s.probing
    ensures Known(s.active, s.highestProbing, s.probing - {id}, s.retired + multiset{s.probing[id].seqNum})
  {
    if InProbing(s.probing, s.highestProbing) && s.probing[id].seqNum != s.highestProbing {
      var k :| k in s.probing && s.probing[k].seqNum == s.highestProbing;
      assert k in s.probing - {id} && (s.probing - {id})[k].seqNum == s.highestProbing;
    }
  }

  lemma SwitchKnown(s: State, random: nat)
    requires s.queue != [] && Known(s.active, s.highestProbing, s.probing, s.retired)
             && s.highestRetired <= s.active < Switch(s, random).active
    ensures var t := Switch(s, random);
            Known(t.active, t.highestProbing, t.probing, t.retired) && t.highestRetired <= t.active
              && t.closed == s.closed
  {
  }

  lemma GetKeeps(s: State, random: nat)
    requires Inv(s)
    ensures var t := GetStep(s, random);
            var moved := if ShouldUpdate(s) then multiset{s.active} else multiset{};
            Inv(t) && InUse(t) + moved == InUse(s) && t.retired == s.retired + moved
  {
    hide Ordered, ProbingNumbers, ProbingTokens, Numbers, InUse, TokensInUse;
    if ShouldUpdate(s) {
      SwitchKeeps(s, random);
      SwitchKnown(s, random);
    } else {
      assert InUse(s) + multiset{} == InUse(s);
    }
  }

  /** The ID for a packet is a new one exactly if the handshake is complete and either the first ID can be replaced,
      or two are on hand and enough packets were sent; hence no ID is used for more packets while two are on hand. */
  lemma RotatesExactly(s: State, random: nat)
    requires Inv(s)
    ensures var t := GetStep(s, random);
            && (t.active != s.active <==>
                && s.handshakeComplete && s.queue != []
                && (s.active == 0 || (|s.queue| >= 2 && s.packets >= s.packetsPerID)))
            && (t.active == s.active ==> t == s)
            && (s.handshakeComplete && |s.queue| >= 2 ==> t.active != 0 && t.packets < t.packetsPerID)
  {
    hide ProbingNumbers, ProbingTokens, Known, TokensInUse, Register, Unregister;
    if s.queue != [] {
      assert s.queue[0] in s.queue;
    }
  }

  /** The entry comes from a frame, or is that of the preferred address. */
  ghost predicate GivenEntry(e: NewConnID, preferred: Option<NewConnID>, es: seq<Event>) {
    || (preferred.Some? && e == preferred.value.(seqNum := 1))
    || exists i :: 0 <= i < |es| && es[i].NewID? && Entry(es[i].frame) == e
  }

  /** Every ID is used with the number and the token that it was given with; number 0 is that of the handshake. */
  ghost predicate AsGiven(s: State, initial: seq<Byte>, token: Option<Token>, preferred: Option<NewConnID>,
                          es: seq<Event>) {
    && (|| (s.active == 0 && s.activeID == initial && s.activeToken == token)
        || (s.activeToken.Some? && GivenEntry(NewConnID(s.active, s.activeID, s.activeToken.value), preferred, es)))
    && (forall e | e in s.queue :: GivenEntry(e, preferred, es))
    && (forall id | id in s.probing :: GivenEntry(s.probing[id], preferred, es))
  }

  lemma {:induction false} InsertWithin(q: seq<NewConnID>, e: NewConnID)
    ensures forall x | x in Insert(q, e) :: x in q || x == e
  {
    if q != [] {
      InsertWithin(q[1..], e);
    }
  }

  lemma GivenMore(s: State, initial: seq<Byte>, token: Option<Token>, preferred: Option<NewConnID>, es: seq<Event>,
                  e: Event)
    requires AsGiven(s, initial, token, preferred, es)
    ensures AsGiven(s, initial, token, preferred, es + [e])
  {
    var all := es + [e];
    forall x: NewConnID | GivenEntry(x, preferred, es) ensures GivenEntry(x, preferred, all) {
      if i :| 0 <= i < |es| && es[i].NewID? && Entry(es[i].frame) == x {
        assert all[i] == es[i];
      }
    }
  }

  lemma SwitchAsGiven(s: State, random: nat, initial: seq<Byte>, token: Option<Token>, preferred: Option<NewConnID>,
                      es: seq<Event>)
    requires AsGiven(s, initial, token, preferred, es) && s.queue != []
    ensures AsGiven(Switch(s, random), initial, token, preferred, es)
  {
    hide GivenEntry, Register, Unregister, TokenOf;
    assert s.queue[0] in s.queue;
    assert forall x | x in s.queue[1..] :: x in s.queue;
  }

  lemma AcceptAsGiven(s: State, f: NewConnectionIDFrame, random: nat, initial: seq<Byte>, token: Option<Token>,
                      preferred: Option<NewConnID>, es: seq<Event>)
    requires AsGiven(s, initial, token, preferred, es) && GivenEntry(Entry(f), preferred, es)
    ensures AsGiven(AcceptStep(s, f, random).0, initial, token, preferred, es)
  {
    hide GivenEntry, Register, Unregister, Switch, Conflicts, Insert, Kept, Dropped, Numbers, ProbingNumbers,
         ProbingTokens, Below;
    var t := RetirePrior(s, f.retirePriorTo);
    KeptMembers(s.queue, f.retirePriorTo);
    assert AsGiven(t, initial, token, preferred, es);
    InsertWithin(t.queue, Entry(f));
    var u := Enqueued(s, f);
    assert AsGiven(u, initial, token, preferred, es);
    if u.queue != [] {
      SwitchAsGiven(u, random, initial, token, preferred, es);
    }
  }

  lemma StepAsGiven(s: State, e: Event, initial: seq<Byte>, token: Option<Token>, preferred: Option<NewConnID>,
                    es: seq<Event>)
    requires AsGiven(s, initial, token, preferred, es) && es != [] && es[|es| - 1] == e
    ensures AsGiven(Step(s, e).0, initial, token, preferred, es)
  {
    hide GivenEntry, Register, Unregister, AcceptStep, Switch, ShouldUpdate;
    match e
    case NewID(f, random) =>
      assert GivenEntry(Entry(f), preferred, es) by { LastGiven(e, preferred, es); }
      AcceptAsGiven(s, f, random, initial, token, preferred, es);
    case Get(random) =>
      if ShouldUpdate(s) {
        SwitchNeedsQueue(s);
        SwitchAsGiven(s, random, initial, token, preferred, es);
      }
    case _ =>
      assert forall x | s.queue != [] && x in s.queue[1..] :: x in s.queue;
  }

  lemma SwitchNeedsQueue(s: State)
    requires ShouldUpdate(s)
    ensures s.queue != []
  {
  }

  lemma LastGiven(e: Event, preferred: Option<NewConnID>, es: seq<Event>)
    requires es != [] && es[|es| - 1] == e && e.NewID?
    ensures GivenEntry(Entry(e.frame), preferred, es)
  {
  }

  /** In every run, all IDs in use are as the peer gave them. */
  lemma {:induction false} RunAsGiven(initial: seq<Byte>, token: Option<Token>, preferred: Option<NewConnID>,
                                      es: seq<Event>)
    ensures AsGiven(Run(Start(initial, token, preferred), es), initial, token, preferred, es)
  {
    hide Step, AsGiven;
    var start := Start(initial, token, preferred);
    if es == [] {
      StartAsGiven(initial, token, preferred);
    } else {
      var n := |es| - 1;
      RunAsGiven(initial, token, preferred, es[..n]);
      GivenMore(Run(start, es[..n]), initial, token, preferred, es[..n], es[n]);
      assert es == es[..n] + [es[n]];
      StepAsGiven(Run(start, es[..n]), es[n], initial, token, preferred, es);
    }
  }

  lemma StartAsGiven(initial: seq<Byte>, token: Option<Token>, preferred: Option<NewConnID>)
    ensures AsGiven(Start(initial, token, preferred), initial, token, preferred, [])
  {
  }

  // The error of an event that may leave the manager in disorder.
  ghost predicate Conflicting(s: State, e: Event) {
    Step(s, e).1 == Some(ConflictingConnectionIDs)
  }

  lemma StepKeepsInv(s: State, e: Event)
    requires Inv(s) && Possible(e) && !Conflicting(s, e)
    ensures Inv(Step(s, e).0)
  {
    hide Ordered, ProbingNumbers, ProbingTokens, Numbers, Known, TokensInUse, AcceptStep, Switch;
    match e
    case NewID(f, random) =>
      if |s.activeID| > 0 {
        if Discards(s, f) {
          DiscardKeeps(s, f);
        } else {
          AcceptErrors(s, f, random);
          AcceptKeeps(s, f, random);
        }
      }
    case Get(random) => GetKeeps(s, random);
    case GetForPath(id) => ProbeKeeps(s, id);
    case RetireForPath(id) => RetirePathKeeps(s, id);
    case _ =>
  }

  lemma AcceptErrors(s: State, f: NewConnectionIDFrame, random: nat)
    ensures AcceptStep(s, f, random).1 == None || AcceptStep(s, f, random).1 == Some(ConflictingConnectionIDs)
  {
  }

  lemma {:induction false} RunKeepsInv(start: State, es: seq<Event>)
    requires Inv(start) && Succeeds(start, es)
    ensures Inv(Run(start, es))
  {
    hide Inv, Step, Succeeds;
    if es != [] {
      SucceedsBefore(start, es);
      RunKeepsInv(start, es[..|es| - 1]);
      StepKeepsInv(Run(start, es[..|es| - 1]), es[|es| - 1]);
    }
  }

  /** Each number in use is in one place, and has not been retired. */
  ghost predicate Clean(inUse: multiset<nat>, retired: multiset<nat>) {
    forall n :: inUse[n] <= 1 && (n in inUse ==> n !in retired)
  }

  /** That is: it is the active one, or queued, or probes one path, and no two of these. */
  lemma CleanMeans(s: State, n: nat)
    requires Clean(InUse(s), s.retired)
    ensures n == s.active ==> !Has(s.queue, n) && !InProbing(s.probing, n) && n !in s.retired
    ensures Has(s.queue, n) ==> !InProbing(s.probing, n) && n !in s.retired
    ensures InProbing(s.probing, n) ==> n !in s.retired
    ensures forall id, id' | id in s.probing && id' in s.probing
            && s.probing[id].seqNum == s.probing[id'].seqNum == n :: id == id'
  {
    hide Numbers, ProbingNumbers, ProbingTokens, Has, InProbing;
    NumbersHas(s.queue, n);
    ProbingHas(s.probing, n);
    assert InUse(s)[n] <= 1;
    forall id, id' | id in s.probing && id' in s.probing
        && s.probing[id].seqNum == s.probing[id'].seqNum == n ensures id == id' {
      SamePath(s.probing, id, id');
    }
  }

  lemma SamePath(probing: map<PathID, NewConnID>, id: PathID, id': PathID)
    requires id in probing && id' in probing && probing[id].seqNum == probing[id'].seqNum
    ensures id == id' || ProbingNumbers(probing)[probing[id].seqNum] >= 2
  {
    hide ProbingNumbers, ProbingTokens;
    ProbingWithout(probing, id);
    if id != id' {
      ProbingWithout(probing - {id}, id');
    }
  }

  /** The frame brings back a number that is known: that of the path probed last. */
  predicate BringsBack(s: State, f: NewConnectionIDFrame) {
    && !Discards(s, f) && f.seqNum != s.active && (forall e | e in s.queue :: e.seqNum != f.seqNum)
    && f.seqNum == s.highestProbing
  }

  /** The frame retires a number that is in use. */
  predicate RetiresInUse(s: State, f: NewConnectionIDFrame) {
    Discards(s, f) && (f.seqNum == s.active || exists id | id in s.probing :: s.probing[id].seqNum == f.seqNum)
  }

  /** In every reachable state, a frame adds a known number to the queue if and only if it brings it back, and
      retires one that is in use if and only if RetiresInUse says so. */
  lemma KnownNumber(s: State, f: NewConnectionIDFrame)
    requires Inv(s)
    ensures !Discards(s, f) && !Absorbs(s, f) && (f.seqNum in InUse(s) || f.seqNum in s.retired) <==> BringsBack(s, f)
    ensures Discards(s, f) && f.seqNum in InUse(s) <==> RetiresInUse(s, f)
  {
    hide ProbingNumbers, ProbingTokens, Numbers, TokensInUse;
    NumbersHas(s.queue, f.seqNum);
    ProbingHas(s.probing, f.seqNum);
  }

  lemma MoveClean(inUse: multiset<nat>, retired: multiset<nat>, moved: multiset<nat>, inUse': multiset<nat>,
                  retired': multiset<nat>)
    requires Clean(inUse, retired) && inUse' + moved == inUse && retired' == retired + moved
    ensures Clean(inUse', retired')
  {
    forall n ensures inUse'[n] <= 1 && (n in inUse' ==> n !in retired') {
      assert (inUse' + moved)[n] == inUse'[n] + moved[n] == inUse[n];
      assert inUse[n] <= 1 && (n in inUse ==> n !in retired);
    }
  }

  lemma AddClean(inUse: multiset<nat>, retired: multiset<nat>, n: nat)
    requires Clean(inUse, retired)
    ensures Clean(inUse + multiset{n}, retired) <==> n !in inUse && n !in retired
  {
    var more := inUse + multiset{n};
    assert more[n] == inUse[n] + 1;
    if n !in inUse && n !in retired {
      forall x ensures more[x] <= 1 && (x in more ==> x !in retired) {
        assert x != n ==> more[x] == inUse[x];
      }
    }
  }

  lemma AcceptClean(s: State, f: NewConnectionIDFrame, t: State)
    requires Inv(s) && Parsed(f) && !Discards(s, f) && Moves(s, f, t) && Clean(InUse(s), s.retired)
    ensures Clean(InUse(t), t.retired) <==> !BringsBack(s, f)
  {
    hide Inv, InUse, Moved, Clean, BringsBack;
    KnownNumber(s, f);
    MovedBelow(s, f);
    var n, more := f.seqNum, if Absorbs(s, f) then multiset{} else multiset{f.seqNum};
    AddClean(InUse(s), s.retired, n);
    if Absorbs(s, f) {
      assert InUse(s) + more == InUse(s);
      MoveClean(InUse(s), s.retired, Moved(s, f), InUse(t), t.retired);
    } else if n !in InUse(s) && n !in s.retired {
      MoveClean(InUse(s) + more, s.retired, Moved(s, f), InUse(t), t.retired);
    } else {
      StaysKnown(InUse(s), s.retired, Moved(s, f), InUse(t), t.retired, n);
    }
  }

  lemma StaysKnown(inUse: multiset<nat>, retired: multiset<nat>, moved: multiset<nat>, inUse': multiset<nat>,
                   retired': multiset<nat>, n: nat)
    requires inUse' + moved == inUse + multiset{n} && retired' == retired + moved && n !in moved
             && (n in inUse || n in retired)
    ensures !Clean(inUse', retired')
  {
    assert (inUse' + moved)[n] == inUse'[n] + moved[n];
    assert inUse'[n] == inUse[n] + 1;
  }

  /** An event that a caller can tell from the state before. */
  predicate Spoils(s: State, e: Event) {
    e.NewID? && |s.activeID| > 0 && (BringsBack(s, e.frame) || RetiresInUse(s, e.frame))
  }

  /** Exactly those events put a number in two places, or retire one that is in use. */
  lemma SpoilsExactly(s: State, e: Event)
    requires Inv(s) && Possible(e) && !Conflicting(s, e) && Clean(InUse(s), s.retired)
    ensures var t := Step(s, e).0;
            Clean(InUse(t), t.retired) <==> !Spoils(s, e)
  {
    hide Inv, InUse, Clean, AcceptStep, GetStep, Moves, BringsBack, RetiresInUse;
    var t := Step(s, e).0;
    match e
    case NewID(f, random) =>
      if |s.activeID| > 0 {
        KnownNumber(s, f);
        if Discards(s, f) {
          BothDiscarded(s, f);
          DiscardClean(InUse(s), s.retired, f.seqNum);
          assert InUse(t) == InUse(s) by { SameInUse(s, t); }
        } else {
          AcceptErrors(s, f, random);
          AcceptKeeps(s, f, random);
          AcceptClean(s, f, t);
          BothAccepted(s, f);
        }
      }
    case Get(random) =>
      GetKeeps(s, random);
      MoveClean(InUse(s), s.retired, if ShouldUpdate(s) then multiset{s.active} else multiset{}, InUse(t), t.retired);
    case GetForPath(id) => ProbeKeeps(s, id);
    case RetireForPath(id) =>
      RetirePathKeeps(s, id);
      MoveClean(InUse(s), s.retired, if |s.activeID| > 0 && id in s.probing then multiset{s.probing[id].seqNum}
                else multiset{},
                InUse(t), t.retired);
    case _ => SameInUse(s, t);
  }

  lemma SameInUse(s: State, t: State)
    requires t.active == s.active && t.queue == s.queue && t.probing == s.probing
    ensures InUse(t) == InUse(s)
  {
  }

  lemma BothDiscarded(s: State, f: NewConnectionIDFrame)
    requires Discards(s, f)
    ensures !BringsBack(s, f)
  {
  }

  lemma BothAccepted(s: State, f: NewConnectionIDFrame)
    requires !Discards(s, f)
    ensures !RetiresInUse(s, f)
  {
  }

  lemma DiscardClean(inUse: multiset<nat>, retired: multiset<nat>, n: nat)
    requires Clean(inUse, retired)
    ensures Clean(inUse, retired + multiset{n}) <==> n !in inUse
  {
    var more := retired + multiset{n};
    assert n in more;
    if n !in inUse {
      forall x ensures inUse[x] <= 1 && (x in inUse ==> x !in more) {
      }
    }
  }

  /** In every run in which no event spoils it, each number in use is in one place and has not been retired. */
  lemma {:induction false} RunClean(start: State, es: seq<Event>)
    requires Inv(start) && Succeeds(start, es) && Clean(InUse(start), start.retired)
    requires forall i | 0 <= i < |es| :: !Spoils(Run(start, es[..i]), es[i])
    ensures var s := Run(start, es); Clean(InUse(s), s.retired)
  {
    hide Inv, Step, Succeeds, Clean, InUse, Spoils;
    if es != [] {
      var n := |es| - 1;
      SucceedsBefore(start, es);
      forall i | 0 <= i < n ensures !Spoils(Run(start, es[..n][..i]), es[..n][i]) {
        assert es[..n][..i] == es[..i] && es[..n][i] == es[i];
      }
      RunClean(start, es[..n]);
      RunKeepsInv(start, es[..n]);
      SpoilsExactly(Run(start, es[..n]), es[n]);
    }
  }

  /** Sequence number 0 is that of the handshake, 1 that of the preferred address. */
  ghost function Arrived(preferred: bool, events: seq<Event>): multiset<nat> {
    if events == [] then if preferred then multiset{0, 1} else multiset{0}
    else
      var before := Arrived(preferred, events[..|events| - 1]);
      var e := events[|events| - 1];
      if e.NewID? then before + multiset{e.frame.seqNum} else before
  }

  ghost predicate OnceOnly(arrived: multiset<nat>) {
    forall n :: arrived[n] <= 1
  }

  // What an event adds to the places of sequence numbers.
  ghost function Added(s: State, e: Event): multiset<nat> {
    if e.NewID? && |s.activeID| > 0 && !Absorbs(s, e.frame) then multiset{e.frame.seqNum} else multiset{}
  }

  lemma StepPlaces(s: State, e: Event)
    requires Inv(s) && Possible(e) && !Conflicting(s, e)
    ensures var t := Step(s, e).0; InUse(t) + t.retired == InUse(s) + s.retired + Added(s, e)
  {
    hide Inv, InUse, AcceptStep, GetStep, Moved, Absorbs;
    var t := Step(s, e).0;
    match e
    case NewID(f, random) =>
      if |s.activeID| > 0 {
        if Discards(s, f) {
          SameInUse(s, t);
          assert !Absorbs(s, f) by { NotAbsorbed(s, f); }
        } else {
          AcceptErrors(s, f, random);
          AcceptKeeps(s, f, random);
          Total(InUse(s), s.retired, Moved(s, f), Added(s, e), InUse(t), t.retired);
        }
      }
    case Get(random) =>
      GetKeeps(s, random);
      Total(InUse(s), s.retired, if ShouldUpdate(s) then multiset{s.active} else multiset{}, multiset{}, InUse(t),
            t.retired);
    case GetForPath(id) => ProbeKeeps(s, id);
    case RetireForPath(id) =>
      RetirePathKeeps(s, id);
      Total(InUse(s), s.retired, if |s.activeID| > 0 && id in s.probing then multiset{s.probing[id].seqNum}
            else multiset{},
            multiset{}, InUse(t), t.retired);
    case _ => SameInUse(s, t);
  }

  lemma NotAbsorbed(s: State, f: NewConnectionIDFrame)
    requires Discards(s, f)
    ensures !Absorbs(s, f)
  {
  }

  lemma Total(inUse: multiset<nat>, retired: multiset<nat>, moved: multiset<nat>, added: multiset<nat>,
              inUse': multiset<nat>, retired': multiset<nat>)
    requires inUse' + moved == inUse + added && retired' == retired + moved
    ensures inUse' + retired' == inUse + retired + added
  {
    assert inUse' + retired' == (inUse' + moved) + retired;
  }

  lemma AbsorbedInUse(s: State, f: NewConnectionIDFrame)
    requires Absorbs(s, f)
    ensures f.seqNum in InUse(s)
  {
    hide Numbers, ProbingNumbers;
    NumbersHas(s.queue, f.seqNum);
  }

  ghost predicate Counted(arrived: multiset<nat>, places: multiset<nat>) {
    places <= arrived && (OnceOnly(arrived) ==> places == arrived)
  }

  lemma CountEvent(arrived: multiset<nat>, places: multiset<nat>, n: nat, absorbed: bool, places': multiset<nat>)
    requires Counted(arrived, places) && (absorbed ==> n in places)
    requires places' == places + if absorbed then multiset{} else multiset{n}
    ensures Counted(arrived + multiset{n}, places')
  {
    var arrived' := arrived + multiset{n};
    assert forall x :: arrived[x] <= arrived'[x];
    if absorbed {
      assert arrived'[n] >= 2;
    }
  }

  /** In every run, no number is in more places than frames arrived for it; and if each one arrived once, each one
      is in exactly one place: active, queued, probing a path, or retired by one frame. */
  lemma {:induction false} RunCounts(initial: seq<Byte>, token: Option<Token>, preferred: Option<NewConnID>,
                                     es: seq<Event>)
    requires Succeeds(Start(initial, token, preferred), es)
    ensures var s := Run(Start(initial, token, preferred), es);
            Counted(Arrived(preferred.Some?, es), InUse(s) + s.retired)
  {
    hide Inv, Step, Succeeds, InUse, OnceOnly, Start;
    var start := Start(initial, token, preferred);
    StartInv(initial, token, preferred);
    if es == [] {
      assert InUse(start) + start.retired == InUse(start);
    } else {
      var n := |es| - 1;
      var s, e := Run(start, es[..n]), es[n];
      SucceedsBefore(start, es);
      RunCounts(initial, token, preferred, es[..n]);
      RunKeepsInv(start, es[..n]);
      StepPlaces(s, e);
      if e.NewID? {
        NotZeroLength(s, e);
        if Absorbs(s, e.frame) {
          AbsorbedInUse(s, e.frame);
        }
        CountEvent(Arrived(preferred.Some?, es[..n]), InUse(s) + s.retired, e.frame.seqNum, Absorbs(s, e.frame),
                   InUse(Run(start, es)) + Run(start, es).retired);
      }
    }
  }

  lemma NotZeroLength(s: State, e: Event)
    requires e.NewID? && Step(s, e).1 == None
    ensures |s.activeID| > 0
  {
  }

  /** Everything in use is at or above n, and stays so. */
  ghost predicate From(n: nat, s: State) {
    n <= s.highestRetired && InUseFrom(n, s.active, s.queue, s.probing)
  }

  lemma StepFrom(s: State, e: Event, n: nat)
    requires Inv(s) && Possible(e) && !Conflicting(s, e) && From(n, s)
    ensures From(n, Step(s, e).0)
  {
    hide ProbingNumbers, ProbingTokens, Numbers, Known, TokensInUse, AcceptStep, Increasing, Ordered, From;
    match e
    case NewID(f, random) =>
      if |s.activeID| > 0 {
        if Discards(s, f) {
          SameFrom(s, Step(s, e).0, n);
        } else {
          AcceptErrors(s, f, random);
          AcceptFrom(s, f, random, n);
        }
      }
    case Get(random) => GetFrom(s, random, n);
    case GetForPath(id) => ProbeFrom(s, id, n);
    case RetireForPath(id) => LeaveFrom(s, id, n);
    case _ => SameFrom(s, Step(s, e).0, n);
  }

  lemma SameFrom(s: State, t: State, n: nat)
    requires From(n, s) && t.active == s.active && t.queue == s.queue && t.probing == s.probing
             && t.highestRetired == s.highestRetired
    ensures From(n, t)
  {
  }

  lemma GetFrom(s: State, random: nat, n: nat)
    requires From(n, s)
    ensures From(n, GetStep(s, random))
  {
    if ShouldUpdate(s) {
      assert s.queue[0] in s.queue;
    }
  }

  lemma ProbeFrom(s: State, id: PathID, n: nat)
    requires From(n, s)
    ensures From(n, ProbeStep(s, id))
  {
    if s.queue != [] {
      assert s.queue[0] in s.queue;
    }
  }

  lemma LeaveFrom(s: State, id: PathID, n: nat)
    requires From(n, s)
    ensures From(n, RetirePathStep(s, id))
  {
  }

  /** An accepted frame leaves nothing in use below its Retire Prior To. */
  lemma AcceptFrom(s: State, f: NewConnectionIDFrame, random: nat, n: nat)
    requires Inv(s) && Parsed(f) && !Discards(s, f) && AcceptStep(s, f, random).1 == None
    requires n == f.retirePriorTo || From(n, s)
    ensures From(n, AcceptStep(s, f, random).0)
  {
    hide ProbingNumbers, ProbingTokens, Numbers, Known, TokensInUse, InUse, MovedBy, RetirePrior, Insert, Increasing,
         From;
    RetirePriorKeeps(s, f.retirePriorTo);
    var t := RetirePrior(s, f.retirePriorTo);
    PriorFrom(s, t, f, n);
    if f.seqNum != s.active {
      InsertMembers(t.queue, Entry(f));
      var u := Enqueued(s, f);
      EnqueuedFrom(s, t, u, f, n);
      assert From(n, AcceptStep(s, f, random).0) by { SwitchFrom(u, f, random, n); }
    }
  }

  // Except for the active ID, nothing below n is in use.
  ghost predicate OthersFrom(n: nat, s: State) {
    && n <= s.highestRetired && (forall e | e in s.queue :: n <= e.seqNum)
    && (forall id | id in s.probing :: n <= s.probing[id].seqNum)
  }

  lemma PriorFrom(s: State, t: State, f: NewConnectionIDFrame, n: nat)
    requires n == f.retirePriorTo || From(n, s)
    requires t.highestRetired == Max(s.highestRetired, f.retirePriorTo) && t.active == s.active
    requires forall e :: e in t.queue <==> e in s.queue && e.seqNum >= f.retirePriorTo
    requires t.probing == Surviving(s.probing, f.retirePriorTo)
    ensures OthersFrom(n, t) && (n <= s.active || (n == f.retirePriorTo && s.active < f.retirePriorTo))
    ensures n <= s.active ==> From(n, t)
    ensures n == f.retirePriorTo || n <= s.highestRetired
  {
  }

  lemma EnqueuedFrom(s: State, t: State, u: State, f: NewConnectionIDFrame, n: nat)
    requires OthersFrom(n, t) && Parsed(f) && !Discards(s, f) && (n == f.retirePriorTo || n <= s.highestRetired)
    requires u.highestRetired == t.highestRetired && u.probing == t.probing
    requires forall e :: e in u.queue <==> e in t.queue || (e == Entry(f) && !Has(t.queue, f.seqNum))
    ensures OthersFrom(n, u)
  {
    hide Has;
  }

  lemma SwitchFrom(u: State, f: NewConnectionIDFrame, random: nat, n: nat)
    requires OthersFrom(n, u) && u.queue != []
             && (n <= u.active || (n == f.retirePriorTo && u.active < f.retirePriorTo))
    ensures u.active < f.retirePriorTo ==> From(n, Switch(u, random))
    ensures !(u.active < f.retirePriorTo) ==> From(n, u)
  {
    assert u.queue[0] in u.queue;
  }

  /** In every run: nothing in use is below the Retire Prior To of any frame that was not retired at once. */
  lemma {:induction false} RetirePriorHonoured(start: State, es: seq<Event>, i: nat)
    requires Inv(start) && Succeeds(start, es) && i < |es| && es[i].NewID?
             && !Discards(Run(start, es[..i]), es[i].frame)
    ensures var s := Run(start, es);
            InUseFrom(es[i].frame.retirePriorTo, s.active, s.queue, s.probing)
    ensures From(es[i].frame.retirePriorTo, Run(start, es))
  {
    hide Inv, Step, Succeeds, Discards;
    var n := |es| - 1;
    var s := Run(start, es[..n]);
    SucceedsBefore(start, es);
    RunKeepsInv(start, es[..n]);
    if i == n {
      FrameFrom(s, es[n]);
    } else {
      assert es[..n][..i] == es[..i] && es[..n][i] == es[i];
      RetirePriorHonoured(start, es[..n], i);
      StepFrom(s, es[n], es[i].frame.retirePriorTo);
    }
  }

  lemma FrameFrom(s: State, e: Event)
    requires Inv(s) && Possible(e) && e.NewID? && Step(s, e).1 == None && !Discards(s, e.frame)
    ensures From(e.frame.retirePriorTo, Step(s, e).0)
  {
    hide AcceptStep, Inv;
    AcceptErrors(s, e.frame, e.random);
    AcceptFrom(s, e.frame, e.random, e.frame.retirePriorTo);
  }

  /** The Retire Prior To of a frame is honoured if and only if the frame is not retired at once, or nothing was below
      it in the first place. */
  lemma HonouredExactly(s: State, f: NewConnectionIDFrame, random: nat)
    requires Inv(s) && Parsed(f) && |s.activeID| > 0 && FrameStep(s, f, random).1 == None
    ensures var t := FrameStep(s, f, random).0;
            InUseFrom(f.retirePriorTo, t.active, t.queue, t.probing) <==>
            !Discards(s, f) || InUseFrom(f.retirePriorTo, s.active, s.queue, s.probing)
  {
    hide AcceptStep, Inv;
    if !Discards(s, f) {
      AcceptFrom(s, f, random, f.retirePriorTo);
    }
  }

  predicate Drawn(e: Event) {
    e.NewID? || e.Get? ==> e.random < PACKETS_PER_CONNECTION_ID
  }

  /** The manager does what the functions say, up to the first error. */
  method Replay(initial: seq<Byte>, token: Option<Token>, preferred: Option<NewConnID>, es: seq<Event>)
    returns (m: ConnIDManager, done: nat, err: Option<Error>)
    requires forall e | e in es :: Possible(e) && Drawn(e)
    ensures fresh(m) && done <= |es| && Succeeds(Start(initial, token, preferred), es[..done])
    ensures err == None ==> done == |es| && m.Now() == Run(Start(initial, token, preferred), es)
    ensures err != None ==>
              done < |es| && err == Step(Run(Start(initial, token, preferred), es[..done]), es[done]).1
  {
    hide Inv, Run, Step, Succeeds, Start, ConnIDManager.Now;
    ghost var start := Start(initial, token, preferred);
    m := Begin(initial, token, preferred);
    done, err := 0, None;
    StartInv(initial, token, preferred);
    RunNothing(start);
    assert es[..0] == [];
    while done < |es|
      invariant fresh(m) && m.Valid() && done <= |es| && err == None
      invariant Succeeds(start, es[..done]) && m.Now() == Run(start, es[..done]) && Inv(m.Now())
    {
      RunNext(start, es, done);
      SucceedsNext(start, es, done);
      ghost var s := m.Now();
      err := Take(m, es[done]);
      if err != None {
        return;
      }
      StepKeepsInv(s, es[done]);
      done := done + 1;
    }
    assert es[..done] == es;
  }

  method Begin(initial: seq<Byte>, token: Option<Token>, preferred: Option<NewConnID>) returns (m: ConnIDManager)
    ensures fresh(m) && m.Valid() && m.Now() == Start(initial, token, preferred)
  {
    m := new ConnIDManager(initial);
    if token.Some? {
      m.SetStatelessResetToken(token.value);
    }
    if preferred.Some? {
      var _ := m.AddFromPreferredAddress(preferred.value.connID, preferred.value.token);
    }
  }

  method Take(m: ConnIDManager, e: Event) returns (err: Option<Error>)
    requires m.Valid() && Inv(m.Now()) && Possible(e) && Drawn(e)
    modifies m
    ensures m.Valid() && (m.Now(), err) == Step(old(m.Now()), e)
  {
    err := None;
    match e
    case NewID(f, random) => err := m.Add(f, random);
    case Get(random) =>
      var _ := m.Get(random);
    case GetForPath(id) =>
      var _, _ := m.GetConnIDForPath(id);
    case RetireForPath(id) => m.RetireConnIDForPath(id);
    case Sent => m.SentPacket();
    case HandshakeDone => m.SetHandshakeComplete();
  }

  lemma SucceedsNext(start: State, es: seq<Event>, n: nat)
    requires n < |es| && Succeeds(start, es[..n]) && Possible(es[n])
    ensures Step(Run(start, es[..n]), es[n]).1 == None ==> Succeeds(start, es[..n + 1])
  {
    hide Step, Run;
    if Step(Run(start, es[..n]), es[n]).1 == None {
      var all := es[..n + 1];
      forall i | 0 <= i < |all| ensures Possible(all[i]) && Step(Run(start, all[..i]), all[i]).1 == None {
        assert all[..i] == es[..i];
        assert i < n ==> es[..n][..i] == es[..i] && es[..n][i] == es[i];
      }
    }
  }

  /** When the manager is closed, no reset token stays registered. */
  lemma CloseUnregisters(s: State)
    requires Inv(s)
    ensures CloseStep(s).registered == multiset{}
  {
    hide ProbingTokens, Ordered, Known;
    UnregisterBoth(s.registered, TokenOf(s.activeToken), ProbingTokens(s.probing));
  }

  /** Unless the token of the first ID is set again: the one that it replaces stays registered. */
  lemma SecondTokenStays(s: State, token: Token)
    requires Inv(s)
    ensures CloseStep(SetTokenStep(s, token)).registered == TokenOf(s.activeToken)
  {
    hide ProbingTokens, Ordered, Known;
    var t := SetTokenStep(s, token);
    UnregisterBoth(t.registered, TokenOf(t.activeToken), ProbingTokens(t.probing));
    var used := TokenOf(t.activeToken) + ProbingTokens(t.probing);
    assert t.registered == TokenOf(s.activeToken) + used;
    TakeAway(TokenOf(s.activeToken), used);
  }

  /** The ID of a preferred address, which is not known yet, may be added exactly while number 0 is active and no
      path beyond it has been probed. */
  lemma PreferredAddress(s: State, e: NewConnID)
    requires Inv(s) && e.seqNum == 1 && !Has(s.queue, 1)
    ensures Inv(s.(queue := Insert(s.queue, e))) <==> s.active == 0 && s.highestProbing <= 1
  {
    hide Known, TokensInUse, Insert;
    InsertMembers(s.queue, e);
  }

  lemma AddToEmpty(s: State, f: NewConnectionIDFrame, random: nat)
    requires s.queue == [] && |s.activeID| > 0 && f.retirePriorTo == 0 && !Discards(s, f) && f.seqNum != s.active
    ensures AddStep(s, f, random) == (s.(queue := [Entry(f)]), None)
  {
    hide ProbingNumbers, ProbingTokens;
    NoNumbers();
    NoTokens();
    assert Surviving(s.probing, 0) == s.probing && Below(s.probing, 0) == map[];
    assert s.retired + multiset{} == s.retired && s.registered - multiset{} == s.registered;
  }

  lemma RunNext(start: State, es: seq<Event>, i: nat)
    requires i < |es|
    ensures Run(start, es[..i + 1]) == Step(Run(start, es[..i]), es[i]).0
  {
    hide Step;
    assert es[..i + 1][..i] == es[..i];
  }

  lemma RunNothing(start: State)
    ensures Run(start, []) == start && Succeeds(start, [])
  {
  }

  const FIRST := NewID(NewConnectionIDFrame(1, 0, [1], 1), 0)
  const SECOND := NewID(NewConnectionIDFrame(2, 0, [2], 2), 0)

  // A path takes the only ID in the queue.
  lemma OneProbe(start: State, e: Event, id: PathID)
    requires start.queue == [] && |start.activeID| > 0 && id !in start.probing && e.NewID?
    requires e.frame.retirePriorTo == 0 && !Discards(start, e.frame) && e.frame.seqNum != start.active
    ensures var f := Entry(e.frame);
            Step(Step(start, e).0, GetForPath(id)).0 ==
            start.(probing := start.probing[id := f], highestProbing := f.seqNum,
                   registered := Register(start.registered, f.token))
    ensures Step(start, e).1 == None
  {
    AddToEmpty(start, e.frame, e.random);
    assert [Entry(e.frame)][1..] == [];
  }

  /** A late frame drops its Retire Prior To: number 2 arrives first and probes a path; then number
      1 arrives, asks to retire number 0, and is itself retired.  Number 0 stays active. */
  lemma LateFrameDropsRetirement()
    ensures var es := [SECOND, GetForPath(0), NewID(NewConnectionIDFrame(1, 1, [1], 1), 0)];
            var s := Run(Initial([0]), es);
            s.active == 0 && 1 in s.retired && 0 !in s.retired
  {
    hide Run, Step;
    var es := [SECOND, GetForPath(0), NewID(NewConnectionIDFrame(1, 1, [1], 1), 0)];
    RunNothing(Initial([0]));
    OneProbe(Initial([0]), SECOND, 0);
    RunNext(Initial([0]), es, 0);
    RunNext(Initial([0]), es, 1);
    RunNext(Initial([0]), es, 2);
    RetireAtOnce(Run(Initial([0]), es[..2]), es[2]);
    assert es[..0] == [] && es[..3] == es;
  }

  /** A repeated frame puts the ID of the path probed last on a second path. */
  lemma RepeatedFrameSharesID()
    ensures var s := Run(Initial([0]), [FIRST, GetForPath(0), FIRST, GetForPath(1)]);
            0 in s.probing && 1 in s.probing && s.probing[0] == s.probing[1]
  {
    hide Run, Step;
    var es := [FIRST, GetForPath(0), FIRST, GetForPath(1)];
    var start := Initial([0]);
    RunNothing(start);
    OneProbe(start, FIRST, 0);
    RunNext(start, es, 0);
    RunNext(start, es, 1);
    var s := Run(start, es[..2]);
    OneProbe(s, FIRST, 1);
    RunNext(start, es, 2);
    RunNext(start, es, 3);
    assert es[..0] == [] && es[..4] == es;
  }

  /** After its path was retired, a repeated frame puts a retired ID back into the queue. */
  lemma RepeatedFrameReturnsID()
    ensures var s := Run(Initial([0]), [FIRST, GetForPath(0), RetireForPath(0), FIRST]);
            s.queue == [Entry(FIRST.frame)] && 1 in s.retired
  {
    hide Run, Step;
    var es := [FIRST, GetForPath(0), RetireForPath(0), FIRST];
    var start := Initial([0]);
    RunNothing(start);
    OneProbe(start, FIRST, 0);
    RunNext(start, es, 0);
    RunNext(start, es, 1);
    RunNext(start, es, 2);
    ProbeRetired(Run(start, es[..2]), FIRST);
    RunNext(start, es, 3);
    assert es[..0] == [] && es[..4] == es;
  }

  lemma ProbeRetired(s: State, e: Event)
    requires e.NewID? && s.queue == [] && |s.activeID| > 0 && e.frame.retirePriorTo == 0 && !Discards(s, e.frame)
             && e.frame.seqNum != s.active
    requires 0 in s.probing && s.probing[0] == Entry(e.frame)
    ensures var t := Step(Step(s, RetireForPath(0)).0, e).0; t.queue == [Entry(e.frame)] && e.frame.seqNum in t.retired
  {
    AddToEmpty(RetirePathStep(s, 0), e.frame, e.random);
  }

  /** While a path is probed, a repeated frame retires the active ID, which stays active. */
  lemma RepeatedFrameRetiresActive()
    ensures var s := Run(Initial([0]), [FIRST, HandshakeDone, Get(0), SECOND, GetForPath(0), FIRST]);
            s.active == 1 && 1 in s.retired
  {
    hide Run, Step;
    var es := [FIRST, HandshakeDone, Get(0), SECOND, GetForPath(0), FIRST];
    var start := Initial([0]);
    RunNothing(start);
    RunNext(start, es, 0);
    RunNext(start, es, 1);
    RunNext(start, es, 2);
    var s := ActiveFirst();
    assert es[..0] == [] && es[..6] == es && s == Run(start, es[..3]);
    OneProbe(s, SECOND, 0);
    RunNext(start, es, 3);
    RunNext(start, es, 4);
    RunNext(start, es, 5);
    RetireAtOnce(Run(start, es[..5]), FIRST);
  }

  lemma ActiveFirst() returns (s: State)
    ensures s == Step(Step(Step(Initial([0]), FIRST).0, HandshakeDone).0, Get(0)).0
    ensures s.queue == [] && s.active == 1 && s.activeID == [1] && s.probing == map[]
            && s.highestRetired == s.highestProbing == 0
  {
    AddToEmpty(Initial([0]), FIRST.frame, 0);
    s := Step(Step(Step(Initial([0]), FIRST).0, HandshakeDone).0, Get(0)).0;
    assert [Entry(FIRST.frame)][1..] == [];
  }

  lemma RetireAtOnce(s: State, e: Event)
    requires e.NewID? && |s.activeID| > 0 && Discards(s, e.frame)
    ensures var t := Step(s, e).0; t.active == s.active && t.retired == s.retired + multiset{e.frame.seqNum}
  {
  }
}
