/** What each operation of the connection ID manager does to its state, as functions on values. */
module ConnIDStates {
  import opened StreamBytes
  import opened ConnIDs

  const MAX_ACTIVE_CONNECTION_IDS := 4
  const PACKETS_PER_CONNECTION_ID := 10000

  datatype Error = ZeroLengthConnectionIDs | ConflictingConnectionIDs | ConnectionIDLimitError

  datatype State = State(
    queue: seq<NewConnID>,
    highestProbing: nat,
    probing: map<PathID, NewConnID>,
    handshakeComplete: bool,
    active: nat,
    highestRetired: nat,
    activeID: seq<Byte>,
    activeToken: Option<Token>,
    packets: nat,
    packetsPerID: nat,
    closed: bool,
    retired: multiset<nat>,  // the RETIRE_CONNECTION_ID frames queued so far
    registered: multiset<Token>)  // tokens added to the packet handler map and not removed

  function Initial(initialDestConnID: seq<Byte>): State {
    State([], 0, map[], false, 0, 0, initialDestConnID, None, 0, 0, false, multiset{}, multiset{})
  }

  function Register(r: multiset<Token>, t: Token): multiset<Token> {
    r + multiset{t}
  }

  function Unregister(r: multiset<Token>, t: multiset<Token>): multiset<Token> {
    r - t
  }

  lemma UnregisterBoth(r: multiset<Token>, a: multiset<Token>, b: multiset<Token>)
    ensures Unregister(Unregister(r, a), b) == Unregister(r, a + b)
  {
  }

  lemma UnregisterNone(r: multiset<Token>)
    ensures Unregister(r, multiset{}) == r
  {
  }

  function SetTokenStep(s: State, token: Token): State {
    s.(activeToken := Some(token), registered := Register(s.registered, token))
  }

  /** A frame that is answered with RETIRE_CONNECTION_ID right away. */
  predicate Discards(s: State, f: NewConnectionIDFrame) {
    f.seqNum < Max(s.active, s.highestProbing) || f.seqNum < s.highestRetired
  }

  function Entry(f: NewConnectionIDFrame): NewConnID {
    NewConnID(f.seqNum, f.connID, f.token)
  }

  /** The queue with an ID at its place, unless its number is there already. */
  function Insert(q: seq<NewConnID>, e: NewConnID): seq<NewConnID> {
    if q == [] then [e]
    else if q[0].seqNum == e.seqNum then q
    else if q[0].seqNum > e.seqNum then [e] + q
    else [q[0]] + Insert(q[1..], e)
  }

  ghost predicate Conflicts(q: seq<NewConnID>, e: NewConnID) {
    exists x | x in q :: x.seqNum == e.seqNum && x != e
  }

  function Kept(q: seq<NewConnID>, n: nat): seq<NewConnID> {
    if q == [] then []
    else Kept(q[..|q| - 1], n) + if q[|q| - 1].seqNum >= n then [q[|q| - 1]] else []
  }

  function Dropped(q: seq<NewConnID>, n: nat): seq<NewConnID> {
    if q == [] then []
    else Dropped(q[..|q| - 1], n) + if q[|q| - 1].seqNum < n then [q[|q| - 1]] else []
  }

  function Below(probing: map<PathID, NewConnID>, n: nat): map<PathID, NewConnID> {
    map id | id in probing && probing[id].seqNum < n :: probing[id]
  }

  /** Retire the IDs of probed paths that the peer wants retired. */
  ghost function RetireProbing(s: State, n: nat): State {
    s.(probing := Surviving(s.probing, n), retired := s.retired + ProbingNumbers(Below(s.probing, n)),
       registered := Unregister(s.registered, ProbingTokens(Below(s.probing, n))))
  }

  /** Retire the queued IDs that the peer wants retired. */
  ghost function RetireQueued(s: State, n: nat): State {
    if n <= s.highestRetired then s
    else s.(queue := Kept(s.queue, n), retired := s.retired + Numbers(Dropped(s.queue, n)), highestRetired := n)
  }

  function TokenOf(t: Option<Token>): multiset<Token> {
    if t.Some? then multiset{t.value} else multiset{}
  }

  /** Switch to the first queued ID, and retire the active one. */
  ghost function Switch(s: State, random: nat): State
    requires s.queue != []
  {
    var front := s.queue[0];
    s.(retired := s.retired + multiset{s.active}, highestRetired := Max(s.highestRetired, s.active),
       registered := Register(Unregister(s.registered, TokenOf(s.activeToken)), front.token),
       queue := s.queue[1..], active := front.seqNum, activeID := front.connID, activeToken := Some(front.token),
       packets := 0, packetsPerID := PACKETS_PER_CONNECTION_ID / 2 + random)
  }

  ghost function RetirePrior(s: State, n: nat): State {
    RetireQueued(RetireProbing(s, n), n)
  }

  ghost function Enqueued(s: State, f: NewConnectionIDFrame): State {
    RetirePrior(s, f.retirePriorTo).(queue := Insert(RetirePrior(s, f.retirePriorTo).queue, Entry(f)))
  }

  /** An accepted frame: retire what the peer wants, keep the new ID, and switch if the active one is retired. */
  ghost function AcceptStep(s: State, f: NewConnectionIDFrame, random: nat): (State, Option<Error>) {
    var t := RetirePrior(s, f.retirePriorTo);
    if f.seqNum == s.active then (t, None)
    else if Conflicts(t.queue, Entry(f)) then (t, Some(ConflictingConnectionIDs))
    else
      var u := Enqueued(s, f);
      if s.active < f.retirePriorTo && u.queue != [] then (Switch(u, random), None) else (u, None)
  }

  ghost function FrameStep(s: State, f: NewConnectionIDFrame, random: nat): (State, Option<Error>) {
    if |s.activeID| == 0 then (s, Some(ZeroLengthConnectionIDs))
    else if Discards(s, f) then (s.(retired := s.retired + multiset{f.seqNum}), None)
    else AcceptStep(s, f, random)
  }

  ghost function AddStep(s: State, f: NewConnectionIDFrame, random: nat): (State, Option<Error>) {
    var (t, err) := FrameStep(s, f, random);
    (t, if err == None && |t.queue| >= MAX_ACTIVE_CONNECTION_IDS then Some(ConnectionIDLimitError) else err)
  }

  predicate ShouldUpdate(s: State) {
    && s.handshakeComplete
    && ((s.queue != [] && s.active == 0) || (2 * |s.queue| >= MAX_ACTIVE_CONNECTION_IDS && s.packets >= s.packetsPerID))
  }

  ghost function GetStep(s: State, random: nat): State {
    if ShouldUpdate(s) then Switch(s, random) else s
  }

  /** A path takes the first queued ID, unless it has one. */
  function ProbeStep(s: State, id: PathID): State {
    if |s.activeID| == 0 || id in s.probing || s.queue == [] then s
    else
      var front := s.queue[0];
      s.(queue := s.queue[1..], probing := s.probing[id := front], highestProbing := front.seqNum,
         registered := Register(s.registered, front.token))
  }

  function RetirePathStep(s: State, id: PathID): State {
    if |s.activeID| == 0 || id !in s.probing then s
    else
      s.(retired := s.retired + multiset{s.probing[id].seqNum},
         registered := Unregister(s.registered, multiset{s.probing[id].token}),
         probing := s.probing - {id})
  }

  function SentStep(s: State): State {
    s.(packets := (s.packets + 1) % 0x1_0000_0000)
  }

  ghost function CloseStep(s: State): State {
    s.(closed := true,
       registered := Unregister(Unregister(s.registered, TokenOf(s.activeToken)), ProbingTokens(s.probing)))
  }

  // Facts about the queue.

  lemma {:induction false} KeptMembers(q: seq<NewConnID>, n: nat)
    ensures forall e :: e in Kept(q, n) <==> e in q && e.seqNum >= n
  {
    if q != [] {
      var m := |q| - 1;
      KeptMembers(q[..m], n);
      assert forall e :: e in q <==> e in q[..m] || e == q[m];
    }
  }

  lemma {:induction false} KeptNumbers(q: seq<NewConnID>, n: nat)
    ensures Numbers(q) == Numbers(Kept(q, n)) + Numbers(Dropped(q, n))
  {
    hide Numbers;
    if q == [] {
      NumbersNone();
    } else {
      var m := |q| - 1;
      var before, kept, dropped := q[..m], Kept(q[..m], n), Dropped(q[..m], n);
      KeptNumbers(before, n);
      assert q == before + [q[m]];
      NumbersAppend(before, q[m]);
      if q[m].seqNum >= n {
        NumbersAppend(kept, q[m]);
        assert dropped + [] == dropped;
      } else {
        NumbersAppend(dropped, q[m]);
        assert kept + [] == kept;
      }
    }
  }

  lemma {:induction false} KeptIncreasing(q: seq<NewConnID>, n: nat)
    requires Increasing(q)
    ensures Increasing(Kept(q, n))
  {
    if q != [] {
      var m := |q| - 1;
      var kept := Kept(q[..m], n);
      KeptIncreasing(q[..m], n);
      KeptMembers(q[..m], n);
      forall i | 0 <= i < |kept| ensures kept[i].seqNum < q[m].seqNum {
        assert kept[i] in kept;
        var j :| 0 <= j < m && q[..m][j] == kept[i];
      }
      assert kept + [] == kept;
    }
  }

  lemma {:induction false} InsertMembers(q: seq<NewConnID>, e: NewConnID)
    requires Increasing(q)
    ensures forall x :: x in Insert(q, e) <==> x in q || (x == e && !Has(q, e.seqNum))
    ensures Increasing(Insert(q, e)) && Has(Insert(q, e), e.seqNum) && Insert(q, e) != []
  {
    if q == [] {
      assert e in [e];
    } else if q[0].seqNum == e.seqNum {
      assert q[0] in q;
    } else if q[0].seqNum > e.seqNum {
      assert forall i | 0 <= i < |q| :: q[i].seqNum > e.seqNum;
      assert ([e] + q)[0] == e && e in [e] + q;
    } else {
      var rest := Insert(q[1..], e);
      InsertMembers(q[1..], e);
      InsertTail(q, e, rest);
    }
  }

  lemma {:induction false} InsertNumbers(q: seq<NewConnID>, e: NewConnID)
    requires Increasing(q)
    ensures Numbers(Insert(q, e)) == Numbers(q) + if Has(q, e.seqNum) then multiset{} else multiset{e.seqNum}
  {
    hide Numbers;
    if q == [] {
      NumbersNone();
      NumbersFirst(e, []);
      assert [e] + [] == [e];
    } else if q[0].seqNum == e.seqNum {
      assert q[0] in q;
    } else if q[0].seqNum > e.seqNum {
      NumbersFirst(e, q);
      assert forall x | x in q :: x.seqNum > e.seqNum;
    } else {
      InsertNumbers(q[1..], e);
      NumbersFirst(q[0], Insert(q[1..], e));
      NumbersFirst(q[0], q[1..]);
      assert q == [q[0]] + q[1..];
      assert Has(q, e.seqNum) <==> Has(q[1..], e.seqNum);
    }
  }

  lemma NumbersFirst(e: NewConnID, q: seq<NewConnID>)
    ensures Numbers([e] + q) == multiset{e.seqNum} + Numbers(q)
  {
    assert ([e] + q)[1..] == q;
  }

  lemma InsertTail(q: seq<NewConnID>, e: NewConnID, rest: seq<NewConnID>)
    requires q != [] && Increasing(q) && q[0].seqNum < e.seqNum && Increasing(rest)
    requires forall x :: x in rest <==> x in q[1..] || (x == e && !Has(q[1..], e.seqNum))
    requires Has(rest, e.seqNum)
    ensures Has(q, e.seqNum) <==> Has(q[1..], e.seqNum)
    ensures forall x :: x in [q[0]] + rest <==> x in q || (x == e && !Has(q, e.seqNum))
    ensures Increasing([q[0]] + rest) && Has([q[0]] + rest, e.seqNum)
  {
    var all := [q[0]] + rest;
    assert q == [q[0]] + q[1..];
    forall i | 0 <= i < |rest| ensures q[0].seqNum < rest[i].seqNum {
      assert rest[i] in rest;
    }
    forall i, j | 0 <= i < j < |all| ensures all[i].seqNum < all[j].seqNum {
      assert all[j] == rest[j - 1];
      if i > 0 {
        assert all[i] == rest[i - 1];
      }
    }
    var x :| x in rest && x.seqNum == e.seqNum;
    assert x in all;
  }

  lemma {:induction false} ProbingSplit(probing: map<PathID, NewConnID>, n: nat)
    ensures ProbingNumbers(probing) == ProbingNumbers(Surviving(probing, n)) + ProbingNumbers(Below(probing, n))
    ensures ProbingTokens(probing) == ProbingTokens(Surviving(probing, n)) + ProbingTokens(Below(probing, n))
    decreases |probing|
  {
    hide ProbingNumbers, ProbingTokens, Surviving, Below;
    if probing == map[] {
      NoNumbers();
      NoTokens();
      SplitNone(n);
    } else {
      var id :| id in probing;
      ProbingSplit(probing - {id}, n);
      ProbingWithout(probing, id);
      SplitOne(probing, n, id);
      if probing[id].seqNum >= n {
        ProbingWithout(Surviving(probing, n), id);
      } else {
        ProbingWithout(Below(probing, n), id);
      }
    }
  }

  lemma SplitNone(n: nat)
    ensures Surviving(map[], n) == map[] && Below(map[], n) == map[]
  {
  }

  lemma SplitOne(probing: map<PathID, NewConnID>, n: nat, id: PathID)
    requires id in probing
    ensures var rest := probing - {id};
            if probing[id].seqNum >= n
            then id in Surviving(probing, n) && Surviving(probing, n)[id] == probing[id]
                 && Surviving(probing, n) - {id} == Surviving(rest, n) && Below(probing, n) == Below(rest, n)
            else id in Below(probing, n) && Below(probing, n)[id] == probing[id]
                 && Below(probing, n) - {id} == Below(rest, n) && Surviving(probing, n) == Surviving(rest, n)
  {
  }
}
