/** The connection IDs that the peer issued: which one is active, which ones are queued, which
    ones probe a path, and which ones have been retired.
 */
module ConnIDManaging {
  import opened StreamBytes
  import opened ConnIDs
  import opened ConnIDStates

  /** Split the queue into the IDs that stay and the numbers of those that are retired. */
  method Filter(queue: seq<NewConnID>, retirePriorTo: nat) returns (newQueue: seq<NewConnID>, frames: seq<nat>)
    ensures newQueue == Kept(queue, retirePriorTo) && multiset(frames) == Numbers(Dropped(queue, retirePriorTo))
  {
    hide Numbers;
    NumbersNone();
    newQueue, frames := [], [];
    for i := 0 to |queue|
      invariant newQueue == Kept(queue[..i], retirePriorTo)
      invariant multiset(frames) == Numbers(Dropped(queue[..i], retirePriorTo))
    {
      var entry := queue[i];
      assert queue[..i + 1][..i] == queue[..i] && queue[..i + 1][i] == entry;
      if entry.seqNum >= retirePriorTo {
        newQueue := newQueue + [entry];
        assert Dropped(queue[..i + 1], retirePriorTo) == Dropped(queue[..i], retirePriorTo);
      } else {
        NumbersAppend(Dropped(queue[..i], retirePriorTo), entry);
        assert Kept(queue[..i + 1], retirePriorTo) == Kept(queue[..i], retirePriorTo);
        assert multiset(frames + [entry.seqNum]) == multiset(frames) + multiset{entry.seqNum};
        frames := frames + [entry.seqNum];
      }
    }
    assert queue[..|queue|] == queue;
  }

  lemma {:induction false} InsertLast(q: seq<NewConnID>, e: NewConnID)
    requires forall i | 0 <= i < |q| :: q[i].seqNum < e.seqNum
    ensures Insert(q, e) == q + [e]
  {
    if q != [] {
      InsertLast(q[1..], e);
      assert q == [q[0]] + q[1..];
    }
  }

  lemma {:induction false} InsertAt(q: seq<NewConnID>, e: NewConnID, i: nat)
    requires i < |q| && (forall j | 0 <= j < i :: q[j].seqNum < e.seqNum) && q[i].seqNum >= e.seqNum
    ensures Insert(q, e) == if q[i].seqNum == e.seqNum then q else q[..i] + [e] + q[i..]
  {
    hide Insert;
    InsertFirst(q, e);
    if i == 0 {
      assert q[..0] + [e] + q[0..] == [e] + q;
    } else {
      InsertAt(q[1..], e, i - 1);
      Regroup(q, e, i);
    }
  }

  lemma InsertFirst(q: seq<NewConnID>, e: NewConnID)
    requires q != []
    ensures Insert(q, e) == if q[0].seqNum == e.seqNum then q else if q[0].seqNum > e.seqNum then [e] + q
            else [q[0]] + Insert(q[1..], e)
  {
  }

  lemma Regroup(q: seq<NewConnID>, e: NewConnID, i: nat)
    requires 0 < i < |q|
    ensures [q[0]] + q[1..] == q && q[1..][i - 1] == q[i]
    ensures [q[0]] + (q[1..][..i - 1] + [e] + q[1..][i - 1..]) == q[..i] + [e] + q[i..]
  {
    assert q[1..][..i - 1] == q[1..i] && q[1..][i - 1..] == q[i..];
    assert [q[0]] + q[1..i] == q[..i];
  }

  // An ID conflicts only with the one of the same number, of which there is one.
  lemma ConflictAt(q: seq<NewConnID>, e: NewConnID, i: nat)
    requires Increasing(q) && i < |q| && q[i].seqNum == e.seqNum
    ensures Conflicts(q, e) <==> q[i] != e
  {
    assert q[i] in q;
    forall x | x in q && x.seqNum == e.seqNum ensures x == q[i] {
      var j :| 0 <= j < |q| && q[j] == x;
      SameNumber(q, i, j);
    }
  }

  lemma SameNumber(q: seq<NewConnID>, i: nat, j: nat)
    requires Increasing(q) && i < |q| && j < |q| && q[i].seqNum == q[j].seqNum
    ensures i == j
  {
  }

  // The loop over the probed paths: ids are still to be visited, gone are retired, and left stay.
  ghost predicate Retiring(probing: map<PathID, NewConnID>, n: nat, ids: set<PathID>, gone: map<PathID, NewConnID>,
                           left: map<PathID, NewConnID>) {
    && ids <= left.Keys
    && gone == Below(probing, n) - ids && left == probing - gone.Keys
  }

  lemma RetiringNone(probing: map<PathID, NewConnID>, n: nat)
    ensures Retiring(probing, n, probing.Keys, map[], probing)
  {
  }

  lemma RetiringNext(probing: map<PathID, NewConnID>, n: nat, ids: set<PathID>, gone: map<PathID, NewConnID>,
                     left: map<PathID, NewConnID>, id: PathID)
    requires Retiring(probing, n, ids, gone, left) && id in ids
    ensures id in left && id !in gone
    ensures if left[id].seqNum < n then Retiring(probing, n, ids - {id}, gone[id := left[id]], left - {id})
            else Retiring(probing, n, ids - {id}, gone, left)
  {
  }

  lemma RetiringAll(probing: map<PathID, NewConnID>, n: nat, gone: map<PathID, NewConnID>,
                    left: map<PathID, NewConnID>)
    requires Retiring(probing, n, {}, gone, left)
    ensures gone == Below(probing, n) && left == Surviving(probing, n)
  {
  }

  class ConnIDManager {
    var queue: seq<NewConnID>
    var highestProbingID: nat
    var pathProbing: map<PathID, NewConnID>
    var handshakeComplete: bool
    var activeSequenceNumber: nat
    var highestRetired: nat
    var activeConnectionID: seq<Byte>
    var activeStatelessResetToken: Option<Token>
    var packetsSinceLastChange: nat
    var packetsPerConnectionID: nat
    var closed: bool
    var retireFrames: seq<nat>  // the RETIRE_CONNECTION_ID frames queued so far
    ghost var registered: multiset<Token>

    ghost function Now(): State
      reads this
    {
      State(queue, highestProbingID, pathProbing, handshakeComplete, activeSequenceNumber, highestRetired,
            activeConnectionID,
            activeStatelessResetToken, packetsSinceLastChange, packetsPerConnectionID, closed, multiset(retireFrames),
              registered)
    }

    ghost predicate Valid()
      reads this`queue
    {
      Increasing(queue)
    }

    constructor (initialDestConnID: seq<Byte>)
      ensures Valid() && Now() == ConnIDStates.Initial(initialDestConnID)
    {
      queue, pathProbing, retireFrames := [], map[], [];
      highestProbingID, activeSequenceNumber, highestRetired := 0, 0, 0;
      activeConnectionID, activeStatelessResetToken := initialDestConnID, None;
      packetsSinceLastChange, packetsPerConnectionID := 0, 0;
      handshakeComplete, closed, registered := false, false, multiset{};
    }

    /** The token of the first connection ID.  A token that it replaces stays registered. */
    method SetStatelessResetToken(token: Token)
      requires !closed && activeSequenceNumber == 0
      modifies this`activeStatelessResetToken, this`registered
      ensures Now() == SetTokenStep(old(Now()), token)
    {
      activeStatelessResetToken := Some(token);
      registered := Register(registered, token);
    }

    /** Put an ID into the sorted queue, unless it is there already. */
    method AddConnectionID(seqNum: nat, connID: seq<Byte>, token: Token) returns (err: Option<Error>)
      requires Valid()
      modifies this`queue
      ensures Valid() && queue == Insert(old(queue), NewConnID(seqNum, connID, token))
      ensures err == if Conflicts(old(queue), NewConnID(seqNum, connID, token)) then Some(ConflictingConnectionIDs)
              else None
      ensures err != None ==> queue == old(queue)
    {
      hide Insert, Conflicts;
      var entry := NewConnID(seqNum, connID, token);
      InsertMembers(queue, entry);
      if |queue| == 0 || queue[|queue| - 1].seqNum < seqNum {
        InsertLast(queue, entry);
        NoConflict(queue, entry);
        queue := queue + [entry];
        return None;
      }
      for i := 0 to |queue|
        invariant queue == old(queue)
        invariant forall j | 0 <= j < i :: queue[j].seqNum < seqNum
      {
        if queue[i].seqNum == seqNum {
          InsertAt(queue, entry, i);
          ConflictAt(queue, entry, i);
          if queue[i].connID != connID || queue[i].token != token {
            return Some(ConflictingConnectionIDs);
          }
          return None;
        }
        if queue[i].seqNum > seqNum {
          InsertAt(queue, entry, i);
          NoConflict(queue, entry);
          queue := queue[..i] + [entry] + queue[i..];
          return None;
        }
      }
      assert false;  // the last ID is not below the new one
    }

    /** The ID that comes with a preferred address always has sequence number 1. */
    method AddFromPreferredAddress(connID: seq<Byte>, token: Token) returns (err: Option<Error>)
      requires Valid()
      modifies this`queue
      ensures Valid() && Now() == old(Now()).(queue := Insert(old(queue), NewConnID(1, connID, token)))
      ensures err == if Conflicts(old(queue), NewConnID(1, connID, token)) then Some(ConflictingConnectionIDs) else None
    {
      err := AddConnectionID(1, connID, token);
    }

    // Retire the IDs of probed paths that the peer wants retired, in any order.
    method RetireProbingIDs(retirePriorTo: nat)
      modifies this`pathProbing, this`retireFrames, this`registered
      ensures Now() == RetireProbing(old(Now()), retirePriorTo)
    {
      hide ProbingNumbers, ProbingTokens, Unregister, Retiring, Below, Surviving;
      ghost var s := Now();
      var ids := pathProbing.Keys;
      NoNumbers();
      NoTokens();
      UnregisterNone(s.registered);
      ghost var gone: map<PathID, NewConnID> := map[];
      RetiringNone(pathProbing, retirePriorTo);
      while ids != {}
        invariant Retiring(s.probing, retirePriorTo, ids, gone, pathProbing)
        invariant Now() == s.(probing := pathProbing, retired := s.retired + ProbingNumbers(gone),
                              registered := Unregister(s.registered, ProbingTokens(gone)))
      {
        var id :| id in ids;
        RetiringNext(s.probing, retirePriorTo, ids, gone, pathProbing, id);
        ids := ids - {id};
        if pathProbing[id].seqNum < retirePriorTo {
          ProbingWith(gone, id, pathProbing[id]);
          UnregisterBoth(s.registered, ProbingTokens(gone), multiset{pathProbing[id].token});
          gone := gone[id := pathProbing[id]];
          RetireProbed(id);
        }
      }
      RetiringAll(s.probing, retirePriorTo, gone, pathProbing);
    }

    method RetireProbed(id: PathID)
      requires id in pathProbing
      modifies this`pathProbing, this`retireFrames, this`registered
      ensures Now() == old(Now()).(probing := old(pathProbing) - {id},
                                   retired := old(Now()).retired + multiset{old(pathProbing)[id].seqNum},
                                   registered := Unregister(old(registered), multiset{old(pathProbing)[id].token}))
    {
      hide Unregister;
      var entry := pathProbing[id];
      retireFrames := retireFrames + [entry.seqNum];
      registered := Unregister(registered, multiset{entry.token});
      pathProbing := pathProbing - {id};
    }

    /** Retire what the peer wants retired, except for the active ID. */
    method RetirePriorIDs(retirePriorTo: nat)
      requires Valid()
      modifies this`pathProbing, this`queue, this`retireFrames, this`registered, this`highestRetired
      ensures Valid() && Now() == RetirePrior(old(Now()), retirePriorTo)
    {
      hide Increasing, RetireProbing, Numbers;
      if retirePriorTo != 0 {
        RetireProbingIDs(retirePriorTo);
      } else {
        RetireNone(Now());
      }
      if retirePriorTo > highestRetired {
        var newQueue, frames := Filter(queue, retirePriorTo);
        KeptIncreasing(queue, retirePriorTo);
        ghost var retired := multiset(retireFrames);
        queue := newQueue;
        retireFrames := retireFrames + frames;
        assert multiset(retireFrames) == retired + multiset(frames);
        highestRetired := retirePriorTo;
      }
    }

    method RemoveActiveToken()
      modifies this`registered
      ensures registered == Unregister(old(registered), TokenOf(activeStatelessResetToken))
    {
      hide Unregister;
      UnregisterNone(registered);
      if activeStatelessResetToken.Some? {
        registered := Unregister(registered, TokenOf(activeStatelessResetToken));
      }
    }

    /** Switch to the first queued ID, and retire the active one. */
    method UpdateConnectionID(random: nat)
      requires Valid() && !closed && queue != [] && random < PACKETS_PER_CONNECTION_ID
      modifies this`retireFrames, this`highestRetired, this`registered, this`queue, this`activeSequenceNumber,
               this`activeConnectionID, this`activeStatelessResetToken, this`packetsSinceLastChange,
                 this`packetsPerConnectionID
      ensures Valid() && Now() == Switch(old(Now()), random)
      ensures activeStatelessResetToken.Some? && packetsSinceLastChange == 0
              && NewConnID(activeSequenceNumber, activeConnectionID, activeStatelessResetToken.value) == old(queue)[0]
              && 5000 <= packetsPerConnectionID < 15000
    {
      hide Unregister, Register, TokenOf, Increasing;
      DropFirst(queue);
      RetireActive();
      TakeFront();
      packetsSinceLastChange := 0;
      packetsPerConnectionID := PACKETS_PER_CONNECTION_ID / 2 + random;
    }

    method TakeFront()
      requires queue != []
      modifies this`registered, this`queue, this`activeSequenceNumber, this`activeConnectionID,
               this`activeStatelessResetToken
      ensures queue == old(queue)[1..] && activeSequenceNumber == old(queue)[0].seqNum
              && activeConnectionID == old(queue)[0].connID
      ensures activeStatelessResetToken == Some(old(queue)[0].token)
              && registered == Register(old(registered), old(queue)[0].token)
    {
      hide Register;
      var front := queue[0];
      queue := queue[1..];
      activeSequenceNumber := front.seqNum;
      activeConnectionID := front.connID;
      activeStatelessResetToken := Some(front.token);
      registered := Register(registered, front.token);
    }

    method RetireActive()
      modifies this`retireFrames, this`highestRetired, this`registered
      ensures multiset(retireFrames) == multiset(old(retireFrames)) + multiset{activeSequenceNumber}
      ensures highestRetired == Max(old(highestRetired), activeSequenceNumber)
      ensures registered == Unregister(old(registered), TokenOf(activeStatelessResetToken))
    {
      hide Unregister, TokenOf;
      retireFrames := retireFrames + [activeSequenceNumber];
      highestRetired := Max(highestRetired, activeSequenceNumber);
      RemoveActiveToken();
    }

    /** Process a NEW_CONNECTION_ID frame.  A manager that was closed must not have to switch. */
    method Add(f: NewConnectionIDFrame, random: nat) returns (err: Option<Error>)
      requires Valid() && Parsed(f) && random < PACKETS_PER_CONNECTION_ID
      requires closed ==> Discards(Now(), f) || f.retirePriorTo <= activeSequenceNumber
      modifies this
      ensures Valid() && (Now(), err) == AddStep(old(Now()), f, random)
      ensures err == Some(ZeroLengthConnectionIDs) <==> |old(activeConnectionID)| == 0
      ensures err == None ==> |queue| < MAX_ACTIVE_CONNECTION_IDS
      ensures err == Some(ConnectionIDLimitError) ==> |queue| >= MAX_ACTIVE_CONNECTION_IDS
    {
      hide AcceptStep, Increasing;
      err := AddFrame(f, random);
      if err == None && |queue| >= MAX_ACTIVE_CONNECTION_IDS {
        err := Some(ConnectionIDLimitError);
      }
    }

    method AddFrame(f: NewConnectionIDFrame, random: nat) returns (err: Option<Error>)
      requires Valid() && Parsed(f) && random < PACKETS_PER_CONNECTION_ID
      requires closed ==> Discards(Now(), f) || f.retirePriorTo <= activeSequenceNumber
      modifies this
      ensures Valid() && (Now(), err) == FrameStep(old(Now()), f, random) && err != Some(ConnectionIDLimitError)
      ensures err == Some(ZeroLengthConnectionIDs) <==> |old(activeConnectionID)| == 0
    {
      hide AcceptStep, Increasing;
      if |activeConnectionID| == 0 {
        return Some(ZeroLengthConnectionIDs);
      }
      if f.seqNum < Max(activeSequenceNumber, highestProbingID) || f.seqNum < highestRetired {
        retireFrames := retireFrames + [f.seqNum];
        return None;
      }
      err := Accept(f, random);
    }

    method Accept(f: NewConnectionIDFrame, random: nat) returns (err: Option<Error>)
      requires Valid() && !(closed && activeSequenceNumber < f.retirePriorTo) && random < PACKETS_PER_CONNECTION_ID
      modifies this
      ensures Valid() && (Now(), err) == AcceptStep(old(Now()), f, random)
      ensures err == None || err == Some(ConflictingConnectionIDs)
    {
      hide Increasing, Insert, Conflicts, Switch, RetireProbing;
      RetirePriorIDs(f.retirePriorTo);
      if f.seqNum == activeSequenceNumber {
        return None;
      }
      InsertMembers(queue, Entry(f));
      err := AddConnectionID(f.seqNum, f.connID, f.token);
      if err != None {
        return;
      }
      if activeSequenceNumber < f.retirePriorTo {
        UpdateConnectionID(random);
      }
    }

    method SentPacket()
      modifies this`packetsSinceLastChange
      ensures Now() == SentStep(old(Now()))
    {
      packetsSinceLastChange := (packetsSinceLastChange + 1) % 0x1_0000_0000;
    }

    method SetHandshakeComplete()
      modifies this`handshakeComplete
      ensures Now() == old(Now()).(handshakeComplete := true)
    {
      handshakeComplete := true;
    }

    /** The ID for the next packet. */
    method Get(random: nat) returns (connID: seq<Byte>)
      requires Valid() && !closed && random < PACKETS_PER_CONNECTION_ID
      modifies this`retireFrames, this`highestRetired, this`registered, this`queue, this`activeSequenceNumber,
               this`activeConnectionID, this`activeStatelessResetToken, this`packetsSinceLastChange,
                 this`packetsPerConnectionID
      ensures Valid() && Now() == GetStep(old(Now()), random) && connID == activeConnectionID
      ensures var change := old(handshakeComplete && |queue| >= 1
                                && (activeSequenceNumber == 0
                                    || (|queue| >= 2 && packetsSinceLastChange >= packetsPerConnectionID)));
              if change then activeStatelessResetToken.Some? && packetsSinceLastChange == 0
                             && old(queue)[0] ==
                                NewConnID(activeSequenceNumber, connID, activeStatelessResetToken.value)
                             && 5000 <= packetsPerConnectionID < 15000
              else Now() == old(Now())
    {
      hide Increasing, Switch;
      if handshakeComplete
         && ((queue != [] && activeSequenceNumber == 0)
             || (2 * |queue| >= MAX_ACTIVE_CONNECTION_IDS && packetsSinceLastChange >= packetsPerConnectionID)) {
        UpdateConnectionID(random);
      }
      connID := activeConnectionID;
    }

    /** The ID for a path that is probed: the one it has, or the first queued one. */
    method GetConnIDForPath(id: PathID) returns (connID: seq<Byte>, ok: bool)
      requires Valid() && !closed
      modifies this`queue, this`pathProbing, this`highestProbingID, this`registered
      ensures Valid() && Now() == ProbeStep(old(Now()), id)
      ensures ok <==> |activeConnectionID| == 0 || id in pathProbing
      ensures ok && |activeConnectionID| > 0 ==> connID == pathProbing[id].connID
    {
      if |activeConnectionID| == 0 {
        return [], true;
      }
      if id in pathProbing {
        return pathProbing[id].connID, true;
      }
      if |queue| == 0 {
        return [], false;
      }
      var front := queue[0];
      queue := queue[1..];
      pathProbing := pathProbing[id := front];
      highestProbingID := front.seqNum;
      registered := Register(registered, front.token);
      return front.connID, true;
    }

    method RetireConnIDForPath(id: PathID)
      requires Valid() && !closed
      modifies this`pathProbing, this`retireFrames, this`registered
      ensures Valid() && Now() == RetirePathStep(old(Now()), id)
    {
      if |activeConnectionID| == 0 {
        return;
      }
      if id !in pathProbing {
        return;
      }
      RetireProbed(id);
    }

    /** Does a stateless reset with this token end the connection?  It does if it belongs to the active ID or
        to that of a path. */
    method IsActiveStatelessResetToken(token: Token) returns (found: bool)
      ensures found <==> token in TokensInUse(activeStatelessResetToken, pathProbing)
    {
      hide ProbingNumbers, ProbingTokens;
      NoTokens();
      if activeStatelessResetToken == Some(token) {
        return true;
      }
      var ids := pathProbing.Keys;
      ghost var seen: map<PathID, NewConnID> := map[];
      while ids != {}
        invariant ids <= pathProbing.Keys
        invariant seen == pathProbing - ids
        invariant token !in ProbingTokens(seen)
      {
        var id :| id in ids;
        ids := ids - {id};
        if pathProbing[id].token == token {
          ProbingWithout(pathProbing, id);
          return true;
        }
        ProbingWith(seen, id, pathProbing[id]);
        seen := seen[id := pathProbing[id]];
      }
      assert seen == pathProbing;
      found := false;
    }

    method Close()
      modifies this`closed, this`registered
      ensures Now() == CloseStep(old(Now()))
    {
      hide ProbingNumbers, ProbingTokens, Unregister, TokenOf;
      closed := true;
      RemoveActiveToken();
      ghost var before := registered;
      NoTokens();
      UnregisterNone(before);
      ghost var gone: map<PathID, NewConnID> := map[];
      var ids := pathProbing.Keys;
      while ids != {}
        invariant ids <= pathProbing.Keys
        invariant gone == pathProbing - ids
        invariant registered == Unregister(before, ProbingTokens(gone)) && closed
      {
        var id :| id in ids;
        ids := ids - {id};
        ProbingWith(gone, id, pathProbing[id]);
        UnregisterBoth(before, ProbingTokens(gone), multiset{pathProbing[id].token});
        gone := gone[id := pathProbing[id]];
        registered := Unregister(registered, multiset{pathProbing[id].token});
      }
      assert gone == pathProbing;
    }
  }

  lemma DropFirst(q: seq<NewConnID>)
    requires Increasing(q) && q != []
    ensures Increasing(q[1..])
  {
  }

  lemma NoConflict(q: seq<NewConnID>, e: NewConnID)
    requires Increasing(q)
    requires (forall i | 0 <= i < |q| :: q[i].seqNum < e.seqNum)
             || exists i | 0 <= i < |q| :: q[i].seqNum > e.seqNum && forall j | 0 <= j < i :: q[j].seqNum < e.seqNum
    ensures !Conflicts(q, e)
  {
  }

  lemma RetireNone(s: State)
    ensures RetireProbing(s, 0) == s
  {
    hide ProbingNumbers, ProbingTokens;
    NoNumbers();
    NoTokens();
    assert Surviving(s.probing, 0) == s.probing && Below(s.probing, 0) == map[];
  }
}
