/** Connection IDs on hand, and the multisets of their sequence numbers and reset tokens. */
module ConnIDs {
  import opened StreamBytes

  type Token = nat
  type PathID = nat

  datatype NewConnID = NewConnID(seqNum: nat, connID: seq<Byte>, token: Token)

  datatype NewConnectionIDFrame = NewConnectionIDFrame(seqNum: nat, retirePriorTo: nat, connID: seq<Byte>, token: Token)

  /** What the frame parser guarantees. */
  predicate Parsed(f: NewConnectionIDFrame) {
    f.retirePriorTo <= f.seqNum && |f.connID| > 0
  }

  ghost predicate Increasing(q: seq<NewConnID>) {
    forall i, j | 0 <= i < j < |q| :: q[i].seqNum < q[j].seqNum
  }

  ghost predicate Has(q: seq<NewConnID>, n: nat) {
    exists e | e in q :: e.seqNum == n
  }

  ghost function Numbers(q: seq<NewConnID>): multiset<nat> {
    if q == [] then multiset{} else multiset{q[0].seqNum} + Numbers(q[1..])
  }

  lemma {:induction false} NumbersConcat(a: seq<NewConnID>, b: seq<NewConnID>)
    ensures Numbers(a + b) == Numbers(a) + Numbers(b)
  {
    if a == [] {
      assert a + b == b;
    } else {
      assert (a + b)[1..] == a[1..] + b;
      NumbersConcat(a[1..], b);
    }
  }

  lemma NumbersAppend(q: seq<NewConnID>, e: NewConnID)
    ensures Numbers(q + [e]) == Numbers(q) + multiset{e.seqNum}
  {
    NumbersConcat(q, [e]);
    assert [e][1..] == [];
  }

  lemma NumbersNone()
    ensures Numbers([]) == multiset{}
  {
  }

  lemma {:induction false} NumbersHas(q: seq<NewConnID>, n: nat)
    ensures n in Numbers(q) <==> Has(q, n)
  {
    if q != [] {
      NumbersHas(q[1..], n);
      assert q == [q[0]] + q[1..];
    }
  }

  ghost function ProbingNumbers(m: map<PathID, NewConnID>): multiset<nat>
    decreases |m|
  {
    if m == map[] then multiset{}
    else var id :| id in m; ProbingNumbers(m - {id}) + multiset{m[id].seqNum}
  }

  ghost function ProbingTokens(m: map<PathID, NewConnID>): multiset<Token>
    decreases |m|
  {
    if m == map[] then multiset{}
    else var id :| id in m; ProbingTokens(m - {id}) + multiset{m[id].token}
  }

  lemma {:induction false} ProbingWithout(m: map<PathID, NewConnID>, id: PathID)
    requires id in m
    ensures ProbingNumbers(m) == ProbingNumbers(m - {id}) + multiset{m[id].seqNum}
    ensures ProbingTokens(m) == ProbingTokens(m - {id}) + multiset{m[id].token}
    decreases |m|
  {
    NumbersWithout(m, id);
    TokensWithout(m, id);
  }

  lemma {:induction false} NumbersWithout(m: map<PathID, NewConnID>, id: PathID)
    requires id in m
    ensures ProbingNumbers(m) == ProbingNumbers(m - {id}) + multiset{m[id].seqNum}
    decreases |m|
  {
    hide ProbingNumbers;
    var k := NumbersSplit(m);
    if k != id {
      var m1, m2 := m - {k}, m - {id};
      NumbersWithout(m1, id);
      NumbersWithout(m2, k);
      assert m1 - {id} == m2 - {k};
      ghost var rest := ProbingNumbers(m1 - {id});
      assert rest + multiset{m[id].seqNum} + multiset{m[k].seqNum}
          == rest + multiset{m[k].seqNum} + multiset{m[id].seqNum};
    }
  }

  lemma NumbersSplit(m: map<PathID, NewConnID>) returns (k: PathID)
    requires m != map[]
    ensures k in m && ProbingNumbers(m) == ProbingNumbers(m - {k}) + multiset{m[k].seqNum}
  {
    k :| k in m && ProbingNumbers(m) == ProbingNumbers(m - {k}) + multiset{m[k].seqNum};
  }

  lemma {:induction false} TokensWithout(m: map<PathID, NewConnID>, id: PathID)
    requires id in m
    ensures ProbingTokens(m) == ProbingTokens(m - {id}) + multiset{m[id].token}
    decreases |m|
  {
    hide ProbingTokens;
    var k := TokensSplit(m);
    if k != id {
      var m1, m2 := m - {k}, m - {id};
      TokensWithout(m1, id);
      TokensWithout(m2, k);
      assert m1 - {id} == m2 - {k};
      ghost var rest := ProbingTokens(m1 - {id});
      assert rest + multiset{m[id].token} + multiset{m[k].token} == rest + multiset{m[k].token} + multiset{m[id].token};
    }
  }

  lemma TokensSplit(m: map<PathID, NewConnID>) returns (k: PathID)
    requires m != map[]
    ensures k in m && ProbingTokens(m) == ProbingTokens(m - {k}) + multiset{m[k].token}
  {
    k :| k in m && ProbingTokens(m) == ProbingTokens(m - {k}) + multiset{m[k].token};
  }

  lemma ProbingWith(m: map<PathID, NewConnID>, id: PathID, e: NewConnID)
    requires id !in m
    ensures ProbingNumbers(m[id := e]) == ProbingNumbers(m) + multiset{e.seqNum}
    ensures ProbingTokens(m[id := e]) == ProbingTokens(m) + multiset{e.token}
  {
    hide *;
    ProbingWithout(m[id := e], id);
    assert m[id := e] - {id} == m;
  }

  ghost predicate Ordered(queue: seq<NewConnID>, active: nat, highestRetired: nat, highestProbing: nat) {
    && Increasing(queue)
    && (forall e | e in queue :: e.seqNum > active && e.seqNum >= highestRetired && e.seqNum >= highestProbing)
  }

  // No ID in use has a sequence number below n.
  ghost predicate InUseFrom(n: nat, active: nat, queue: seq<NewConnID>, probing: map<PathID, NewConnID>) {
    && n <= active
    && (forall e | e in queue :: n <= e.seqNum)
    && (forall id | id in probing :: n <= probing[id].seqNum)
  }

  ghost function TokensInUse(active: Option<Token>, probing: map<PathID, NewConnID>): multiset<Token> {
    if active.Some? then multiset{active.value} + ProbingTokens(probing) else ProbingTokens(probing)
  }

  function Surviving(probing: map<PathID, NewConnID>, retirePriorTo: nat): map<PathID, NewConnID> {
    map id | id in probing && probing[id].seqNum >= retirePriorTo :: probing[id]
  }

  lemma NoNumbers()
    ensures ProbingNumbers(map[]) == multiset{}
  {
  }

  lemma NoTokens()
    ensures ProbingTokens(map[]) == multiset{}
  {
  }

  lemma DequeueOrdered(queue: seq<NewConnID>, active: nat, highestRetired: nat, highestProbing: nat)
    requires queue != [] && Ordered(queue, active, highestRetired, highestProbing)
    ensures active < queue[0].seqNum
    ensures Ordered(queue[1..], queue[0].seqNum, Max(highestRetired, active), highestProbing)
    ensures Ordered(queue[1..], active, highestRetired, queue[0].seqNum)
    ensures queue[0] in queue && forall e | e in queue[1..] :: e in queue
  {
    assert forall e | e in queue[1..] :: e in queue && e.seqNum > queue[0].seqNum;
  }

  lemma ProbeTokens(token: Option<Token>, probing: map<PathID, NewConnID>, id: PathID, e: NewConnID)
    requires id !in probing
    ensures TokensInUse(token, probing[id := e]) == TokensInUse(token, probing) + multiset{e.token}
  {
    hide ProbingNumbers, ProbingTokens;
    ProbingWith(probing, id, e);
  }
}
