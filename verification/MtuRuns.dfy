/** Whole runs of the path MTU search on a path of known MTU: probes are sent, acknowledged
    and lost, also late, and the connection migrates between paths.
 */
module MtuRuns {
  import opened StreamBytes
  import opened MtuSearch

  /** handlers holds, for every unresolved probe, the number of resets before it was sent.
      unluckyLosses counts the probes lost since the last reset although they fit the path. */
  datatype World = World(
    search: Search,
    resets: nat,
    handlers: seq<nat>,
    pathMtu: int,
    limit: int,
    unluckyLosses: nat,
    panicked: bool)

  datatype Event =
    | Ping
    | Ack(probe: nat)
    | Loss(probe: nat)
    | Migrate(start: int, max: int, pathMtu: int)

  function Fresh(start: int, max: int, pathMtu: int): World {
    World(Start(start, max, 0), 0, [], pathMtu, max, 0, false)
  }

  function Remove(s: seq<nat>, i: nat): seq<nat>
    requires i < |s|
  {
    s[..i] + s[i + 1..]
  }

  function Step(w: World, e: Event): World
    requires |w.search.lost| > 0
  {
    match e
    case Ping =>
      if w.search.inFlight != INVALID_BYTE_COUNT || Done(w.search) then w
      else w.(search := Probe(w.search), handlers := w.handlers + [w.resets])
    case Ack(i) =>
      if i >= |w.handlers| then w
      else
        var w' := w.(handlers := Remove(w.handlers, i));
        if w.handlers[i] % GENERATIONS != w.search.generation then w'
        else if w.search.inFlight == INVALID_BYTE_COUNT then w'.(panicked := true)
        else w'.(search := Acked(w.search))
    case Loss(i) =>
      if i >= |w.handlers| then w
      else
        var w' := w.(handlers := Remove(w.handlers, i));
        if w.handlers[i] % GENERATIONS != w.search.generation then w'
        else if w.search.inFlight == INVALID_BYTE_COUNT then w'.(panicked := true)
        else w'.(search := Lost(w.search),
                 unluckyLosses := w.unluckyLosses + if w.search.inFlight <= w.pathMtu then 1 else 0)
    case Migrate(start, max, pathMtu) =>
      w.(search := Start(start, max, (w.search.generation + 1) % GENERATIONS),
         resets := w.resets + 1, pathMtu := pathMtu, limit := max, unluckyLosses := 0)
  }

  /** The handler is late, but has the generation of the current search: there were 256 resets since its probe,
      or a multiple of that. */
  predicate Mistaken(w: World, i: nat)
    requires i < |w.handlers|
  {
    w.handlers[i] != w.resets && (w.resets - w.handlers[i]) % GENERATIONS == 0
  }

  /** What the path and the caller guarantee: an acknowledged probe fit the path, a path
      supports the size the search starts from, and no late handler is mistaken. */
  predicate Possible(w: World, e: Event) {
    match e
    case Ping => true
    case Ack(i) =>
      i < |w.handlers| ==>
        && !Mistaken(w, i)
        && (w.handlers[i] == w.resets ==> w.search.inFlight <= w.pathMtu)
    case Loss(i) => i < |w.handlers| ==> !Mistaken(w, i)
    case Migrate(start, max, pathMtu) => 0 <= start <= pathMtu && 0 <= max
  }

  /** The state after the events, which happen in order. */
  function Run(w: World, es: seq<Event>): World
    requires |w.search.lost| > 0
    decreases |es|
  {
    if es == [] then w
    else
      StepHasLost(w, es[0]);
      Run(Step(w, es[0]), es[1..])
  }

  lemma StepHasLost(w: World, e: Event)
    requires |w.search.lost| > 0
    ensures |Step(w, e).search.lost| > 0
  {
  }

  predicate PossibleRun(w: World, es: seq<Event>)
    requires |w.search.lost| > 0
    decreases |es|
  {
    if es == [] then true
    else
      StepHasLost(w, es[0]);
      Possible(w, es[0]) && PossibleRun(Step(w, es[0]), es[1..])
  }

  function Target(w: World): int {
    Min(w.pathMtu, w.limit)
  }

  ghost predicate Inv(w: World) {
    && !w.panicked
    && WellFormed(w.search)
    && w.search.generation == w.resets % GENERATIONS
    && (forall i | 0 <= i < |w.handlers| :: w.handlers[i] <= w.resets)
    && Count(w.handlers, w.resets, w.resets + 1) == (if w.search.inFlight == INVALID_BYTE_COUNT then 0 else 1)
    && w.search.min <= w.pathMtu
    && Count(w.search.lost, 0, Target(w)) <= w.unluckyLosses
    && (w.unluckyLosses < MAX_LOST_MTU_PROBES ==> Target(w) <= MaxOf(w.search))
  }

  lemma {:induction false} StepKeepsInv(w: World, e: Event)
    requires Inv(w) && Possible(w, e)
    ensures Inv(Step(w, e))
  {
    hide Count, WellFormed;
    match e
    case Ping => PingKeepsInv(w);
    case Ack(i) => AckKeepsInv(w, i);
    case Loss(i) => LossKeepsInv(w, i);
    case Migrate(start, max, pathMtu) => MigrateKeepsInv(w, e);
  }

  lemma PingKeepsInv(w: World)
    requires Inv(w)
    ensures Inv(Step(w, Ping))
  {
    if w.search.inFlight == INVALID_BYTE_COUNT && !Done(w.search) {
      CountConcat(w.handlers, [w.resets], w.resets, w.resets + 1);
      CountOne(w.resets, w.resets, w.resets + 1);
    }
  }

  lemma MigrateKeepsInv(w: World, e: Event)
    requires Inv(w) && e.Migrate? && Possible(w, e)
    ensures Inv(Step(w, e))
  {
    hide Count;
    CountBounds(w.handlers, w.resets + 1, w.resets + 2);
    CountOne(e.max, 0, Min(e.pathMtu, e.max));
    NextGeneration(w.resets);
  }

  lemma NextGeneration(resets: nat)
    ensures (resets % GENERATIONS + 1) % GENERATIONS == (resets + 1) % GENERATIONS
  {
  }

  // A handler is taken for a current one exactly if it is one.
  lemma Resolve(w: World, i: nat)
    requires Inv(w) && i < |w.handlers| && !Mistaken(w, i)
    ensures w.handlers[i] % GENERATIONS == w.search.generation <==> w.handlers[i] == w.resets
    ensures w.handlers[i] == w.resets ==> w.search.inFlight != INVALID_BYTE_COUNT
    ensures Count(Remove(w.handlers, i), w.resets, w.resets + 1) ==
            Count(w.handlers, w.resets, w.resets + 1) - if w.handlers[i] == w.resets then 1 else 0
    ensures forall j | 0 <= j < |Remove(w.handlers, i)| :: Remove(w.handlers, i)[j] <= w.resets
  {
    hide Count;
    var h := w.handlers;
    assert h == h[..i] + [h[i]] + h[i + 1..];
    CountConcat(h[..i] + [h[i]], h[i + 1..], w.resets, w.resets + 1);
    CountConcat(h[..i], [h[i]], w.resets, w.resets + 1);
    CountConcat(h[..i], h[i + 1..], w.resets, w.resets + 1);
    CountOne(h[i], w.resets, w.resets + 1);
  }

  lemma AckKeepsInv(w: World, i: nat)
    requires Inv(w) && Possible(w, Ack(i))
    ensures Inv(Step(w, Ack(i)))
  {
    hide Count, WellFormed, FirstAbove, Remove;
    if i < |w.handlers| {
      Resolve(w, i);
      if w.handlers[i] == w.resets {
        AckedKeeps(w.search);
        AckedCounts(w.search, 0, Target(w));
      }
    }
  }

  lemma LossKeepsInv(w: World, i: nat)
    requires Inv(w) && Possible(w, Loss(i))
    ensures Inv(Step(w, Loss(i)))
  {
    hide Count, WellFormed, FirstAbove, Remove;
    if i < |w.handlers| {
      Resolve(w, i);
      if w.handlers[i] == w.resets {
        LostKeeps(w.search);
        LostCounts(w.search, 0, Target(w));
        FullMeansReached(Lost(w.search), Target(w));
      }
    }
  }

  // If the largest kept loss is below the target, so are all of them.
  lemma FullMeansReached(s: Search, target: int)
    requires WellFormed(s)
    ensures MaxOf(s) < target ==> Count(s.lost, 0, target) == |s.lost|
  {
    if MaxOf(s) < target {
      forall i | 0 <= i < |s.lost| ensures 0 <= s.lost[i] < target {
      }
      CountBounds(s.lost, 0, target);
    }
  }

  lemma {:induction false} RunKeepsInv(w: World, es: seq<Event>)
    requires Inv(w) && PossibleRun(w, es)
    ensures Inv(Run(w, es))
    decreases |es|
  {
    if es != [] {
      StepKeepsInv(w, es[0]);
      RunKeepsInv(Step(w, es[0]), es[1..]);
    }
  }

  /** In every possible run: no callback panics; a probe is in flight exactly if one handler
      of the current path is unresolved; the size in use never exceeds the path MTU; and as
      long as at most two probes that fit were lost since the last reset, the search range
      still reaches the best size, so that a finished search is within 21 bytes of it. */
  lemma Accuracy(start: int, max: int, pathMtu: int, es: seq<Event>)
    requires 0 <= start <= pathMtu && 0 <= max
    requires PossibleRun(Fresh(start, max, pathMtu), es)
    ensures var w := Run(Fresh(start, max, pathMtu), es);
            && |w.search.lost| > 0
            && !w.panicked
            && Count(w.handlers, w.resets, w.resets + 1) == (if w.search.inFlight == INVALID_BYTE_COUNT then 0 else 1)
            && w.search.min <= w.pathMtu
            && (w.unluckyLosses <= 2 ==> Target(w) <= MaxOf(w.search))
            && (w.unluckyLosses <= 2 && Done(w.search) ==> Target(w) - 21 <= w.search.min)
  {
    var w := Fresh(start, max, pathMtu);
    CountOne(max, 0, Target(w));
    RunKeepsInv(w, es);
  }

  /** How many of the events resolve a probe of the current path. */
  function Resolved(w: World, es: seq<Event>): nat
    requires |w.search.lost| > 0
    decreases |es|
  {
    if es == [] then 0
    else
      StepHasLost(w, es[0]);
      (if Resolves(w, es[0]) then 1 else 0) + Resolved(Step(w, es[0]), es[1..])
  }

  predicate Resolves(w: World, e: Event) {
    (e.Ack? || e.Loss?) && e.probe < |w.handlers| && w.handlers[e.probe] == w.resets
  }

  /** The search on one path ends: the rank bounds the number of probes it can resolve. */
  lemma {:induction false} Terminates(w: World, es: seq<Event>)
    requires Inv(w) && PossibleRun(w, es)
    requires forall i | 0 <= i < |es| :: !es[i].Migrate?
    ensures Inv(Run(w, es)) && 0 <= Rank(Run(w, es).search)
    ensures Resolved(w, es) + Rank(Run(w, es).search) <= Rank(w.search)
    ensures Resolved(w, es) <= Rank(w.search)
    decreases |es|
  {
    hide Count, WellFormed, FirstAbove, Rank, Inv;
    if es == [] {
      InvRank(w);
    }
    if es != [] {
      StepKeepsInv(w, es[0]);
      StepRank(w, es[0]);
      Terminates(Step(w, es[0]), es[1..]);
    }
  }

  lemma StepRank(w: World, e: Event)
    requires Inv(w) && Possible(w, e) && !e.Migrate?
    ensures |Step(w, e).search.lost| > 0
    ensures Rank(Step(w, e).search) <= Rank(w.search) - if Resolves(w, e) then 1 else 0
  {
    hide Count, FirstAbove;
    if (e.Ack? || e.Loss?) && e.probe < |w.handlers| {
      Resolve(w, e.probe);
      if w.handlers[e.probe] == w.resets {
        if e.Ack? {
          AckedRank(w.search);
        } else {
          LostRank(w.search);
        }
      }
    }
  }

  lemma InvRank(w: World)
    requires Inv(w)
    ensures 0 <= Rank(w.search)
  {
    hide Rank, Count;
    RankBound(w.search);
  }

  lemma SameGeneration(a: nat, b: nat)
    requires a <= b
    ensures a % GENERATIONS == b % GENERATIONS <==> (b - a) % GENERATIONS == 0
  {
    var qa, qb := a / GENERATIONS, b / GENERATIONS;
    assert a == GENERATIONS * qa + a % GENERATIONS && b == GENERATIONS * qb + b % GENERATIONS;
    if a % GENERATIONS == b % GENERATIONS {
      assert b - a == GENERATIONS * (qb - qa);
    }
  }

  /** With the 8-bit generation, a late handler is mistaken for a current one, and changes the search or panics,
      exactly if the resets since its probe are a multiple of 256.  It panics without a probe in flight; with one,
      its acknowledgement puts the size of that probe into use. */
  lemma StaleHandler(w: World, i: nat)
    requires |w.search.lost| > 0 && !w.panicked
    requires w.search.generation == w.resets % GENERATIONS
    requires i < |w.handlers| && w.handlers[i] < w.resets
    ensures var t := Step(w, Ack(i));
            && (t.panicked || t.search != w.search <==> Mistaken(w, i))
            && (t.panicked <==> Mistaken(w, i) && w.search.inFlight == INVALID_BYTE_COUNT)
            && (Mistaken(w, i) && !t.panicked ==> t.search.min == w.search.inFlight)
    ensures var t := Step(w, Loss(i));
            && (t.panicked || t.search != w.search <==> Mistaken(w, i))
            && (t.panicked <==> Mistaken(w, i) && w.search.inFlight == INVALID_BYTE_COUNT)
  {
    hide FirstAbove;
    SameGeneration(w.handlers[i], w.resets);
  }

  function Migrations(n: nat, pathMtu: int): seq<Event> {
    if n == 0 then [] else [Migrate(1200, 1452, pathMtu)] + Migrations(n - 1, pathMtu)
  }

  function Migrated(w: World, n: nat, pathMtu: int): World {
    if n == 0 then w
    else World(Start(1200, 1452, (w.search.generation + n) % GENERATIONS), w.resets + n, w.handlers, pathMtu, 1452, 0,
               w.panicked)
  }

  lemma {:induction false} RunMigrations(w: World, n: nat, pathMtu: int, es: seq<Event>)
    requires |w.search.lost| > 0
    ensures Run(w, Migrations(n, pathMtu) + es) == Run(Migrated(w, n, pathMtu), es)
    decreases n
  {
    if n == 0 {
      assert Migrations(n, pathMtu) + es == es;
    } else {
      var e := Migrate(1200, 1452, pathMtu);
      MigrateFirst(w, n, pathMtu);
      RunFirst(w, e, Migrations(n - 1, pathMtu) + es);
      RunMigrations(Step(w, e), n - 1, pathMtu, es);
      hide Step, Migrated, Run;
      assert Migrations(n, pathMtu) + es == [e] + (Migrations(n - 1, pathMtu) + es);
    }
  }

  lemma MigrateFirst(w: World, n: nat, pathMtu: int)
    requires n > 0 && |w.search.lost| > 0
    ensures Migrated(Step(w, Migrate(1200, 1452, pathMtu)), n - 1, pathMtu) == Migrated(w, n, pathMtu)
  {
    NextGenerations(w.search.generation, n);
  }

  lemma NextGenerations(g: int, n: nat)
    requires n > 0
    ensures ((g + 1) % GENERATIONS + n - 1) % GENERATIONS == (g + n) % GENERATIONS
  {
    var q := (g + 1) / GENERATIONS;
    assert (g + 1) % GENERATIONS + n - 1 == g + n - GENERATIONS * q;
  }

  lemma RunFirst(w: World, e: Event, es: seq<Event>)
    requires |w.search.lost| > 0
    ensures |Step(w, e).search.lost| > 0 && Run(w, [e] + es) == Run(Step(w, e), es)
  {
    StepHasLost(w, e);
    hide Step;
    assert ([e] + es)[1..] == es;
  }

  // A probe is sent, and the connection migrates 256 times.
  lemma AfterMigrations(pathMtu: int, es: seq<Event>)
    ensures Run(Fresh(1200, 1452, 1452), [Ping] + Migrations(256, pathMtu) + es) ==
            Run(World(Start(1200, 1452, 0), 256, [0], pathMtu, 1452, 0, false), es)
  {
    var w0 := Fresh(1200, 1452, 1452);
    var w1 := Step(w0, Ping);
    assert w1.handlers == [0] && w1.search.generation == 0;
    RunFirst(w0, Ping, Migrations(256, pathMtu) + es);
    assert [Ping] + Migrations(256, pathMtu) + es == [Ping] + (Migrations(256, pathMtu) + es);
    RunMigrations(w1, 256, pathMtu, es);
  }

  /** The condition on late handlers is needed: 256 migrations after a probe, its acknowledgement
      panics. */
  lemma WrapAroundPanics()
    ensures Run(Fresh(1200, 1452, 1452), [Ping] + Migrations(256, 1452) + [Ack(0)]).panicked
  {
    AfterMigrations(1452, [Ack(0)]);
    var w := World(Start(1200, 1452, 0), 256, [0], 1452, 1452, 0, false);
    RunFirst(w, Ack(0), []);
    assert [Ack(0)] == [Ack(0)] + [];
  }

  /** Worse, with a probe in flight on the new path, it puts a size into use that is larger than the path MTU. */
  lemma WrapAroundExceedsMtu()
    ensures var w := Run(Fresh(1200, 1452, 1452), [Ping] + Migrations(256, 1200) + [Ping, Ack(0)]);
            !w.panicked && w.pathMtu == 1200 && w.search.min == 1326
  {
    AfterMigrations(1200, [Ping, Ack(0)]);
    var w := World(Start(1200, 1452, 0), 256, [0], 1200, 1452, 0, false);
    RunFirst(w, Ping, [Ack(0)]);
    assert [Ping, Ack(0)] == [Ping] + [Ack(0)];
    var w' := Step(w, Ping);
    assert w'.search.inFlight == 1326 && w'.handlers[0] == 0;
    RunFirst(w', Ack(0), []);
    assert [Ack(0)] == [Ack(0)] + [];
  }

  /** One more event at the end of a run. */
  lemma {:induction false} RunLast(w: World, es: seq<Event>, e: Event)
    requires |w.search.lost| > 0
    ensures |Run(w, es).search.lost| > 0 && Run(w, es + [e]) == Step(Run(w, es), e)
    decreases |es|
  {
    hide Step;
    if es == [] {
      assert es + [e] == [e] + [];
      RunFirst(w, e, []);
    } else {
      StepHasLost(w, es[0]);
      RunLast(Step(w, es[0]), es[1..], e);
      assert es + [e] == [es[0]] + (es[1..] + [e]);
      RunFirst(w, es[0], es[1..] + [e]);
    }
  }

  /** After a loss, the search goes on below the lost size; once a smaller probe has arrived, above it again. */
  lemma LossIsRetried()
    ensures var s1 := Lost(Probe(Start(1200, 1452, 0)));
            var s2 := Acked(Probe(s1));
            s1.lost[0] == 1326 && Probe(s1).inFlight == 1263 && Probe(s2).inFlight == 1357
  {
    var s1 := Lost(Probe(Start(1200, 1452, 0)));
    assert s1.lost == [1326, 1452];
    assert Probe(s1).inFlight == 1263;
    assert Acked(Probe(s1)).lost == [1326, 1452];
  }

  /** The tolerance of two losses is exact: after three, the search gives up sizes that the
      path supports. */
  lemma ThreeLossesMislead()
    ensures var s1 := Lost(Probe(Start(1200, 1452, 0)));
            var s2 := Lost(Probe(s1));
            var s3 := Lost(Probe(s2));
            MaxOf(s1) == MaxOf(s2) == 1452 && MaxOf(s3) == 1326
  {
    var s1 := Lost(Probe(Start(1200, 1452, 0)));
    assert s1.lost == [1326, 1452];
    var s2 := Lost(Probe(s1));
    assert s2.lost == [1263, 1326, 1452];
    var s3 := Lost(Probe(s2));
    assert s3.lost == [1231, 1263, 1326];
  }
}
