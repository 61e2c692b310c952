/** The MTU finder: the fields and the in-place array updates behind the search. */
module MtuFinding {
  import opened MtuSearch
  import opened MtuRuns

  // Probes are sent this many round trips apart.
  const MTU_PROBE_DELAY: int := 5

  /** The entries before the first invalid one. */
  function ValidPrefix(a: seq<int>): seq<int>
    requires |a| == MAX_LOST_MTU_PROBES
  {
    if a[0] == INVALID_BYTE_COUNT then []
    else if a[1] == INVALID_BYTE_COUNT then a[..1]
    else if a[2] == INVALID_BYTE_COUNT then a[..2]
    else a
  }

  /** The valid entries come first. */
  predicate Packed(a: seq<int>)
    requires |a| == MAX_LOST_MTU_PROBES
  {
    forall i | |ValidPrefix(a)| <= i < |a| :: a[i] == INVALID_BYTE_COUNT
  }

  class MtuFinder {
    var lastProbeTime: int  // 0 before the search is started
    var inFlight: int
    var min: int
    const lost: array<int>
    var lastProbeWasLost: bool
    var generation: nat

    ghost predicate Valid()
      reads this, lost
    {
      && lost.Length == MAX_LOST_MTU_PROBES
      && Packed(lost[..])
      && generation < GENERATIONS
      && WellFormed(State())
    }

    ghost function State(): Search
      reads this, lost
      requires lost.Length == MAX_LOST_MTU_PROBES
    {
      Search(inFlight, min, ValidPrefix(lost[..]), lastProbeWasLost, generation)
    }

    constructor (start: nat, max: nat)
      ensures Valid() && fresh(lost)
      ensures State() == MtuSearch.Start(start, max, 0) && lastProbeTime == 0
    {
      lastProbeTime := 0;
      inFlight := INVALID_BYTE_COUNT;
      min := start;
      lost := new int[MAX_LOST_MTU_PROBES];
      lastProbeWasLost := false;
      generation := 0;
      new;
      Init(start, max);
    }

    method Init(start: nat, max: nat)
      requires lost.Length == MAX_LOST_MTU_PROBES
      modifies this`min, lost
      ensures min == start && Packed(lost[..]) && ValidPrefix(lost[..]) == [max]
    {
      min := start;
      for i := 0 to lost.Length
        invariant min == start
        invariant i > 0 ==> lost[0] == max
        invariant forall j | 1 <= j < i :: lost[j] == INVALID_BYTE_COUNT
      {
        if i == 0 {
          lost[i] := max;
        } else {
          lost[i] := INVALID_BYTE_COUNT;
        }
      }
    }

    method MaxSize() returns (m: int)
      requires Valid()
      ensures m == MaxOf(State())
    {
      for i := 0 to lost.Length
        invariant forall j | 0 <= j < i :: lost[j] != INVALID_BYTE_COUNT
      {
        if lost[i] == INVALID_BYTE_COUNT {
          return lost[i - 1];
        }
      }
      return lost[lost.Length - 1];
    }

    method IsDone() returns (done: bool)
      requires Valid()
      ensures done == Done(State())
    {
      var m := MaxSize();
      done := m - min <= MAX_MTU_DIFF + 1;
    }

    method Begin(now: int)
      modifies this`lastProbeTime
      ensures lastProbeTime == now
    {
      lastProbeTime := now;
    }

    method ShouldSendProbe(now: int, smoothedRtt: int) returns (send: bool)
      requires Valid()
      ensures send <==>
              && lastProbeTime != 0
              && inFlight == INVALID_BYTE_COUNT && !Done(State())
              && lastProbeTime + MTU_PROBE_DELAY * smoothedRtt <= now
    {
      var done := IsDone();
      send := lastProbeTime != 0 && inFlight == INVALID_BYTE_COUNT && !done
        && lastProbeTime + MTU_PROBE_DELAY * smoothedRtt <= now;
    }

    /** Probe in the middle between the current size and the smallest lost one if the last probe was lost, or else
        the maximum.  Called only when ShouldSendProbe allows it. */
    method GetPing(now: int) returns (size: int, handler: nat)
      requires Valid() && inFlight == INVALID_BYTE_COUNT && !Done(State())
      modifies this`lastProbeTime, this`inFlight
      ensures Valid() && State() == Probe(old(State()))
      ensures size == inFlight && handler == generation && lastProbeTime == now
      ensures lastProbeWasLost ==> 0 <= (lost[0] - size) - (size - min) <= 1
      ensures !lastProbeWasLost ==> 0 <= (MaxOf(State()) - size) - (size - min) <= 1
    {
      if lastProbeWasLost {
        size := (min + lost[0]) / 2;
      } else {
        var m := MaxSize();
        size := (min + m) / 2;
      }
      lastProbeTime := now;
      inFlight := size;
      handler := generation;
    }

    method CurrentSize() returns (size: int)
      requires Valid()
      ensures size == State().min
    {
      size := min;
    }

    method Reset(now: int, start: nat, max: nat)
      requires Valid()
      modifies this, lost
      ensures Valid()
      ensures State() == MtuSearch.Start(start, max, (old(generation) + 1) % GENERATIONS) && lastProbeTime == now
    {
      generation := (generation + 1) % GENERATIONS;
      lastProbeTime := now;
      lastProbeWasLost := false;
      inFlight := INVALID_BYTE_COUNT;
      Init(start, max);
    }

    /** The acknowledgement of the probe with this handler.  It panics exactly if the handler
        has the current generation although no probe is in flight. */
    method OnAcked(handler: nat) returns (panicked: bool)
      requires Valid()
      modifies this`inFlight, this`min, this`lastProbeWasLost, lost
      ensures Valid()
      ensures panicked <==> handler == generation && old(inFlight) == INVALID_BYTE_COUNT
      ensures State() == if handler != generation || panicked then old(State()) else Acked(old(State()))
    {
      hide FirstAbove, WellFormed;
      ghost var s := State();
      if handler != generation {
        return false;
      }
      var size := inFlight;
      if size == INVALID_BYTE_COUNT {
        return true;
      }
      ProbeInRange(s);
      AckedKeeps(s);
      inFlight := INVALID_BYTE_COUNT;
      min := size;
      lastProbeWasLost := false;
      var j := FindAbove(size);
      if j > 0 {
        ShiftDown(j);
      }
      panicked := false;
    }

    /** The loss of the probe with this handler. */
    method OnLost(handler: nat) returns (panicked: bool)
      requires Valid()
      modifies this`inFlight, this`lastProbeWasLost, lost
      ensures Valid()
      ensures panicked <==> handler == generation && old(inFlight) == INVALID_BYTE_COUNT
      ensures State() == if handler != generation || panicked then old(State()) else Lost(old(State()))
    {
      hide FirstAbove, WellFormed;
      ghost var s := State();
      if handler != generation {
        return false;
      }
      var size := inFlight;
      if size == INVALID_BYTE_COUNT {
        return true;
      }
      ProbeInRange(s);
      LostKeeps(s);
      lastProbeWasLost := true;
      inFlight := INVALID_BYTE_COUNT;
      var i := FindAbove(size);
      ShiftUp(i, size);
      panicked := false;
    }

    method FindAbove(size: int) returns (j: nat)
      requires lost.Length == MAX_LOST_MTU_PROBES && Packed(lost[..]) && 0 <= size
      requires FirstAbove(ValidPrefix(lost[..]), size) < |ValidPrefix(lost[..])|
      ensures j == FirstAbove(ValidPrefix(lost[..]), size)
    {
      ghost var valid := ValidPrefix(lost[..]);
      ghost var p := FirstAbove(valid, size);
      assert valid[p] == lost[p];
      for i := 0 to lost.Length
        invariant i <= p
      {
        if size < lost[i] {
          assert i < |valid| && valid[i] == lost[i];
          return i;
        }
      }
      assert false;
    }

    // Drop the first j entries.
    method ShiftDown(j: nat)
      requires lost.Length == MAX_LOST_MTU_PROBES && Packed(lost[..])
      requires 0 < j < |ValidPrefix(lost[..])|
      modifies lost
      ensures Packed(lost[..]) && ValidPrefix(lost[..]) == old(ValidPrefix(lost[..]))[j..]
    {
      for i := 0 to lost.Length
        invariant forall k | i <= k < lost.Length :: lost[k] == old(lost[k])
        invariant forall k | 0 <= k < i :: lost[k] == if k + j < lost.Length then old(lost[k + j])
                  else INVALID_BYTE_COUNT
      {
        if i + j < lost.Length {
          lost[i] := lost[i + j];
        } else {
          lost[i] := INVALID_BYTE_COUNT;
        }
      }
    }

    // Insert size at i; the last entry falls off.
    method ShiftUp(i: nat, size: int)
      requires lost.Length == MAX_LOST_MTU_PROBES && Packed(lost[..])
      requires i < |ValidPrefix(lost[..])| && size != INVALID_BYTE_COUNT
      modifies lost
      ensures Packed(lost[..])
      ensures var valid := old(ValidPrefix(lost[..]));
              ValidPrefix(lost[..]) == Smallest(valid[..i] + [size] + valid[i..])
    {
      var k := lost.Length - 1;
      while k > i
        invariant i <= k < lost.Length
        invariant forall j | 0 <= j <= k :: lost[j] == old(lost[j])
        invariant forall j | k < j < lost.Length :: lost[j] == old(lost[j - 1])
      {
        lost[k] := lost[k - 1];
        k := k - 1;
      }
      lost[i] := size;
    }
  }

  /** The finder does what the functions say, up to the first panic; and in a possible run, there is none and the
      size that it reports does not exceed the path MTU. */
  method Replay(start: nat, max: nat, pathMtu: int, es: seq<Event>)
    returns (finder: MtuFinder, size: int, done: nat, panicked: bool)
    requires forall e | e in es && e.Migrate? :: 0 <= e.start && 0 <= e.max
    ensures fresh(finder) && finder.lost.Length == MAX_LOST_MTU_PROBES && done <= |es|
    ensures var w := Run(Fresh(start, max, pathMtu), es[..done]);
            finder.State() == w.search && size == w.search.min && panicked == w.panicked
    ensures forall i | 0 <= i < done :: !Run(Fresh(start, max, pathMtu), es[..i]).panicked
    ensures !panicked ==> done == |es|
    ensures start <= pathMtu && PossibleRun(Fresh(start, max, pathMtu), es) ==>
              !panicked && size <= Run(Fresh(start, max, pathMtu), es).pathMtu
  {
    hide Step, Run, PossibleRun;
    ghost var w0 := Fresh(start, max, pathMtu);
    finder := new MtuFinder(start, max);
    var handlers: seq<nat> := [];
    done, panicked := 0, false;
    RunNothing(w0, es);
    while done < |es| && !panicked
      invariant finder.Valid() && fresh(finder) && fresh(finder.lost) && done <= |es|
      invariant Shows(finder.State(), handlers, panicked, Run(w0, es[..done]))
      invariant forall i | 0 <= i < done :: !Run(w0, es[..i]).panicked
    {
      assert es[..done + 1] == es[..done] + [es[done]] && es[done] in es;
      RunLast(w0, es[..done], es[done]);
      handlers, panicked := Take(finder, handlers, es[done], Run(w0, es[..done]));
      done := done + 1;
    }
    size := finder.CurrentSize();
    if start <= pathMtu && PossibleRun(w0, es) {
      PossiblePrefix(w0, es, done);
      Accuracy(start, max, pathMtu, es[..done]);
      assert !panicked && es[..done] == es;
    }
  }

  // The handlers know the generation of their probe.
  ghost predicate Shows(s: Search, handlers: seq<nat>, panicked: bool, w: World) {
    && s == w.search && panicked == w.panicked && s.generation == w.resets % GENERATIONS
    && |handlers| == |w.handlers| && forall i | 0 <= i < |handlers| :: handlers[i] == w.handlers[i] % GENERATIONS
  }

  lemma RunNothing(w: World, es: seq<Event>)
    requires |w.search.lost| > 0
    ensures Run(w, es[..0]) == w
  {
  }

  lemma {:induction false} PossiblePrefix(w: World, es: seq<Event>, n: nat)
    requires |w.search.lost| > 0 && PossibleRun(w, es) && n <= |es|
    ensures PossibleRun(w, es[..n])
    decreases n
  {
    if n > 0 {
      hide Step, Possible;
      StepHasLost(w, es[0]);
      PossiblePrefix(Step(w, es[0]), es[1..], n - 1);
      assert es[1..][..n - 1] == es[..n][1..];
    }
  }

  method Take(finder: MtuFinder, handlers: seq<nat>, e: Event, ghost w: World)
    returns (handlers': seq<nat>, panicked: bool)
    requires finder.Valid() && Shows(finder.State(), handlers, false, w)
    requires e.Migrate? ==> 0 <= e.start && 0 <= e.max
    modifies finder, finder.lost
    ensures finder.Valid() && |w.search.lost| > 0 && Shows(finder.State(), handlers', panicked, Step(w, e))
  {
    hide FirstAbove, Acked, Lost, ProbeSize, ValidPrefix, Packed;
    handlers', panicked := handlers, false;
    match e {
      case Ping =>
        var stop := finder.IsDone();
        if finder.inFlight == INVALID_BYTE_COUNT && !stop {
          var _, handler := finder.GetPing(0);
          handlers' := handlers + [handler];
        }
      case Ack(i) =>
        if i < |handlers| {
          panicked := finder.OnAcked(handlers[i]);
          handlers' := handlers[..i] + handlers[i + 1..];
        }
      case Loss(i) =>
        if i < |handlers| {
          panicked := finder.OnLost(handlers[i]);
          handlers' := handlers[..i] + handlers[i + 1..];
        }
      case Migrate(start, max, pathMtu) =>
        finder.Reset(0, start, max);
        NextGeneration(w.resets);
    }
  }
}
