/** Automatic rotation of session ticket keys. */
module TicketKeys {
  import opened StreamBytes

  // Times are in seconds.
  const HOUR: int := 3600
  const TICKET_KEY_ROTATION: int := 24 * HOUR
  const TICKET_KEY_LIFETIME: int := 7 * 24 * HOUR

  datatype TicketKey = TicketKey(secret: nat, created: int)

  /** The k-th reading of the clock. */
  type Clock = nat -> int

  ghost predicate NonDecreasing(clock: Clock) {
    forall i, j | i <= j :: clock(i) <= clock(j)
  }

  /** The keys, and how often the clock was read. */
  datatype State = State(ticks: nat, keys: seq<TicketKey>)

  /** The keys that have not expired; the clock is read once for each key. */
  function Unexpired(clock: Clock, ticks: nat, keys: seq<TicketKey>): seq<TicketKey> {
    if keys == [] then [] else
    var n := |keys| - 1;
    var kept := Unexpired(clock, ticks, keys[..n]);
    if clock(ticks + n) - keys[n].created < TICKET_KEY_LIFETIME then kept + [keys[n]] else kept
  }

  predicate Usable(clock: Clock, s: State) {
    s.keys != [] && clock(s.ticks) - s.keys[0].created < TICKET_KEY_ROTATION
  }

  /** The state after the check; the clock is not read when there is no key to compare with. */
  function CheckStep(s: State): State {
    if s.keys == [] then s else s.(ticks := s.ticks + 1)
  }

  function RotateStep(clock: Clock, s: State, secret: nat): State {
    State(s.ticks + 1 + |s.keys|,
          [TicketKey(secret, clock(s.ticks))] + Unexpired(clock, s.ticks + 1, s.keys))
  }

  // Calls of several goroutines run these sections in any order: the one under the read lock, and the one
  // under the write lock with the secret it would draw.
  datatype Section = Fast | Slow(secret: nat)

  function Step(clock: Clock, s: State, section: Section): State {
    match section
    case Fast => CheckStep(s)
    case Slow(secret) => if Usable(clock, s) then CheckStep(s) else RotateStep(clock, CheckStep(s), secret)
  }

  /** The section under the read lock returns no keys, and leaves it to the other one, if they are not usable. */
  predicate Returns(clock: Clock, s: State, section: Section) {
    section.Slow? || Usable(clock, s)
  }

  function Run(clock: Clock, sections: seq<Section>): State {
    if sections == [] then State(0, []) else
    var n := |sections| - 1;
    Step(clock, Run(clock, sections[..n]), sections[n])
  }

  /** Newest first, and at least a day apart. */
  ghost predicate Spaced(keys: seq<TicketKey>) {
    forall i, j | 0 <= i < j < |keys| :: keys[i].created - keys[j].created >= TICKET_KEY_ROTATION * (j - i)
  }

  /** When the newest key was created, none of the others had expired. */
  ghost predicate Alive(keys: seq<TicketKey>) {
    forall i | 0 <= i < |keys| :: keys[0].created - keys[i].created < TICKET_KEY_LIFETIME
  }

  ghost predicate Past(keys: seq<TicketKey>, now: int) {
    forall k | k in keys :: k.created <= now
  }

  ghost predicate Inv(clock: Clock, s: State) {
    Spaced(s.keys) && Alive(s.keys) && Past(s.keys, clock(s.ticks))
  }

  /** What every returned list of keys satisfies at the time of the check: at most seven keys, newest first and
      a day apart, the first one younger than a day, and none eight days old. */
  ghost predicate Fresh(keys: seq<TicketKey>, now: int) {
    && 0 < |keys| <= 7 && Spaced(keys)
    && now - keys[0].created < TICKET_KEY_ROTATION
    && (forall i | 0 <= i < |keys| :: now - keys[i].created < TICKET_KEY_LIFETIME + TICKET_KEY_ROTATION)
  }

  /** Keys a day apart that were alive when the first was created are at most seven. */
  lemma AtMostSeven(keys: seq<TicketKey>)
    requires Spaced(keys) && Alive(keys)
    ensures |keys| <= 7
  {
    if |keys| > 1 {
      var oldest := |keys| - 1;
      assert keys[0].created - keys[oldest].created >= TICKET_KEY_ROTATION * oldest;
    }
  }

  /** While the newest key is fresh, no key is eight days old. */
  lemma FreshMeansYoung(keys: seq<TicketKey>, now: int)
    requires keys != [] && Spaced(keys) && Alive(keys) && now - keys[0].created < TICKET_KEY_ROTATION
    ensures Fresh(keys, now)
  {
    AtMostSeven(keys);
  }

  // kept are the keys of all at the given indices, in order.
  ghost predicate Picks(kept: seq<TicketKey>, all: seq<TicketKey>, indices: seq<nat>) {
    && |indices| == |kept|
    && (forall p | 0 <= p < |kept| :: p <= indices[p] < |all| && kept[p] == all[indices[p]])
    && (forall p, q | 0 <= p < q < |kept| :: indices[q] - indices[p] >= q - p)
  }

  lemma PickNext(kept: seq<TicketKey>, all: seq<TicketKey>, indices: seq<nat>, next: TicketKey)
    requires Picks(kept, all, indices)
    ensures Picks(kept, all + [next], indices)
    ensures Picks(kept + [next], all + [next], indices + [|all|])
  {
    var indices' := indices + [|all|];
    if kept != [] {
      assert |kept| - 1 <= indices[|kept| - 1];
      forall p | 0 <= p < |kept| ensures |all| - indices[p] >= |kept| - p {
        assert p < |kept| - 1 ==> indices[|kept| - 1] - indices[p] >= |kept| - 1 - p;
      }
    }
  }

  lemma {:induction false} UnexpiredPicks(clock: Clock, ticks: nat, keys: seq<TicketKey>) returns (indices: seq<nat>)
    ensures Picks(Unexpired(clock, ticks, keys), keys, indices)
  {
    indices := [];
    if keys != [] {
      hide Picks;
      var n := |keys| - 1;
      indices := UnexpiredPicks(clock, ticks, keys[..n]);
      PickNext(Unexpired(clock, ticks, keys[..n]), keys[..n], indices, keys[n]);
      assert keys == keys[..n] + [keys[n]];
      if clock(ticks + n) - keys[n].created < TICKET_KEY_LIFETIME {
        indices := indices + [n];
      }
    }
  }

  /** No key that has not expired by the end is dropped, and none that had expired before is kept. */
  lemma {:induction false} UnexpiredExactly(clock: Clock, ticks: nat, keys: seq<TicketKey>, k: TicketKey)
    requires NonDecreasing(clock)
    ensures k in Unexpired(clock, ticks, keys) ==> k in keys && clock(ticks) - k.created < TICKET_KEY_LIFETIME
    ensures k in keys && clock(ticks + |keys|) - k.created < TICKET_KEY_LIFETIME ==> k in Unexpired(clock, ticks, keys)
  {
    if keys != [] {
      var n := |keys| - 1;
      UnexpiredExactly(clock, ticks, keys[..n], k);
      assert keys == keys[..n] + [keys[n]];
      assert clock(ticks) <= clock(ticks + n) <= clock(ticks + |keys|);
    }
  }

  lemma SpacedApart(all: seq<TicketKey>, a: nat, b: nat, gap: nat)
    requires Spaced(all) && a + gap <= b < |all|
    ensures all[a].created - all[b].created >= TICKET_KEY_ROTATION * gap
  {
    if a < b {
      assert all[a].created - all[b].created >= TICKET_KEY_ROTATION * (b - a);
    }
  }

  lemma RotationApart(all: seq<TicketKey>, kept: seq<TicketKey>, indices: seq<nat>, key: TicketKey, i: nat, j: nat)
    requires Spaced(all) && Picks(kept, all, indices) && i < j <= |kept|
    requires all != [] ==> key.created - all[0].created >= TICKET_KEY_ROTATION
    ensures ([key] + kept)[i].created - ([key] + kept)[j].created >= TICKET_KEY_ROTATION * (j - i)
  {
    hide Spaced;
    if i == 0 {
      SpacedApart(all, 0, indices[j - 1], j - 1);
    } else {
      SpacedApart(all, indices[i - 1], indices[j - 1], j - i);
    }
  }

  /** A rotation keeps the keys newest first and a day apart. */
  lemma SpacedRotation(all: seq<TicketKey>, kept: seq<TicketKey>, indices: seq<nat>, key: TicketKey)
    requires Spaced(all) && Picks(kept, all, indices)
    requires all != [] ==> key.created - all[0].created >= TICKET_KEY_ROTATION
    ensures Spaced([key] + kept)
  {
    hide Picks;
    var keys := [key] + kept;
    forall i, j | 0 <= i < j < |keys| ensures keys[i].created - keys[j].created >= TICKET_KEY_ROTATION * (j - i) {
      RotationApart(all, kept, indices, key, i, j);
    }
  }

  lemma CheckKeeps(clock: Clock, s: State)
    requires NonDecreasing(clock) && Inv(clock, s)
    ensures Inv(clock, CheckStep(s)) && clock(s.ticks) <= clock(CheckStep(s).ticks)
  {
    hide Spaced, Alive;
  }

  lemma AliveRotation(clock: Clock, s: State, secret: nat)
    requires NonDecreasing(clock) && Past(s.keys, clock(s.ticks))
    ensures var t := RotateStep(clock, s, secret); Alive(t.keys) && Past(t.keys, clock(t.ticks))
  {
    hide Unexpired;
    var t := RotateStep(clock, s, secret);
    forall k | k in t.keys[1..]
      ensures clock(s.ticks) - k.created < TICKET_KEY_LIFETIME && k.created <= clock(t.ticks)
    {
      UnexpiredExactly(clock, s.ticks + 1, s.keys, k);
      assert clock(s.ticks) <= clock(s.ticks + 1) <= clock(t.ticks);
    }
    assert clock(s.ticks) <= clock(t.ticks);
  }

  lemma RotateKeeps(clock: Clock, s: State, secret: nat)
    requires NonDecreasing(clock) && Inv(clock, s)
    requires s.keys != [] ==> clock(s.ticks) - s.keys[0].created >= TICKET_KEY_ROTATION
    ensures Inv(clock, RotateStep(clock, s, secret))
  {
    hide Spaced, Alive, Past, Picks, Unexpired;
    var indices := UnexpiredPicks(clock, s.ticks + 1, s.keys);
    SpacedRotation(s.keys, Unexpired(clock, s.ticks + 1, s.keys), indices, TicketKey(secret, clock(s.ticks)));
    AliveRotation(clock, s, secret);
  }

  /** Every section keeps the invariant, and what it returns is fresh at the time of its check. */
  lemma StepKeeps(clock: Clock, s: State, section: Section)
    requires NonDecreasing(clock) && Inv(clock, s)
    ensures Inv(clock, Step(clock, s, section)) && s.ticks <= Step(clock, s, section).ticks
    ensures Returns(clock, s, section) ==> Fresh(Step(clock, s, section).keys, clock(s.ticks))
  {
    hide Spaced, Alive, Past, Fresh, Unexpired;
    CheckKeeps(clock, s);
    var checked := CheckStep(s);
    if section.Slow? && !Usable(clock, s) {
      RotateKeeps(clock, checked, section.secret);
    }
    var t := Step(clock, s, section);
    if Returns(clock, s, section) {
      FreshMeansYoung(t.keys, clock(s.ticks));
    }
  }

  lemma {:induction false} RunKeeps(clock: Clock, sections: seq<Section>)
    requires NonDecreasing(clock)
    ensures Inv(clock, Run(clock, sections))
  {
    if sections != [] {
      hide Inv;
      var n := |sections| - 1;
      RunKeeps(clock, sections[..n]);
      StepKeeps(clock, Run(clock, sections[..n]), sections[n]);
    }
  }

  /** After every run, whatever the next section returns is fresh. */
  lemma ReturnedFresh(clock: Clock, sections: seq<Section>, section: Section)
    requires NonDecreasing(clock)
    ensures var s := Run(clock, sections);
            Returns(clock, s, section) ==> Fresh(Step(clock, s, section).keys, clock(s.ticks))
  {
    hide Inv, Fresh, Step, Run;
    RunKeeps(clock, sections);
    StepKeeps(clock, Run(clock, sections), section);
  }

  /** The key is in use or has expired. */
  ghost predicate Accounted(clock: Clock, s: State, k: TicketKey) {
    k in s.keys || clock(s.ticks) - k.created >= TICKET_KEY_LIFETIME
  }

  lemma StepAccounts(clock: Clock, s: State, section: Section, k: TicketKey)
    requires NonDecreasing(clock) && Accounted(clock, s, k)
    ensures Accounted(clock, Step(clock, s, section), k)
  {
    hide Unexpired;
    UnexpiredExactly(clock, CheckStep(s).ticks + 1, s.keys, k);
  }

  lemma RunNext(clock: Clock, sections: seq<Section>, section: Section)
    ensures Run(clock, sections + [section]) == Step(clock, Run(clock, sections), section)
  {
    hide Step;
    assert (sections + [section])[..|sections|] == sections;
  }

  /** A key that was in use stays in use until it expires, whatever sections run meanwhile: a ticket it sealed
      can be opened for seven days. */
  lemma {:induction false} NeverDroppedEarly(clock: Clock, before: seq<Section>, after: seq<Section>, k: TicketKey)
    requires NonDecreasing(clock) && k in Run(clock, before).keys
    ensures Accounted(clock, Run(clock, before + after), k)
  {
    hide Run, Step;
    if after == [] {
      assert before + after == before;
    } else {
      hide Accounted;
      var n := |after| - 1;
      NeverDroppedEarly(clock, before, after[..n], k);
      StepAccounts(clock, Run(clock, before + after[..n]), after[n], k);
      RunNext(clock, before + after[..n], after[n]);
      assert before + after == before + after[..n] + [after[n]];
    }
  }

  /** The configuration; each section runs under its lock. */
  class Config {
    const clock: Clock
    var ticks: nat
    var autoSessionTicketKeys: seq<TicketKey>

    function Now(): State
      reads this
    {
      State(ticks, autoSessionTicketKeys)
    }

    constructor (clock: Clock)
      ensures Now() == Run(clock, []) && this.clock == clock
    {
      this.clock, ticks, autoSessionTicketKeys := clock, 0, [];
    }

    method Time() returns (now: int)
      modifies this`ticks
      ensures ticks == old(ticks) + 1 && now == clock(old(ticks))
    {
      now := clock(ticks);
      ticks := ticks + 1;
    }

    /** The section under the read lock: use the keys if the newest one is fresh. */
    method FastPath() returns (keys: Option<seq<TicketKey>>)
      modifies this`ticks
      ensures Now() == Step(clock, old(Now()), Fast)
      ensures keys == if Returns(clock, old(Now()), Fast) then Some(autoSessionTicketKeys) else None
    {
      if |autoSessionTicketKeys| > 0 {
        var now := Time();
        if now - autoSessionTicketKeys[0].created < TICKET_KEY_ROTATION {
          return Some(autoSessionTicketKeys);
        }
      }
      return None;
    }

    /** The section under the write lock: check again, and rotate the keys if need be. */
    method Rotate(secret: nat) returns (keys: seq<TicketKey>)
      modifies this
      ensures Now() == Step(clock, old(Now()), Slow(secret)) && keys == autoSessionTicketKeys
      ensures if Usable(clock, old(Now())) then keys == old(autoSessionTicketKeys)
              else keys != [] && keys[0].secret == secret
    {
      var stale := |autoSessionTicketKeys| == 0;
      if !stale {
        var now := Time();
        stale := now - autoSessionTicketKeys[0].created >= TICKET_KEY_ROTATION;
      }
      if stale {
        var created := Time();
        var kept := RemoveExpired();
        autoSessionTicketKeys := [TicketKey(secret, created)] + kept;
      }
      keys := autoSessionTicketKeys;
    }

    method RemoveExpired() returns (kept: seq<TicketKey>)
      modifies this`ticks
      ensures ticks == old(ticks) + |autoSessionTicketKeys|
      ensures kept == Unexpired(clock, old(ticks), autoSessionTicketKeys)
    {
      kept := [];
      for i := 0 to |autoSessionTicketKeys|
        invariant ticks == old(ticks) + i
        invariant kept == Unexpired(clock, old(ticks), autoSessionTicketKeys[..i])
      {
        var now := Time();
        assert autoSessionTicketKeys[..i + 1][..i] == autoSessionTicketKeys[..i];
        if now - autoSessionTicketKeys[i].created < TICKET_KEY_LIFETIME {
          kept := kept + [autoSessionTicketKeys[i]];
        }
      }
      assert autoSessionTicketKeys[..|autoSessionTicketKeys|] == autoSessionTicketKeys;
    }
  }
}
