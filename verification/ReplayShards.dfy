/** A replay shard: a table of claims, and the alarm that clears the expired ones
    (src/Store.ts:857-868, 904-935). Times are whole milliseconds. */
module ReplayShards {
  import opened Basics
  import opened Text
  import opened StoredValues

  type Table = map<Text, int>

  datatype Shard = Shard(claims: Table, alarm: Option<int>)

  /** `claimReplay` throws what setting its alarm threw. */
  datatype AlarmError = AlarmError

  predicate Free(claims: Table, key: Text, now: int) {
    key in claims ==> claims[key] <= now
  }

  function Unexpired(claims: Table, now: int): Table {
    map key | key in claims && claims[key] > now :: claims[key]
  }

  /** `SELECT MIN(expires)`. */
  ghost predicate IsEarliest(claims: Table, time: int) {
    && (exists key :: key in claims && claims[key] == time)
    && (forall key | key in claims :: time <= claims[key])
  }

  lemma {:induction false} EarliestExists(claims: Table)
    requires claims != map[]
    ensures exists time :: IsEarliest(claims, time)
    decreases |claims|
  {
    var key :| key in claims;
    var rest := claims - {key};
    if rest == map[] {
      assert forall k | k in claims :: k == key by {
        forall k | k in claims ensures k == key { assert k != key ==> k in rest; }
      }
      assert IsEarliest(claims, claims[key]);
    } else {
      EarliestExists(rest);
      var time :| IsEarliest(rest, time);
      var first := Min(claims[key], time);
      assert forall k | k in claims :: k == key || k in rest;
      var at :| at in rest && rest[at] == time;
      assert claims[if first == time then at else key] == first;
      assert IsEarliest(claims, first);
    }
  }

  ghost function Earliest(claims: Table): (time: int)
    requires claims != map[]
    ensures IsEarliest(claims, time)
  {
    EarliestExists(claims);
    var time :| IsEarliest(claims, time); time
  }

  lemma EarliestIsMinimum(claims: Table)
    requires claims != map[]
    ensures Earliest(claims) in claims.Values && forall other | other in claims.Values :: Earliest(claims) <= other
    ensures forall time | time in claims.Values && (forall other | other in claims.Values :: time <= other) ::
              time == Earliest(claims)
  {
  }

  // ---- Operations -----------------------------------------------------------

  /** Which of the storage's alarm calls throw. */
  datatype Faults = Faults(getAlarm: bool, setAlarm: bool)

  /** `now` is the claim's clock reading, `later` the one taken when its alarm is set. */
  function ClaimOutcome(s: Shard, key: Text, expires: Expiry, now: int, later: int, faults: Faults)
    : (Shard, Result<bool, AlarmError>)
  {
    if !InFuture(expires, now) || !Free(s.claims, key, now) then (s, Ok(false))
    else
      var claims := s.claims[key := expires.time];
      var needsAlarm := s.alarm.None? || expires.time < s.alarm.value;
      if faults.getAlarm || (needsAlarm && faults.setAlarm) then
        (Shard(s.claims - {key}, s.alarm), Err(AlarmError))
      else if needsAlarm then
        (Shard(claims, Some(Max(expires.time, later + 1))), Ok(true))
      else
        (Shard(claims, s.alarm), Ok(true))
  }

  /** The runtime takes the alarm off before the handler runs, and delivers it again if it throws. */
  ghost function AlarmOutcome(s: Shard, now: int, faults: Faults): Shard {
    var claims := Unexpired(s.claims, now);
    if claims == map[] then Shard(claims, None)
    else if faults.setAlarm then Shard(claims, s.alarm)
    else Shard(claims, Some(Max(Earliest(claims), now + 1)))
  }

  /** A shard decides as a store does that holds the claim's marker. */
  lemma ShardDecidesAsAStore(codec: Codec, s: Shard, key: Text, expires: Expiry, now: int, later: int)
    requires codec.Valid()
    ensures
      var stored := if key in s.claims then MarkerRaw(codec, s.claims[key]) else None;
      ClaimOutcome(s, key, expires, now, later, Faults(false, false)).1
      == Ok(InFuture(expires, now) && Claimable(codec, stored, now))
  {
    if key in s.claims {
      var claimed: int := s.claims[key];
      assert codec.expiryOf(codec.marker(claimed)) == Some(claimed);
      assert codec.MarkerExpiry(MarkerRaw(codec, claimed)) == Some(claimed);
    }
  }

  /** A claim that moves the alarm sets it to its own expiry, or to the next millisecond if that has
      come already; an alarm that is set rings later than its setting, so a shard never wakes in a
      loop. */
  lemma NewAlarmsAreAhead(s: Shard, key: Text, expires: Expiry, now: int, later: int, faults: Faults)
    requires now <= later
    ensures
      var after := ClaimOutcome(s, key, expires, now, later, faults).0;
      after.alarm != s.alarm ==>
        && expires.Finite? && after.alarm.Some?
        && after.alarm.value == if expires.time > later then expires.time else later + 1
    ensures
      var after := AlarmOutcome(s, now, Faults(false, false));
      after.alarm.Some? ==> after.alarm.value > now
  {
  }

  class ReplayShard {
    var claims: Table
    var alarm: Option<int>

    ghost function State(): Shard
      reads this
    {
      Shard(claims, alarm)
    }

    constructor ()
      ensures State() == Shard(map[], None)
    {
      claims, alarm := map[], None;
    }

    method ClaimReplay(key: Text, expires: Expiry, now: int, later: int, faults: Faults)
      returns (claimed: Result<bool, AlarmError>)
      modifies this
      ensures (State(), claimed) == ClaimOutcome(old(State()), key, expires, now, later, faults)
    {
      if expires.NotFinite? || expires.time <= now { return Ok(false); }
      if key in claims && claims[key] > now { return Ok(false); }
      ghost var before := claims;
      claims := claims[key := expires.time];
      var failed := faults.getAlarm;
      if !failed && (alarm.None? || expires.time < alarm.value) {
        if faults.setAlarm { failed := true; } else { alarm := Some(Max(expires.time, later + 1)); }
      }
      if failed {
        if key in claims && claims[key] == expires.time { claims := claims - {key}; }
        assert claims == before - {key};
        return Err(AlarmError);
      }
      return Ok(true);
    }

    method ReleaseReplay(key: Text)
      modifies this
      ensures State() == Shard(old(claims) - {key}, old(alarm))
    {
      claims := claims - {key};
    }

    method Alarm(now: int, faults: Faults)
      modifies this
      ensures State() == AlarmOutcome(old(State()), now, faults)
    {
      var delivered := alarm;
      alarm := None;
      claims := map key | key in claims && claims[key] > now :: claims[key];
      if claims != map[] {
        EarliestIsMinimum(claims);
        var expires: int :| expires in claims.Values && forall other | other in claims.Values :: expires <= other;
        // A handler that throws is delivered again: its alarm still stands.
        alarm := if faults.setAlarm then delivered else Some(Max(expires, now + 1));
      }
    }
  }

  // ---- Runs -----------------------------------------------------------------

  datatype Step =
    | Claim(key: Text, expires: Expiry, now: int, later: int, faults: Faults)
    | Release(key: Text)
    | Ring(now: int, faults: Faults)

  /** `held` is history: the last claim of each key that was reported as made, until its release. */
  datatype World = World(shard: Shard, clock: int, held: Table)

  /** The clock never runs back, and alarms ring when they are due. */
  predicate Enabled(w: World, step: Step) {
    match step
    case Claim(_, _, now, later, _) => w.clock <= now <= later
    case Release(_) => true
    case Ring(now, _) => w.clock <= now && w.shard.alarm.Some? && w.shard.alarm.value <= now
  }

  ghost function Next(w: World, step: Step): World {
    match step
    case Claim(key, expires, now, later, faults) =>
      var (shard, claimed) := ClaimOutcome(w.shard, key, expires, now, later, faults);
      World(shard, Max(w.clock, later), if claimed == Ok(true) then w.held[key := expires.time] else w.held)
    case Release(key) => World(Shard(w.shard.claims - {key}, w.shard.alarm), w.clock, w.held - {key})
    case Ring(now, faults) => World(AlarmOutcome(w.shard, now, faults), Max(w.clock, now), w.held)
  }

  /** The worlds a run of steps goes through, from an empty shard. */
  ghost predicate Trace(steps: seq<Step>, worlds: seq<World>) {
    && |worlds| == |steps| + 1
    && worlds[0] == World(Shard(map[], None), worlds[0].clock, map[])
    && forall i | 0 <= i < |steps| :: Enabled(worlds[i], steps[i]) && worlds[i + 1] == Next(worlds[i], steps[i])
  }

  /** A shard with claims has an alarm, at the latest by its earliest expiry. */
  ghost predicate AlarmInTime(w: World) {
    forall key | key in w.shard.claims :: w.shard.alarm.Some? && w.shard.alarm.value <= w.shard.claims[key]
  }

  /** Or at the latest a millisecond after the clock was last read. */
  ghost predicate AlarmCovers(w: World) {
    forall key | key in w.shard.claims ::
      && w.shard.alarm.Some?
      && (w.shard.alarm.value <= w.shard.claims[key] || w.shard.alarm.value <= w.clock + 1)
  }

  /** A claim reported as made is over, or still in the table. */
  ghost predicate HeldStand(w: World) {
    forall key | key in w.held ::
      w.held[key] <= w.clock || (key in w.shard.claims && w.shard.claims[key] == w.held[key])
  }

  /** A claim that sets its alarm when its expiry has already come, so the alarm goes past it. */
  predicate Late(w: World, step: Step) {
    && step.Claim?
    && InFuture(step.expires, step.now) && Free(w.shard.claims, step.key, step.now)
    && !step.faults.getAlarm && !step.faults.setAlarm
    && (w.shard.alarm.None? || step.expires.time < w.shard.alarm.value)
    && step.later >= step.expires.time
  }

  lemma StepKeepsAlarm(w: World, step: Step)
    requires AlarmCovers(w) && Enabled(w, step)
    ensures AlarmCovers(Next(w, step))
  {
  }

  /** Exactly a late claim spoils an alarm in time: failed calls, releases, alarms and claims whose
      clock moves, but not past their expiry, do not. */
  lemma OnlyLateClaimsSpoilTheAlarm(w: World, step: Step)
    requires AlarmInTime(w) && Enabled(w, step)
    ensures AlarmInTime(Next(w, step)) <==> !Late(w, step)
  {
    if Late(w, step) {
      var after := Next(w, step).shard;
      assert step.key in after.claims && after.claims[step.key] == step.expires.time;
      assert after.alarm == Some(step.later + 1);
    }
  }

  lemma StepKeepsHeld(w: World, step: Step)
    requires HeldStand(w) && Enabled(w, step)
    ensures HeldStand(Next(w, step))
  {
  }

  /** In every run of claims, releases, alarms and failing alarm calls: a shard that holds claims has
      an alarm, by its earliest expiry or the millisecond after the clock was read; and no reported
      claim is lost before its expiry but by its release. */
  lemma {:induction false} ShardRunsAreSafe(steps: seq<Step>, worlds: seq<World>, n: nat)
    requires Trace(steps, worlds) && n <= |steps|
    ensures AlarmCovers(worlds[n]) && HeldStand(worlds[n])
  {
    if n > 0 {
      ShardRunsAreSafe(steps, worlds, n - 1);
      assert worlds[n - 1 + 1] == Next(worlds[n - 1], steps[n - 1]);
      StepKeepsAlarm(worlds[n - 1], steps[n - 1]);
      StepKeepsHeld(worlds[n - 1], steps[n - 1]);
    }
  }

  /** The alarm comes by the earliest expiry at every point of a run if and only if no claim of the
      run is late. */
  lemma AlarmInTimeIffNoClaimIsLate(steps: seq<Step>, worlds: seq<World>)
    requires Trace(steps, worlds)
    ensures (forall n | 0 <= n <= |steps| :: AlarmInTime(worlds[n]))
            <==> (forall i | 0 <= i < |steps| :: !Late(worlds[i], steps[i]))
  {
    hide AlarmInTime, Late, Next;
    if forall i | 0 <= i < |steps| :: !Late(worlds[i], steps[i]) {
      forall n | 0 <= n <= |steps|
        ensures AlarmInTime(worlds[n])
      {
        InTimeUntilLate(steps, worlds, n);
      }
    }
    if forall n | 0 <= n <= |steps| :: AlarmInTime(worlds[n]) {
      forall i | 0 <= i < |steps|
        ensures !Late(worlds[i], steps[i])
      {
        assert AlarmInTime(worlds[i]) && AlarmInTime(worlds[i + 1]);
        OnlyLateClaimsSpoilTheAlarm(worlds[i], steps[i]);
      }
    }
  }

  lemma {:induction false} InTimeUntilLate(steps: seq<Step>, worlds: seq<World>, n: nat)
    requires Trace(steps, worlds) && n <= |steps|
    requires forall i | 0 <= i < n :: !Late(worlds[i], steps[i])
    ensures AlarmInTime(worlds[n])
  {
    if n > 0 {
      InTimeUntilLate(steps, worlds, n - 1);
      assert worlds[n - 1 + 1] == Next(worlds[n - 1], steps[n - 1]);
      OnlyLateClaimsSpoilTheAlarm(worlds[n - 1], steps[n - 1]);
    }
  }

  /** A late claim: made at 0 until 3, its alarm set at 5, it is cleared at 6. */
  lemma ALateAlarm(key: Text)
    ensures
      var start := World(Shard(map[], None), 0, map[]);
      var claim := Claim(key, Finite(3), 0, 5, Faults(false, false));
      var after := Next(start, claim);
      && Trace([claim], [start, after]) && Late(start, claim)
      && after.shard == Shard(map[key := 3], Some(6)) && !AlarmInTime(after)
  {
    var start := World(Shard(map[], None), 0, map[]);
    var claim := Claim(key, Finite(3), 0, 5, Faults(false, false));
    OnlyLateClaimsSpoilTheAlarm(start, claim);
  }

  /** A key's claims never overlap: one succeeds only once the last one, unless released, is over. */
  lemma ShardClaimsNeverOverlap(steps: seq<Step>, worlds: seq<World>, n: nat)
    requires Trace(steps, worlds) && n < |steps| && steps[n].Claim?
    requires
      var claim := steps[n];
      ClaimOutcome(worlds[n].shard, claim.key, claim.expires, claim.now, claim.later, claim.faults).1 == Ok(true)
    ensures steps[n].key in worlds[n].held ==> worlds[n].held[steps[n].key] <= steps[n].now
  {
    ShardRunsAreSafe(steps, worlds, n);
  }

  /** After an alarm exactly the unexpired claims remain, with an alarm at the earliest of them, or the one
      it had if setting it failed. */
  lemma AlarmClearsTheExpired(w: World, now: int, faults: Faults)
    requires Enabled(w, Ring(now, faults))
    ensures
      var after := Next(w, Ring(now, faults)).shard;
      && (forall key :: key in after.claims <==> key in w.shard.claims && w.shard.claims[key] > now)
      && (forall key | key in after.claims :: after.claims[key] == w.shard.claims[key])
      && (after.alarm.Some? <==> after.claims != map[])
      && (after.alarm.Some? ==> if faults.setAlarm then after.alarm == w.shard.alarm else IsEarliest(after.claims, after.alarm.value))
  {
  }

  /** A failed claim leaves no claim of its key behind, and frees no live one. */
  lemma FailedClaimsRollBack(s: Shard, key: Text, expires: Expiry, now: int, later: int, faults: Faults)
    ensures
      var (after, claimed) := ClaimOutcome(s, key, expires, now, later, faults);
      claimed.Err? ==>
        && key !in after.claims
        && Unexpired(after.claims, now) == Unexpired(s.claims, now)
        && after.alarm == s.alarm
  {
  }
}
