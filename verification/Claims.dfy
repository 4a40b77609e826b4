/** Replay claims on one key of a store, however the store makes them (src/Store.ts:113-135, 981-993,
    1270-1283, 1452-1459). Replay shards are in module ReplayShards. */
module Claims {
  import opened Basics
  import opened Text
  import opened StoredValues
  import AtomicStore

  // ---- The claims agree -----------------------------------------------------

  /** The one-statement claim decides as the marker-inspecting one does on the same value and time,
      except on a row whose value reads as `null`. */
  lemma OneStatementAgrees(codec: Codec, stored: Option<Raw>, now: int)
    ensures (RowClaimable(codec, stored, now) == Claimable(codec, stored, now))
            <==> (stored.None? || codec.Read(stored).Some?)
  {
  }

  /** A stored `null` blocks the SQL claim for good, though its key reads as absent. */
  lemma StoredNullBlocksTheStatement(codec: Codec, now: int)
    requires codec.Textual()
    ensures
      var stored := codec.encode(None);
      codec.Read(stored).None? && Claimable(codec, stored, now) && !RowClaimable(codec, stored, now)
  {
    assert codec.decode(codec.encode(None).value) == None;
  }

  /** The change the fallback hands to `update`. */
  function FallbackChange(codec: Codec, expires: Expiry, yes: Answer, no: Answer, current: Option<Value>, now: int)
    : Change
  {
    if expires.NotFinite? || expires.time <= now then Noop(no)
    else if current.Some? && (codec.expiryOf(current.value).None? || codec.expiryOf(current.value).value > now) then Noop(no)
    else Set(Some(codec.marker(expires.time)), yes)
  }

  /** A fallback claim that returned decided like every other claim, at the place of the log where
      its update took effect: it reports success exactly when the key could be claimed there, and
      then its marker is the very next write. */
  lemma FallbackDecidesWhereItTookEffect(codec: Codec, log: seq<AtomicStore.Write>, id: nat, call: AtomicStore.Call,
                                         invoked: nat, done: AtomicStore.Phase, expires: Expiry, yes: Answer, no: Answer)
    requires codec.Valid() && yes != no && done.Returned?
    requires AtomicStore.Linearized(codec, log, id, call, invoked, done)
    requires call.fn == ((current: Option<Value>, now: int) => FallbackChange(codec, expires, yes, no, current, now))
    ensures
      var stored := AtomicStore.At(log, done.at, call.key);
      var free := InFuture(expires, done.moment) && Claimable(codec, stored, done.moment);
      && done.result == (if free then yes else no)
      && done.wrote == free
      && (free ==> log[done.at] == AtomicStore.Write(call.key, MarkerRaw(codec, expires.time), Some(id)))
  {
    var stored := AtomicStore.At(log, done.at, call.key);
    assert call.fn(codec.Read(stored), done.moment)
        == FallbackChange(codec, expires, yes, no, codec.Read(stored), done.moment);
    assert InFuture(expires, done.moment) ==> codec.expiryOf(codec.marker(expires.time)) == Some(expires.time);
  }

  // ---- Claims over a run ----------------------------------------------------

  /** How a claim is made: the clock readings it takes before it commits. */
  datatype Kind =
    | Memory
    | Object(checked: int)
    | Statement(checked: int, captured: int)
    | Fallback(moment: int)

  datatype Win = Win(expires: int, at: int)

  /** One key: the clock, what is stored, and the claims that committed so far. */
  datatype World = World(now: int, stored: Option<Raw>, wins: seq<Win>)

  datatype Step =
    | Tick(now: int)
    | Claim(kind: Kind, expires: Expiry)

  /** The clock never runs back, and a claim commits after the readings it took. */
  predicate Enabled(w: World, step: Step) {
    match step
    case Tick(now) => w.now <= now
    case Claim(Memory, _) => true
    case Claim(Object(checked), _) => checked <= w.now
    case Claim(Statement(checked, captured), _) => checked <= captured <= w.now
    case Claim(Fallback(moment), _) => moment <= w.now
  }

  predicate Commits(codec: Codec, w: World, kind: Kind, expires: Expiry) {
    match kind
    case Memory => InFuture(expires, w.now) && Claimable(codec, w.stored, w.now)
    case Object(checked) => InFuture(expires, checked) && Claimable(codec, w.stored, w.now)
    case Statement(checked, captured) => InFuture(expires, checked) && RowClaimable(codec, w.stored, captured)
    case Fallback(moment) => InFuture(expires, moment) && Claimable(codec, w.stored, moment)
  }

  /** Read at one instant, all ways of claiming decide alike, but for the statement on a stored `null`. */
  lemma KindsAgree(codec: Codec, w: World, expires: Expiry, kind: Kind)
    requires kind in {Memory, Object(w.now), Fallback(w.now), Statement(w.now, w.now)}
    ensures (Commits(codec, w, kind, expires) <==> InFuture(expires, w.now) && Claimable(codec, w.stored, w.now))
            <==> !(kind.Statement? && InFuture(expires, w.now) && w.stored.Some? && codec.Read(w.stored).None?)
  {
    OneStatementAgrees(codec, w.stored, w.now);
  }

  /** Whatever readings a claim took, it commits only before the expiry it checked, and only over a
      key that reads as `null` or holds a marker that has expired by then. */
  lemma CommitsOnlyOverFreeKeys(codec: Codec, w: World, kind: Kind, expires: Expiry)
    requires Enabled(w, Claim(kind, expires)) && Commits(codec, w, kind, expires)
    ensures codec.Read(w.stored).Some? ==>
              var expiry := codec.expiryOf(codec.Read(w.stored).value);
              expiry.Some? && expiry.value <= w.now
    ensures expires.Finite? && expires.time > match kind
                                              case Memory => w.now
                                              case Object(checked) => checked
                                              case Statement(checked, _) => checked
                                              case Fallback(moment) => moment
  {
  }

  /** And every claim commits that finds the key so, and its expiry ahead, at all its readings. */
  lemma FreeKeysAreClaimed(codec: Codec, w: World, kind: Kind, expires: Expiry)
    requires expires.Finite? && expires.time > w.now
    requires kind in {Memory, Object(w.now), Fallback(w.now), Statement(w.now, w.now)}
    requires w.stored.None? || (codec.Read(w.stored).Some? &&
               codec.expiryOf(codec.Read(w.stored).value).Some? && codec.expiryOf(codec.Read(w.stored).value).value <= w.now)
    ensures Commits(codec, w, kind, expires)
  {
  }

  function Next(codec: Codec, w: World, step: Step): World
    requires Enabled(w, step)
  {
    match step
    case Tick(now) => w.(now := now)
    case Claim(kind, expires) =>
      if Commits(codec, w, kind, expires)
      then w.(stored := MarkerRaw(codec, expires.time), wins := w.wins + [Win(expires.time, w.now)])
      else w
  }

  /** `w` is reached from a key holding `stored` with no claim committed yet. */
  ghost predicate Reaches(codec: Codec, stored: Option<Raw>, steps: seq<Step>, w: World)
    decreases |steps|
  {
    if steps == [] then w == World(w.now, stored, [])
    else
      var last := steps[|steps| - 1];
      exists before: World ::
        && Reaches(codec, stored, steps[..|steps| - 1], before)
        && Enabled(before, last)
        && w == Next(codec, before, last)
  }

  /** Every claim but the last is over, and the last is over or stands as the stored marker. */
  ghost predicate Invariant(codec: Codec, w: World) {
    && (forall i | 0 <= i < |w.wins| ::
          w.wins[i].at <= w.now && (w.wins[i].expires <= w.now || codec.MarkerExpiry(w.stored) == Some(w.wins[i].expires)))
    && (forall i, j | 0 <= i < j < |w.wins| :: w.wins[i].expires <= w.wins[j].at)
  }

  lemma StepKeepsInvariant(codec: Codec, w: World, step: Step)
    requires codec.Valid() && Invariant(codec, w) && Enabled(w, step)
    ensures Invariant(codec, Next(codec, w, step))
  {
    if step.Claim? && Commits(codec, w, step.kind, step.expires) {
      var expires := step.expires.time;
      assert codec.expiryOf(codec.marker(expires)) == Some(expires);
      assert codec.MarkerExpiry(MarkerRaw(codec, expires)) == Some(expires);
      assert forall i | 0 <= i < |w.wins| :: w.wins[i].expires <= w.now;
    }
  }

  /** Claims of one key never overlap, however they are made and interleaved: a later one commits
      no earlier than the expiry of a former. */
  lemma {:induction false} ClaimsNeverOverlap(codec: Codec, stored: Option<Raw>, steps: seq<Step>, w: World)
    requires codec.Valid() && Reaches(codec, stored, steps, w)
    ensures forall i, j | 0 <= i < j < |w.wins| :: w.wins[i].expires <= w.wins[j].at
    ensures Invariant(codec, w)
    decreases |steps|
  {
    if steps != [] {
      var last := steps[|steps| - 1];
      var before: World :|
        && Reaches(codec, stored, steps[..|steps| - 1], before)
        && Enabled(before, last)
        && w == Next(codec, before, last);
      ClaimsNeverOverlap(codec, stored, steps[..|steps| - 1], before);
      StepKeepsInvariant(codec, before, last);
    }
  }

  /** A stored value that is no marker survives every claim. */
  lemma {:induction false} ClaimsSpareValues(codec: Codec, stored: Option<Raw>, steps: seq<Step>, w: World)
    requires Reaches(codec, stored, steps, w)
    requires codec.Read(stored).Some? && codec.expiryOf(codec.Read(stored).value).None?
    ensures w.stored == stored && w.wins == []
    decreases |steps|
  {
    if steps != [] {
      var last := steps[|steps| - 1];
      var before: World :|
        && Reaches(codec, stored, steps[..|steps| - 1], before)
        && Enabled(before, last)
        && w == Next(codec, before, last);
      ClaimsSpareValues(codec, stored, steps[..|steps| - 1], before);
      if last.Claim? && Commits(codec, before, last.kind, last.expires) {
        CommitsOnlyOverFreeKeys(codec, before, last.kind, last.expires);
      }
    }
  }
}
