/** The lease that keeps two settlement jobs off one channel (src/cloudflare/Channels.ts:239-254, 289-337). */
module Leases {
  import opened Basics

  /** Whatever else a channel state holds. */
  type Details(==, !new, 0)

  const SETTLEMENT_LEASE_MS := 300_000

  /** Owners are fresh UUIDs, one per job. */
  datatype Lease = Lease(expiresAt: int, owner: nat)

  datatype Channel = Channel(details: Details, lease: Option<Lease>)

  // ---- The atomic updates of a channel's key; `None` is a value that is no channel state ----

  predicate LeaseLives(stored: Option<Channel>, now: int) {
    stored.Some? && stored.value.lease.Some? && stored.value.lease.value.expiresAt > now
  }

  predicate Owns(stored: Option<Channel>, owner: nat) {
    stored.Some? && stored.value.lease.Some? && stored.value.lease.value.owner == owner
  }

  class ChannelKey {
    var stored: Option<Channel>

    constructor (stored: Option<Channel>)
      ensures this.stored == stored
    {
      this.stored := stored;
    }

    /** `now` was read before the update started. */
    method Claim(owner: nat, now: int) returns (claimed: bool)
      modifies this
      ensures claimed == (old(stored).Some? && !LeaseLives(old(stored), now))
      ensures stored == if claimed then AfterClaim(old(stored), owner, now) else old(stored)
    {
      if stored.None? { return false; }
      var lease := stored.value.lease;
      if lease.Some? && lease.value.expiresAt > now { return false; }
      stored := Some(stored.value.(lease := Some(Lease(now + SETTLEMENT_LEASE_MS, owner))));
      return true;
    }

    method Renew(owner: nat, now: int)
      modifies this
      ensures stored == AfterRenew(old(stored), owner, now)
    {
      if stored.None? || stored.value.lease.None? || stored.value.lease.value.owner != owner { return; }
      stored := Some(stored.value.(lease := Some(Lease(now + SETTLEMENT_LEASE_MS, owner))));
    }

    method Release(owner: nat)
      modifies this
      ensures stored == AfterRelease(old(stored), owner)
    {
      if stored.None? || stored.value.lease.None? || stored.value.lease.value.owner != owner { return; }
      stored := Some(stored.value.(lease := None));
    }
  }

  function AfterClaim(stored: Option<Channel>, owner: nat, now: int): Option<Channel> {
    if stored.None? || LeaseLives(stored, now) then stored
    else Some(stored.value.(lease := Some(Lease(now + SETTLEMENT_LEASE_MS, owner))))
  }

  function AfterRenew(stored: Option<Channel>, owner: nat, now: int): Option<Channel> {
    if Owns(stored, owner) then Some(stored.value.(lease := Some(Lease(now + SETTLEMENT_LEASE_MS, owner)))) else stored
  }

  function AfterRelease(stored: Option<Channel>, owner: nat): Option<Channel> {
    if Owns(stored, owner) then Some(stored.value.(lease := None)) else stored
  }

  // ---- Jobs -----------------------------------------------------------------

  /** A job that settles remembers when the last lease it wrote expires. */
  datatype Job =
    | Claiming(captured: int)
    | Settling(until: int)
    | Refused
    | Released

  datatype World = World(now: int, stored: Option<Channel>, jobs: map<nat, Job>)

  /** Renewals may be under way at any time of a job, even after its release. `moment` is the clock
      reading an update's callback took before it committed. */
  datatype Step =
    | Tick(now: int)
    | Start(job: nat)
    | CommitClaim(job: nat)
    | CommitRenew(job: nat, moment: int)
    | CommitRelease(job: nat)
    | OtherWrite(stored: Option<Channel>)

  /** Owners are fresh, and other writers of the channel carry its lease along. */
  predicate Enabled(w: World, step: Step) {
    match step
    case Tick(now) => w.now <= now
    case Start(job) => job !in w.jobs && !Owns(w.stored, job)
    case CommitClaim(job) => job in w.jobs && w.jobs[job].Claiming?
    case CommitRenew(job, moment) => job in w.jobs && (w.jobs[job].Settling? || w.jobs[job].Released?) && moment <= w.now
    case CommitRelease(job) => job in w.jobs && w.jobs[job].Settling?
    case OtherWrite(stored) =>
      if w.stored.Some? then stored.Some? && stored.value.lease == w.stored.value.lease
      else stored.Some? ==> stored.value.lease.None?
  }

  function Next(w: World, step: Step): World
    requires Enabled(w, step)
  {
    match step
    case Tick(now) => w.(now := now)
    case Start(job) => w.(jobs := w.jobs[job := Claiming(w.now)])
    case CommitClaim(job) =>
      var captured := w.jobs[job].captured;
      if w.stored.None? || LeaseLives(w.stored, captured) then w.(jobs := w.jobs[job := Refused])
      else w.(stored := AfterClaim(w.stored, job, captured),
              jobs := w.jobs[job := Settling(captured + SETTLEMENT_LEASE_MS)])
    case CommitRenew(job, moment) =>
      w.(stored := AfterRenew(w.stored, job, moment),
         jobs := if Owns(w.stored, job) && w.jobs[job].Settling?
                 then w.jobs[job := Settling(moment + SETTLEMENT_LEASE_MS)] else w.jobs)
    case CommitRelease(job) =>
      w.(stored := AfterRelease(w.stored, job), jobs := w.jobs[job := Released])
    case OtherWrite(stored) => w.(stored := stored)
  }

  ghost predicate Reaches(stored: Option<Channel>, steps: seq<Step>, w: World)
    decreases |steps|
  {
    if steps == [] then w == World(w.now, stored, map[])
    else
      var last := steps[|steps| - 1];
      exists before: World ::
        && Reaches(stored, steps[..|steps| - 1], before)
        && Enabled(before, last)
        && w == Next(before, last)
  }

  ghost predicate Invariant(w: World) {
    && (forall job | job in w.jobs :: match w.jobs[job]
          case Claiming(captured) => captured <= w.now && !Owns(w.stored, job)
          case Settling(until) =>
            w.now < until ==> Owns(w.stored, job) && w.stored.value.lease.value.expiresAt == until
          case Refused => !Owns(w.stored, job)
          case Released => !Owns(w.stored, job))
  }

  lemma StepKeepsInvariant(w: World, step: Step)
    requires Invariant(w) && Enabled(w, step)
    ensures Invariant(Next(w, step))
  {
  }

  lemma {:induction false} RunKeepsInvariant(stored: Option<Channel>, steps: seq<Step>, w: World)
    requires Reaches(stored, steps, w)
    ensures Invariant(w)
    decreases |steps|
  {
    if steps != [] {
      var last := steps[|steps| - 1];
      var before: World :|
        && Reaches(stored, steps[..|steps| - 1], before)
        && Enabled(before, last)
        && w == Next(before, last);
      RunKeepsInvariant(stored, steps[..|steps| - 1], before);
      StepKeepsInvariant(before, last);
    }
  }

  /** While the last lease a job wrote runs, it is the stored one. */
  lemma RunningLeaseIsStored(stored: Option<Channel>, steps: seq<Step>, w: World, job: nat)
    requires Reaches(stored, steps, w)
    requires job in w.jobs && w.jobs[job].Settling? && w.now < w.jobs[job].until
    ensures w.stored.Some? && w.stored.value.lease == Some(Lease(w.jobs[job].until, job))
  {
    RunKeepsInvariant(stored, steps, w);
  }

  /** Two jobs settle at once only after the lease of one of them lapsed unrenewed. */
  lemma NoTwoSettleWithinTheirLeases(stored: Option<Channel>, steps: seq<Step>, w: World, first: nat, second: nat)
    requires Reaches(stored, steps, w)
    requires first in w.jobs && w.jobs[first].Settling?
    requires second in w.jobs && w.jobs[second].Settling?
    requires first != second
    ensures w.jobs[first].until <= w.now || w.jobs[second].until <= w.now
  {
    RunKeepsInvariant(stored, steps, w);
  }

  /** A claim that takes a channel over finds every other settling job's lease lapsed, already when
      the claim read its clock. */
  lemma TakeoverNeedsALapse(stored: Option<Channel>, steps: seq<Step>, w: World, claim: Step, other: nat)
    requires Reaches(stored, steps, w)
    requires claim.CommitClaim? && Enabled(w, claim) && Next(w, claim).jobs[claim.job].Settling?
    requires other in w.jobs && w.jobs[other].Settling?
    ensures w.jobs[other].until <= w.now
    ensures w.stored.value.lease.Some? ==> w.stored.value.lease.value.expiresAt <= w.jobs[claim.job].captured
  {
    RunKeepsInvariant(stored, steps, w);
  }

  /** A late renewal or release leaves the lease of another job alone. */
  lemma LateStepsTouchNoOtherLease(stored: Option<Channel>, steps: seq<Step>, w: World, late: Step, holder: nat)
    requires Reaches(stored, steps, w) && Enabled(w, late)
    requires late.CommitRenew? || late.CommitRelease?
    requires holder in w.jobs && w.jobs[holder].Settling? && w.now < w.jobs[holder].until
    requires late.job != holder
    ensures Next(w, late).stored == w.stored
    ensures Next(w, late).jobs[holder] == w.jobs[holder]
  {
    RunKeepsInvariant(stored, steps, w);
  }

  /** A released or refused job owns no lease any more, whatever renewals of it are still under way. */
  lemma FinishedJobsHoldNothing(stored: Option<Channel>, steps: seq<Step>, w: World, job: nat)
    requires Reaches(stored, steps, w)
    requires job in w.jobs && (w.jobs[job].Released? || w.jobs[job].Refused?)
    ensures !Owns(w.stored, job)
  {
    RunKeepsInvariant(stored, steps, w);
  }

  // ---- The rest of the channel ----------------------------------------------

  /** The same channel but for its lease. */
  predicate SameChannel(a: Option<Channel>, b: Option<Channel>) {
    a.Some? == b.Some? && (a.Some? ==> a.value.details == b.value.details)
  }

  /** A claim takes a channel without a running lease, a renewal and a release touch the lease of their
      owner alone, and none of them touches the rest of the channel, or makes or removes one. */
  lemma UpdatesTouchTheLeaseAlone(stored: Option<Channel>, owner: nat, now: int)
    ensures SameChannel(AfterClaim(stored, owner, now), stored)
    ensures SameChannel(AfterRenew(stored, owner, now), stored)
    ensures SameChannel(AfterRelease(stored, owner), stored)
    ensures stored.Some? ==>
              AfterClaim(stored, owner, now).value.lease
              == if stored.value.lease.Some? && now < stored.value.lease.value.expiresAt then stored.value.lease
                 else Some(Lease(now + 300_000, owner))
    ensures stored.Some? ==>
              AfterRenew(stored, owner, now).value.lease
              == if stored.value.lease.Some? && stored.value.lease.value.owner == owner then Some(Lease(now + 300_000, owner))
                 else stored.value.lease
    ensures stored.Some? ==>
              AfterRelease(stored, owner).value.lease
              == if stored.value.lease.Some? && stored.value.lease.value.owner == owner then None else stored.value.lease
  {
  }

  /** Over a whole run of jobs, without other writers, the channel stays and keeps all but its lease. */
  lemma {:induction false} JobsTouchTheLeaseAlone(stored: Option<Channel>, steps: seq<Step>, w: World)
    requires Reaches(stored, steps, w)
    requires forall step | step in steps :: !step.OtherWrite?
    ensures SameChannel(w.stored, stored)
    decreases |steps|
  {
    if steps != [] {
      var last := steps[|steps| - 1];
      var before: World :|
        && Reaches(stored, steps[..|steps| - 1], before)
        && Enabled(before, last)
        && w == Next(before, last);
      JobsTouchTheLeaseAlone(stored, steps[..|steps| - 1], before);
      match last
      case CommitClaim(job) => UpdatesTouchTheLeaseAlone(before.stored, job, before.jobs[job].captured);
      case CommitRenew(job, moment) => UpdatesTouchTheLeaseAlone(before.stored, job, moment);
      case CommitRelease(job) => UpdatesTouchTheLeaseAlone(before.stored, job, 0);
      case _ =>
    }
  }

  /** A settling job that releases while its lease runs leaves the channel as it was, without a lease. */
  lemma OwnersRelease(stored: Option<Channel>, steps: seq<Step>, w: World, job: nat)
    requires Reaches(stored, steps, w)
    requires job in w.jobs && w.jobs[job].Settling? && w.now < w.jobs[job].until
    ensures
      var after := Next(w, CommitRelease(job)).stored;
      w.stored.Some? && after == Some(Channel(w.stored.value.details, None))
  {
    RunKeepsInvariant(stored, steps, w);
  }

  /** Once no lease runs, a claim that starts takes the channel. */
  lemma FreeChannelsAreClaimed(stored: Option<Channel>, steps: seq<Step>, w: World, job: nat)
    requires Reaches(stored, steps, w) && Enabled(w, Start(job))
    requires w.stored.Some? && (w.stored.value.lease.Some? ==> w.stored.value.lease.value.expiresAt <= w.now)
    ensures
      var after := Next(Next(w, Start(job)), CommitClaim(job));
      && after.jobs[job] == Settling(w.now + 300_000)
      && after.stored == Some(Channel(w.stored.value.details, Some(Lease(w.now + 300_000, job))))
  {
  }
}
