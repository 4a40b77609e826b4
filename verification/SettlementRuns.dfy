/** Every interleaving of channel writes, alarms and queue sends of one channel object.

    A send awaits the queue, so writes may land between `Fire` and `SendOk` or `SendFail`;
    everything else is one atomic step, as the object's input gate makes it. */
module SettlementRuns {
  import opened Basics
  import opened Settlement

  /** Whether the alarm handler awaits the queue, with the channel it read. */
  datatype Phase = Idle | Sending(read: Channel)

  /** The object, the clock, and a record of what happened:
      `sent` counts the successful sends since the count last restarted, `gaveUp` says that the
      bookkeeping was dropped with work left, `failedAt` is the time of a failed send whose
      retry alarm is still set, `lastWrite` the time of the channel's last write, and `lastSend` the
      last send if it was accepted. */
  datatype World = World(
    now: int,
    o: Stored,
    phase: Phase,
    sent: nat,
    gaveUp: bool,
    failedAt: Option<int>,
    lastWrite: int,
    lastSend: Option<Accepted>)

  /** When the queue accepted a send, and whether the channel sent was closing. */
  datatype Accepted = Accepted(at: int, closing: bool)

  datatype Step = Tick(time: int) | Write(next: Option<Channel>) | Fire | SendOk | SendFail

  const Start := World(0, Stored(None, None, None), Idle, 0, false, None, 0, None)

  predicate Enabled(w: World, step: Step) {
    match step
    case Tick(time) => w.now <= time
    case Write(_) => true
    case Fire => w.phase.Idle? && w.o.alarm.Some? && w.o.alarm.value <= w.now
    case SendOk => w.phase.Sending?
    case SendFail => w.phase.Sending?
  }

  /** Whether a write restarts the count: bookkeeping created afresh, on-chain progress, a new
      close request or a threshold's worth of new vouchers. */
  predicate WriteRestarts(cfg: Config, w: World, next: Option<Channel>) {
    && IsDue(next, cfg)
    && (w.o.pending.Some? ==>
          || Progressed(w.o.pending.value, next.value)
          || NewCloseRequest(w.o.pending.value, next.value, w.now)
          || Uncaptured(w.o.pending.value, next.value, cfg))
  }

  /** Whether a firing alarm restarts the count: it sees a close request the last send did not cover. */
  predicate FireRestarts(cfg: Config, w: World) {
    && w.o.pending.Some?
    && IsDue(w.o.channel, cfg)
    && NewCloseRequest(w.o.pending.value, w.o.channel.value, w.now)
  }

  predicate Restarts(cfg: Config, w: World, step: Step) {
    || (step.Write? && WriteRestarts(cfg, w, step.next))
    || (step.Fire? && FireRestarts(cfg, w))
  }

  function Apply(cfg: Config, w: World, step: Step): World
    requires Enabled(w, step)
  {
    match step
    case Tick(time) => w.(now := time)
    case Write(next) =>
      w.(o := OnWrite(w.o, next, cfg, w.now),
         sent := if Restarts(cfg, w, step) then 0 else w.sent,
         gaveUp := false,
         lastWrite := w.now)
    case Fire =>
      var fired := OnAlarm(w.o, cfg, w.now);
      w.(o := fired.o,
         phase := if fired.Send? then Sending(w.o.channel.value) else Idle,
         sent := if Restarts(cfg, w, step) then 0 else w.sent,
         gaveUp := w.gaveUp || (fired.GaveUp? && fired.o.pending.None?),
         failedAt := None)
    case SendOk =>
      w.(o := OnSent(w.o, w.phase.read, cfg, w.now), phase := Idle, sent := w.sent + 1,
         lastSend := Some(Accepted(w.now, Closing(w.phase.read, w.now))))
    case SendFail =>
      w.(o := OnSendFailed(w.o, cfg, w.now), phase := Idle, failedAt := Some(w.now), lastSend := None)
  }

  /** Whether `steps` can run one after another from `w`. */
  predicate Runs(cfg: Config, w: World, steps: seq<Step>)
    decreases |steps|
  {
    steps == [] || (Enabled(w, steps[0]) && Runs(cfg, Apply(cfg, w, steps[0]), steps[1..]))
  }

  function Run(cfg: Config, w: World, steps: seq<Step>): World
    requires Runs(cfg, w, steps)
    decreases |steps|
  {
    if steps == [] then w else Run(cfg, Apply(cfg, w, steps[0]), steps[1..])
  }

  // ---- The invariant ---------------------------------------------------------

  /** The alarm is set no later than the end of the server's close marker, while that stands. */
  predicate MarkerCovered(w: World) {
    && w.o.channel.Some?
    && (PendingCloseEnd(w.o.channel.value, w.now).Some? ==>
          w.o.alarm.Some? && w.o.alarm.value <= PendingCloseEnd(w.o.channel.value, w.now).value)
  }

  /** The alarm is the back-off of a failed send, or sooner. */
  predicate BackingOff(cfg: Config, w: World) {
    w.failedAt.Some? && w.failedAt.value <= w.now && w.o.alarm.Some? && w.o.alarm.value <= w.failedAt.value + cfg.retryMs
  }

  /** The alarm was due at the channel's last write. */
  predicate DueAtLastWrite(w: World) {
    w.o.pending.Some? && w.o.alarm.Some? && w.o.alarm.value <= w.o.pending.value.updatedAt <= w.now
  }

  /** The bookkeeping says what a send recorded, or that there was none. */
  predicate CountsMatch(cfg: Config, w: World) {
    && w.sent <= cfg.maxAttempts
    && (w.phase.Sending? ==> w.sent < cfg.maxAttempts)
    && (w.gaveUp ==> w.phase.Idle? && w.o.pending.None? && w.sent == cfg.maxAttempts)
    && (w.o.pending.Some? ==>
          && IsDue(w.o.channel, cfg)
          && w.o.pending.value.sends == w.sent
          && w.o.pending.value.updatedAt <= w.now
          && (w.sent > 0 ==>
                w.o.pending.value.settledAtSend.Some? && w.o.pending.value.capturedAtSend.Some?
                && w.o.pending.value.closeRequestAtSend.Some?))
    && (IsDue(w.o.channel, cfg) ==> w.o.pending.Some? || w.gaveUp)
  }

  predicate AlarmInvariant(cfg: Config, w: World) {
    w.o.pending.Some? ==>
      match w.phase
      case Idle => w.o.alarm.Some? && (MarkerCovered(w) || BackingOff(cfg, w))
      case Sending(read) => w.o.channel == Some(read) || MarkerCovered(w)
  }

  predicate Invariant(cfg: Config, w: World) {
    CountsMatch(cfg, w) && AlarmInvariant(cfg, w)
  }

  lemma StepKeepsCounts(cfg: Config, w: World, step: Step)
    requires cfg.Valid() && CountsMatch(cfg, w) && Enabled(w, step)
    ensures CountsMatch(cfg, Apply(cfg, w, step))
  {
    match step
    case Tick(_) =>
    case Write(_) =>
    case Fire =>
    case SendOk =>
    case SendFail =>
  }

  lemma StepKeepsAlarm(cfg: Config, w: World, step: Step)
    requires cfg.Valid() && Invariant(cfg, w) && Enabled(w, step)
    ensures AlarmInvariant(cfg, Apply(cfg, w, step))
  {
    match step
    case Tick(_) =>
    case Write(_) =>
    case Fire =>
    case SendOk =>
    case SendFail =>
  }

  lemma StepKeepsInvariant(cfg: Config, w: World, step: Step)
    requires cfg.Valid() && Invariant(cfg, w) && Enabled(w, step)
    ensures Invariant(cfg, Apply(cfg, w, step))
  {
    hide Apply, CountsMatch, AlarmInvariant;
    StepKeepsCounts(cfg, w, step);
    StepKeepsAlarm(cfg, w, step);
  }

  // ---- Whole runs ------------------------------------------------------------

  lemma {:induction false} RunKeepsInvariant(cfg: Config, w: World, steps: seq<Step>)
    requires cfg.Valid() && Invariant(cfg, w) && Runs(cfg, w, steps)
    ensures Invariant(cfg, Run(cfg, w, steps))
    decreases |steps|
  {
    if steps != [] {
      StepKeepsInvariant(cfg, w, steps[0]);
      RunKeepsInvariant(cfg, Apply(cfg, w, steps[0]), steps[1..]);
    }
  }

  /** The number of sends the queue accepted. */
  function Sends(steps: seq<Step>): nat {
    if steps == [] then 0 else (if steps[0].SendOk? then 1 else 0) + Sends(steps[1..])
  }

  predicate NoRestart(cfg: Config, w: World, steps: seq<Step>)
    requires Runs(cfg, w, steps)
    decreases |steps|
  {
    steps == [] || (!Restarts(cfg, w, steps[0]) && NoRestart(cfg, Apply(cfg, w, steps[0]), steps[1..]))
  }

  lemma {:induction false} SentCountsSends(cfg: Config, w: World, steps: seq<Step>)
    requires Runs(cfg, w, steps) && NoRestart(cfg, w, steps)
    ensures Run(cfg, w, steps).sent == w.sent + Sends(steps)
    decreases |steps|
  {
    if steps != [] {
      SentCountsSends(cfg, Apply(cfg, w, steps[0]), steps[1..]);
    }
  }

  /** Between two restarts of the count at most `maxAttempts` sends succeed, whatever is written
      while a send awaits the queue. */
  lemma AtMostMaxAttemptsSends(cfg: Config, before: seq<Step>, steps: seq<Step>)
    requires cfg.Valid() && Runs(cfg, Start, before)
    requires Runs(cfg, Run(cfg, Start, before), steps) && NoRestart(cfg, Run(cfg, Start, before), steps)
    ensures Sends(steps) <= cfg.maxAttempts
  {
    var w := Run(cfg, Start, before);
    RunKeepsInvariant(cfg, Start, before);
    RunKeepsInvariant(cfg, w, steps);
    SentCountsSends(cfg, w, steps);
  }

  lemma {:induction false} RunsSplit(cfg: Config, w: World, steps: seq<Step>, k: nat)
    requires k <= |steps| && Runs(cfg, w, steps)
    ensures Runs(cfg, w, steps[..k]) && Runs(cfg, Run(cfg, w, steps[..k]), steps[k..])
    ensures Run(cfg, w, steps) == Run(cfg, Run(cfg, w, steps[..k]), steps[k..])
    decreases |steps|
  {
    hide Apply, Enabled;
    if k > 0 {
      RunsSplit(cfg, Apply(cfg, w, steps[0]), steps[1..], k - 1);
      assert steps[..k][1..] == steps[1..][..k - 1] && steps[1..][k - 1..] == steps[k..];
    } else {
      assert steps[..0] == [] && steps[0..] == steps;
    }
  }

  /** The last `maxAttempts` successful sends of a run came without a restart among them. */
  ghost predicate ExhaustedSince(cfg: Config, w: World, steps: seq<Step>, k: nat)
    requires Runs(cfg, w, steps)
  {
    && k <= |steps|
    && Runs(cfg, w, steps[..k])
    && Runs(cfg, Run(cfg, w, steps[..k]), steps[k..])
    && NoRestart(cfg, Run(cfg, w, steps[..k]), steps[k..])
    && Sends(steps[k..]) == Run(cfg, w, steps).sent
  }

  /** `sent` is the number of successful sends after some point with no restart since. */
  lemma {:induction false} SentHasASuffix(cfg: Config, w: World, steps: seq<Step>) returns (k: nat)
    requires Runs(cfg, w, steps) && w.sent == 0
    ensures ExhaustedSince(cfg, w, steps, k)
  {
    k := LastRestart(cfg, w, steps);
    RunsSplit(cfg, w, steps, k);
    SentCountsSends(cfg, Run(cfg, w, steps[..k]), steps[k..]);
  }

  lemma {:induction false} LastRestart(cfg: Config, w: World, steps: seq<Step>) returns (k: nat)
    requires Runs(cfg, w, steps)
    ensures k <= |steps| && Runs(cfg, w, steps[..k]) && Runs(cfg, Run(cfg, w, steps[..k]), steps[k..])
    ensures NoRestart(cfg, Run(cfg, w, steps[..k]), steps[k..])
    ensures k == 0 || Run(cfg, w, steps[..k]).sent == 0
    decreases |steps|
  {
    k := 0;
    if steps != [] {
      var next := Apply(cfg, w, steps[0]);
      var rest := LastRestart(cfg, next, steps[1..]);
      assert steps[..rest + 1][1..] == steps[1..][..rest] && steps[rest + 1..] == steps[1..][rest..];
      assert steps[..0] == [] && steps[0..] == steps;
      if rest > 0 || Restarts(cfg, w, steps[0]) {
        k := rest + 1;
      } else {
        assert steps[1..][..0] == [] && steps[1..][0..] == steps[1..];
      }
    }
  }

  /** A channel is never lost: whenever no handler is running, bookkeeping comes with an alarm,
      and a channel with something to settle has bookkeeping or was given up after exactly
      `maxAttempts` successful sends without a restart. */
  lemma NeverLosesAChannel(cfg: Config, steps: seq<Step>)
    requires cfg.Valid() && Runs(cfg, Start, steps)
    ensures var w := Run(cfg, Start, steps);
            && (w.phase.Idle? && w.o.pending.Some? ==> w.o.alarm.Some?)
            && (IsDue(w.o.channel, cfg) && w.o.pending.None? ==>
                  w.gaveUp && w.sent == cfg.maxAttempts && exists k :: ExhaustedSince(cfg, Start, steps, k))
  {
    RunKeepsInvariant(cfg, Start, steps);
    var k := SentHasASuffix(cfg, Start, steps);
  }

  /** While bookkeeping exists and no handler runs, the alarm never sleeps past the end of the
      server's close marker, except to back off for `retryMs` from a failed send. */
  lemma NeverSleepsPastTheMarker(cfg: Config, steps: seq<Step>)
    requires cfg.Valid() && Runs(cfg, Start, steps)
    ensures var w := Run(cfg, Start, steps);
            w.phase.Idle? && w.o.pending.Some? && w.o.channel.Some? && PendingCloseEnd(w.o.channel.value, w.now).Some?
            ==> && w.o.alarm.Some?
                && (w.o.alarm.value <= PendingCloseEnd(w.o.channel.value, w.now).value || BackingOff(cfg, w))
  {
    RunKeepsInvariant(cfg, Start, steps);
  }

  // ---- A threshold's worth of vouchers ---------------------------------------

  /** Bookkeeping that calls for a send at once: a threshold's worth is unsettled, and the last
      send, if there was one, left a threshold's worth uncaptured. */
  predicate Urgent(cfg: Config, w: World) {
    && w.o.pending.Some? && w.o.channel.Some?
    && SettlementDue(w.o.channel.value, cfg) == AtOnce
    && (w.o.pending.value.sends > 0 ==> Uncaptured(w.o.pending.value, w.o.channel.value, cfg))
  }

  /** A send that captures less than the send before it. */
  predicate Shrinks(cfg: Config, w: World, step: Step) {
    && step.Fire?
    && OnAlarm(w.o, cfg, w.now).Send?
    && var p := OnAlarm(w.o, cfg, w.now).o.pending;
    && p.Some? && w.o.channel.Some?
    && p.value.sends > 0 && p.value.capturedAtSend.Some?
    && SettleableAmount(w.o.channel.value) < p.value.capturedAtSend.value
  }

  /** A step that lets vouchers slip past the count: a send that captures less than the one before,
      with no more settled on-chain since then; or, during a send that captures less, a write that
      takes back what was settled on-chain, which the store never does. */
  predicate Exposed(cfg: Config, w: World, step: Step) {
    match step
    case Fire =>
      && Shrinks(cfg, w, step)
      && !Progressed(OnAlarm(w.o, cfg, w.now).o.pending.value, w.o.channel.value)
    case Write(next) =>
      && w.phase.Sending? && next.Some? && w.o.channel.Some? && w.o.pending.Some?
      && w.o.pending.value.sends > 0 && w.o.pending.value.capturedAtSend.Some?
      && SettleableAmount(w.phase.read) < w.o.pending.value.capturedAtSend.value
      && next.value.settledOnChain < w.o.channel.value.settledOnChain
    case _ => false
  }

  predicate NeverExposed(cfg: Config, w: World, steps: seq<Step>)
    requires Runs(cfg, w, steps)
    decreases |steps|
  {
    steps == [] || (!Exposed(cfg, w, steps[0]) && NeverExposed(cfg, Apply(cfg, w, steps[0]), steps[1..]))
  }

  /** With a single attempt, which is spent: the alarm is the end of the server's close marker. */
  predicate WaitsForMarker(cfg: Config, w: World) {
    && cfg.maxAttempts == 1
    && w.o.pending.Some? && w.o.pending.value.sends == 1 && w.o.channel.Some? && w.o.alarm.Some?
    && (w.o.alarm.value <= w.now || PendingCloseEnd(w.o.channel.value, w.now) == w.o.alarm)
  }

  /** What holds at rest, and what a write that landed during a send of `read` left behind. Vouchers
      can only be left uncaptured by the first send since the count restarted. */
  predicate UrgentInvariant(cfg: Config, w: World) {
    w.o.pending.Some? && w.o.channel.Some? ==>
      var p, c := w.o.pending.value, w.o.channel.value;
      && (p.sends > 0 && Uncaptured(p, c, cfg) ==> p.sends == 1)
      && match w.phase
         case Idle =>
           Urgent(cfg, w) ==> DueAtLastWrite(w) || BackingOff(cfg, w) || WaitsForMarker(cfg, w)
         case Sending(read) =>
           && (p.sends > 0 ==>
                 && p.capturedAtSend.Some?
                 && (p.capturedAtSend.value <= SettleableAmount(read) || (c == read && Progressed(p, read))))
           && (c == read || (if p.sends == 0 then Urgent(cfg, w) ==> DueAtLastWrite(w) else !Uncaptured(p, c, cfg)))
  }

  lemma MarkerOrItsEnd(c: Channel, now: int, later: int)
    requires now <= later
    ensures PendingCloseEnd(c, now).Some? ==>
              PendingCloseEnd(c, later) == PendingCloseEnd(c, now) || PendingCloseEnd(c, now).value <= later
  {
  }

  lemma TickKeepsUrgentInvariant(cfg: Config, w: World, time: int)
    requires cfg.Valid() && Invariant(cfg, w) && UrgentInvariant(cfg, w) && Enabled(w, Tick(time))
    ensures UrgentInvariant(cfg, Apply(cfg, w, Tick(time)))
  {
    if w.o.channel.Some? { MarkerOrItsEnd(w.o.channel.value, w.now, time); }
    hide PendingCloseEnd, SettlementDue;
  }

  lemma WriteKeepsUrgentInvariant(cfg: Config, w: World, next: Option<Channel>)
    requires cfg.Valid() && Invariant(cfg, w) && UrgentInvariant(cfg, w)
    requires !Exposed(cfg, w, Write(next))
    ensures UrgentInvariant(cfg, Apply(cfg, w, Write(next)))
  {
    hide PendingCloseEnd, SettleableAmount, Threshold;
  }

  lemma FireKeepsUrgentInvariant(cfg: Config, w: World)
    requires cfg.Valid() && Invariant(cfg, w) && UrgentInvariant(cfg, w) && Enabled(w, Fire)
    requires !Exposed(cfg, w, Fire)
    ensures UrgentInvariant(cfg, Apply(cfg, w, Fire))
  {
    hide SettleableAmount, Threshold;
  }

  lemma SendKeepsUrgentInvariant(cfg: Config, w: World, step: Step)
    requires cfg.Valid() && Invariant(cfg, w) && UrgentInvariant(cfg, w) && Enabled(w, step)
    requires step.SendOk? || step.SendFail?
    ensures UrgentInvariant(cfg, Apply(cfg, w, step))
  {
    hide PendingCloseEnd, SettleableAmount, Watchdog;
  }

  lemma StepKeepsUrgentInvariant(cfg: Config, w: World, step: Step)
    requires cfg.Valid() && Invariant(cfg, w) && UrgentInvariant(cfg, w) && Enabled(w, step)
    requires !Exposed(cfg, w, step)
    ensures UrgentInvariant(cfg, Apply(cfg, w, step))
  {
    hide Apply, UrgentInvariant, Exposed, Invariant;
    match step
    case Tick(time) => TickKeepsUrgentInvariant(cfg, w, time);
    case Write(next) => WriteKeepsUrgentInvariant(cfg, w, next);
    case Fire => FireKeepsUrgentInvariant(cfg, w);
    case SendOk => SendKeepsUrgentInvariant(cfg, w, step);
    case SendFail => SendKeepsUrgentInvariant(cfg, w, step);
  }

  lemma {:induction false} RunKeepsUrgentInvariant(cfg: Config, w: World, steps: seq<Step>)
    requires cfg.Valid() && Invariant(cfg, w) && UrgentInvariant(cfg, w)
    requires Runs(cfg, w, steps) && NeverExposed(cfg, w, steps)
    ensures UrgentInvariant(cfg, Run(cfg, w, steps))
    decreases |steps|
  {
    hide Apply, UrgentInvariant, Exposed, Invariant;
    if steps != [] {
      StepKeepsInvariant(cfg, w, steps[0]);
      StepKeepsUrgentInvariant(cfg, w, steps[0]);
      RunKeepsUrgentInvariant(cfg, Apply(cfg, w, steps[0]), steps[1..]);
    }
  }

  /** While no step of a run is exposed, a threshold's worth of vouchers that the last send did not
      capture never waits for the watchdog: the alarm was due when they were written, or backs off
      from a failed send. With a single attempt they may wait for the end of the close marker. */
  lemma UrgentNeverWaits(cfg: Config, steps: seq<Step>)
    requires cfg.Valid() && Runs(cfg, Start, steps) && NeverExposed(cfg, Start, steps)
    ensures var w := Run(cfg, Start, steps);
            w.phase.Idle? && Urgent(cfg, w)
            ==> DueAtLastWrite(w) || BackingOff(cfg, w) || WaitsForMarker(cfg, w)
  {
    RunKeepsInvariant(cfg, Start, steps);
    RunKeepsUrgentInvariant(cfg, Start, steps);
  }

  /** The world just after a send of the stored channel started, with `next` written during it and
      the send then accepted, all at one time. */
  function WriteDuringSend(cfg: Config, w: World, next: Channel): World
    requires w.phase.Sending?
  {
    Apply(cfg, Apply(cfg, w, Write(Some(next))), SendOk)
  }

  /** A threshold's worth left uncaptured by the send that just ended, with no alarm due. */
  predicate LeftWaiting(cfg: Config, w: World) {
    && w.phase.Idle?
    && Urgent(cfg, w)
    && w.o.pending.value.sends > 0
    && (w.o.alarm.Some? ==> w.o.alarm.value > w.now)
  }

  /** The vouchers wait once the send is over, or once the alarm that is due then has fired. */
  predicate LeavesWaiting(cfg: Config, w: World, next: Channel)
    requires w.phase.Sending?
  {
    var after := WriteDuringSend(cfg, w, next);
    LeftWaiting(cfg, after) || (Enabled(after, Fire) && LeftWaiting(cfg, Apply(cfg, after, Fire)))
  }

  /** When a send that starts now can leave later vouchers waiting: it is exposed, and the watchdog
      does not ring at once or finds the attempts spent; or there is but one attempt. */
  predicate CanLeaveWaiting(cfg: Config, w: World)
    requires Enabled(w, Fire) && OnAlarm(w.o, cfg, w.now).Send?
  {
    || (Exposed(cfg, w, Fire)
        && (cfg.watchdogMs > 0 || OnAlarm(w.o, cfg, w.now).o.pending.value.sends + 1 == cfg.maxAttempts))
    || cfg.maxAttempts == 1
  }

  /** A threshold's worth of vouchers on top of what `read` can settle, all else as it was. */
  function Topped(cfg: Config, read: Channel): Channel {
    var amount := SettleableAmount(read) + Threshold(read, cfg);
    read.(spent := amount, vouchers := [amount] + read.vouchers)
  }

  lemma ToppedAmount(cfg: Config, read: Channel)
    ensures SettleableAmount(Topped(cfg, read)) == SettleableAmount(read) + Threshold(read, cfg)
    ensures Threshold(Topped(cfg, read), cfg) == Threshold(read, cfg)
    ensures !read.finalized ==> SettlementDue(Topped(cfg, read), cfg) == AtOnce
  {
    var amount := SettleableAmount(read) + Threshold(read, cfg);
    var next := Topped(cfg, read);
    assert amount in next.vouchers && Capturable(next, amount);
  }

  /** The same under the server's own close marker. */
  function Marked(c: Channel, now: int): Channel {
    var at := Max(1, now / 1000);
    c.(closeRequestedAt := at, pendingCloseAt := Some(at))
  }

  lemma MarkedAmount(cfg: Config, c: Channel, now: int)
    ensures SettleableAmount(Marked(c, now)) == SettleableAmount(c)
    ensures Threshold(Marked(c, now), cfg) == Threshold(c, cfg)
    ensures SettlementDue(Marked(c, now), cfg) == SettlementDue(c, cfg)
    ensures !c.finalized ==>
              PendingCloseEnd(Marked(c, now), now).Some? && PendingCloseEnd(Marked(c, now), now).value > now
              && !Closing(Marked(c, now), now)
  {
    var marked := Marked(c, now);
    assert forall v :: Capturable(marked, v) <==> Capturable(c, v);
    if !c.finalized { PendingCloseEndIsExact(marked, now, now); }
  }

  /** Overtaken while exposed, the vouchers wait for the watchdog. */
  lemma ExposedSendLeavesWaiting(cfg: Config, w: World)
    requires cfg.Valid() && cfg.watchdogMs > 0
    requires Invariant(cfg, w) && Enabled(w, Fire) && OnAlarm(w.o, cfg, w.now).Send?
    requires Exposed(cfg, w, Fire)
    ensures LeftWaiting(cfg, WriteDuringSend(cfg, Apply(cfg, w, Fire), Topped(cfg, w.o.channel.value)))
  {
    var read := w.o.channel.value;
    var sending := Apply(cfg, w, Fire);
    StepKeepsInvariant(cfg, w, Fire);
    ToppedAmount(cfg, read);
    if PendingCloseEnd(read, w.now).Some? { PendingCloseEndIsExact(read, w.now, w.now); }
    hide SettleableAmount, Threshold, SettlementDue;
  }

  /** Overtaken with its last attempt spent, they wait for the end of the close marker. */
  lemma LastSendLeavesWaiting(cfg: Config, w: World)
    requires cfg.Valid()
    requires Invariant(cfg, w) && Enabled(w, Fire) && OnAlarm(w.o, cfg, w.now).Send?
    requires cfg.maxAttempts == 1
          || (Exposed(cfg, w, Fire) && cfg.watchdogMs == 0
              && OnAlarm(w.o, cfg, w.now).o.pending.value.sends + 1 == cfg.maxAttempts)
    ensures
      var after := WriteDuringSend(cfg, Apply(cfg, w, Fire), Marked(Topped(cfg, w.o.channel.value), w.now));
      Enabled(after, Fire) && LeftWaiting(cfg, Apply(cfg, after, Fire))
  {
    var read := w.o.channel.value;
    StepKeepsInvariant(cfg, w, Fire);
    ToppedAmount(cfg, read);
    MarkedAmount(cfg, Topped(cfg, read), w.now);
    hide SettleableAmount, Threshold, SettlementDue;
  }

  /** An accepted send that is not exposed leaves vouchers uncaptured only when a write during it
      restarted the count, which set the alarm at once. */
  lemma OvertakenSend(cfg: Config, w: World, next: Channel)
    requires cfg.Valid()
    requires Invariant(cfg, w) && Enabled(w, Fire) && OnAlarm(w.o, cfg, w.now).Send?
    requires next.settledOnChain >= w.o.channel.value.settledOnChain
    ensures
      var p := OnAlarm(w.o, cfg, w.now).o.pending.value;
      var after := WriteDuringSend(cfg, Apply(cfg, w, Fire), next);
      && after.phase.Idle?
      && (after.o.pending.Some? && Urgent(cfg, after) ==>
            && after.o.channel == Some(next)
            && (after.o.pending.value.sends == 1 || (Exposed(cfg, w, Fire) && after.o.pending.value.sends == p.sends + 1))
            && after.o.alarm.Some?
            && (after.o.alarm.value <= w.now || (Exposed(cfg, w, Fire) && cfg.watchdogMs > 0)))
  {
    hide SettleableAmount, Threshold, PendingCloseEnd;
  }

  lemma OtherSendsLeaveNothing(cfg: Config, w: World, next: Channel)
    requires cfg.Valid()
    requires Invariant(cfg, w) && Enabled(w, Fire) && OnAlarm(w.o, cfg, w.now).Send?
    requires next.settledOnChain >= w.o.channel.value.settledOnChain
    requires !CanLeaveWaiting(cfg, w)
    ensures !LeavesWaiting(cfg, Apply(cfg, w, Fire), next)
  {
    OvertakenSend(cfg, w, next);
    var after := WriteDuringSend(cfg, Apply(cfg, w, Fire), next);
    assert after.now == w.now;
    if Enabled(after, Fire) { SentOffOrCaptured(cfg, after); }
    hide Apply, OnAlarm, WriteDuringSend;
  }

  /** What an alarm leaves waiting, it found urgent, with all attempts spent. */
  lemma SentOffOrCaptured(cfg: Config, w: World)
    requires cfg.Valid() && Enabled(w, Fire)
    ensures LeftWaiting(cfg, Apply(cfg, w, Fire)) ==>
              Urgent(cfg, w) && w.o.pending.value.sends >= cfg.maxAttempts
  {
    hide SettleableAmount, Threshold, PendingCloseEnd;
  }

  /** The condition is exact, over both causes: when a send starts, some write during it that takes
      back nothing settled on-chain can leave a threshold's worth waiting if and only if that send is
      exposed or is the only attempt. */
  lemma WaitsIffTheSendIsExposed(cfg: Config, w: World)
    requires cfg.Valid()
    requires Invariant(cfg, w) && Enabled(w, Fire) && OnAlarm(w.o, cfg, w.now).Send?
    ensures (exists next: Channel :: next.settledOnChain >= w.o.channel.value.settledOnChain
                                     && LeavesWaiting(cfg, Apply(cfg, w, Fire), next))
            <==> CanLeaveWaiting(cfg, w)
  {
    var read := w.o.channel.value;
    if CanLeaveWaiting(cfg, w) {
      var next := if Exposed(cfg, w, Fire) && cfg.watchdogMs > 0 then Topped(cfg, read) else Marked(Topped(cfg, read), w.now);
      if Exposed(cfg, w, Fire) && cfg.watchdogMs > 0 {
        ExposedSendLeavesWaiting(cfg, w);
      } else {
        LastSendLeavesWaiting(cfg, w);
      }
      hide Apply, WriteDuringSend, LeftWaiting, OnAlarm, Exposed;
      assert next.settledOnChain == read.settledOnChain && LeavesWaiting(cfg, Apply(cfg, w, Fire), next);
    } else {
      forall next: Channel | next.settledOnChain >= read.settledOnChain
        ensures !LeavesWaiting(cfg, Apply(cfg, w, Fire), next)
      {
        OtherSendsLeaveNothing(cfg, w, next);
      }
    }
  }

  const Defaults := Config(100, 300_000, 300_000, 6, 60_000)

  /** The vouchers of a channel up to its highest one. */
  function VouchersTo(highest: int): seq<int> {
    if highest == 5_000 then [2_000, 5_000] else [2_000, 5_000, highest]
  }

  /** A channel with a 10 000 deposit, hence a threshold of 1 000. */
  function Example(spent: int, highest: int): Channel {
    Channel(false, 10_000, 0, spent, VouchersTo(highest), 0, None)
  }

  lemma ExampleAmount(spent: int, highest: int)
    requires spent in {2_000, 5_000, highest} && 5_000 <= highest
    ensures SettleableAmount(Example(spent, highest)) == spent
  {
    assert VouchersTo(highest)[0] == 2_000 && VouchersTo(highest)[1] == 5_000 && VouchersTo(highest)[|VouchersTo(highest)| - 1] == highest;
    assert spent in Example(spent, highest).vouchers && Capturable(Example(spent, highest), spent);
  }

  lemma {:induction false} RunsJoin(cfg: Config, w: World, first: seq<Step>, second: seq<Step>)
    requires Runs(cfg, w, first) && Runs(cfg, Run(cfg, w, first), second)
    ensures Runs(cfg, w, first + second) && Run(cfg, w, first + second) == Run(cfg, Run(cfg, w, first), second)
    decreases |first|
  {
    if first == [] {
      assert first + second == second;
    } else {
      assert (first + second)[1..] == first[1..] + second;
      RunsJoin(cfg, Apply(cfg, w, first[0]), first[1..], second);
    }
  }

  const SentFiveThousand :=
    World(0, Stored(Some(Example(5_000, 5_000)), Some(Pending(1, Some(0), Some(5_000), Some(0), 0, Some(300_000))), Some(300_000)),
          Idle, 1, false, None, 0, Some(Accepted(0, false)))

  const SendingTwoThousand :=
    World(300_000, Stored(Some(Example(2_000, 5_000)), Some(Pending(1, Some(0), Some(5_000), Some(0), 0, Some(300_000))), None),
          Sending(Example(2_000, 5_000)), 1, false, None, 0, Some(Accepted(0, false)))

  lemma FiveThousandAreSent()
    ensures var steps := [Write(Some(Example(5_000, 5_000))), Fire, SendOk];
            Runs(Defaults, Start, steps) && Run(Defaults, Start, steps) == SentFiveThousand
  {
    ExampleAmount(5_000, 5_000);
    assert Power2(0) == 1;
    var w1 := Apply(Defaults, Start, Write(Some(Example(5_000, 5_000))));
    var w2 := Apply(Defaults, w1, Fire);
    assert Apply(Defaults, w2, SendOk) == SentFiveThousand;
    RunsThree(Defaults, Start, Write(Some(Example(5_000, 5_000))), Fire, SendOk);
  }

  lemma TwoThousandAreRead()
    ensures var steps := [Write(Some(Example(2_000, 5_000))), Tick(300_000), Fire];
            Runs(Defaults, SentFiveThousand, steps) && Run(Defaults, SentFiveThousand, steps) == SendingTwoThousand
  {
    ExampleAmount(2_000, 5_000);
    var w1 := Apply(Defaults, SentFiveThousand, Write(Some(Example(2_000, 5_000))));
    var w2 := Apply(Defaults, w1, Tick(300_000));
    assert Apply(Defaults, w2, Fire) == SendingTwoThousand;
    RunsThree(Defaults, SentFiveThousand, Write(Some(Example(2_000, 5_000))), Tick(300_000), Fire);
  }

  lemma RunsThree(cfg: Config, w: World, a: Step, b: Step, c: Step)
    requires Enabled(w, a) && Enabled(Apply(cfg, w, a), b) && Enabled(Apply(cfg, Apply(cfg, w, a), b), c)
    ensures Runs(cfg, w, [a, b, c])
    ensures Run(cfg, w, [a, b, c]) == Apply(cfg, Apply(cfg, Apply(cfg, w, a), b), c)
  {
    RunsOne(cfg, w, a);
    RunsOne(cfg, Apply(cfg, w, a), b);
    RunsOne(cfg, Apply(cfg, Apply(cfg, w, a), b), c);
    RunsJoin(cfg, Apply(cfg, w, a), [b], [c]);
    RunsJoin(cfg, w, [a], [b, c]);
    assert [b] + [c] == [b, c] && [a] + [b, c] == [a, b, c];
  }

  lemma RunsOne(cfg: Config, w: World, a: Step)
    requires Enabled(w, a)
    ensures Runs(cfg, w, [a]) && Run(cfg, w, [a]) == Apply(cfg, w, a)
  {
    assert [a][1..] == [];
  }

  const ThreeThousandFiveHundredWait :=
    World(300_000, Stored(Some(Example(5_500, 5_500)), Some(Pending(2, Some(0), Some(2_000), Some(0), 300_000, Some(900_000))), Some(900_000)),
          Idle, 2, false, None, 300_000, Some(Accepted(300_000, false)))

  lemma AWriteLandsDuringTheSend()
    ensures var steps := [Write(Some(Example(5_500, 5_500))), SendOk];
            Runs(Defaults, SendingTwoThousand, steps) && Run(Defaults, SendingTwoThousand, steps) == ThreeThousandFiveHundredWait
  {
    ExampleAmount(2_000, 5_000);
    ExampleAmount(5_500, 5_500);
    assert Power2(1) == 2;
    var w := Apply(Defaults, SendingTwoThousand, Write(Some(Example(5_500, 5_500))));
    assert Apply(Defaults, w, SendOk) == ThreeThousandFiveHundredWait;
    RunsOne(Defaults, SendingTwoThousand, Write(Some(Example(5_500, 5_500))));
    RunsOne(Defaults, w, SendOk);
    RunsJoin(Defaults, SendingTwoThousand, [Write(Some(Example(5_500, 5_500)))], [SendOk]);
    assert [Write(Some(Example(5_500, 5_500)))] + [SendOk] == [Write(Some(Example(5_500, 5_500))), SendOk];
  }

  lemma JoinThree(cfg: Config, w: World, a: seq<Step>, b: seq<Step>, c: seq<Step>) returns (steps: seq<Step>)
    requires Runs(cfg, w, a) && Runs(cfg, Run(cfg, w, a), b) && Runs(cfg, Run(cfg, Run(cfg, w, a), b), c)
    ensures steps == a + b + c && Runs(cfg, w, steps)
    ensures Run(cfg, w, steps) == Run(cfg, Run(cfg, Run(cfg, w, a), b), c)
  {
    RunsJoin(cfg, w, a, b);
    RunsJoin(cfg, w, a + b, c);
    steps := a + b + c;
  }

  /** A run that leaves vouchers waiting: 5 000 is sent, a credit takes the channel back to 2 000,
      the watchdog sends that, and 5 500 is written while the second send awaits the queue. The
      3 500 it did not capture wait for the next watchdog, ten minutes later. */
  lemma VouchersCanWait()
    ensures exists steps :: Runs(Defaults, Start, steps) && LeftWaiting(Defaults, Run(Defaults, Start, steps))
                            && Run(Defaults, Start, steps).o.alarm == Some(Run(Defaults, Start, steps).now + 600_000)
  {
    FiveThousandAreSent();
    TwoThousandAreRead();
    AWriteLandsDuringTheSend();
    ExampleAmount(5_500, 5_500);
    var steps := JoinThree(Defaults, Start,
                           [Write(Some(Example(5_000, 5_000))), Fire, SendOk],
                           [Write(Some(Example(2_000, 5_000))), Tick(300_000), Fire],
                           [Write(Some(Example(5_500, 5_500))), SendOk]);
    assert LeftWaiting(Defaults, ThreeThousandFiveHundredWait);
  }

  /** The default settings with a single attempt. */
  const OneAttempt := Config(100, 300_000, 300_000, 1, 60_000)

  /** 7 000 spent, under a close marker of the server. */
  const SevenThousand := Example(7_000, 7_000).(closeRequestedAt := 1, pendingCloseAt := Some(1))

  const TwoThousandWait :=
    World(0, Stored(Some(SevenThousand), Some(Pending(1, Some(0), Some(5_000), Some(0), 0, Some(300_000))), Some(57_000)),
          Idle, 1, false, None, 0, Some(Accepted(0, false)))

  lemma SevenThousandAreSettleable()
    ensures SettleableAmount(SevenThousand) == 7_000
  {
    ExampleAmount(7_000, 7_000);
    assert forall v :: Capturable(SevenThousand, v) <==> Capturable(Example(7_000, 7_000), v);
  }

  /** 5 000 are being sent. */
  const FiveThousandInFlight :=
    World(0, Stored(Some(Example(5_000, 5_000)), Some(Pending(0, None, None, None, 0, None)), None),
          Sending(Example(5_000, 5_000)), 0, false, None, 0, None)

  /** 7 000 were written meanwhile, and the send was accepted. */
  const SevenThousandAreDue :=
    World(0, Stored(Some(SevenThousand), Some(Pending(1, Some(0), Some(5_000), Some(0), 0, Some(300_000))), Some(0)),
          Idle, 1, false, None, 0, Some(Accepted(0, false)))

  lemma FiveThousandAreInFlight()
    ensures
      var steps := [Write(Some(Example(5_000, 5_000))), Fire];
      Runs(OneAttempt, Start, steps) && Run(OneAttempt, Start, steps) == FiveThousandInFlight
  {
    ExampleAmount(5_000, 5_000);
    var w := Apply(OneAttempt, Start, Write(Some(Example(5_000, 5_000))));
    assert Apply(OneAttempt, w, Fire) == FiveThousandInFlight;
    RunsOne(OneAttempt, Start, Write(Some(Example(5_000, 5_000))));
    RunsOne(OneAttempt, w, Fire);
    RunsJoin(OneAttempt, Start, [Write(Some(Example(5_000, 5_000)))], [Fire]);
    assert [Write(Some(Example(5_000, 5_000)))] + [Fire] == [Write(Some(Example(5_000, 5_000))), Fire];
  }

  lemma SevenThousandOvertake()
    ensures Apply(OneAttempt, Apply(OneAttempt, FiveThousandInFlight, Write(Some(SevenThousand))), SendOk) == SevenThousandAreDue
  {
    ExampleAmount(5_000, 5_000);
    SevenThousandAreSettleable();
    assert Power2(0) == 1;
    hide SettleableAmount;
  }

  lemma TwoThousandStay()
    ensures Apply(OneAttempt, SevenThousandAreDue, Fire) == TwoThousandWait
  {
    SevenThousandAreSettleable();
    hide SettleableAmount;
  }

  lemma SevenThousandAreOvertaken()
    ensures
      var steps := [Write(Some(SevenThousand)), SendOk, Fire];
      Runs(OneAttempt, FiveThousandInFlight, steps) && Run(OneAttempt, FiveThousandInFlight, steps) == TwoThousandWait
  {
    SevenThousandOvertake();
    TwoThousandStay();
    assert Apply(OneAttempt, FiveThousandInFlight, Write(Some(SevenThousand))).phase.Sending?;
    hide Apply;
    RunsThree(OneAttempt, FiveThousandInFlight, Write(Some(SevenThousand)), SendOk, Fire);
  }

  /** A run that leaves vouchers waiting with a single attempt, though no step of it is exposed: 7 000
      is written, under a close marker, while the only send, of 5 000, awaits the queue. The write does
      not restart the count, since nothing was sent before, and the 2 000 wait for the marker's end. */
  lemma OneAttemptCanWait()
    ensures exists steps :: Runs(OneAttempt, Start, steps) && NeverExposed(OneAttempt, Start, steps)
                            && LeftWaiting(OneAttempt, Run(OneAttempt, Start, steps))
                            && Run(OneAttempt, Start, steps).o.alarm == Some(57_000)
  {
    FiveThousandAreInFlight();
    SevenThousandAreOvertaken();
    SevenThousandAreSettleable();
    var first := [Write(Some(Example(5_000, 5_000))), Fire];
    var rest := [Write(Some(SevenThousand)), SendOk, Fire];
    RunsJoin(OneAttempt, Start, first, rest);
    OneAttemptIsNeverExposed(Start, first + rest);
    assert LeftWaiting(OneAttempt, TwoThousandWait);
  }

  /** With one attempt no send follows another within a count, so none is exposed. */
  lemma {:induction false} OneAttemptIsNeverExposed(w: World, steps: seq<Step>)
    requires Invariant(OneAttempt, w) && Runs(OneAttempt, w, steps)
    ensures NeverExposed(OneAttempt, w, steps)
    decreases |steps|
  {
    if steps != [] {
      StepKeepsInvariant(OneAttempt, w, steps[0]);
      OneAttemptIsNeverExposed(Apply(OneAttempt, w, steps[0]), steps[1..]);
    }
  }

  // ---- A closing channel -----------------------------------------------------

  /** A step of a run whose alarms fire on time, whose sends are accepted at once, whose written
      channels stay closing, and whose count does not restart. */
  predicate ClosingStep(cfg: Config, w: World, step: Step) {
    && !Restarts(cfg, w, step)
    && (match step
        case Tick(time) => w.phase.Idle? && (w.o.alarm.Some? ==> time <= w.o.alarm.value)
        case Write(next) => next.Some? && Closing(next.value, w.now)
        case SendFail => false
        case _ => true)
  }

  predicate ClosingRun(cfg: Config, w: World, steps: seq<Step>)
    requires Runs(cfg, w, steps)
    decreases |steps|
  {
    steps == [] || (ClosingStep(cfg, w, steps[0]) && ClosingRun(cfg, Apply(cfg, w, steps[0]), steps[1..]))
  }

  /** `w.sent` sends were accepted, the first at `first`, and the next is due within `sent` delays of it. */
  predicate ClosingInvariant(cfg: Config, w: World, first: int) {
    && w.sent > 0
    && w.o.channel.Some? && Closing(w.o.channel.value, w.now)
    && (w.phase.Sending? ==>
          w.now <= first + w.sent * CLOSING_WATCHDOG_MS && Closing(w.phase.read, w.now)
          && (w.o.alarm.Some? ==> w.now <= w.o.alarm.value))
    && (w.phase.Idle? && w.o.pending.Some? ==>
          && w.o.alarm.Some? && w.o.pending.value.watchdogAt.Some?
          && w.now <= w.o.alarm.value <= w.o.pending.value.watchdogAt.value <= first + w.sent * CLOSING_WATCHDOG_MS)
  }

  lemma StepKeepsClosingInvariant(cfg: Config, w: World, step: Step, first: int)
    requires cfg.Valid() && Invariant(cfg, w) && ClosingInvariant(cfg, w, first)
    requires Enabled(w, step) && ClosingStep(cfg, w, step)
    ensures ClosingInvariant(cfg, Apply(cfg, w, step), first)
    ensures step.SendOk? ==> w.now <= first + (cfg.maxAttempts - 1) * CLOSING_WATCHDOG_MS
  {
    match step
    case Tick(_) =>
    case Write(_) =>
    case Fire =>
    case SendOk =>
  }

  lemma {:induction false} RunKeepsClosingInvariant(cfg: Config, w: World, steps: seq<Step>, first: int)
    requires cfg.Valid() && Invariant(cfg, w) && ClosingInvariant(cfg, w, first)
    requires Runs(cfg, w, steps) && ClosingRun(cfg, w, steps)
    ensures Invariant(cfg, Run(cfg, w, steps)) && ClosingInvariant(cfg, Run(cfg, w, steps), first)
    decreases |steps|
  {
    if steps != [] {
      StepKeepsInvariant(cfg, w, steps[0]);
      StepKeepsClosingInvariant(cfg, w, steps[0], first);
      RunKeepsClosingInvariant(cfg, Apply(cfg, w, steps[0]), steps[1..], first);
    }
  }

  /** A channel closing since its first send, with alarms on time, sends accepted and no restart:
      every send comes within `(maxAttempts - 1) * 2` minutes of the first. */
  lemma ClosingSendsFitTheGracePeriod(cfg: Config, before: seq<Step>, steps: seq<Step>)
    requires cfg.Valid() && Runs(cfg, Start, before)
    requires var w := Run(cfg, Start, before);
             && w.phase.Sending? && w.sent == 0 && Closing(w.phase.read, w.now)
             && w.o.channel.Some? && Closing(w.o.channel.value, w.now)
             && (w.o.alarm.Some? ==> w.now <= w.o.alarm.value)
             && Runs(cfg, Apply(cfg, w, SendOk), steps + [SendOk])
             && ClosingRun(cfg, Apply(cfg, w, SendOk), steps + [SendOk])
    ensures var w := Run(cfg, Start, before);
            Run(cfg, Apply(cfg, w, SendOk), steps + [SendOk]).now <= w.now + (cfg.maxAttempts - 1) * CLOSING_WATCHDOG_MS
  {
    var w := Run(cfg, Start, before);
    var sent := Apply(cfg, w, SendOk);
    RunKeepsInvariant(cfg, Start, before);
    StepKeepsInvariant(cfg, w, SendOk);
    assert ClosingInvariant(cfg, sent, w.now);
    RunsSplit(cfg, sent, steps + [SendOk], |steps|);
    ClosingRunPrefix(cfg, sent, steps, SendOk);
    RunKeepsClosingInvariant(cfg, sent, steps, w.now);
    var last := Run(cfg, sent, steps);
    StepKeepsClosingInvariant(cfg, last, SendOk, w.now);
  }

  lemma {:induction false} ClosingRunPrefix(cfg: Config, w: World, steps: seq<Step>, last: Step)
    requires Runs(cfg, w, steps + [last]) && ClosingRun(cfg, w, steps + [last])
    ensures Runs(cfg, w, steps) && ClosingRun(cfg, w, steps)
    ensures Enabled(Run(cfg, w, steps), last) && ClosingStep(cfg, Run(cfg, w, steps), last)
    ensures Run(cfg, w, steps + [last]) == Apply(cfg, Run(cfg, w, steps), last)
    decreases |steps|
  {
    if steps != [] {
      assert (steps + [last])[1..] == steps[1..] + [last];
      ClosingRunPrefix(cfg, Apply(cfg, w, steps[0]), steps[1..], last);
    }
  }
}
