/** When a channel is sent: never too early, and never left asleep past its time
    (src/cloudflare/ChannelStore.ts:98-103, 120-151, 194-209). */
module SettlementTimes {
  import opened Basics
  import opened Settlement
  import opened SettlementRuns

  /** When the watchdog of the last accepted send rings, counted as number `sends`. */
  function Rings(cfg: Config, w: World, sends: nat): Option<int>
    requires sends > 0
  {
    if w.lastSend.None? then None
    else Some(w.lastSend.value.at + Watchdog(cfg, sends, w.lastSend.value.closing))
  }

  /** The bookkeeping's times are those of what happened. */
  predicate TimesMatch(cfg: Config, w: World) {
    w.o.pending.Some? ==>
      && w.o.pending.value.updatedAt == w.lastWrite
      && (w.o.pending.value.sends > 0 ==> w.o.pending.value.watchdogAt == Rings(cfg, w, w.o.pending.value.sends))
  }

  /** The alarm is set by the time something is to be done, or backs off from a failed send. */
  predicate AlarmByTime(cfg: Config, w: World) {
    w.phase.Idle? && w.o.pending.Some? && w.o.pending.value.sends < cfg.maxAttempts ==>
      || BackingOff(cfg, w)
      || (w.o.alarm.Some? &&
          if w.o.pending.value.sends == 0 then w.o.alarm.value <= w.lastWrite + cfg.staleAfterMs
          else Rings(cfg, w, w.o.pending.value.sends).Some? && w.o.alarm.value <= Rings(cfg, w, w.o.pending.value.sends).value)
  }

  lemma StepKeepsTimes(cfg: Config, w: World, step: Step)
    requires cfg.Valid() && Invariant(cfg, w) && TimesMatch(cfg, w) && AlarmByTime(cfg, w) && Enabled(w, step)
    ensures TimesMatch(cfg, Apply(cfg, w, step)) && AlarmByTime(cfg, Apply(cfg, w, step))
  {
    hide SettleableAmount, Threshold, PendingCloseEnd, Watchdog;
    match step
    case Tick(_) =>
    case Write(_) =>
    case Fire =>
    case SendOk =>
    case SendFail =>
  }

  lemma {:induction false} RunKeepsTimes(cfg: Config, w: World, steps: seq<Step>)
    requires cfg.Valid() && Invariant(cfg, w) && TimesMatch(cfg, w) && AlarmByTime(cfg, w) && Runs(cfg, w, steps)
    ensures TimesMatch(cfg, Run(cfg, w, steps)) && AlarmByTime(cfg, Run(cfg, w, steps))
    decreases |steps|
  {
    hide Apply, Invariant, TimesMatch, AlarmByTime;
    if steps != [] {
      StepKeepsInvariant(cfg, w, steps[0]);
      StepKeepsTimes(cfg, w, steps[0]);
      RunKeepsTimes(cfg, Apply(cfg, w, steps[0]), steps[1..]);
    }
  }

  /** An alarm that fires sends a channel that was not sent since its count restarted exactly when the
      channel has had no write for `staleAfterMs`, has a threshold's worth unsettled or is closing; and
      one that was, exactly when its watchdog has rung or its last send failed, when a threshold's worth
      is uncaptured, and attempts remain, or when a close request is new. */
  lemma AlarmsSendExactlyInTime(cfg: Config, steps: seq<Step>)
    requires cfg.Valid() && Runs(cfg, Start, steps) && Enabled(Run(cfg, Start, steps), Fire)
    requires Run(cfg, Start, steps).o.pending.Some?
    ensures
      var w := Run(cfg, Start, steps);
      var sends := w.o.pending.value.sends;
      && w.o.channel.Some?
      && var c := w.o.channel.value;
         Apply(cfg, w, Fire).phase.Sending? <==>
           if sends == 0 then
             || w.now >= w.lastWrite + cfg.staleAfterMs
             || SettleableAmount(c) - c.settledOnChain >= Threshold(c, cfg)
             || Closing(c, w.now)
           else
             || NewCloseRequest(w.o.pending.value, c, w.now)
             || (sends < cfg.maxAttempts
                 && (|| Rings(cfg, w, sends).None?
                     || w.now >= Rings(cfg, w, sends).value
                     || Uncaptured(w.o.pending.value, c, cfg)))
  {
    var w := Run(cfg, Start, steps);
    RunKeepsInvariant(cfg, Start, steps);
    RunKeepsTimes(cfg, Start, steps);
    hide Run, Runs, SettleableAmount, Threshold, PendingCloseEnd, Watchdog;
    assert Invariant(cfg, w) && TimesMatch(cfg, w);
  }

  /** A send that fails, with no write meanwhile, is tried again `retryMs` after it failed, and no sooner. */
  lemma FailuresBackOff(cfg: Config, w: World, now: int)
    requires cfg.Valid() && Enabled(w, Fire) && Apply(cfg, w, Fire).phase.Sending? && now >= w.now
    ensures
      var failed := Apply(cfg, Apply(cfg, Apply(cfg, w, Fire), Tick(now)), SendFail);
      && failed.phase.Idle? && failed.o.alarm == Some(now + cfg.retryMs)
      && forall t | t >= now :: Enabled(Apply(cfg, failed, Tick(t)), Fire) <==> t >= now + cfg.retryMs
  {
    hide SettleableAmount, Threshold, PendingCloseEnd, Watchdog;
  }

  /** At rest, with attempts left, the alarm never sleeps past the time a stale channel is due, nor past
      the watchdog of a sent one, but to back off from a failed send. */
  lemma NeverOversleeps(cfg: Config, steps: seq<Step>)
    requires cfg.Valid() && Runs(cfg, Start, steps)
    ensures
      var w := Run(cfg, Start, steps);
      w.phase.Idle? && w.o.pending.Some? && w.o.pending.value.sends < cfg.maxAttempts ==>
        && w.o.alarm.Some?
        && (|| BackingOff(cfg, w)
            || (if w.o.pending.value.sends == 0 then w.o.alarm.value <= w.lastWrite + cfg.staleAfterMs
                else w.lastSend.Some? && w.o.alarm.value <=
                       w.lastSend.value.at + Watchdog(cfg, w.o.pending.value.sends, w.lastSend.value.closing)))
  {
    RunKeepsInvariant(cfg, Start, steps);
    RunKeepsTimes(cfg, Start, steps);
  }
}
