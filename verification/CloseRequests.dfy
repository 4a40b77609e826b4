/** A payer's close request that the last send did not cover goes at once
    (src/cloudflare/ChannelStore.ts:71-79, 95-103, 124-133, 199-209). */
module CloseRequests {
  import opened Basics
  import opened Settlement
  import opened SettlementRuns

  /** The payer requested a close, and no accepted send since the count restarted covers it. */
  predicate CloseUncovered(cfg: Config, w: World) {
    && w.o.pending.Some? && w.o.channel.Some?
    && Closing(w.o.channel.value, w.now)
    && (w.o.pending.value.sends > 0 ==> NewCloseRequest(w.o.pending.value, w.o.channel.value, w.now))
  }

  /** The alarm has come. */
  predicate Overdue(w: World) {
    w.o.alarm.Some? && w.o.alarm.value <= w.now
  }

  /** A send that starts does not cover the close request the last one covered, with nothing more
      settled on-chain since. */
  predicate Uncovers(p: Pending, read: Channel, now: int) {
    && p.sends > 0 && p.closeRequestAtSend.Some? && p.closeRequestAtSend.value != 0
    && CloseRequest(read, now) != p.closeRequestAtSend.value
    && !Progressed(p, read)
  }

  /** A step that lets a close request slip past the count: a send that no longer covers the one the last
      send covered; or, during such a send that more was settled for, a write that takes back what was
      settled on-chain. */
  predicate CloseExposed(cfg: Config, w: World, step: Step) {
    match step
    case Fire =>
      OnAlarm(w.o, cfg, w.now).Send? && Uncovers(OnAlarm(w.o, cfg, w.now).o.pending.value, w.o.channel.value, w.now)
    case Write(next) =>
      && w.phase.Sending? && next.Some? && w.o.channel.Some? && w.o.pending.Some? && w.o.pending.value.sends > 0
      && !Covers(w.o.pending.value, w.phase.read, w.now)
      && next.value.settledOnChain < w.o.channel.value.settledOnChain
    case _ => false
  }

  /** `read` has the close request the last send covered, if that covered one. */
  predicate Covers(p: Pending, read: Channel, now: int) {
    && p.closeRequestAtSend.Some?
    && (p.closeRequestAtSend.value == 0
        || (p.closeRequestAtSend.value == read.closeRequestedAt && !PendingClose(read, now)))
  }

  predicate NeverCloseExposed(cfg: Config, w: World, steps: seq<Step>)
    requires Runs(cfg, w, steps)
    decreases |steps|
  {
    steps == [] || (!CloseExposed(cfg, w, steps[0]) && NeverCloseExposed(cfg, Apply(cfg, w, steps[0]), steps[1..]))
  }

  predicate CloseInvariant(cfg: Config, w: World) {
    w.o.pending.Some? && w.o.channel.Some? ==>
      var p, c := w.o.pending.value, w.o.channel.value;
      match w.phase
      case Idle => CloseUncovered(cfg, w) ==> Overdue(w) || BackingOff(cfg, w)
      case Sending(read) =>
        && (p.sends > 0 ==> Covers(p, read, w.now) || (c == read && Progressed(p, read)))
        && (c == read || (CloseUncovered(cfg, w) ==> Overdue(w)))
  }

  lemma TickKeepsCloseInvariant(cfg: Config, w: World, time: int)
    requires cfg.Valid() && Invariant(cfg, w) && CloseInvariant(cfg, w) && Enabled(w, Tick(time))
    ensures CloseInvariant(cfg, Apply(cfg, w, Tick(time)))
  {
    hide SettleableAmount, Threshold;
  }

  lemma WriteKeepsCloseInvariant(cfg: Config, w: World, next: Option<Channel>)
    requires cfg.Valid() && Invariant(cfg, w) && CloseInvariant(cfg, w) && !CloseExposed(cfg, w, Write(next))
    ensures CloseInvariant(cfg, Apply(cfg, w, Write(next)))
  {
    hide SettleableAmount, Threshold;
  }

  lemma FireKeepsCloseInvariant(cfg: Config, w: World)
    requires cfg.Valid() && Invariant(cfg, w) && CloseInvariant(cfg, w) && Enabled(w, Fire) && !CloseExposed(cfg, w, Fire)
    ensures CloseInvariant(cfg, Apply(cfg, w, Fire))
  {
    hide SettleableAmount, Threshold;
  }

  lemma SendKeepsCloseInvariant(cfg: Config, w: World, step: Step)
    requires cfg.Valid() && Invariant(cfg, w) && CloseInvariant(cfg, w) && Enabled(w, step)
    requires step.SendOk? || step.SendFail?
    ensures CloseInvariant(cfg, Apply(cfg, w, step))
  {
    hide SettleableAmount, Threshold, Watchdog;
  }

  lemma {:induction false} RunKeepsCloseInvariant(cfg: Config, w: World, steps: seq<Step>)
    requires cfg.Valid() && Invariant(cfg, w) && CloseInvariant(cfg, w)
    requires Runs(cfg, w, steps) && NeverCloseExposed(cfg, w, steps)
    ensures CloseInvariant(cfg, Run(cfg, w, steps))
    decreases |steps|
  {
    hide Apply, CloseInvariant, CloseExposed, Invariant;
    if steps != [] {
      StepKeepsInvariant(cfg, w, steps[0]);
      match steps[0] {
        case Tick(time) => TickKeepsCloseInvariant(cfg, w, time);
        case Write(next) => WriteKeepsCloseInvariant(cfg, w, next);
        case Fire => FireKeepsCloseInvariant(cfg, w);
        case _ => SendKeepsCloseInvariant(cfg, w, steps[0]);
      }
      RunKeepsCloseInvariant(cfg, Apply(cfg, w, steps[0]), steps[1..]);
    }
  }

  /** While no step of a run is exposed, an uncovered close request never waits: at rest the alarm has
      come already, or backs off from a failed send. */
  lemma CloseRequestsNeverWait(cfg: Config, steps: seq<Step>)
    requires cfg.Valid() && Runs(cfg, Start, steps) && NeverCloseExposed(cfg, Start, steps)
    ensures
      var w := Run(cfg, Start, steps);
      w.phase.Idle? && CloseUncovered(cfg, w) ==> Overdue(w) || BackingOff(cfg, w)
  {
    RunKeepsInvariant(cfg, Start, steps);
    RunKeepsCloseInvariant(cfg, Start, steps);
  }

  // ---- The condition is exact -------------------------------------------------

  /** A send captures more than was settled when it started. */
  predicate CapturesMore(cfg: Config, w: World) {
    && (w.phase.Sending? ==> IsDue(Some(w.phase.read), cfg))
    && (w.o.pending.Some? && w.o.pending.value.sends > 0 ==>
          && w.o.pending.value.capturedAtSend.Some? && w.o.pending.value.settledAtSend.Some?
          && w.o.pending.value.capturedAtSend.value > w.o.pending.value.settledAtSend.value)
  }

  lemma StepKeepsCapturesMore(cfg: Config, w: World, step: Step)
    requires cfg.Valid() && Invariant(cfg, w) && CapturesMore(cfg, w) && Enabled(w, step)
    ensures CapturesMore(cfg, Apply(cfg, w, step))
  {
    hide SettleableAmount, Threshold, PendingCloseEnd, Watchdog;
  }

  lemma {:induction false} RunKeepsCapturesMore(cfg: Config, w: World, steps: seq<Step>)
    requires cfg.Valid() && Invariant(cfg, w) && CapturesMore(cfg, w) && Runs(cfg, w, steps)
    ensures CapturesMore(cfg, Run(cfg, w, steps))
    decreases |steps|
  {
    hide Apply, CapturesMore, Invariant;
    if steps != [] {
      StepKeepsInvariant(cfg, w, steps[0]);
      StepKeepsCapturesMore(cfg, w, steps[0]);
      RunKeepsCapturesMore(cfg, Apply(cfg, w, steps[0]), steps[1..]);
    }
  }

  /** A close request that came with `next`, during the send that just ended, and is left to the watchdog. */
  predicate LeftUncovered(cfg: Config, after: World) {
    after.phase.Idle? && CloseUncovered(cfg, after) && after.o.pending.value.sends > 0 && !Overdue(after)
  }

  /** `read` with the close request `at`, and one unit left to settle. */
  function Requested(read: Channel, at: int): Channel {
    var amount := read.settledOnChain + 1;
    read.(spent := amount, vouchers := [amount] + read.vouchers, closeRequestedAt := at, pendingCloseAt := None)
  }

  lemma RequestedAmount(cfg: Config, read: Channel, at: int)
    ensures SettleableAmount(Requested(read, at)) == read.settledOnChain + 1
    ensures Threshold(Requested(read, at), cfg) == Threshold(read, cfg)
    ensures !read.finalized ==> SettlementDue(Requested(read, at), cfg) != NotDue
  {
    var next := Requested(read, at);
    assert next.vouchers[0] == read.settledOnChain + 1 && Capturable(next, read.settledOnChain + 1);
  }

  lemma UncoveringSendLeavesWaiting(cfg: Config, w: World)
    requires cfg.Valid() && cfg.watchdogMs > 0 && Invariant(cfg, w) && CapturesMore(cfg, w)
    requires Enabled(w, Fire) && OnAlarm(w.o, cfg, w.now).Send?
    requires Uncovers(OnAlarm(w.o, cfg, w.now).o.pending.value, w.o.channel.value, w.now)
    ensures
      var p := OnAlarm(w.o, cfg, w.now).o.pending.value;
      LeftUncovered(cfg, WriteDuringSend(cfg, Apply(cfg, w, Fire), Requested(w.o.channel.value, p.closeRequestAtSend.value)))
  {
    var read := w.o.channel.value;
    var p := OnAlarm(w.o, cfg, w.now).o.pending.value;
    RequestedAmount(cfg, read, p.closeRequestAtSend.value);
    if PendingCloseEnd(read, w.now).Some? { PendingCloseEndIsExact(read, w.now, w.now); }
    StepKeepsInvariant(cfg, w, Fire);
    StepKeepsCapturesMore(cfg, w, Fire);
    hide SettleableAmount, Threshold, SettlementDue;
  }

  lemma OtherSendsCover(cfg: Config, w: World, next: Channel)
    requires cfg.Valid() && Invariant(cfg, w)
    requires Enabled(w, Fire) && OnAlarm(w.o, cfg, w.now).Send?
    requires next.settledOnChain >= w.o.channel.value.settledOnChain
    requires cfg.watchdogMs == 0 || !Uncovers(OnAlarm(w.o, cfg, w.now).o.pending.value, w.o.channel.value, w.now)
    ensures !LeftUncovered(cfg, WriteDuringSend(cfg, Apply(cfg, w, Fire), next))
  {
    hide SettleableAmount, Threshold;
  }

  /** The condition is exact: when a send starts in a run, some write during it that takes back nothing
      settled on-chain can leave its close request waiting if and only if the send uncovers one and the
      watchdog does not ring at once. */
  lemma WaitsIffTheSendUncovers(cfg: Config, steps: seq<Step>)
    requires cfg.Valid() && Runs(cfg, Start, steps)
    requires
      var w := Run(cfg, Start, steps);
      Enabled(w, Fire) && OnAlarm(w.o, cfg, w.now).Send?
    ensures
      var w := Run(cfg, Start, steps);
      && w.o.channel.Some?
      && ((exists next: Channel :: next.settledOnChain >= w.o.channel.value.settledOnChain
                                   && LeftUncovered(cfg, WriteDuringSend(cfg, Apply(cfg, w, Fire), next)))
          <==> Uncovers(OnAlarm(w.o, cfg, w.now).o.pending.value, w.o.channel.value, w.now) && cfg.watchdogMs > 0)
  {
    var w := Run(cfg, Start, steps);
    RunKeepsInvariant(cfg, Start, steps);
    RunKeepsCapturesMore(cfg, Start, steps);
    var p := OnAlarm(w.o, cfg, w.now).o.pending.value;
    var read := w.o.channel.value;
    var sending := Apply(cfg, w, Fire);
    assert sending.phase.Sending?;
    if Uncovers(p, read, w.now) && cfg.watchdogMs > 0 {
      UncoveringSendLeavesWaiting(cfg, w);
      var next := Requested(read, p.closeRequestAtSend.value);
      assert next.settledOnChain == read.settledOnChain && LeftUncovered(cfg, WriteDuringSend(cfg, sending, next));
    } else {
      forall next: Channel | next.settledOnChain >= read.settledOnChain
        ensures !LeftUncovered(cfg, WriteDuringSend(cfg, sending, next))
      {
        OtherSendsCover(cfg, w, next);
      }
    }
  }

  // ---- A run that leaves one waiting -------------------------------------------

  /** 5 000 to settle, with the payer's close request. */
  const Closing5000 := Example(5_000, 5_000).(closeRequestedAt := 1)

  lemma ClosingAmount()
    ensures SettleableAmount(Closing5000) == 5_000 && SettleableAmount(Example(5_000, 5_000)) == 5_000
  {
    ExampleAmount(5_000, 5_000);
    assert forall v :: Capturable(Closing5000, v) <==> Capturable(Example(5_000, 5_000), v);
  }

  const CloseIsSent :=
    World(0, Stored(Some(Closing5000), Some(Pending(1, Some(0), Some(5_000), Some(1), 0, Some(120_000))), Some(120_000)),
          Idle, 1, false, None, 0, Some(Accepted(0, true)))

  const OpenIsRead :=
    World(120_000,
          Stored(Some(Example(5_000, 5_000)), Some(Pending(1, Some(0), Some(5_000), Some(1), 0, Some(120_000))), None),
          Sending(Example(5_000, 5_000)), 1, false, None, 0, Some(Accepted(0, true)))

  const CloseIsBack :=
    World(120_000,
          Stored(Some(Closing5000), Some(Pending(1, Some(0), Some(5_000), Some(1), 120_000, Some(120_000))), None),
          Sending(Example(5_000, 5_000)), 1, false, None, 120_000, Some(Accepted(0, true)))

  const CloseWaits :=
    World(120_000,
          Stored(Some(Closing5000), Some(Pending(2, Some(0), Some(5_000), Some(0), 120_000, Some(720_000))), Some(720_000)),
          Idle, 2, false, None, 120_000, Some(Accepted(120_000, false)))

  lemma TheCloseIsSent()
    ensures
      var steps := [Write(Some(Closing5000)), Fire, SendOk];
      Runs(Defaults, Start, steps) && Run(Defaults, Start, steps) == CloseIsSent
  {
    ClosingAmount();
    assert Power2(0) == 1;
    var w1 := Apply(Defaults, Start, Write(Some(Closing5000)));
    var w2 := Apply(Defaults, w1, Fire);
    assert Apply(Defaults, w2, SendOk) == CloseIsSent;
    hide Apply;
    RunsThree(Defaults, Start, Write(Some(Closing5000)), Fire, SendOk);
  }

  lemma TheOpenChannelIsRead()
    ensures
      var steps := [Write(Some(Example(5_000, 5_000))), Tick(120_000), Fire];
      Runs(Defaults, CloseIsSent, steps) && Run(Defaults, CloseIsSent, steps) == OpenIsRead
  {
    ClosingAmount();
    var w1 := Apply(Defaults, CloseIsSent, Write(Some(Example(5_000, 5_000))));
    var w2 := Apply(Defaults, w1, Tick(120_000));
    assert Apply(Defaults, w2, Fire) == OpenIsRead;
    hide Apply;
    RunsThree(Defaults, CloseIsSent, Write(Some(Example(5_000, 5_000))), Tick(120_000), Fire);
  }

  lemma TheCloseComesBack()
    ensures
      var steps := [Write(Some(Closing5000)), SendOk];
      Runs(Defaults, OpenIsRead, steps) && Run(Defaults, OpenIsRead, steps) == CloseWaits
  {
    ClosingAmount();
    assert Power2(1) == 2;
    assert Apply(Defaults, OpenIsRead, Write(Some(Closing5000))) == CloseIsBack;
    assert Apply(Defaults, CloseIsBack, SendOk) == CloseWaits;
    hide Apply;
    RunsOne(Defaults, OpenIsRead, Write(Some(Closing5000)));
    RunsOne(Defaults, CloseIsBack, SendOk);
    RunsJoin(Defaults, OpenIsRead, [Write(Some(Closing5000))], [SendOk]);
    assert [Write(Some(Closing5000))] + [SendOk] == [Write(Some(Closing5000)), SendOk];
  }

  /** A close request that waits: it is sent, withdrawn, and made again with the same timestamp while the
      watchdog's send of the open channel awaits the queue. It waits ten minutes, as an open channel. */
  lemma CloseRequestsCanWait()
    ensures exists steps :: Runs(Defaults, Start, steps) && LeftUncovered(Defaults, Run(Defaults, Start, steps))
                            && Run(Defaults, Start, steps).o.alarm == Some(Run(Defaults, Start, steps).now + 600_000)
  {
    assert LeftUncovered(Defaults, CloseWaits);
    hide Apply, Run, Runs, LeftUncovered, Example;
    TheCloseIsSent();
    TheOpenChannelIsRead();
    TheCloseComesBack();
    var steps := JoinThree(Defaults, Start,
                           [Write(Some(Closing5000)), Fire, SendOk],
                           [Write(Some(Example(5_000, 5_000))), Tick(120_000), Fire],
                           [Write(Some(Closing5000)), SendOk]);
  }
}
