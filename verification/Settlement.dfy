/** The settlement scheduler of a channel's Durable Object (src/cloudflare/ChannelStore.ts).

    Times are whole Unix milliseconds and amounts are unbounded integers, as bigints are.
    An object holds one channel, since every key has its own object, so the bookkeeping's
    `key` and `channelId` are left implicit. */
module Settlement {
  import opened Basics

  /** Seconds a server close stays valid after its marker is written. */
  const PENDING_CLOSE_VALIDITY_SECONDS := 25

  /** Extra seconds for clock differences between the server and the chain. */
  const PENDING_CLOSE_CLOCK_SKEW_SECONDS := 30

  /** Longest wait before a closing channel is sent again. */
  const CLOSING_WATCHDOG_MS := 120_000

  /** The parts of a stored channel state that settlement reads. */
  datatype Channel = Channel(
    finalized: bool,
    deposit: int,
    settledOnChain: int,
    spent: int,
    vouchers: seq<int>,          // cumulative amounts: the retained vouchers, then the highest
    closeRequestedAt: int,       // Unix seconds, 0 without a request
    pendingCloseAt: Option<int>) // the server's own close marker

  datatype Config = Config(
    minUnsettledAmount: int,
    staleAfterMs: nat,
    watchdogMs: nat,
    maxAttempts: nat,
    retryMs: nat)
  {
    predicate Valid() { maxAttempts > 0 }
  }

  datatype Due = NotDue | Stale | AtOnce

  // ---- What a channel needs -------------------------------------------------

  predicate Capturable(c: Channel, amount: int) {
    c.settledOnChain < amount <= c.spent
  }

  /** The cumulative amount a settlement brings the channel to. */
  function SettleableAmount(c: Channel): (amount: int)
    ensures amount == c.settledOnChain || (amount in c.vouchers && Capturable(c, amount))
    ensures forall v :: v in c.vouchers && Capturable(c, v) ==> v <= amount
  {
    BestVoucher(c, c.vouchers)
  }

  function BestVoucher(c: Channel, vouchers: seq<int>): (amount: int)
    ensures amount == c.settledOnChain || (amount in vouchers && Capturable(c, amount))
    ensures forall v :: v in vouchers && Capturable(c, v) ==> v <= amount
  {
    if vouchers == [] then c.settledOnChain
    else
      var last := vouchers[|vouchers| - 1];
      var best := BestVoucher(c, vouchers[..|vouchers| - 1]);
      assert vouchers == vouchers[..|vouchers| - 1] + [last];
      if Capturable(c, last) && last > best then last else best
  }

  function UnsettledAmount(c: Channel): int {
    SettleableAmount(c) - c.settledOnChain
  }

  /** bigint division truncates toward zero. */
  function Tenth(deposit: int): (tenth: int)
    ensures deposit >= 0 ==> 10 * tenth <= deposit < 10 * tenth + 10
    ensures deposit < 0 ==> 10 * tenth - 10 < deposit <= 10 * tenth
  {
    if deposit >= 0 then deposit / 10 else -(-deposit / 10)
  }

  function Threshold(c: Channel, cfg: Config): (amount: int)
    ensures amount >= 1 && amount >= cfg.minUnsettledAmount && amount >= Tenth(c.deposit)
    ensures amount in {1, cfg.minUnsettledAmount, Tenth(c.deposit)}
  {
    Max(1, Max(Tenth(c.deposit), cfg.minUnsettledAmount))
  }

  function SettlementDue(c: Channel, cfg: Config): Due {
    if c.finalized then NotDue
    else if UnsettledAmount(c) <= 0 then NotDue
    else if UnsettledAmount(c) >= Threshold(c, cfg) then AtOnce
    else Stale
  }

  /** When a channel is due: never once finalized or without a voucher to capture, at once when the best
      one captures a threshold's worth. */
  lemma DueByVouchers(c: Channel, cfg: Config)
    ensures SettlementDue(c, cfg) == NotDue <==> c.finalized || !exists v :: v in c.vouchers && c.settledOnChain < v <= c.spent
    ensures SettlementDue(c, cfg) == AtOnce <==>
              !c.finalized && exists v :: v in c.vouchers && v <= c.spent && v - c.settledOnChain >= Threshold(c, cfg)
  {
    var best := SettleableAmount(c);
    assert best != c.settledOnChain ==> Capturable(c, best);
    if v :| v in c.vouchers && c.settledOnChain < v <= c.spent {
      assert Capturable(c, v);
    }
    if v :| v in c.vouchers && v <= c.spent && v - c.settledOnChain >= Threshold(c, cfg) {
      assert Capturable(c, v);
    }
  }

  // ---- Close requests -------------------------------------------------------

  /** Whether the server's own close marker stands in `closeRequestedAt`. */
  predicate MarkerStands(c: Channel) {
    c.pendingCloseAt.Some? && !c.finalized && c.closeRequestedAt != 0 && c.closeRequestedAt == c.pendingCloseAt.value
  }

  predicate PendingClose(c: Channel, now: int) {
    && MarkerStands(c)
    && now / 1000 <= c.closeRequestedAt + PENDING_CLOSE_VALIDITY_SECONDS + PENDING_CLOSE_CLOCK_SKEW_SECONDS
  }

  function PendingCloseEnd(c: Channel, now: int): Option<int> {
    if !PendingClose(c, now) then None
    else Some((c.closeRequestedAt + PENDING_CLOSE_VALIDITY_SECONDS + PENDING_CLOSE_CLOCK_SKEW_SECONDS + 1) * 1000)
  }

  function CloseRequest(c: Channel, now: int): int {
    if PendingClose(c, now) then 0 else c.closeRequestedAt
  }

  predicate Closing(c: Channel, now: int) {
    CloseRequest(c, now) != 0
  }

  /** The server's own marker counts as pending for 55 seconds after the second it stands for, and hides
      itself, and nothing else, from being a close request meanwhile. */
  lemma MarkersCountFor55Seconds(c: Channel, now: int)
    ensures PendingClose(c, now) <==>
              && !c.finalized && c.closeRequestedAt != 0 && c.pendingCloseAt == Some(c.closeRequestedAt)
              && now < (c.closeRequestedAt + 56) * 1000
    ensures Closing(c, now) <==> c.closeRequestedAt != 0 && !PendingClose(c, now)
    ensures Closing(c, now) ==> CloseRequest(c, now) == c.closeRequestedAt
  {
  }

  /** `PendingCloseEnd` is exactly the first millisecond at which the marker stops counting. */
  lemma PendingCloseEndIsExact(c: Channel, now: int, t: int)
    requires PendingCloseEnd(c, now).Some?
    ensures PendingClose(c, t) <==> t < PendingCloseEnd(c, now).value
    ensures now < PendingCloseEnd(c, now).value
  {
  }

  // ---- The stored bookkeeping and the alarm ----------------------------------

  datatype Pending = Pending(
    sends: nat,
    settledAtSend: Option<int>,
    capturedAtSend: Option<int>,
    closeRequestAtSend: Option<int>,
    updatedAt: int,
    watchdogAt: Option<int>)

  /** What the object stores: the channel (`None` for anything that is not one), the bookkeeping and the alarm. */
  datatype Stored = Stored(channel: Option<Channel>, pending: Option<Pending>, alarm: Option<int>)

  /** The earlier of two times; `None` is a time that never comes. */
  function Earlier(a: Option<int>, b: Option<int>): (r: Option<int>)
    ensures r.Some? <==> a.Some? || b.Some?
    ensures r == a || r == b
    ensures a.Some? ==> r.value <= a.value
    ensures b.Some? ==> r.value <= b.value
  {
    if a.None? then b else if b.None? || a.value <= b.value then a else b
  }

  predicate IsDue(channel: Option<Channel>, cfg: Config) {
    channel.Some? && SettlementDue(channel.value, cfg) != NotDue
  }

  /** Whether a job settled more on-chain since it was sent. */
  predicate Progressed(p: Pending, next: Channel) {
    p.settledAtSend.Some? && next.settledOnChain > p.settledAtSend.value
  }

  /** Whether the payer requested a close that the last send did not cover. */
  predicate NewCloseRequest(p: Pending, c: Channel, now: int) {
    Closing(c, now) && Some(CloseRequest(c, now)) != p.closeRequestAtSend
  }

  /** Whether a threshold's worth of vouchers arrived that the last send did not capture. */
  predicate Uncaptured(p: Pending, c: Channel, cfg: Config) {
    p.capturedAtSend.Some? && SettleableAmount(c) - p.capturedAtSend.value >= Threshold(c, cfg)
  }

  predicate Renewed(p: Pending, c: Channel, cfg: Config, now: int) {
    p.sends != 0 && (NewCloseRequest(p, c, now) || Uncaptured(p, c, cfg))
  }

  /** `onWrite`: the bookkeeping and alarm after a write of `next`. */
  function OnWrite(o: Stored, next: Option<Channel>, cfg: Config, now: int): Stored {
    if !IsDue(next, cfg) then Stored(next, None, o.alarm)
    else
      var c := next.value;
      if o.pending.Some? && o.pending.value.sends != 0 && !Progressed(o.pending.value, c) && !Renewed(o.pending.value, c, cfg, now) then
        Stored(next, Some(o.pending.value.(updatedAt := now)), Earlier(o.alarm, PendingCloseEnd(c, now)))
      else
        var at := if SettlementDue(c, cfg) == AtOnce || Closing(c, now) then Some(now)
                  else Earlier(Some(now + cfg.staleAfterMs), PendingCloseEnd(c, now));
        Stored(next, Some(Pending(0, None, None, None, now, None)), Earlier(o.alarm, at))
  }

  /** What an alarm handler does before it awaits the queue. */
  datatype Fired = Slept(o: Stored) | GaveUp(o: Stored) | Send(o: Stored)

  /** `alarm` up to the queue send. Firing consumed the alarm. */
  function OnAlarm(o: Stored, cfg: Config, now: int): Fired {
    if o.pending.None? then Slept(o.(alarm := None))
    else if !IsDue(o.channel, cfg) then Slept(o.(pending := None, alarm := None))
    else
      var c, p := o.channel.value, o.pending.value;
      var end := PendingCloseEnd(c, now);
      if p.sends == 0 && SettlementDue(c, cfg) == Stale && !Closing(c, now) && now < p.updatedAt + cfg.staleAfterMs then
        Slept(o.(alarm := Earlier(Some(p.updatedAt + cfg.staleAfterMs), end)))
      else
        var p' := if p.sends != 0 && NewCloseRequest(p, c, now) then p.(sends := 0) else p;
        if p'.sends != 0 && !Uncaptured(p', c, cfg) && p'.watchdogAt.Some? && now < p'.watchdogAt.value then
          Slept(o.(pending := Some(p'), alarm := Earlier(p'.watchdogAt, end)))
        else if p'.sends + 1 > cfg.maxAttempts then
          if end.Some? then GaveUp(o.(pending := Some(p'), alarm := end))
          else GaveUp(o.(pending := None, alarm := None))
        else Send(o.(pending := Some(p'), alarm := None))
  }

  function Power2(n: nat): (p: nat)
    ensures p >= 1
  {
    if n == 0 then 1 else 2 * Power2(n - 1)
  }

  /** The delay until a send counted as number `counted` is repeated. */
  function Watchdog(cfg: Config, counted: nat, closing: bool): (delay: int)
    requires counted > 0
    ensures 0 <= delay && (closing ==> delay <= CLOSING_WATCHDOG_MS)
    ensures cfg.watchdogMs > 0 ==> delay > 0
  {
    var delay := cfg.watchdogMs * Power2(counted - 1);
    if closing then Min(delay, CLOSING_WATCHDOG_MS) else delay
  }

  /** Each repetition of an open channel waits twice as long as the one before; a closing one as long, up to two minutes. */
  lemma WatchdogDoubles(cfg: Config, counted: nat)
    requires counted > 0
    ensures Watchdog(cfg, 1, false) == cfg.watchdogMs
    ensures Watchdog(cfg, counted + 1, false) == 2 * Watchdog(cfg, counted, false)
    ensures Watchdog(cfg, counted, true) == Min(Watchdog(cfg, counted, false), CLOSING_WATCHDOG_MS)
  {
    assert cfg.watchdogMs * (2 * Power2(counted - 1)) == 2 * (cfg.watchdogMs * Power2(counted - 1));
  }

  /** The end of a send of `sent` that the queue accepted. */
  function OnSent(o: Stored, sent: Channel, cfg: Config, now: int): Stored {
    if o.pending.None? then o
    else
      var counted := o.pending.value.sends + 1;
      var watchdogAt := now + Watchdog(cfg, counted, Closing(sent, now));
      var p := o.pending.value.(
               sends := counted,
               settledAtSend := Some(sent.settledOnChain),
               capturedAtSend := Some(SettleableAmount(sent)),
               closeRequestAtSend := Some(CloseRequest(sent, now)),
               watchdogAt := Some(watchdogAt));
      o.(pending := Some(p), alarm := Earlier(o.alarm, Earlier(Some(watchdogAt), PendingCloseEnd(sent, now))))
  }

  /** The end of a send that failed. */
  function OnSendFailed(o: Stored, cfg: Config, now: int): Stored {
    var pending := if o.pending.Some? then Some(o.pending.value.(watchdogAt := None)) else None;
    o.(pending := pending, alarm := Earlier(o.alarm, Some(now + cfg.retryMs)))
  }

  // ---- The Durable Object ----------------------------------------------------

  class ChannelObject {
    const cfg: Config
    var channel: Option<Channel>
    var pending: Option<Pending>
    var alarm: Option<int>

    constructor (cfg: Config)
      ensures this.cfg == cfg && View() == Stored(None, None, None)
    {
      this.cfg := cfg;
      channel, pending, alarm := None, None, None;
    }

    ghost function View(): Stored
      reads this
    {
      Stored(channel, pending, alarm)
    }

    /** The alarm only ever moves closer. */
    method WakeBy(at: Option<int>)
      modifies this`alarm
      ensures alarm == Earlier(old(alarm), at)
    {
      if at.None? { return; }
      if alarm.None? || at.value < alarm.value {
        alarm := at;
      }
    }

    /** Stores a channel and schedules its settlement, in one transaction. */
    method Write(next: Option<Channel>, now: int)
      modifies this
      ensures View() == OnWrite(old(View()), next, cfg, now)
    {
      channel := next;
      if !IsDue(next, cfg) {
        pending := None;
        return;
      }
      var c := next.value;
      var progressed := pending.Some? && Progressed(pending.value, c);
      var renewed := pending.Some? && Renewed(pending.value, c, cfg, now);
      if !progressed && !renewed && pending.Some? && pending.value.sends != 0 {
        pending := Some(pending.value.(updatedAt := now));
        WakeBy(PendingCloseEnd(c, now));
        return;
      }
      pending := Some(Pending(0, None, None, None, now, None));
      if SettlementDue(c, cfg) == AtOnce || Closing(c, now) {
        WakeBy(Some(now));
      } else {
        WakeBy(Earlier(Some(now + cfg.staleAfterMs), PendingCloseEnd(c, now)));
      }
    }

    /** Runs the alarm handler until it awaits the queue or returns. */
    method Alarm(now: int) returns (sending: Option<Channel>)
      modifies this
      ensures View() == OnAlarm(old(View()), cfg, now).o
      ensures sending == if OnAlarm(old(View()), cfg, now).Send? then old(channel) else None
    {
      alarm := None;
      sending := None;
      if pending.None? { return; }
      if !IsDue(channel, cfg) {
        pending := None;
        return;
      }
      var c, p := channel.value, pending.value;
      var staleAt := p.updatedAt + cfg.staleAfterMs;
      if p.sends == 0 && SettlementDue(c, cfg) == Stale && !Closing(c, now) && now < staleAt {
        alarm := Earlier(Some(staleAt), PendingCloseEnd(c, now));
        return;
      }
      if p.sends != 0 && NewCloseRequest(p, c, now) {
        p := p.(sends := 0);
        pending := Some(p);
      }
      if p.sends != 0 && !Uncaptured(p, c, cfg) && p.watchdogAt.Some? && now < p.watchdogAt.value {
        alarm := Earlier(p.watchdogAt, PendingCloseEnd(c, now));
        return;
      }
      if p.sends + 1 > cfg.maxAttempts {
        if PendingCloseEnd(c, now).Some? {
          WakeBy(PendingCloseEnd(c, now));
        } else {
          pending := None;
        }
        return;
      }
      sending := channel;
    }

    /** Resumes the handler after the queue accepted the send of `sent`. */
    method Sent(sent: Channel, now: int)
      modifies this
      ensures View() == OnSent(old(View()), sent, cfg, now)
    {
      if pending.None? { return; }
      var current := pending.value;
      var counted := current.sends + 1;
      var watchdogAt := now + Watchdog(cfg, counted, Closing(sent, now));
      pending := Some(current.(
        capturedAtSend := Some(SettleableAmount(sent)),
        closeRequestAtSend := Some(CloseRequest(sent, now)),
        sends := counted,
        settledAtSend := Some(sent.settledOnChain),
        watchdogAt := Some(watchdogAt)));
      WakeBy(Earlier(Some(watchdogAt), PendingCloseEnd(sent, now)));
    }

    /** Resumes the handler after the queue refused the send. */
    method SendFailed(now: int)
      modifies this
      ensures View() == OnSendFailed(old(View()), cfg, now)
    {
      if pending.Some? && pending.value.watchdogAt.Some? {
        pending := Some(pending.value.(watchdogAt := None));
      }
      WakeBy(Some(now + cfg.retryMs));
    }
  }
}
