/** Many clients updating one namespace at once (src/Store.ts:154-183, 655-676, 943-993, 1221-1286).

    Each request to the backing store is one atomic step; between two requests of a client any
    number of steps of others may land. The log keeps the writes in the order they landed. */
module AtomicStore {
  import opened Basics
  import opened Text
  import opened StoredValues

  /** What holds the values. A lost `swap` of a Durable Object hands back the value it found; a
      SQL one does not, and deleting what was read as absent sends it no statement. */
  datatype Backend = DurableObject | Sql
  {
    predicate MayClaim(codec: Codec, stored: Option<Raw>, now: int) {
      if Sql? then RowClaimable(codec, stored, now) else Claimable(codec, stored, now)
    }
  }

  datatype Write = Write(key: Text, value: Option<Raw>, author: Option<nat>)

  /** The contents after the first `n` writes, from an empty store. */
  function Replay(log: seq<Write>, n: nat): Contents
    requires n <= |log|
  {
    if n == 0 then map[]
    else Store(Replay(log, n - 1), log[n - 1].key, log[n - 1].value)
  }

  function At(log: seq<Write>, n: nat, key: Text): Option<Raw>
    requires n <= |log|
  {
    Look(Replay(log, n), key)
  }

  /** How many of the writes from `from` to `to` went to `key`. */
  function WritesTo(log: seq<Write>, key: Text, from: nat, to: nat): (n: nat)
    requires from <= to <= |log|
    ensures n <= to - from
  {
    if from == to then 0
    else WritesTo(log, key, from, to - 1) + (if log[to - 1].key == key then 1 else 0)
  }

  lemma {:induction false} ReplayPrefix(log: seq<Write>, longer: seq<Write>, n: nat)
    requires n <= |log| && log <= longer
    ensures Replay(longer, n) == Replay(log, n)
  {
    if n > 0 { ReplayPrefix(log, longer, n - 1); }
  }

  lemma ReplayStep(log: seq<Write>, w: Write)
    ensures Replay(log + [w], |log| + 1) == Store(Replay(log, |log|), w.key, w.value)
  {
    ReplayPrefix(log, log + [w], |log|);
    hide Store;
  }

  lemma {:induction false} WritesToPrefix(log: seq<Write>, longer: seq<Write>, key: Text, from: nat, to: nat)
    requires from <= to <= |log| && log <= longer
    ensures WritesTo(longer, key, from, to) == WritesTo(log, key, from, to)
  {
    if from < to { WritesToPrefix(log, longer, key, from, to - 1); }
  }

  lemma {:induction false} WritesToSplit(log: seq<Write>, key: Text, from: nat, mid: nat, to: nat)
    requires from <= mid <= to <= |log|
    ensures WritesTo(log, key, from, to) == WritesTo(log, key, from, mid) + WritesTo(log, key, mid, to)
  {
    if mid < to { WritesToSplit(log, key, from, mid, to - 1); }
  }

  /** A key that changed was written. */
  lemma {:induction false} ChangedMeansWritten(log: seq<Write>, key: Text, from: nat, to: nat)
    requires from <= to <= |log|
    ensures At(log, from, key) != At(log, to, key) ==> WritesTo(log, key, from, to) > 0
  {
    if from < to { ChangedMeansWritten(log, key, from, to - 1); }
  }

  // ---- Calls ----------------------------------------------------------------

  /** A call of `update`. `fn` may read the clock, as the claim fallback's does. */
  datatype Call = Call(key: Text, fn: (Option<Value>, int) -> Change, maxAttempts: nat)

  datatype Phase =
    | Reading(attempt: nat)
    | Running(attempt: nat, raw: Option<Raw>, seen: nat)
    | Swapping(attempt: nat, raw: Option<Raw>, seen: nat, moment: int)
    | Returned(result: Answer, at: nat, moment: int, wrote: bool, returned: nat)
    | GaveUp

  datatype Client = Client(call: Call, invoked: nat, phase: Phase)

  ghost predicate NoWriteBy(log: seq<Write>, id: nat) {
    forall k | 0 <= k < |log| :: log[k].author != Some(id)
  }

  /** The call took effect at one place of the log between its start and its return: on the
      value stored there, `fn` answered what the call returned, and the call's only write, if
      `fn` changed anything, is the very next one. */
  ghost predicate Linearized(codec: Codec, log: seq<Write>, id: nat, call: Call, invoked: nat, done: Phase)
    requires done.Returned?
  {
    && invoked <= done.at <= done.returned <= |log|
    && var before := At(log, done.at, call.key);
       var change := call.fn(codec.Read(before), done.moment);
       var after := Applied(codec, change, before);
       && done.result == change.result
       && if done.wrote then
            && !change.Noop?
            && done.at < done.returned
            && log[done.at] == Write(call.key, after, Some(id))
            && (forall k | 0 <= k < |log| && k != done.at :: log[k].author != Some(id))
          else
            && after == before
            && NoWriteBy(log, id)
  }

  /** What the call's change means for whoever reads next: right after its place in the log, a deleted
      key is absent, a set key reads as the value set, and without a change the key is as it was and
      the call wrote nothing. No other key is touched. */
  ghost predicate Leaves(codec: Codec, log: seq<Write>, id: nat, call: Call, done: Phase)
    requires done.Returned? && done.at + (if done.wrote then 1 else 0) <= |log|
  {
    var before := At(log, done.at, call.key);
    var after := At(log, done.at + (if done.wrote then 1 else 0), call.key);
    && (match call.fn(codec.Read(before), done.moment)
        case Noop(_) => after == before && NoWriteBy(log, id)
        case Set(value, _) => codec.ReadsBack() ==> codec.Read(after) == value
        case Delete(_) => after == None)
    && forall key | key != call.key ::
         At(log, done.at + (if done.wrote then 1 else 0), key) == At(log, done.at, key)
  }

  lemma LinearizedLeaves(codec: Codec, log: seq<Write>, id: nat, call: Call, invoked: nat, done: Phase)
    requires done.Returned? && Linearized(codec, log, id, call, invoked, done)
    ensures Leaves(codec, log, id, call, done)
  {
    if done.wrote {
      assert Replay(log, done.at + 1) == Store(Replay(log, done.at), log[done.at].key, log[done.at].value);
    }
  }

  /** The call left no trace, and every one of its attempts lost to another client's write. */
  ghost predicate Ineffective(log: seq<Write>, id: nat, call: Call, invoked: nat) {
    && NoWriteBy(log, id)
    && invoked <= |log|
    && WritesTo(log, call.key, invoked, |log|) >= call.maxAttempts
  }

  ghost predicate Consistent(codec: Codec, log: seq<Write>, id: nat, c: Client) {
    c.invoked <= |log| &&
    match c.phase
    case Reading(attempt) =>
      && NoWriteBy(log, id)
      && attempt <= c.call.maxAttempts
      && WritesTo(log, c.call.key, c.invoked, |log|) >= attempt
    case Running(attempt, raw, seen) =>
      && NoWriteBy(log, id)
      && attempt <= c.call.maxAttempts
      && c.invoked <= seen <= |log|
      && raw == At(log, seen, c.call.key)
      && WritesTo(log, c.call.key, c.invoked, seen) >= attempt
    case Swapping(attempt, raw, seen, moment) =>
      && NoWriteBy(log, id)
      && attempt < c.call.maxAttempts
      && c.invoked <= seen <= |log|
      && raw == At(log, seen, c.call.key)
      && WritesTo(log, c.call.key, c.invoked, seen) >= attempt
      && !c.call.fn(codec.Read(raw), moment).Noop?
    case Returned(_, _, _, _, _) =>
      Linearized(codec, log, id, c.call, c.invoked, c.phase)
    case GaveUp =>
      Ineffective(log, id, c.call, c.invoked)
  }

  // ---- Steps ----------------------------------------------------------------

  /** What a store answers in one step. A claim carries the clock reading its guard took and the one
      it judges the stored marker by. */
  datatype Request =
    | Get(key: Text)
    | Put(key: Text, value: Option<Value>)
    | Erase(key: Text)
    | Claim(key: Text, expires: Expiry, checked: int, decided: int)

  datatype Reply = Found(value: Option<Value>) | Done | Claimed(yes: bool)

  /** An answered request, with its place in the log. */
  datatype Plain = Plain(request: Request, at: nat, wrote: bool, reply: Reply)

  datatype World = World(store: Contents, log: seq<Write>, clients: map<nat, Client>, plain: seq<Plain>)

  datatype Step =
    | Invoke(id: nat, call: Call)
    | Read(id: nat)
    | Run(id: nat, moment: int)
    | Swap(id: nat)
    | Serve(request: Request)

  predicate Enabled(w: World, step: Step) {
    match step
    case Invoke(id, _) => id !in w.clients
    case Read(id) => id in w.clients && w.clients[id].phase.Reading?
    case Run(id, _) => id in w.clients && w.clients[id].phase.Running?
    case Swap(id) => id in w.clients && w.clients[id].phase.Swapping?
    case Serve(_) => true
  }

  function Landed(w: World, write: Write): World {
    w.(store := Store(w.store, write.key, write.value), log := w.log + [write])
  }

  function Moved(w: World, id: nat, phase: Phase): World
    requires id in w.clients
  {
    w.(clients := w.clients[id := w.clients[id].(phase := phase)])
  }

  /** `fn` on the value in hand: a change to nothing returns at once. */
  function AfterRun(codec: Codec, w: World, c: Client, moment: int): Phase
    requires c.phase.Running?
  {
    var p := c.phase;
    var change := c.call.fn(codec.Read(p.raw), moment);
    if p.attempt >= c.call.maxAttempts then GaveUp
    else if change.Noop? then Returned(change.result, p.seen, moment, false, |w.log|)
    else Swapping(p.attempt, p.raw, p.seen, moment)
  }

  /** What a swap that found another value leads to. */
  function AfterConflict(backend: Backend, w: World, c: Client): Phase
    requires c.phase.Swapping?
  {
    var p := c.phase;
    if p.attempt + 1 == c.call.maxAttempts then GaveUp
    else if backend.DurableObject? then Running(p.attempt + 1, Look(w.store, c.call.key), |w.log|)
    else Reading(p.attempt + 1)
  }

  function AfterSwap(codec: Codec, backend: Backend, w: World, id: nat): World
    requires id in w.clients && w.clients[id].phase.Swapping?
  {
    var c := w.clients[id];
    var p := c.phase;
    var change := c.call.fn(codec.Read(p.raw), p.moment);
    var target := Target(codec, change);
    if backend.Sql? && p.raw.None? && target.None? then
      Moved(w, id, Returned(change.result, p.seen, p.moment, false, |w.log|))
    else if Look(w.store, c.call.key) == p.raw then
      Moved(Landed(w, Write(c.call.key, target, Some(id))), id,
            Returned(change.result, |w.log|, p.moment, true, |w.log| + 1))
    else
      Moved(w, id, AfterConflict(backend, w, c))
  }

  function Answered(w: World, request: Request, wrote: bool, reply: Reply): World {
    w.(plain := w.plain + [Plain(request, |w.log|, wrote, reply)])
  }

  /** A request that writes lands; every one is answered in the same step. */
  function AfterServe(codec: Codec, backend: Backend, w: World, request: Request): World {
    match request
    case Get(key) => Answered(w, request, false, Found(codec.Read(Look(w.store, key))))
    case Put(key, value) => Landed(Answered(w, request, true, Done), Write(key, codec.encode(value), None))
    case Erase(key) => Landed(Answered(w, request, true, Done), Write(key, None, None))
    case Claim(key, expires, checked, decided) =>
      if InFuture(expires, checked) && backend.MayClaim(codec, Look(w.store, key), decided)
      then Landed(Answered(w, request, true, Claimed(true)), Write(key, MarkerRaw(codec, expires.time), None))
      else Answered(w, request, false, Claimed(false))
  }

  function Next(codec: Codec, backend: Backend, w: World, step: Step): World
    requires Enabled(w, step)
  {
    match step
    case Invoke(id, call) => w.(clients := w.clients[id := Client(call, |w.log|, Reading(0))])
    case Read(id) =>
      var c := w.clients[id];
      Moved(w, id, Running(c.phase.attempt, Look(w.store, c.call.key), |w.log|))
    case Run(id, moment) => Moved(w, id, AfterRun(codec, w, w.clients[id], moment))
    case Swap(id) => AfterSwap(codec, backend, w, id)
    case Serve(request) => AfterServe(codec, backend, w, request)
  }

  function Initial(): World {
    World(map[], [], map[], [])
  }

  /** The world after a whole interleaving. */
  ghost predicate Reaches(codec: Codec, backend: Backend, steps: seq<Step>, w: World)
    decreases |steps|
  {
    if steps == [] then w == Initial()
    else
      var last := steps[|steps| - 1];
      exists before: World ::
        && Reaches(codec, backend, steps[..|steps| - 1], before)
        && Enabled(before, last)
        && w == Next(codec, backend, before, last)
  }

  // ---- Linearizability ------------------------------------------------------

  ghost predicate Invariant(codec: Codec, w: World) {
    && w.store == Replay(w.log, |w.log|)
    && (forall k | 0 <= k < |w.log| && w.log[k].author.Some? :: w.log[k].author.value in w.clients)
    && (forall id | id in w.clients :: Consistent(codec, w.log, id, w.clients[id]))
  }

  /** A write of somebody else changes nothing of what is known about a call. */
  lemma OthersWriteIsHarmless(codec: Codec, log: seq<Write>, id: nat, c: Client, write: Write)
    requires Consistent(codec, log, id, c)
    requires write.author != Some(id)
    ensures Consistent(codec, log + [write], id, c)
  {
    var longer := log + [write];
    var key := c.call.key;
    WritesToPrefix(log, longer, key, c.invoked, |log|);
    WritesToSplit(longer, key, c.invoked, |log|, |longer|);
    match c.phase
    case Reading(_) =>
    case Running(_, _, seen) =>
      ReplayPrefix(log, longer, seen);
      WritesToPrefix(log, longer, key, c.invoked, seen);
    case Swapping(_, _, seen, _) =>
      ReplayPrefix(log, longer, seen);
      WritesToPrefix(log, longer, key, c.invoked, seen);
    case Returned(_, at, _, _, _) =>
      ReplayPrefix(log, longer, at);
    case GaveUp =>
  }

  lemma LandedKeepsInvariant(codec: Codec, w: World, write: Write)
    requires Invariant(codec, w)
    requires write.author.None?
    ensures Invariant(codec, Landed(w, write))
  {
    ReplayStep(w.log, write);
    forall id | id in w.clients
      ensures Consistent(codec, w.log + [write], id, w.clients[id])
    {
      OthersWriteIsHarmless(codec, w.log, id, w.clients[id], write);
    }
  }

  lemma RunIsConsistent(codec: Codec, w: World, id: nat, moment: int)
    requires Invariant(codec, w)
    requires id in w.clients && w.clients[id].phase.Running?
    ensures Consistent(codec, w.log, id, w.clients[id].(phase := AfterRun(codec, w, w.clients[id], moment)))
  {
    var c := w.clients[id];
    assert Consistent(codec, w.log, id, c);
    WritesToSplit(w.log, c.call.key, c.invoked, c.phase.seen, |w.log|);
  }

  /** A lost swap was overtaken by a write of another client to the same key. */
  lemma ConflictIsConsistent(codec: Codec, backend: Backend, w: World, id: nat)
    requires Invariant(codec, w)
    requires id in w.clients && w.clients[id].phase.Swapping?
    requires Look(w.store, w.clients[id].call.key) != w.clients[id].phase.raw
    ensures Consistent(codec, w.log, id, w.clients[id].(phase := AfterConflict(backend, w, w.clients[id])))
  {
    var c := w.clients[id];
    assert Consistent(codec, w.log, id, c);
    ChangedMeansWritten(w.log, c.call.key, c.phase.seen, |w.log|);
    WritesToSplit(w.log, c.call.key, c.invoked, c.phase.seen, |w.log|);
  }

  lemma OthersStayConsistent(codec: Codec, w: World, id: nat, write: Write)
    requires Invariant(codec, w)
    requires write.author == Some(id)
    ensures forall other | other in w.clients && other != id ::
              Consistent(codec, w.log + [write], other, w.clients[other])
  {
    hide Consistent, Replay;
    forall other | other in w.clients && other != id
      ensures Consistent(codec, w.log + [write], other, w.clients[other])
    {
      OthersWriteIsHarmless(codec, w.log, other, w.clients[other], write);
    }
  }

  /** A swap that applied takes effect where it landed, on the value its `fn` saw. */
  lemma OwnWriteLinearizes(codec: Codec, log: seq<Write>, id: nat, c: Client)
    requires c.phase.Swapping? && Consistent(codec, log, id, c)
    requires At(log, |log|, c.call.key) == c.phase.raw
    ensures
      var change := c.call.fn(codec.Read(c.phase.raw), c.phase.moment);
      Linearized(codec, log + [Write(c.call.key, Target(codec, change), Some(id))], id, c.call, c.invoked,
                 Returned(change.result, |log|, c.phase.moment, true, |log| + 1))
  {
    var change := c.call.fn(codec.Read(c.phase.raw), c.phase.moment);
    ReplayPrefix(log, log + [Write(c.call.key, Target(codec, change), Some(id))], |log|);
  }

  lemma InvariantGives(codec: Codec, w: World, id: nat)
    requires Invariant(codec, w) && id in w.clients
    ensures Consistent(codec, w.log, id, w.clients[id])
    ensures w.store == Replay(w.log, |w.log|)
  {
  }

  lemma AssembledInvariant(codec: Codec, w: World, id: nat, write: Write, c: Client)
    requires Invariant(codec, w) && id in w.clients && write.author == Some(id)
    requires Consistent(codec, w.log + [write], id, c)
    requires forall other | other in w.clients && other != id ::
               Consistent(codec, w.log + [write], other, w.clients[other])
    ensures Invariant(codec, World(Store(w.store, write.key, write.value), w.log + [write], w.clients[id := c], w.plain))
  {
    hide Consistent, Replay, Store;
    ReplayStep(w.log, write);
  }

  lemma WonSwapIsConsistent(codec: Codec, w: World, id: nat)
    requires Invariant(codec, w)
    requires id in w.clients && w.clients[id].phase.Swapping?
    requires At(w.log, |w.log|, w.clients[id].call.key) == w.clients[id].phase.raw
    ensures
      var c := w.clients[id];
      var change := c.call.fn(codec.Read(c.phase.raw), c.phase.moment);
      Invariant(codec, Moved(Landed(w, Write(c.call.key, Target(codec, change), Some(id))), id,
                             Returned(change.result, |w.log|, c.phase.moment, true, |w.log| + 1)))
  {
    var c := w.clients[id];
    var change := c.call.fn(codec.Read(c.phase.raw), c.phase.moment);
    var write := Write(c.call.key, Target(codec, change), Some(id));
    var done := Returned(change.result, |w.log|, c.phase.moment, true, |w.log| + 1);
    hide Invariant, Replay, Applied, At, Linearized, NoWriteBy;
    assert Consistent(codec, w.log, id, c) by { InvariantGives(codec, w, id); }
    OwnWriteLinearizes(codec, w.log, id, c);
    OthersStayConsistent(codec, w, id, write);
    assert Consistent(codec, w.log + [write], id, c.(phase := done));
    AssembledInvariant(codec, w, id, write, c.(phase := done));
  }

  lemma MovedKeepsInvariant(codec: Codec, w: World, id: nat, phase: Phase)
    requires Invariant(codec, w)
    requires id in w.clients
    requires Consistent(codec, w.log, id, w.clients[id].(phase := phase))
    ensures Invariant(codec, Moved(w, id, phase))
  {
    hide Consistent, Replay;
  }

  lemma ReadIsConsistent(codec: Codec, w: World, id: nat)
    requires Invariant(codec, w)
    requires id in w.clients && w.clients[id].phase.Reading?
    ensures
      var c := w.clients[id];
      Consistent(codec, w.log, id,
                 c.(phase := Running(c.phase.attempt, Look(w.store, c.call.key), |w.log|)))
  {
    assert Consistent(codec, w.log, id, w.clients[id]);
  }

  /** Deleting what was read as absent takes effect where it was read. */
  lemma SkippedDeleteIsConsistent(codec: Codec, w: World, id: nat)
    requires Invariant(codec, w)
    requires id in w.clients && w.clients[id].phase.Swapping?
    requires
      var c := w.clients[id];
      c.phase.raw.None? && Target(codec, c.call.fn(codec.Read(None), c.phase.moment)).None?
    ensures
      var c := w.clients[id];
      var change := c.call.fn(codec.Read(None), c.phase.moment);
      Consistent(codec, w.log, id,
                 c.(phase := Returned(change.result, c.phase.seen, c.phase.moment, false, |w.log|)))
  {
    assert Consistent(codec, w.log, id, w.clients[id]);
  }

  lemma SwapKeepsInvariant(codec: Codec, backend: Backend, w: World, id: nat)
    requires Invariant(codec, w)
    requires id in w.clients && w.clients[id].phase.Swapping?
    ensures Invariant(codec, AfterSwap(codec, backend, w, id))
  {
    hide Invariant, Moved, Landed, AfterConflict;
    var c := w.clients[id];
    var change := c.call.fn(codec.Read(c.phase.raw), c.phase.moment);
    if backend.Sql? && c.phase.raw.None? && Target(codec, change).None? {
      SkippedDeleteIsConsistent(codec, w, id);
      MovedKeepsInvariant(codec, w, id, Returned(change.result, c.phase.seen, c.phase.moment, false, |w.log|));
    } else if Look(w.store, c.call.key) == c.phase.raw {
      InvariantGives(codec, w, id);
      WonSwapIsConsistent(codec, w, id);
    } else {
      ConflictIsConsistent(codec, backend, w, id);
      MovedKeepsInvariant(codec, w, id, AfterConflict(backend, w, c));
    }
  }

  lemma InvokeKeepsInvariant(codec: Codec, w: World, id: nat, call: Call)
    requires Invariant(codec, w)
    requires id !in w.clients
    ensures Invariant(codec, w.(clients := w.clients[id := Client(call, |w.log|, Reading(0))]))
  {
    hide Replay;
    assert NoWriteBy(w.log, id);
    assert Consistent(codec, w.log, id, Client(call, |w.log|, Reading(0)));
  }

  lemma StepKeepsInvariant(codec: Codec, backend: Backend, w: World, step: Step)
    requires Invariant(codec, w)
    requires Enabled(w, step)
    ensures Invariant(codec, Next(codec, backend, w, step))
  {
    hide Invariant, Moved, Landed, AfterSwap, AfterRun, Consistent;
    match step
    case Invoke(id, call) => InvokeKeepsInvariant(codec, w, id, call);
    case Read(id) =>
      var c := w.clients[id];
      ReadIsConsistent(codec, w, id);
      MovedKeepsInvariant(codec, w, id, Running(c.phase.attempt, Look(w.store, c.call.key), |w.log|));
    case Run(id, moment) =>
      RunIsConsistent(codec, w, id, moment);
      MovedKeepsInvariant(codec, w, id, AfterRun(codec, w, w.clients[id], moment));
    case Swap(id) => SwapKeepsInvariant(codec, backend, w, id);
    case Serve(request) => ServeKeepsInvariant(codec, backend, w, request);
  }

  lemma ServeKeepsInvariant(codec: Codec, backend: Backend, w: World, request: Request)
    requires Invariant(codec, w)
    ensures Invariant(codec, AfterServe(codec, backend, w, request))
  {
    hide Invariant, Landed;
    match request
    case Get(key) => AnsweredKeepsInvariant(codec, w, request, false, Found(codec.Read(Look(w.store, key))));
    case Put(key, value) =>
      AnsweredKeepsInvariant(codec, w, request, true, Done);
      LandedKeepsInvariant(codec, Answered(w, request, true, Done), Write(key, codec.encode(value), None));
    case Erase(key) =>
      AnsweredKeepsInvariant(codec, w, request, true, Done);
      LandedKeepsInvariant(codec, Answered(w, request, true, Done), Write(key, None, None));
    case Claim(key, expires, _, _) =>
      AnsweredKeepsInvariant(codec, w, request, true, Claimed(true));
      AnsweredKeepsInvariant(codec, w, request, false, Claimed(false));
      if expires.Finite? {
        LandedKeepsInvariant(codec, Answered(w, request, true, Claimed(true)), Write(key, MarkerRaw(codec, expires.time), None));
      }
  }

  lemma AnsweredKeepsInvariant(codec: Codec, w: World, request: Request, wrote: bool, reply: Reply)
    requires Invariant(codec, w)
    ensures Invariant(codec, Answered(w, request, wrote, reply))
  {
    hide Consistent, Replay;
  }

  // ---- Requests -------------------------------------------------------------

  /** A request took effect at its place of the log: it answered what the contents there say, and if it
      wrote, its write is the very next one. */
  ghost predicate PlainLinearized(codec: Codec, backend: Backend, log: seq<Write>, p: Plain) {
    && p.at + (if p.wrote then 1 else 0) <= |log|
    && var before := At(log, p.at, p.request.key);
       match p.request
       case Get(_) => !p.wrote && p.reply == Found(codec.Read(before))
       case Put(key, value) => p.wrote && p.reply == Done && log[p.at] == Write(key, codec.encode(value), None)
       case Erase(key) => p.wrote && p.reply == Done && log[p.at] == Write(key, None, None)
       case Claim(key, expires, checked, decided) =>
         var wins := InFuture(expires, checked) && backend.MayClaim(codec, before, decided);
         && p.reply == Claimed(wins) && p.wrote == wins
         && (wins ==> log[p.at] == Write(key, MarkerRaw(codec, expires.time), None))
  }

  ghost predicate PlainInvariant(codec: Codec, backend: Backend, w: World) {
    forall k | 0 <= k < |w.plain| :: PlainLinearized(codec, backend, w.log, w.plain[k])
  }

  lemma PlainStays(codec: Codec, backend: Backend, log: seq<Write>, longer: seq<Write>, p: Plain)
    requires log <= longer && PlainLinearized(codec, backend, log, p)
    ensures PlainLinearized(codec, backend, longer, p)
  {
    ReplayPrefix(log, longer, p.at);
  }

  lemma ServedLinearizes(codec: Codec, backend: Backend, w: World, request: Request)
    requires w.store == Replay(w.log, |w.log|)
    ensures
      var after := AfterServe(codec, backend, w, request);
      && |after.plain| == |w.plain| + 1 && after.plain[..|w.plain|] == w.plain
      && w.log <= after.log
      && PlainLinearized(codec, backend, after.log, after.plain[|w.plain|])
  {
    var after := AfterServe(codec, backend, w, request);
    ReplayPrefix(w.log, after.log, |w.log|);
    hide Replay;
  }

  lemma StepKeepsPlain(codec: Codec, backend: Backend, w: World, step: Step)
    requires Invariant(codec, w) && PlainInvariant(codec, backend, w) && Enabled(w, step)
    ensures PlainInvariant(codec, backend, Next(codec, backend, w, step))
  {
    var after := Next(codec, backend, w, step);
    PlainGrows(codec, backend, w, step);
    if step.Serve? { ServedLinearizes(codec, backend, w, step.request); }
    hide PlainLinearized, Next, Invariant;
    forall k | 0 <= k < |w.plain|
      ensures PlainLinearized(codec, backend, after.log, after.plain[k])
    {
      PlainStays(codec, backend, w.log, after.log, w.plain[k]);
    }
  }

  lemma PlainGrows(codec: Codec, backend: Backend, w: World, step: Step)
    requires Enabled(w, step)
    ensures
      var after := Next(codec, backend, w, step);
      && w.plain <= after.plain && w.log <= after.log
      && |after.plain| == |w.plain| + (if step.Serve? then 1 else 0)
  {
  }

  lemma {:induction false} RunKeepsInvariant(codec: Codec, backend: Backend, steps: seq<Step>, w: World)
    requires Reaches(codec, backend, steps, w)
    ensures Invariant(codec, w) && PlainInvariant(codec, backend, w)
    decreases |steps|
  {
    if steps != [] {
      var last := steps[|steps| - 1];
      var before: World :|
        && Reaches(codec, backend, steps[..|steps| - 1], before)
        && Enabled(before, last)
        && w == Next(codec, backend, before, last);
      RunKeepsInvariant(codec, backend, steps[..|steps| - 1], before);
      StepKeepsInvariant(codec, backend, before, last);
      StepKeepsPlain(codec, backend, before, last);
    }
    hide Next, Consistent, PlainLinearized;
  }

  /** In every interleaving, the log of writes rebuilds the store; each update that returned took
      effect at one place of it between its start and its return; and one that gave up changed
      nothing and lost every attempt to a write of another client. */
  lemma UpdatesLinearize(codec: Codec, backend: Backend, steps: seq<Step>, w: World, id: nat)
    requires Reaches(codec, backend, steps, w)
    requires id in w.clients
    ensures w.store == Replay(w.log, |w.log|)
    ensures var c := w.clients[id];
            c.phase.Returned? ==>
              Linearized(codec, w.log, id, c.call, c.invoked, c.phase) && Leaves(codec, w.log, id, c.call, c.phase)
    ensures var c := w.clients[id];
            c.phase.GaveUp? ==> Ineffective(w.log, id, c.call, c.invoked)
  {
    RunKeepsInvariant(codec, backend, steps, w);
    var c := w.clients[id];
    assert Consistent(codec, w.log, id, c);
    if c.phase.Returned? { LinearizedLeaves(codec, w.log, id, c.call, c.invoked, c.phase); }
    hide Leaves;
  }

  /** Every `get`, `put`, `delete` and `tryClaim` takes effect at its place too. */
  lemma RequestsLinearize(codec: Codec, backend: Backend, steps: seq<Step>, w: World, k: nat)
    requires Reaches(codec, backend, steps, w) && k < |w.plain|
    ensures PlainLinearized(codec, backend, w.log, w.plain[k])
  {
    RunKeepsInvariant(codec, backend, steps, w);
  }

  /** A written key reads as the value put, or as absent once deleted, right after the request's place;
      a read, or a claim that fails, changes nothing. */
  lemma RequestsLeave(codec: Codec, backend: Backend, log: seq<Write>, p: Plain)
    requires PlainLinearized(codec, backend, log, p)
    ensures
      var after := At(log, p.at + (if p.wrote then 1 else 0), p.request.key);
      match p.request
      case Get(_) => !p.wrote
      case Put(_, value) => codec.ReadsBack() ==> codec.Read(after) == value
      case Erase(_) => after == None
      case Claim(_, expires, _, _) =>
        if p.reply == Claimed(true) then codec.Valid() ==> expires.Finite? && codec.MarkerExpiry(after) == Some(expires.time)
        else !p.wrote
  {
    if p.wrote {
      assert Replay(log, p.at + 1) == Store(Replay(log, p.at), log[p.at].key, log[p.at].value);
    }
    if p.request.Claim? && p.request.expires.Finite? {
      var time := p.request.expires.time;
      assert codec.Valid() ==> codec.expiryOf(codec.marker(time)) == Some(time);
    }
  }

  /** When an operation started, took effect and returned, in writes that had landed. */
  datatype Span = Span(invoked: nat, at: nat, wrote: bool, returned: nat)

  ghost predicate Finished(w: World, s: Span) {
    || (exists id :: id in w.clients && w.clients[id].phase.Returned? &&
          s == Span(w.clients[id].invoked, w.clients[id].phase.at, w.clients[id].phase.wrote, w.clients[id].phase.returned))
    || (exists k :: 0 <= k < |w.plain| &&
          s == Span(w.plain[k].at, w.plain[k].at, w.plain[k].wrote, w.plain[k].at + (if w.plain[k].wrote then 1 else 0)))
  }

  lemma SpansContainTheirPlace(codec: Codec, backend: Backend, steps: seq<Step>, w: World, s: Span)
    requires Reaches(codec, backend, steps, w) && Finished(w, s)
    ensures s.invoked <= s.at && s.at + (if s.wrote then 1 else 0) <= s.returned <= |w.log|
  {
    RunKeepsInvariant(codec, backend, steps, w);
    if id :| id in w.clients && w.clients[id].phase.Returned? &&
             s == Span(w.clients[id].invoked, w.clients[id].phase.at, w.clients[id].phase.wrote, w.clients[id].phase.returned) {
      assert Consistent(codec, w.log, id, w.clients[id]);
    } else {
      var k :| 0 <= k < |w.plain| &&
               s == Span(w.plain[k].at, w.plain[k].at, w.plain[k].wrote, w.plain[k].at + (if w.plain[k].wrote then 1 else 0));
      assert PlainLinearized(codec, backend, w.log, w.plain[k]);
    }
  }

  /** The places respect real time: of any two operations, updates and requests alike, one that
      returned before the other started comes first. */
  lemma OrderRespectsRealTime(codec: Codec, backend: Backend, steps: seq<Step>, w: World, first: Span, second: Span)
    requires Reaches(codec, backend, steps, w)
    requires Finished(w, first) && Finished(w, second) && first.returned <= second.invoked
    ensures first.at <= second.at
    ensures first.wrote ==> first.at < second.at
  {
    SpansContainTheirPlace(codec, backend, steps, w, first);
    SpansContainTheirPlace(codec, backend, steps, w, second);
  }
}
