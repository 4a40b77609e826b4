/** The retry loop of one update, with other clients writing whenever it waits (src/Store.ts:154-183). */
module CompareAndSwap {
  import opened Basics
  import opened Text
  import opened StoredValues
  import opened AtomicStore

  /** A namespace of keys shared with other clients. */
  class Namespace {
    var store: Contents
    var log: seq<Write>
    const codec: Codec
    const backend: Backend

    constructor (codec: Codec, backend: Backend)
      ensures Valid() && log == [] && this.codec == codec && this.backend == backend
    {
      store, log := map[], [];
      this.codec, this.backend := codec, backend;
    }

    ghost predicate Valid()
      reads this
    {
      store == Replay(log, |log|)
    }

    /** Any number of writes of anybody but call `id` land. */
    method OthersAct(id: nat)
      requires Valid()
      modifies this`store, this`log
      ensures Valid()
      ensures old(log) <= log
      ensures forall k | |old(log)| <= k < |log| :: log[k].author != Some(id)
    {
      var writes: seq<Write> := *;
      for i := 0 to |writes|
        invariant Valid()
        invariant old(log) <= log
        invariant forall k | |old(log)| <= k < |log| :: log[k].author != Some(id)
      {
        if writes[i].author != Some(id) {
          Land(writes[i]);
        }
      }
    }

    /** One write of the backing store. */
    method Land(write: Write)
      requires Valid()
      modifies this`store, this`log
      ensures Valid() && log == old(log) + [write]
      ensures store == StoredValues.Store(old(store), write.key, write.value)
    {
      ReplayStep(log, write);
      store := StoredValues.Store(store, write.key, write.value);
      log := log + [write];
    }

    method ReadRaw(id: nat, key: Text) returns (raw: Option<Raw>)
      requires Valid()
      modifies this`store, this`log
      ensures Valid()
      ensures old(log) <= log
      ensures forall k | |old(log)| <= k < |log| :: log[k].author != Some(id)
      ensures raw == At(log, |log|, key)
    {
      OthersAct(id);
      raw := Look(store, key);
    }

    /** `swap`: others may act until it reaches the store; then it compares and writes in one step. */
    method Swap(id: nat, key: Text, expected: Option<Raw>, value: Option<Raw>)
      returns (applied: bool, current: Option<Option<Raw>>)
      requires Valid()
      modifies this`store, this`log
      ensures Valid()
      ensures old(log) <= log
      ensures backend.Sql? && expected.None? && value.None? ==>
                applied && log == old(log)
      ensures !(backend.Sql? && expected.None? && value.None?) && applied ==>
                && |old(log)| < |log|
                && (forall k | |old(log)| <= k < |log| - 1 :: log[k].author != Some(id))
                && log[|log| - 1] == Write(key, value, Some(id))
                && At(log, |log| - 1, key) == expected
      ensures !applied ==>
                && (forall k | |old(log)| <= k < |log| :: log[k].author != Some(id))
                && At(log, |log|, key) != expected
                && (current.Some? ==> current.value == At(log, |log|, key))
      ensures !applied ==> current.Some? == backend.DurableObject?
    {
      if backend.Sql? && expected.None? && value.None? { return true, None; }
      OthersAct(id);
      var found := Look(store, key);
      if found != expected {
        return false, if backend.DurableObject? then Some(found) else None;
      }
      ReplayPrefix(log, log + [Write(key, value, Some(id))], |log|);
      Land(Write(key, value, Some(id)));
      return true, None;
    }
  }

  /** What was seen at a place stays so as the log grows, and a key that reads otherwise by then
      was written in between. */
  lemma Overtaken(before: seq<Write>, log: seq<Write>, key: Text, invoked: nat, seen: nat)
    requires before <= log && invoked <= seen <= |before|
    ensures At(log, seen, key) == At(before, seen, key)
    ensures WritesTo(log, key, invoked, |log|) >= WritesTo(before, key, invoked, seen)
    ensures At(log, |log|, key) != At(before, seen, key) ==>
              WritesTo(log, key, invoked, |log|) > WritesTo(before, key, invoked, seen)
  {
    ReplayPrefix(before, log, seen);
    WritesToPrefix(before, log, key, invoked, seen);
    WritesToSplit(log, key, invoked, seen, |log|);
    ChangedMeansWritten(log, key, seen, |log|);
  }

  /** An answer that changes nothing takes effect where its value was read. */
  lemma SilentAnswer(codec: Codec, log: seq<Write>, id: nat, call: Call, invoked: nat, seen: nat, moment: int)
    requires NoWriteBy(log, id) && invoked <= seen <= |log|
    requires
      var before := At(log, seen, call.key);
      Applied(codec, call.fn(codec.Read(before), moment), before) == before
    ensures
      var change := call.fn(codec.Read(At(log, seen, call.key)), moment);
      var done := Returned(change.result, seen, moment, false, |log|);
      Linearized(codec, log, id, call, invoked, done) && Leaves(codec, log, id, call, done)
  {
    var change := call.fn(codec.Read(At(log, seen, call.key)), moment);
    LinearizedLeaves(codec, log, id, call, invoked, Returned(change.result, seen, moment, false, |log|));
    hide Leaves;
  }

  /** A swap that applied takes effect where it landed. */
  lemma WonAnswer(codec: Codec, log: seq<Write>, id: nat, call: Call, invoked: nat, raw: Option<Raw>, moment: int)
    requires invoked < |log|
    requires forall k | 0 <= k < |log| - 1 :: log[k].author != Some(id)
    requires At(log, |log| - 1, call.key) == raw
    requires
      var change := call.fn(codec.Read(raw), moment);
      !change.Noop? && log[|log| - 1] == Write(call.key, Target(codec, change), Some(id))
    ensures
      var change := call.fn(codec.Read(raw), moment);
      var done := Returned(change.result, |log| - 1, moment, true, |log|);
      Linearized(codec, log, id, call, invoked, done) && Leaves(codec, log, id, call, done)
  {
    var change := call.fn(codec.Read(raw), moment);
    LinearizedLeaves(codec, log, id, call, invoked, Returned(change.result, |log| - 1, moment, true, |log|));
    hide Leaves;
  }

  /** The loop itself. `None` is the conflict error thrown after `maxAttempts` lost swaps. */
  method CompareAndSwap(namespace: Namespace, id: nat, call: Call) returns (result: Option<Answer>)
    requires namespace.Valid() && NoWriteBy(namespace.log, id)
    modifies namespace`store, namespace`log
    ensures namespace.Valid() && old(namespace.log) <= namespace.log
    ensures result.Some? ==>
              exists at: nat, moment: int, wrote: bool {:trigger Returned(result.value, at, moment, wrote, |namespace.log|)} ::
                && Linearized(namespace.codec, namespace.log, id, call, |old(namespace.log)|,
                              Returned(result.value, at, moment, wrote, |namespace.log|))
                && Leaves(namespace.codec, namespace.log, id, call,
                          Returned(result.value, at, moment, wrote, |namespace.log|))
    ensures result.None? ==> Ineffective(namespace.log, id, call, |old(namespace.log)|)
  {
    hide Linearized, Leaves, Replay, WritesTo, At, namespace.Valid;
    var codec := namespace.codec;
    ghost var invoked := |namespace.log|;
    var raw := namespace.ReadRaw(id, call.key);
    ghost var seen: nat := |namespace.log|;
    var attempt := 0;
    while attempt < call.maxAttempts
      invariant namespace.Valid() && old(namespace.log) <= namespace.log
      invariant attempt <= call.maxAttempts && invoked <= seen <= |namespace.log|
      invariant NoWriteBy(namespace.log, id)
      invariant raw == At(namespace.log, seen, call.key)
      invariant WritesTo(namespace.log, call.key, invoked, seen) >= attempt
    {
      var moment: int := *;
      var change := call.fn(codec.Read(raw), moment);
      if change.Noop? {
        SilentAnswer(codec, namespace.log, id, call, invoked, seen, moment);
        return Some(change.result);
      }
      ghost var before := namespace.log;
      var applied, current := namespace.Swap(id, call.key, raw, Target(codec, change));
      if applied {
        if namespace.log == before {
          SilentAnswer(codec, namespace.log, id, call, invoked, seen, moment);
        } else {
          WonAnswer(codec, namespace.log, id, call, invoked, raw, moment);
        }
        return Some(change.result);
      }
      Overtaken(before, namespace.log, call.key, invoked, seen);
      attempt := attempt + 1;
      if attempt == call.maxAttempts {
        break;
      }
      if current.Some? {
        raw := current.value;
      } else {
        ghost var lost := namespace.log;
        raw := namespace.ReadRaw(id, call.key);
        Overtaken(lost, namespace.log, call.key, invoked, |lost|);
      }
      seen := |namespace.log|;
    }
    Overtaken(namespace.log, namespace.log, call.key, invoked, seen);
    return None;
  }
}
