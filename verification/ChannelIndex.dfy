/** Adding, removing and syncing lookup entries, with other writers acting at every wait
    (src/cloudflare/Channels.ts:48-138). */
module ChannelIndex {
  import opened Basics
  import opened LookupIndex

  lemma RemoveAllStep(entries: Entries, keys: seq<Key>, i: nat, id: Id)
    requires i < |keys|
    ensures RemoveAll(entries, keys[i..], id) == RemoveAll(AfterRemove(entries, keys[i], id), keys[i + 1..], id)
  {
    assert keys[i..][1..] == keys[i + 1..];
  }

  lemma AddAllStep(channels: Channels, entries: Entries, keys: seq<Key>, i: nat, id: Id)
    requires i < |keys|
    ensures AddAll(channels, entries, keys[i..], id)
         == AddAll(channels, AddAlone(channels, entries, keys[i], id), keys[i + 1..], id)
  {
    assert keys[i..][1..] == keys[i + 1..];
  }

  lemma RemoveAllEnd(entries: Entries, keys: seq<Key>, id: Id)
    requires keys == []
    ensures RemoveAll(entries, keys, id) == entries
  {
  }

  lemma AddAllEnd(channels: Channels, entries: Entries, keys: seq<Key>, id: Id)
    requires keys == []
    ensures AddAll(channels, entries, keys, id) == entries
  {
  }

  class Store {
    /** Whether nobody else writes while an operation runs. */
    const alone: bool
    var channels: Channels
    var entries: Entries

    constructor (alone: bool)
      ensures Valid() && channels == map[] && entries == map[] && this.alone == alone
    {
      this.alone := alone;
      channels, entries := map[], map[];
    }

    ghost predicate Valid()
      reads this
    {
      Bounded(entries) && KeyedById(channels)
    }

    /** Other writers change channels and entries. */
    method OthersAct()
      requires Valid()
      modifies this`channels, this`entries
      ensures Valid()
      ensures alone ==> channels == old(channels) && entries == old(entries)
    {
      if alone { return; }
      var steps: seq<EntryStep> := *;
      for i := 0 to |steps|
        invariant Valid()
      {
        UpdatesKeepBounds(entries, steps[i].key, steps[i].id, if steps[i].Adding? then steps[i].closed else {});
        match steps[i]
        case Removing(key, id) => entries := AfterRemove(entries, key, id);
        case Adding(key, id, closed) => entries := AfterAdd(entries, key, id, closed);
      }
      var written: Channels := *;
      if KeyedById(written) { channels := written; }
    }

    method Remove(key: Key, id: Id)
      requires Valid()
      modifies this`channels, this`entries
      ensures Valid()
      ensures id !in LookupIds(entries, key)
      ensures alone ==> channels == old(channels) && entries == AfterRemove(old(entries), key, id)
    {
      OthersAct();
      UpdatesKeepBounds(entries, key, id, {});
      var ids := LookupIds(entries, key);
      if id !in ids { return; }
      var rest := Without(ids, {id});
      if |rest| > 0 { entries := entries[key := rest]; } else { entries := entries - {key}; }
    }

    /** Which of the channels no longer resume, each read on its own. */
    method FindClosed(ids: seq<Id>) returns (closed: set<Id>)
      requires Valid()
      modifies this`channels, this`entries
      ensures Valid()
      ensures alone ==> channels == old(channels) && entries == old(entries)
      ensures alone ==> closed == set id | id in ids && !Resumable(ChannelAt(channels, id))
    {
      closed := {};
      for i := 0 to |ids|
        invariant Valid()
        invariant alone ==> channels == old(channels) && entries == old(entries)
        invariant alone ==> closed == set id | id in ids[..i] && !Resumable(ChannelAt(channels, id))
      {
        OthersAct();
        assert ids[..i + 1] == ids[..i] + [ids[i]];
        if !Resumable(ChannelAt(channels, ids[i])) { closed := closed + {ids[i]}; }
      }
      assert ids[..|ids|] == ids;
    }

    /** Ends within three rounds, whatever others do, and then the entry lists the channel or the
        channel no longer resumes. */
    method Add(key: Key, id: Id) returns (ghost rounds: nat)
      requires Valid()
      modifies this`channels, this`entries
      ensures Valid()
      ensures 1 <= rounds <= MAX_LOOKUP_ATTEMPTS
      ensures id in LookupIds(entries, key) || !Resumable(ChannelAt(channels, id))
      ensures alone ==> channels == old(channels) && entries == AddAlone(old(channels), old(entries), key, id)
    {
      var attempt := 1;
      while true
        invariant Valid()
        invariant 1 <= attempt <= MAX_LOOKUP_ATTEMPTS
        invariant alone ==> attempt == 1 && channels == old(channels) && entries == old(entries)
        decreases MAX_LOOKUP_ATTEMPTS - attempt
      {
        rounds := attempt;
        OthersAct();
        var ids := LookupIds(entries, key);
        if id in ids { return; }
        OthersAct();
        if !Resumable(ChannelAt(channels, id)) { return; }
        var closed := {};
        if |ids| >= MAX_LOOKUP_CHANNELS { closed := FindClosed(ids); }
        OthersAct();
        UpdatesKeepBounds(entries, key, id, closed);
        var listed := LookupIds(entries, key);
        if id in listed { return; }
        if attempt < MAX_LOOKUP_ATTEMPTS && listed != ids {
          attempt := attempt + 1;
        } else {
          assert alone ==> closed == Closed(channels, ids);
          entries := entries[key := First([id] + Without(listed, closed), MAX_LOOKUP_CHANNELS)];
          assert LookupIds(entries, key)[0] == id;
          return;
        }
      }
    }

    method RemoveEach(keys: seq<Key>, id: Id)
      requires Valid()
      modifies this`channels, this`entries
      ensures Valid()
      ensures alone ==> channels == old(channels) && entries == RemoveAll(old(entries), keys, id)
    {
      hide RemoveAll, AfterRemove, Bounded, KeyedById;
      assert keys[0..] == keys;
      for i := 0 to |keys|
        invariant Valid()
        invariant alone ==> channels == old(channels)
        invariant alone ==> RemoveAll(entries, keys[i..], id) == RemoveAll(old(entries), keys, id)
      {
        RemoveAllStep(entries, keys, i, id);
        Remove(keys[i], id);
      }
      RemoveAllEnd(entries, keys[|keys|..], id);
    }

    method AddEach(keys: seq<Key>, id: Id)
      requires Valid()
      modifies this`channels, this`entries
      ensures Valid()
      ensures alone ==> channels == old(channels) && entries == AddAll(channels, old(entries), keys, id)
    {
      hide AddAll, AddAlone, Bounded, KeyedById;
      assert keys[0..] == keys;
      for i := 0 to |keys|
        invariant Valid()
        invariant alone ==> channels == old(channels)
        invariant alone ==> AddAll(channels, entries, keys[i..], id) == AddAll(channels, old(entries), keys, id)
      {
        AddAllStep(channels, entries, keys, i, id);
        ghost var rounds := Add(keys[i], id);
      }
      AddAllEnd(channels, entries, keys[|keys|..], id);
    }

    /** Moves the entries of a channel from its previous state to its next one. The updates of the
        `failed` entries throw, which the write does not report. */
    method Sync(previous: Option<Channel>, next: Option<Channel>, ghost id: Id, failed: set<Key>)
      requires Valid()
      requires (previous.Some? ==> previous.value.id == id) && (next.Some? ==> next.value.id == id)
      modifies this`channels, this`entries
      ensures Valid()
      ensures alone ==> channels == old(channels)
      ensures alone ==> entries == Synced(old(channels), old(entries), id, previous, next, failed)
    {
      hide RemoveAll, AddAll, Bounded, KeyedById;
      var after := LookupKeys(next);
      var dropped := Dropped(LookupKeys(previous), after);
      if previous.Some? { RemoveEach(Except(dropped, failed), previous.value.id); }
      RemoveAllEnd(entries, [], id);
      if next.Some? { AddEach(Except(after, failed), next.value.id); }
      AddAllEnd(channels, entries, [], id);
    }

    /** A `put` (`Some`), a `delete` (`None`) or an `update` that changed the channel. */
    method Write(id: Id, next: Option<Channel>, failed: set<Key>)
      requires Valid()
      requires next.Some? ==> next.value.id == id
      modifies this`channels, this`entries
      ensures Valid()
      ensures alone ==> channels == Written(old(channels), id, next)
      ensures alone ==> entries == Synced(channels, old(entries), id, ChannelAt(old(channels), id), next, failed)
    {
      var previous := ChannelAt(channels, id);
      OthersAct();
      channels := if next.Some? then channels[id := next.value] else channels - {id};
      Sync(previous, next, id, failed);
    }
  }
}
