/** The lookup of a payer's open channels, kept beside the channel store
    (src/cloudflare/Channels.ts:48-138, 351-403). */
module LookupIndex {
  import opened Basics

  type Id(==, !new, 0)
  type Address(==, !new)

  /** Whatever else a lookup key is made of: payee, token, escrow, operator and chain. */
  type Line(==, !new)

  const MAX_LOOKUP_CHANNELS := 8
  const MAX_LOOKUP_ATTEMPTS := 3

  /** Addresses are compared in lower case, which they already have here. */
  datatype Channel = Channel(
    id: Id, payer: Address, authorizedSigner: Address, line: Line, finalized: bool, closeRequestedAt: int)

  datatype Key = Key(payer: Address, line: Line)

  type Channels = map<Id, Channel>
  type Entries = map<Key, seq<Id>>

  predicate Resumable(state: Option<Channel>) {
    state.Some? && !state.value.finalized && state.value.closeRequestedAt == 0
  }

  /** The lookup keys of a channel a payer may resume: the payer's, and its signer's if that is another. */
  function LookupKeys(state: Option<Channel>): (keys: seq<Key>)
    ensures |keys| <= 2
    ensures forall i, j | 0 <= i < j < |keys| :: keys[i] != keys[j]
    ensures forall key :: key in keys <==>
              Resumable(state) && key.line == state.value.line && key.payer in {state.value.payer, state.value.authorizedSigner}
  {
    if !Resumable(state) then []
    else
      var c := state.value;
      [Key(c.payer, c.line)] + if c.authorizedSigner == c.payer then [] else [Key(c.authorizedSigner, c.line)]
  }

  function ChannelAt(channels: Channels, id: Id): Option<Channel> {
    if id in channels then Some(channels[id]) else None
  }

  function LookupIds(entries: Entries, key: Key): seq<Id> {
    if key in entries then entries[key] else []
  }

  function Without(ids: seq<Id>, gone: set<Id>): (rest: seq<Id>)
    ensures |rest| <= |ids|
    ensures forall id :: id in rest <==> id in ids && id !in gone
  {
    if ids == [] then [] else (if ids[0] in gone then [] else [ids[0]]) + Without(ids[1..], gone)
  }

  predicate Distinct(ids: seq<Id>) {
    forall i, j | 0 <= i < j < |ids| :: ids[i] != ids[j]
  }

  lemma {:induction false} WithoutKeepsDistinct(ids: seq<Id>, gone: set<Id>)
    requires Distinct(ids)
    ensures Distinct(Without(ids, gone))
  {
    if ids != [] { WithoutKeepsDistinct(ids[1..], gone); }
  }

  function First(ids: seq<Id>, n: nat): seq<Id> {
    if |ids| <= n then ids else ids[..n]
  }

  // ---- The atomic updates of one entry --------------------------------------

  function AfterRemove(entries: Entries, key: Key, id: Id): Entries {
    var ids := LookupIds(entries, key);
    if id !in ids then entries
    else
      var rest := Without(ids, {id});
      if rest == [] then entries - {key} else entries[key := rest]
  }

  function AfterAdd(entries: Entries, key: Key, id: Id, closed: set<Id>): Entries {
    var listed := LookupIds(entries, key);
    if id in listed then entries
    else entries[key := First([id] + Without(listed, closed), MAX_LOOKUP_CHANNELS)]
  }

  /** What an entry never loses, whatever runs at once: no duplicates, and at most eight channels. */
  predicate Bounded(entries: Entries) {
    forall key | key in entries :: Distinct(entries[key]) && 0 < |entries[key]| <= MAX_LOOKUP_CHANNELS
  }

  lemma UpdatesKeepBounds(entries: Entries, key: Key, id: Id, closed: set<Id>)
    requires Bounded(entries)
    ensures Bounded(AfterRemove(entries, key, id))
    ensures Bounded(AfterAdd(entries, key, id, closed))
  {
    WithoutKeepsDistinct(LookupIds(entries, key), {id});
    WithoutKeepsDistinct(LookupIds(entries, key), closed);
  }

  lemma {:induction false} WithoutNothing(ids: seq<Id>, gone: set<Id>)
    requires forall id | id in ids :: id !in gone
    ensures Without(ids, gone) == ids
  {
    if ids != [] { WithoutNothing(ids[1..], gone); }
  }

  lemma {:induction false} WithoutShrinks(ids: seq<Id>, gone: set<Id>)
    requires exists id :: id in ids && id in gone
    ensures |Without(ids, gone)| < |ids|
  {
    if ids[0] !in gone { WithoutShrinks(ids[1..], gone); }
  }

  /** `x` stands before `y`. */
  ghost predicate Precedes(ids: seq<Id>, x: Id, y: Id) {
    exists i, j :: 0 <= i < j < |ids| && ids[i] == x && ids[j] == y
  }

  lemma PrecedesBehind(head: Id, rest: seq<Id>, x: Id, y: Id)
    ensures Precedes([head] + rest, x, y) <==> Precedes(rest, x, y) || (x == head && y in rest)
  {
    var ids := [head] + rest;
    if Precedes(ids, x, y) {
      var i, j :| 0 <= i < j < |ids| && ids[i] == x && ids[j] == y;
      assert i > 0 ==> rest[i - 1] == x && rest[j - 1] == y;
      assert rest[j - 1] == y;
    }
    if Precedes(rest, x, y) {
      var i, j :| 0 <= i < j < |rest| && rest[i] == x && rest[j] == y;
      assert ids[i + 1] == x && ids[j + 1] == y;
    }
    if x == head && y in rest {
      var j :| 0 <= j < |rest| && rest[j] == y;
      assert ids[0] == x && ids[j + 1] == y;
    }
  }

  /** What is kept stands in the order it stood in. */
  lemma {:induction false} WithoutKeepsOrder(ids: seq<Id>, gone: set<Id>, x: Id, y: Id)
    requires x !in gone && y !in gone
    ensures Precedes(Without(ids, gone), x, y) <==> Precedes(ids, x, y)
  {
    if ids != [] {
      var rest := Without(ids[1..], gone);
      WithoutKeepsOrder(ids[1..], gone, x, y);
      assert ids == [ids[0]] + ids[1..];
      PrecedesBehind(ids[0], ids[1..], x, y);
      PrecedesBehind(ids[0], rest, x, y);
      assert Without(ids, gone) == (if ids[0] in gone then [] else [ids[0]]) + rest;
      assert [] + rest == rest;
      hide Precedes, Without;
    }
  }

  lemma PrefixKeepsOrder(ids: seq<Id>, n: nat, x: Id, y: Id)
    requires n <= |ids| && Distinct(ids) && x in ids[..n] && y in ids[..n]
    ensures Precedes(ids[..n], x, y) <==> Precedes(ids, x, y)
  {
    if Precedes(ids, x, y) {
      var i, j :| 0 <= i < j < |ids| && ids[i] == x && ids[j] == y;
      var k :| 0 <= k < n && ids[..n][k] == y;
      assert ids[k] == y && k == j;
      assert ids[..n][i] == x && ids[..n][j] == y;
    }
    if Precedes(ids[..n], x, y) {
      var i, j :| 0 <= i < j < n && ids[..n][i] == x && ids[..n][j] == y;
      assert ids[i] == x && ids[j] == y;
    }
  }

  /** An added channel comes first and the others keep their order. Closed channels make room; without
      any, a full entry drops its last and oldest channel, and no other entry drops any. */
  lemma AddedComesFirst(entries: Entries, key: Key, id: Id, closed: set<Id>)
    requires Bounded(entries) && id !in LookupIds(entries, key)
    ensures
      var before := LookupIds(entries, key);
      var after := LookupIds(AfterAdd(entries, key, id, closed), key);
      && after != [] && after[0] == id
      && (forall x | x in after :: x == id || (x in before && x !in closed))
      && (forall x, y | x in after && y in after && x != id && y != id :: Precedes(after, x, y) <==> Precedes(before, x, y))
      && ((exists x :: x in before && x in closed) || |before| < MAX_LOOKUP_CHANNELS ==>
            forall x | x in before && x !in closed :: x in after)
      && ((forall x | x in before :: x !in closed) ==>
            after == [id] + if |before| < MAX_LOOKUP_CHANNELS then before else before[..MAX_LOOKUP_CHANNELS - 1])
  {
    var before := LookupIds(entries, key);
    var rest := Without(before, closed);
    var after := LookupIds(AfterAdd(entries, key, id, closed), key);
    WithoutKeepsDistinct(before, closed);
    var n := if |rest| < MAX_LOOKUP_CHANNELS then |rest| else MAX_LOOKUP_CHANNELS - 1;
    assert after == [id] + rest[..n];
    if exists x :: x in before && x in closed { WithoutShrinks(before, closed); } else { WithoutNothing(before, closed); }
    assert rest[..|rest|] == rest;
    forall x, y | x in after && y in after && x != id && y != id
      ensures Precedes(after, x, y) <==> Precedes(before, x, y)
    {
      PrecedesBehind(id, rest[..n], x, y);
      PrefixKeepsOrder(rest, n, x, y);
      WithoutKeepsOrder(before, closed, x, y);
    }
    hide Without;
  }

  /** Removing a channel leaves the others in their order. */
  lemma RemovalKeepsOrder(entries: Entries, key: Key, id: Id, x: Id, y: Id)
    requires x != id && y != id
    ensures Precedes(LookupIds(AfterRemove(entries, key, id), key), x, y) <==> Precedes(LookupIds(entries, key), x, y)
  {
    WithoutKeepsOrder(LookupIds(entries, key), {id}, x, y);
  }

  /** Any interleaving of the entry updates of any number of writers; what they read beforehand, and
      so which channels they take for closed, is arbitrary. */
  datatype EntryStep = Removing(key: Key, id: Id) | Adding(key: Key, id: Id, closed: set<Id>)

  function AfterSteps(steps: seq<EntryStep>): Entries {
    if steps == [] then map[]
    else
      var entries := AfterSteps(steps[..|steps| - 1]);
      match steps[|steps| - 1]
      case Removing(key, id) => AfterRemove(entries, key, id)
      case Adding(key, id, closed) => AfterAdd(entries, key, id, closed)
  }

  lemma {:induction false} EntriesStayBounded(steps: seq<EntryStep>)
    ensures Bounded(AfterSteps(steps))
  {
    if steps != [] {
      EntriesStayBounded(steps[..|steps| - 1]);
      match steps[|steps| - 1]
      case Removing(key, id) => UpdatesKeepBounds(AfterSteps(steps[..|steps| - 1]), key, id, {});
      case Adding(key, id, closed) => UpdatesKeepBounds(AfterSteps(steps[..|steps| - 1]), key, id, closed);
    }
  }

  // ---- One write at a time --------------------------------------------------

  /** The listed channels that no longer resume, which only a full entry looks for. */
  function Closed(channels: Channels, ids: seq<Id>): set<Id> {
    set id | id in ids && |ids| >= MAX_LOOKUP_CHANNELS && !Resumable(ChannelAt(channels, id))
  }

  /** What adding does when nobody else acts meanwhile. */
  function AddAlone(channels: Channels, entries: Entries, key: Key, id: Id): Entries {
    if !Resumable(ChannelAt(channels, id)) then entries
    else AfterAdd(entries, key, id, Closed(channels, LookupIds(entries, key)))
  }

  /** A full entry makes room for an open channel by dropping those that no longer resume, and only
      when all eight still do by dropping the oldest. */
  lemma FullEntriesDropTheClosedFirst(channels: Channels, entries: Entries, key: Key, id: Id)
    requires Bounded(entries) && |LookupIds(entries, key)| == MAX_LOOKUP_CHANNELS && id !in LookupIds(entries, key)
    requires id in channels && !channels[id].finalized && channels[id].closeRequestedAt == 0
    ensures
      var before := LookupIds(entries, key);
      var after := LookupIds(AddAlone(channels, entries, key, id), key);
      && (forall x | x in after :: x in channels && !channels[x].finalized && channels[x].closeRequestedAt == 0)
      && (forall x | x in before && x !in after && Resumable(ChannelAt(channels, x)) ::
            x == before[MAX_LOOKUP_CHANNELS - 1] && forall y | y in before :: Resumable(ChannelAt(channels, y)))
  {
    var before := LookupIds(entries, key);
    AddedComesFirst(entries, key, id, Closed(channels, before));
    hide Precedes;
  }

  /** An entry with room drops nothing, not even a channel that no longer resumes. */
  lemma RoomDropsNothing(channels: Channels, entries: Entries, key: Key, id: Id)
    requires |LookupIds(entries, key)| < MAX_LOOKUP_CHANNELS && id !in LookupIds(entries, key)
    requires id in channels && !channels[id].finalized && channels[id].closeRequestedAt == 0
    ensures LookupIds(AddAlone(channels, entries, key, id), key) == [id] + LookupIds(entries, key)
  {
    WithoutNothing(LookupIds(entries, key), Closed(channels, LookupIds(entries, key)));
  }

  function RemoveAll(entries: Entries, keys: seq<Key>, id: Id): Entries {
    if keys == [] then entries else RemoveAll(AfterRemove(entries, keys[0], id), keys[1..], id)
  }

  function AddAll(channels: Channels, entries: Entries, keys: seq<Key>, id: Id): Entries
    decreases |keys|
  {
    if keys == [] then entries else AddAll(channels, AddAlone(channels, entries, keys[0], id), keys[1..], id)
  }

  function Except(keys: seq<Key>, gone: set<Key>): (rest: seq<Key>)
    ensures forall key :: key in rest <==> key in keys && key !in gone
  {
    if keys == [] then [] else (if keys[0] in gone then [] else [keys[0]]) + Except(keys[1..], gone)
  }

  /** The keys a channel no longer has. */
  function Dropped(before: seq<Key>, after: seq<Key>): (keys: seq<Key>)
    ensures forall key :: key in keys <==> key in before && key !in after
  {
    Except(before, set key | key in after)
  }

  function Written(channels: Channels, id: Id, next: Option<Channel>): Channels {
    if next.Some? then channels[id := next.value] else channels - {id}
  }

  /** The sync of a write, when the updates of the `failed` entries throw. */
  function Synced(channels: Channels, entries: Entries, id: Id, previous: Option<Channel>, next: Option<Channel>,
                  failed: set<Key>): Entries
  {
    var after := LookupKeys(next);
    var removed := RemoveAll(entries, Except(Dropped(LookupKeys(previous), after), failed), id);
    AddAll(channels, removed, Except(after, failed), id)
  }

  /** The channels a key should find. */
  function Having(channels: Channels, key: Key): set<Id> {
    set id | id in channels
             && !channels[id].finalized && channels[id].closeRequestedAt == 0
             && key.line == channels[id].line
             && (key.payer == channels[id].payer || key.payer == channels[id].authorizedSigner)
  }

  /** The entry under a key lists exactly the channels that have the key. */
  ghost predicate AgreesAt(channels: Channels, entries: Entries, key: Key) {
    forall id :: id in LookupIds(entries, key) <==> id in Having(channels, key)
  }

  /** So it does, but perhaps for one channel. */
  ghost predicate OthersAgreeAt(channels: Channels, entries: Entries, key: Key, id: Id) {
    forall other | other != id :: other in LookupIds(entries, key) <==> other in Having(channels, key)
  }

  /** A key has no more channels than an entry holds. */
  ghost predicate FitsAt(channels: Channels, key: Key) {
    |Having(channels, key)| <= MAX_LOOKUP_CHANNELS
  }

  predicate KeyedById(channels: Channels) {
    forall id | id in channels :: channels[id].id == id
  }

  lemma {:induction false} RemoveAllAt(entries: Entries, keys: seq<Key>, id: Id, key: Key)
    ensures forall other :: other in LookupIds(RemoveAll(entries, keys, id), key)
              <==> other in LookupIds(entries, key) && !(other == id && key in keys)
  {
    if keys != [] { RemoveAllAt(AfterRemove(entries, keys[0], id), keys[1..], id, key); }
  }

  lemma {:induction false} RemoveAllKeepsBounds(entries: Entries, keys: seq<Key>, id: Id)
    requires Bounded(entries)
    ensures Bounded(RemoveAll(entries, keys, id))
  {
    if keys != [] {
      UpdatesKeepBounds(entries, keys[0], id, {});
      RemoveAllKeepsBounds(AfterRemove(entries, keys[0], id), keys[1..], id);
    }
  }

  /** A list without duplicates is as long as its set of elements is large. */
  lemma {:induction false} DistinctLength(ids: seq<Id>, all: set<Id>)
    requires Distinct(ids)
    requires forall id | id in ids :: id in all
    ensures |ids| <= |all|
  {
    if ids != [] {
      DistinctLength(ids[1..], all - {ids[0]});
    }
  }

  /** Adding a channel that has the key, to an entry that lists only channels that have it. */
  lemma AddAloneAt(channels: Channels, entries: Entries, key: Key, id: Id)
    requires Bounded(entries)
    requires id in Having(channels, key)
    requires forall other | other in LookupIds(entries, key) :: other in Having(channels, key)
    requires |Having(channels, key)| <= MAX_LOOKUP_CHANNELS
    ensures Bounded(AddAlone(channels, entries, key, id))
    ensures forall other :: other in LookupIds(AddAlone(channels, entries, key, id), key)
              <==> other in LookupIds(entries, key) || other == id
    ensures forall k | k != key :: LookupIds(AddAlone(channels, entries, key, id), k) == LookupIds(entries, k)
  {
    var ids := LookupIds(entries, key);
    var closed := Closed(channels, ids);
    UpdatesKeepBounds(entries, key, id, closed);
    assert closed == {};
    if id !in ids {
      WithoutKeepsDistinct(ids, closed);
      var listed := [id] + Without(ids, closed);
      assert Distinct(listed);
      DistinctLength(listed, Having(channels, key));
    }
  }

  lemma AddAloneElsewhere(channels: Channels, entries: Entries, key: Key, id: Id, elsewhere: Key)
    requires elsewhere != key
    ensures LookupIds(AddAlone(channels, entries, key, id), elsewhere) == LookupIds(entries, elsewhere)
  {
  }

  lemma {:induction false} AddAllKeepsBounds(channels: Channels, entries: Entries, keys: seq<Key>, id: Id)
    requires Bounded(entries)
    ensures Bounded(AddAll(channels, entries, keys, id))
    decreases |keys|
  {
    if keys != [] {
      UpdatesKeepBounds(entries, keys[0], id, Closed(channels, LookupIds(entries, keys[0])));
      AddAllKeepsBounds(channels, AddAlone(channels, entries, keys[0], id), keys[1..], id);
    }
  }

  /** Adding a channel under several keys, seen at one key: the others may be as full as they like. */
  lemma {:induction false} AddAllAt(channels: Channels, entries: Entries, keys: seq<Key>, id: Id, key: Key)
    requires Bounded(entries)
    requires forall k | k in keys :: id in Having(channels, k)
    requires key in keys ==> FitsAt(channels, key) && forall other | other in LookupIds(entries, key) :: other in Having(channels, key)
    ensures forall other :: other in LookupIds(AddAll(channels, entries, keys, id), key)
              <==> other in LookupIds(entries, key) || (other == id && key in keys)
    decreases |keys|
  {
    hide AddAlone, Having;
    if keys != [] {
      assert keys[0] in keys && forall k | k in keys[1..] :: k in keys;
      UpdatesKeepBounds(entries, keys[0], id, Closed(channels, LookupIds(entries, keys[0])));
      AddAloneKeepsBounds(channels, entries, keys[0], id);
      if keys[0] == key {
        AddAloneAt(channels, entries, key, id);
      } else {
        AddAloneElsewhere(channels, entries, keys[0], id, key);
      }
      AddAllAt(channels, AddAlone(channels, entries, keys[0], id), keys[1..], id, key);
    }
  }

  lemma AddAloneKeepsBounds(channels: Channels, entries: Entries, key: Key, id: Id)
    requires Bounded(entries)
    ensures Bounded(AddAlone(channels, entries, key, id))
  {
    UpdatesKeepBounds(entries, key, id, Closed(channels, LookupIds(entries, key)));
  }

  lemma SyncKeepsBounds(channels: Channels, entries: Entries, id: Id, previous: Option<Channel>, next: Option<Channel>,
                        failed: set<Key>)
    requires Bounded(entries)
    ensures Bounded(Synced(channels, entries, id, previous, next, failed))
  {
    var after := LookupKeys(next);
    var dropped := Except(Dropped(LookupKeys(previous), after), failed);
    RemoveAllKeepsBounds(entries, dropped, id);
    AddAllKeepsBounds(channels, RemoveAll(entries, dropped, id), Except(after, failed), id);
  }

  /** What a write and its sync do to one entry that is exact for the other channels, when some entry
      updates fail: nothing to the others, and the channel's own place is put right unless this
      entry's update failed or the write does not concern it. */
  lemma SyncAt(channels: Channels, entries: Entries, id: Id, next: Option<Channel>, failed: set<Key>, key: Key)
    requires Bounded(entries) && OthersAgreeAt(channels, entries, key, id) && FitsAt(Written(channels, id, next), key)
    ensures
      var written := Written(channels, id, next);
      var before := LookupKeys(ChannelAt(channels, id));
      var after := LookupKeys(next);
      var synced := Synced(written, entries, id, ChannelAt(channels, id), next, failed);
      && OthersAgreeAt(written, synced, key, id)
      && (id in LookupIds(synced, key) <==>
            if key in failed then id in LookupIds(entries, key)
            else key in after || (id in LookupIds(entries, key) && key !in before))
  {
    var written := Written(channels, id, next);
    var after := LookupKeys(next);
    var before := LookupKeys(ChannelAt(channels, id));
    var dropped := Except(Dropped(before, after), failed);
    var added := Except(after, failed);
    var removed := RemoveAll(entries, dropped, id);
    HavingWritten(channels, id, next);
    hide LookupKeys, Written, Having, RemoveAll, AddAll, Except, Dropped;
    RemoveAllAt(entries, dropped, id, key);
    RemoveAllKeepsBounds(entries, dropped, id);
    AddAllAt(written, removed, added, id, key);
  }

  /** One write and its sync keep the entry of every key that has room exact, however full others are. */
  lemma WriteKeepsAgreement(channels: Channels, entries: Entries, id: Id, next: Option<Channel>, key: Key)
    requires Bounded(entries) && AgreesAt(channels, entries, key) && FitsAt(Written(channels, id, next), key)
    ensures
      var written := Written(channels, id, next);
      AgreesAt(written, Synced(written, entries, id, ChannelAt(channels, id), next, {}), key)
  {
    HavingWritten(channels, id, next);
    hide LookupKeys, Written, Having, Synced;
    SyncAt(channels, entries, id, next, {}, key);
  }

  /** A sync whose entry updates failed is repaired by the channel's next write: a missing entry is
      put in, and the entry is exact again unless a removal failed that the next write does not
      make up for. */
  lemma NextWriteRepairs(channels: Channels, entries: Entries, id: Id, first: Option<Channel>, failed: set<Key>,
                         second: Option<Channel>, key: Key)
    requires Bounded(entries) && AgreesAt(channels, entries, key)
    requires FitsAt(Written(channels, id, first), key) && FitsAt(Written(Written(channels, id, first), id, second), key)
    ensures
      var before := LookupKeys(ChannelAt(channels, id));
      var c1 := Written(channels, id, first);
      var e1 := Synced(c1, entries, id, ChannelAt(channels, id), first, failed);
      var c2 := Written(c1, id, second);
      var e2 := Synced(c2, e1, id, first, second, {});
      && (AgreesAt(c1, e1, key) <==> !(key in failed && (key in before) != (key in LookupKeys(first))))
      && (AgreesAt(c2, e2, key) <==>
            !(key in failed && key in before && key !in LookupKeys(first) && key !in LookupKeys(second)))
  {
    var c1 := Written(channels, id, first);
    var e1 := Synced(c1, entries, id, ChannelAt(channels, id), first, failed);
    HavingWritten(channels, id, first);
    HavingWritten(c1, id, second);
    assert ChannelAt(c1, id) == first;
    hide LookupKeys, Written, Having, Synced;
    SyncAt(channels, entries, id, first, failed, key);
    SyncKeepsBounds(c1, entries, id, ChannelAt(channels, id), first, failed);
    SyncAt(c1, e1, id, second, {}, key);
  }

  /** A write changes which keys its own channel has, and no other's. */
  lemma HavingWritten(channels: Channels, id: Id, next: Option<Channel>)
    ensures forall key :: id in Having(channels, key) <==> key in LookupKeys(ChannelAt(channels, id))
    ensures forall key :: id in Having(Written(channels, id, next), key) <==> key in LookupKeys(next)
    ensures forall key, other | other != id ::
              other in Having(Written(channels, id, next), key) <==> other in Having(channels, key)
  {
  }

  /** Without room for all its channels, an entry cannot list them. */
  lemma AgreementNeedsRoom(channels: Channels, entries: Entries, key: Key)
    requires Bounded(entries) && AgreesAt(channels, entries, key)
    ensures FitsAt(channels, key)
  {
    SetLength(LookupIds(entries, key), Having(channels, key));
  }

  lemma {:induction false} SetLength(ids: seq<Id>, all: set<Id>)
    requires forall id | id in all :: id in ids
    ensures |all| <= |ids|
  {
    if ids == [] {
      assert all == {};
    } else {
      SetLength(ids[1..], all - {ids[0]});
    }
  }

  /** One after another, writes of channels and their syncs. */
  datatype ChannelWrite = ChannelWrite(id: Id, next: Option<Channel>)

  function ChannelsAfter(writes: seq<ChannelWrite>): Channels {
    if writes == [] then map[]
    else
      var last := writes[|writes| - 1];
      Written(ChannelsAfter(writes[..|writes| - 1]), last.id, last.next)
  }

  function EntriesAfter(writes: seq<ChannelWrite>): Entries {
    if writes == [] then map[]
    else
      var last := writes[|writes| - 1];
      var channels := ChannelsAfter(writes[..|writes| - 1]);
      Synced(Written(channels, last.id, last.next), EntriesAfter(writes[..|writes| - 1]),
             last.id, ChannelAt(channels, last.id), last.next, {})
  }

  lemma {:induction false} EntriesAfterAreBounded(writes: seq<ChannelWrite>)
    ensures Bounded(EntriesAfter(writes))
  {
    if writes != [] {
      var last := writes[|writes| - 1];
      var before := writes[..|writes| - 1];
      var channels := ChannelsAfter(before);
      EntriesAfterAreBounded(before);
      SyncKeepsBounds(Written(channels, last.id, last.next), EntriesAfter(before), last.id,
                      ChannelAt(channels, last.id), last.next, {});
    }
  }

  /** The entry of a key is exact after every write of the sequence. */
  ghost predicate AlwaysAgrees(writes: seq<ChannelWrite>, key: Key) {
    forall n | 0 <= n <= |writes| :: AgreesAt(ChannelsAfter(writes[..n]), EntriesAfter(writes[..n]), key)
  }

  /** The key never has more channels than fit. */
  ghost predicate AlwaysFits(writes: seq<ChannelWrite>, key: Key) {
    forall n | 0 <= n <= |writes| :: FitsAt(ChannelsAfter(writes[..n]), key)
  }

  /** Key by key, and whatever other keys do: an entry stays exact for as long as the key's channels
      fit into it, and no longer. */
  lemma IndexAgreesExactlyWhileItFits(writes: seq<ChannelWrite>, key: Key)
    ensures AlwaysAgrees(writes, key) <==> AlwaysFits(writes, key)
  {
    hide AgreesAt, FitsAt;
    if AlwaysFits(writes, key) {
      forall n | 0 <= n <= |writes|
        ensures AgreesAt(ChannelsAfter(writes[..n]), EntriesAfter(writes[..n]), key)
      {
        AgreesWhileItFits(writes, n, key);
      }
    }
    if AlwaysAgrees(writes, key) {
      forall n | 0 <= n <= |writes|
        ensures FitsAt(ChannelsAfter(writes[..n]), key)
      {
        EntriesAfterAreBounded(writes[..n]);
        AgreementNeedsRoom(ChannelsAfter(writes[..n]), EntriesAfter(writes[..n]), key);
      }
    }
  }

  lemma {:induction false} AgreesWhileItFits(writes: seq<ChannelWrite>, n: nat, key: Key)
    requires n <= |writes|
    requires forall k | 0 <= k <= n :: FitsAt(ChannelsAfter(writes[..k]), key)
    ensures AgreesAt(ChannelsAfter(writes[..n]), EntriesAfter(writes[..n]), key)
  {
    if n > 0 {
      hide AgreesAt, FitsAt, Synced, Written;
      AgreesWhileItFits(writes, n - 1, key);
      EntriesAfterAreBounded(writes[..n - 1]);
      assert writes[..n][..n - 1] == writes[..n - 1];
      assert FitsAt(ChannelsAfter(writes[..n]), key);
      var last := writes[n - 1];
      WriteKeepsAgreement(ChannelsAfter(writes[..n - 1]), EntriesAfter(writes[..n - 1]), last.id, last.next, key);
    }
  }
}
