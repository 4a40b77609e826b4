/** The stores that hold the values: the in-memory map, one Durable Object and a SQL table, each
    doing the operations its callers rely on (src/Store.ts:943-993, 1038-1060, 1204-1283, 1430-1463). */
module StoreBackends {
  import opened Basics
  import opened Text
  import opened StoredValues

  /** `memory`: every operation runs without waiting. */
  class MemoryStore {
    const codec: Codec
    var store: Contents

    constructor (codec: Codec)
      requires codec.Textual()
      ensures Valid() && store == map[] && this.codec == codec
    {
      this.codec, store := codec, map[];
    }

    ghost predicate Valid() {
      codec.Textual()
    }

    method Get(key: Text) returns (value: Option<Value>)
      ensures value == codec.Read(Look(store, key))
    {
      if key !in store { return None; }
      value := codec.decode(store[key]);
    }

    method Put(key: Text, value: Option<Value>)
      requires Valid()
      modifies this
      ensures store == StoredValues.Store(old(store), key, codec.encode(value))
      ensures codec.Read(Look(store, key)) == value
    {
      store := store[key := codec.encode(value).value];
    }

    method Delete(key: Text)
      modifies this
      ensures store == StoredValues.Store(old(store), key, None)
    {
      store := store - {key};
    }

    method Update(key: Text, fn: Option<Value> -> Change) returns (result: Answer)
      requires Valid()
      modifies this
      ensures
        var change := fn(codec.Read(Look(old(store), key)));
        && result == change.result
        && store == StoredValues.Store(old(store), key, Applied(codec, change, Look(old(store), key)))
      ensures
        match fn(codec.Read(Look(old(store), key)))
        case Noop(_) => store == old(store)
        case Set(value, _) => store - {key} == old(store) - {key} && codec.Read(Look(store, key)) == value
        case Delete(_) => store == old(store) - {key}
    {
      var current := if key in store then codec.decode(store[key]) else None;
      var change := fn(current);
      if change.Set? { store := store[key := codec.encode(change.value).value]; }
      if change.Delete? { store := store - {key}; }
      result := change.result;
    }

    method TryClaim(key: Text, expires: Expiry, now: int) returns (claimed: bool)
      requires Valid()
      modifies this
      ensures Swapped(claimed, store)
           == ClaimIn(codec, old(store), key, expires, now, Claimable(codec, Look(old(store), key), now))
    {
      if expires.NotFinite? || expires.time <= now { return false; }
      var current := if key in store then codec.decode(store[key]) else None;
      if current.Some? && (codec.expiryOf(current.value).None? || codec.expiryOf(current.value).value > now) {
        return false;
      }
      store := store[key := codec.encode(Some(codec.marker(expires.time))).value];
      return true;
    }
  }

  /** One Durable Object. Its input gate makes each operation atomic. */
  class StoreObject {
    const codec: Codec
    var storage: Contents

    constructor (codec: Codec)
      ensures storage == map[] && this.codec == codec
    {
      this.codec, storage := codec, map[];
    }

    /** Writes or deletes (`None`) a key. */
    method Commit(key: Text, value: Option<Raw>)
      modifies this
      ensures storage == StoredValues.Store(old(storage), key, value)
    {
      if value.None? { storage := storage - {key}; } else { storage := storage[key := value.value]; }
    }

    method StoreGet(key: Text) returns (raw: Option<Raw>)
      ensures raw == Look(storage, key)
    {
      raw := if key in storage then Some(storage[key]) else None;
    }

    method StoreSwap(key: Text, expected: Option<Raw>, value: Option<Raw>)
      returns (applied: bool, current: Option<Raw>)
      modifies this
      ensures Swapped(applied, storage) == SwapIn(old(storage), key, expected, value)
      ensures !applied ==> current == Look(storage, key)
    {
      current := StoreGet(key);
      if current != expected { return false, current; }
      Commit(key, value);
      return true, current;
    }

    /** The clock is read before the value is fetched and again after. */
    method StoreClaim(key: Text, expires: Expiry, before: int, now: int) returns (claimed: bool)
      requires codec.Valid()
      modifies this
      ensures Swapped(claimed, storage)
           == ClaimIn(codec, old(storage), key, expires, before, Claimable(codec, Look(old(storage), key), now))
    {
      if expires.NotFinite? || expires.time <= before { return false; }
      var raw := StoreGet(key);
      var current := codec.Read(raw);
      if current.Some? && (codec.expiryOf(current.value).None? || codec.expiryOf(current.value).value > now) {
        return false;
      }
      Commit(key, codec.encode(Some(codec.marker(expires.time))));
      return true;
    }
  }

  datatype Row = Row(value: Raw, expires: Option<int>)

  /** `sql`: one table, and one statement per write. */
  class SqlTable {
    const codec: Codec
    var rows: map<Text, Row>

    constructor (codec: Codec)
      requires codec.Textual()
      ensures Valid() && Values() == map[] && this.codec == codec
    {
      this.codec, rows := codec, map[];
    }

    /** Every row's `expires` column is the expiry of the replay marker in its value, else null. */
    ghost predicate Valid()
      reads this
    {
      && codec.Textual()
      && forall key | key in rows :: rows[key].expires == codec.MarkerExpiry(Some(rows[key].value))
    }

    /** The one map of keys the table stands for. */
    ghost function Values(): Contents
      reads this
    {
      map key | key in rows :: rows[key].value
    }

    function ExpiresOf(raw: Raw): Option<int> {
      var value := codec.decode(raw);
      if value.Some? then codec.expiryOf(value.value) else None
    }

    method Read(key: Text) returns (raw: Option<Raw>)
      ensures raw == Look(Values(), key)
    {
      raw := if key in rows then Some(rows[key].value) else None;
    }

    /** `INSERT … ON CONFLICT DO NOTHING`, `DELETE … WHERE value = ?` or `UPDATE … WHERE value = ?`. */
    method Swap(key: Text, expected: Option<Raw>, value: Option<Raw>) returns (applied: bool)
      requires Valid()
      modifies this
      ensures Valid()
      ensures Swapped(applied, Values()) == SqlSwapIn(old(Values()), key, expected, value)
    {
      if expected.None? {
        if value.None? { return true; }
        if key in rows { return false; }
        rows := rows[key := Row(value.value, ExpiresOf(value.value))];
        return true;
      } else if value.None? {
        if key !in rows || rows[key].value != expected.value { return false; }
        rows := rows - {key};
        return true;
      } else {
        if key !in rows || rows[key].value != expected.value { return false; }
        rows := rows[key := Row(value.value, ExpiresOf(value.value))];
        return true;
      }
    }

    method Put(key: Text, value: Option<Value>)
      requires Valid()
      modifies this
      ensures Valid()
      ensures Values() == StoredValues.Store(old(Values()), key, codec.encode(value))
      ensures codec.Read(Look(Values(), key)) == value
    {
      var raw := codec.encode(value).value;
      rows := rows[key := Row(raw, ExpiresOf(raw))];
    }

    method Delete(key: Text)
      requires Valid()
      modifies this
      ensures Valid()
      ensures Values() == StoredValues.Store(old(Values()), key, None)
    {
      rows := rows - {key};
    }

    /** The marker is inserted, or replaces a row whose `expires` column has passed `captured`, the
        clock reading sent with the statement. `before` and `after` are the guard's own readings. */
    method TryClaim(key: Text, expires: Expiry, before: int, captured: int, after: int) returns (claimed: bool)
      requires Valid()
      modifies this
      ensures Valid()
      ensures
        var won := ClaimIn(codec, old(Values()), key, expires, before,
                           RowClaimable(codec, Look(old(Values()), key), captured));
        && Values() == won.store
        && claimed == (won.applied && expires.time > after)
    {
      if expires.NotFinite? || expires.time <= before { return false; }
      var marker := Row(codec.encode(Some(codec.marker(expires.time))).value, Some(expires.time));
      if key in rows && !(rows[key].expires.Some? && rows[key].expires.value <= captured) { return false; }
      rows := rows[key := marker];
      return expires.time > after;
    }
  }
}
