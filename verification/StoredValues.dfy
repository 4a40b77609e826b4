/** What every store shares: stored values, their encodings, changes and replay markers (src/Store.ts:30-146). */
module StoredValues {
  import opened Basics
  import opened Text

  /** The stored form of a value: JSON text, or a structured-clone value up to structural equality. */
  type Raw(==, !new)

  /** A value handed to callers; JavaScript's `null` is `None` of an option of it. */
  type Value(==, !new)

  /** What an update hands back to its caller. */
  type Answer(==, !new)

  datatype Codec = Codec(
    decode: Raw -> Option<Value>,
    encode: Option<Value> -> Option<Raw>,
    marker: int -> Value,
    expiryOf: Value -> Option<int>)
  {
    /** A written marker reads back as the marker it was. */
    ghost predicate Valid() {
      forall e: int {:trigger marker(e)} ::
        && encode(Some(marker(e))).Some?
        && decode(encode(Some(marker(e))).value) == Some(marker(e))
        && expiryOf(marker(e)) == Some(e)
    }

    /** JSON text: every value has one, and reads back. */
    ghost predicate Textual() {
      && Valid()
      && forall value {:trigger encode(value)} :: encode(value).Some? && decode(encode(value).value) == value
    }

    /** Every value written reads back, `null` as itself or as an absent key. */
    ghost predicate ReadsBack() {
      forall value {:trigger encode(value)} :: Read(encode(value)) == value
    }

    /** The value callers see: `null` for an absent key. */
    function Read(raw: Option<Raw>): Option<Value> {
      if raw.None? then None else decode(raw.value)
    }

    /** The expiry of a stored replay marker. */
    function MarkerExpiry(raw: Option<Raw>): Option<int> {
      var value := Read(raw);
      if value.None? then None else expiryOf(value.value)
    }
  }

  datatype Change =
    | Noop(result: Answer)
    | Set(value: Option<Value>, result: Answer)
    | Delete(result: Answer)

  /** The text a change swaps in, `null` to delete. */
  function Target(codec: Codec, change: Change): Option<Raw> {
    if change.Set? then codec.encode(change.value) else None
  }

  /** What a change leaves at a key that held `before`. */
  function Applied(codec: Codec, change: Change, before: Option<Raw>): Option<Raw> {
    if change.Noop? then before else Target(codec, change)
  }

  // ---- One map of keys ------------------------------------------------------

  type Contents = map<Text, Raw>

  function Look(store: Contents, key: Text): Option<Raw> {
    if key in store then Some(store[key]) else None
  }

  function Store(store: Contents, key: Text, value: Option<Raw>): Contents {
    if value.Some? then store[key := value.value] else store - {key}
  }

  // ---- Replay claims --------------------------------------------------------

  /** A JavaScript number as a claim's expiry. */
  datatype Expiry = Finite(time: int) | NotFinite

  predicate InFuture(expires: Expiry, now: int) {
    expires.Finite? && expires.time > now
  }

  /** Whether a key may be claimed: it reads as `null`, or holds a marker that has expired. */
  predicate Claimable(codec: Codec, stored: Option<Raw>, now: int) {
    || codec.Read(stored).None?
    || (codec.MarkerExpiry(stored).Some? && codec.MarkerExpiry(stored).value <= now)
  }

  function MarkerRaw(codec: Codec, expires: int): Option<Raw> {
    codec.encode(Some(codec.marker(expires)))
  }

  /** The one-statement claim's condition: no row, or one whose expiry has passed. */
  predicate RowClaimable(codec: Codec, stored: Option<Raw>, now: int) {
    || stored.None?
    || (codec.MarkerExpiry(stored).Some? && codec.MarkerExpiry(stored).value <= now)
  }

  // ---- What the operations of a store do ------------------------------------

  /** Whether a compare-and-swap applied, and the contents it leaves. */
  datatype Swapped = Swapped(applied: bool, store: Contents)

  function SwapIn(store: Contents, key: Text, expected: Option<Raw>, value: Option<Raw>): Swapped {
    if Look(store, key) == expected then Swapped(true, Store(store, key, value)) else Swapped(false, store)
  }

  /** With SQL, deleting what was read as absent sends no statement. */
  function SqlSwapIn(store: Contents, key: Text, expected: Option<Raw>, value: Option<Raw>): Swapped {
    if expected.None? && value.None? then Swapped(true, store) else SwapIn(store, key, expected, value)
  }

  /** A claim whose guard read the clock at `checked`: if it wins, its marker is stored. */
  function ClaimIn(codec: Codec, store: Contents, key: Text, expires: Expiry, checked: int, free: bool): Swapped {
    if InFuture(expires, checked) && free then Swapped(true, Store(store, key, MarkerRaw(codec, expires.time)))
    else Swapped(false, store)
  }
}
