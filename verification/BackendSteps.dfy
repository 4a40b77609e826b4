/** The operations of the backing stores are the steps of the interleavings: what module StoreBackends
    proves of each store's methods is what modules AtomicStore and Claims take as one step. */
module BackendSteps {
  import opened Basics
  import opened Text
  import opened StoredValues
  import AtomicStore
  import Claims

  /** A client's swap step at a Durable Object: the object's compare-and-swap on the value its callback
      saw, from which a lost one goes on with the value found. */
  lemma ObjectSwapIsTheStep(codec: Codec, w: AtomicStore.World, id: nat)
    requires id in w.clients && w.clients[id].phase.Swapping?
    ensures
      var c := w.clients[id];
      var value := Target(codec, c.call.fn(codec.Read(c.phase.raw), c.phase.moment));
      var swapped := SwapIn(w.store, c.call.key, c.phase.raw, value);
      var after := AtomicStore.AfterSwap(codec, AtomicStore.DurableObject, w, id);
      && after.store == swapped.store
      && (after.clients[id].phase.Returned? <==> swapped.applied)
      && (after.clients[id].phase.Running? ==> after.clients[id].phase.raw == Look(swapped.store, c.call.key))
  {
  }

  /** A client's swap step at a SQL table: the statements' compare-and-swap, after a lost one of which
      the value is read anew. */
  lemma SqlSwapIsTheStep(codec: Codec, w: AtomicStore.World, id: nat)
    requires id in w.clients && w.clients[id].phase.Swapping?
    ensures
      var c := w.clients[id];
      var value := Target(codec, c.call.fn(codec.Read(c.phase.raw), c.phase.moment));
      var swapped := SqlSwapIn(w.store, c.call.key, c.phase.raw, value);
      var after := AtomicStore.AfterSwap(codec, AtomicStore.Sql, w, id);
      && after.store == swapped.store
      && (after.clients[id].phase.Returned? <==> swapped.applied)
      && !after.clients[id].phase.Running?
  {
  }

  /** The claim requests of the interleavings are the stores' claims. */
  lemma ClaimIsTheRequest(codec: Codec, w: AtomicStore.World, backend: AtomicStore.Backend, key: Text, expires: Expiry,
                          checked: int, decided: int)
    ensures
      var stored := Look(w.store, key);
      var free := if backend.Sql? then RowClaimable(codec, stored, decided) else Claimable(codec, stored, decided);
      var claimed := ClaimIn(codec, w.store, key, expires, checked, free);
      var after := AtomicStore.AfterServe(codec, backend, w, AtomicStore.Claim(key, expires, checked, decided));
      && after.store == claimed.store
      && after.plain[|w.plain|].reply == AtomicStore.Claimed(claimed.applied)
  {
  }

  /** The claims whose exclusivity is proved are the stores' claims on one key. */
  lemma ClaimIsTheKind(codec: Codec, store: Contents, key: Text, w: Claims.World, kind: Claims.Kind, expires: Expiry)
    requires codec.Valid() && w.stored == Look(store, key) && Claims.Enabled(w, Claims.Claim(kind, expires))
    ensures
      var claimed := match kind
        case Memory => ClaimIn(codec, store, key, expires, w.now, Claimable(codec, w.stored, w.now))
        case Object(checked) => ClaimIn(codec, store, key, expires, checked, Claimable(codec, w.stored, w.now))
        case Statement(checked, captured) => ClaimIn(codec, store, key, expires, checked, RowClaimable(codec, w.stored, captured))
        case Fallback(moment) => ClaimIn(codec, store, key, expires, moment, Claimable(codec, w.stored, moment));
      var after := Claims.Next(codec, w, Claims.Claim(kind, expires));
      && after.stored == Look(claimed.store, key)
      && |after.wins| == |w.wins| + (if claimed.applied then 1 else 0)
  {
    if expires.Finite? {
      assert MarkerRaw(codec, expires.time).Some? by { assert codec.expiryOf(codec.marker(expires.time)) == Some(expires.time); }
    }
  }
}
