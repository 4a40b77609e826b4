/** Structural equality of stored value graphs (`deepEqual` and `assertComparable` in src/Store.ts).

    A graph is a heap of objects and a value that may refer to one of them; cycles and aliases are
    allowed. The two compared graphs have heaps of their own, since a value read back from storage
    is a copy. Dates, regular expressions, boxed primitives and buffers are leaves. */
module DeepEqual {
  import opened Basics

  type Address = nat

  datatype Number = NaN | NegativeZero | Infinite(negative: bool) | Finite(value: real)

  datatype Primitive = Undefined | Null | Boolean(b: bool) | Numeric(n: Number) | Text(s: string) | BigInt(i: int)

  datatype Value = Prim(p: Primitive) | Ref(to: Address)

  /** An own property, a map entry, or a set member (whose item is `undefined`). */
  datatype Entry = Entry(key: Value, item: Value)

  /** An object's tag, with what it compares besides its entries. */
  datatype Shape =
    | ArrayShape(length: nat)
    | PlainShape
    | MapShape
    | SetShape
    | LeafShape(tag: string, content: string)
    | OtherShape(tag: string)

  datatype Object = Object(shape: Shape, entries: seq<Entry>)

  type Heap = map<Address, Object>

  predicate InHeap(h: Heap, v: Value) {
    v.Ref? ==> v.to in h
  }

  /** Every item refers into the heap. */
  ghost predicate Closed(h: Heap) {
    forall x, i :: x in h && 0 <= i < |h[x].entries| ==> InHeap(h, h[x].entries[i].item)
  }

  /** How maps and sets match keys: NaN is itself and the two zeros are one. */
  predicate SameValueZero(a: Primitive, b: Primitive) {
    a == b || (IsZero(a) && IsZero(b))
  }

  /** JavaScript's `===` on primitives. */
  predicate StrictlyEqual(a: Primitive, b: Primitive) {
    match (a, b)
    case (Numeric(NaN), _) => false
    case (_, Numeric(NaN)) => false
    case (Numeric(NegativeZero), Numeric(Finite(x))) => x == 0.0
    case (Numeric(Finite(x)), Numeric(NegativeZero)) => x == 0.0
    case _ => a == b
  }

  /** The match is `===`, but that what does not equal itself, NaN, matches itself. */
  lemma SameValueZeroIs(a: Primitive, b: Primitive)
    ensures SameValueZero(a, b) <==> StrictlyEqual(a, b) || (!StrictlyEqual(a, a) && !StrictlyEqual(b, b))
  {
  }

  predicate IsZero(p: Primitive) {
    p == Numeric(NegativeZero) || p == Numeric(Finite(0.0))
  }

  predicate SameKey(a: Value, b: Value) {
    a.Prim? && b.Prim? && SameValueZero(a.p, b.p)
  }

  // ---- The comparison --------------------------------------------------------

  /** The objects paired so far, both ways. */
  datatype Pairs = Pairs(left: map<Address, Address>, right: map<Address, Address>)

  const NoPairs := Pairs(map[], map[])

  datatype Outcome = Equal(pairs: Pairs) | Different | Throws

  function Compare(l: Heap, r: Heap, a: Value, b: Value, pairs: Pairs): (outcome: Outcome)
    requires Closed(l) && Closed(r) && InHeap(l, a) && InHeap(r, b)
    ensures outcome.Equal? ==> pairs.left.Keys <= outcome.pairs.left.Keys
    decreases l.Keys - pairs.left.Keys, 0
  {
    if a.Prim? && b.Prim? then
      if SameValueZero(a.p, b.p) then Equal(pairs) else Different
    else if a.Prim? || b.Prim? then Different
    else if a.to in pairs.left || b.to in pairs.right then
      if a.to in pairs.left && pairs.left[a.to] == b.to && b.to in pairs.right && pairs.right[b.to] == a.to then Equal(pairs)
      else Different
    else
      var x, y := l[a.to], r[b.to];
      if x.shape != y.shape then Different
      else if x.shape.OtherShape? then Throws
      else if |x.entries| != |y.entries| then Different
      else
        assert a.to in l.Keys - pairs.left.Keys;
        CompareEntries(l, r, x.entries, y.entries, Paired(pairs, a.to, b.to))
  }

  function Paired(pairs: Pairs, x: Address, y: Address): Pairs {
    Pairs(pairs.left[x := y], pairs.right[y := x])
  }

  function CompareEntries(l: Heap, r: Heap, xs: seq<Entry>, ys: seq<Entry>, pairs: Pairs): (outcome: Outcome)
    requires Closed(l) && Closed(r) && |xs| == |ys|
    requires forall i :: 0 <= i < |xs| ==> InHeap(l, xs[i].item) && InHeap(r, ys[i].item)
    ensures outcome.Equal? ==> pairs.left.Keys <= outcome.pairs.left.Keys
    decreases l.Keys - pairs.left.Keys, 1 + |xs|
  {
    if xs == [] then Equal(pairs)
    else if xs[0].key.Ref? then Throws
    else if !SameKey(xs[0].key, ys[0].key) then Different
    else
      var first := Compare(l, r, xs[0].item, ys[0].item, pairs);
      if first.Equal? then CompareEntries(l, r, xs[1..], ys[1..], first.pairs) else first
  }

  // ---- What it means ---------------------------------------------------------

  /** Two values correspond under a mapping of objects. */
  predicate Matched(f: map<Address, Address>, a: Value, b: Value) {
    match (a, b)
    case (Prim(p), Prim(q)) => SameValueZero(p, q)
    case (Ref(x), Ref(y)) => x in f && f[x] == y
    case _ => false
  }

  predicate MatchedEntry(f: map<Address, Address>, e: Entry, e': Entry) {
    SameKey(e.key, e'.key) && Matched(f, e.item, e'.item)
  }

  ghost predicate MatchedEntries(f: map<Address, Address>, xs: seq<Entry>, ys: seq<Entry>) {
    |xs| == |ys| && forall i :: 0 <= i < |xs| ==> MatchedEntry(f, xs[i], ys[i])
  }

  /** Two objects agree in kind, length or content, key order, keys, and items up to the mapping. */
  ghost predicate MatchedObjects(f: map<Address, Address>, x: Object, y: Object) {
    x.shape == y.shape && !x.shape.OtherShape? && MatchedEntries(f, x.entries, y.entries)
  }

  ghost predicate Edge(h: Heap, x: Address, y: Address) {
    x in h && exists i :: 0 <= i < |h[x].entries| && h[x].entries[i].item == Ref(y)
  }

  /** `path` leads from `v` to the object at `x` along items. */
  ghost predicate IsPath(h: Heap, v: Value, path: seq<Address>, x: Address) {
    && path != [] && v == Ref(path[0]) && path[|path| - 1] == x
    && forall i :: 0 <= i < |path| - 1 ==> Edge(h, path[i], path[i + 1])
  }

  ghost predicate Reachable(h: Heap, v: Value, x: Address) {
    x in h && exists path :: IsPath(h, v, path, x)
  }

  ghost function Reach(h: Heap, v: Value): set<Address> {
    set x | x in h && Reachable(h, v, x)
  }

  ghost predicate OneToOne(f: map<Address, Address>) {
    forall x, x' :: x in f && x' in f && f[x] == f[x'] ==> x == x'
  }

  /** A one-to-one mapping that pairs objects agreeing in all they hold. */
  ghost predicate Matching(l: Heap, r: Heap, f: map<Address, Address>) {
    OneToOne(f) && forall x :: x in f ==> x in l && f[x] in r && MatchedObjects(f, l[x], r[f[x]])
  }

  /** A one-to-one mapping of the objects reachable from `a` onto those reachable from `b` that
      preserves kind, key order, primitives and aliasing. */
  ghost predicate Isomorphism(l: Heap, r: Heap, a: Value, b: Value, f: map<Address, Address>) {
    Matching(l, r, f) && Matched(f, a, b) && f.Keys == Reach(l, a) && f.Values == Reach(r, b)
  }

  // ---- Soundness -------------------------------------------------------------

  ghost predicate Inverse(pairs: Pairs) {
    && (forall x :: x in pairs.left ==> pairs.left[x] in pairs.right && pairs.right[pairs.left[x]] == x)
    && (forall y :: y in pairs.right ==> pairs.right[y] in pairs.left && pairs.left[pairs.right[y]] == y)
  }

  ghost predicate Extends(f: map<Address, Address>, g: map<Address, Address>) {
    forall x :: x in f ==> x in g && g[x] == f[x]
  }

  /** The pairs added between `pairs` and `pairs'` agree and are reachable from `a`. */
  ghost predicate Sound(l: Heap, r: Heap, pairs: Pairs, pairs': Pairs, from: iset<Address>) {
    && Inverse(pairs') && Extends(pairs.left, pairs'.left)
    && forall x :: x in pairs'.left && x !in pairs.left ==>
                     x in l && pairs'.left[x] in r && MatchedObjects(pairs'.left, l[x], r[pairs'.left[x]]) && x in from
  }

  ghost function ReachFrom(h: Heap, v: Value): iset<Address> {
    iset x | Reachable(h, v, x)
  }

  lemma {:induction false} CompareIsSound(l: Heap, r: Heap, a: Value, b: Value, pairs: Pairs)
    requires Closed(l) && Closed(r) && InHeap(l, a) && InHeap(r, b) && Inverse(pairs)
    requires Compare(l, r, a, b, pairs).Equal?
    ensures Sound(l, r, pairs, Compare(l, r, a, b, pairs).pairs, ReachFrom(l, a))
    ensures Matched(Compare(l, r, a, b, pairs).pairs.left, a, b)
    decreases l.Keys - pairs.left.Keys, 0
  {
    if a.Ref? && a.to !in pairs.left {
      var x, y := l[a.to], r[b.to];
      assert a.to in l.Keys - pairs.left.Keys;
      var paired := Paired(pairs, a.to, b.to);
      EntriesAreSound(l, r, a, x.entries, y.entries, paired);
      assert IsPath(l, a, [a.to], a.to);
      var after := CompareEntries(l, r, x.entries, y.entries, paired).pairs;
      assert Compare(l, r, a, b, pairs).pairs == after;
      hide MatchedEntries, Sound, Compare, CompareEntries;
      NewPairIsSound(l, r, a.to, b.to, pairs, after, ReachFrom(l, a));
    }
  }

  /** The pair of the objects themselves, once their entries match. */
  lemma NewPairIsSound(l: Heap, r: Heap, x: Address, y: Address, pairs: Pairs, after: Pairs, from: iset<Address>)
    requires x in l && y in r && x !in pairs.left && x in from
    requires Sound(l, r, Paired(pairs, x, y), after, from)
    requires l[x].shape == r[y].shape && !l[x].shape.OtherShape? && MatchedEntries(after.left, l[x].entries, r[y].entries)
    ensures Sound(l, r, pairs, after, from)
    ensures Matched(after.left, Ref(x), Ref(y))
  {
    hide MatchedEntries, Inverse;
    assert x in Paired(pairs, x, y).left;
  }

  lemma {:induction false} EntriesAreSound(l: Heap, r: Heap, a: Value, xs: seq<Entry>, ys: seq<Entry>, pairs: Pairs)
    requires Closed(l) && Closed(r) && Inverse(pairs) && |xs| == |ys|
    requires forall i :: 0 <= i < |xs| ==> InHeap(l, xs[i].item) && InHeap(r, ys[i].item)
    requires a.Ref? && a.to in l && forall e :: e in xs ==> e in l[a.to].entries
    requires CompareEntries(l, r, xs, ys, pairs).Equal?
    ensures Sound(l, r, pairs, CompareEntries(l, r, xs, ys, pairs).pairs, ReachFrom(l, a))
    ensures MatchedEntries(CompareEntries(l, r, xs, ys, pairs).pairs.left, xs, ys)
    decreases l.Keys - pairs.left.Keys, 1 + |xs|
  {
    hide Compare, MatchedObjects, Reachable;
    if xs != [] {
      var first := Compare(l, r, xs[0].item, ys[0].item, pairs).pairs;
      CompareIsSound(l, r, xs[0].item, ys[0].item, pairs);
      EntriesAreSound(l, r, a, xs[1..], ys[1..], first);
      assert xs[0] in l[a.to].entries;
      ReachThroughItem(l, a, xs[0].item);
      var last := CompareEntries(l, r, xs[1..], ys[1..], first).pairs;
      SoundThenSound(l, r, pairs, first, last, ReachFrom(l, xs[0].item), ReachFrom(l, a));
      assert Matched(last.left, xs[0].item, ys[0].item);
    }
  }

  /** Pairs added in two steps agree and are reachable as those of each step are. */
  lemma SoundThenSound(l: Heap, r: Heap, pairs: Pairs, first: Pairs, last: Pairs, near: iset<Address>, from: iset<Address>)
    requires Sound(l, r, pairs, first, near) && Sound(l, r, first, last, from)
    requires forall x :: x in near ==> x in from
    ensures Sound(l, r, pairs, last, from)
  {
    hide MatchedObjects;
    forall x | x in last.left && x !in pairs.left
      ensures x in l && last.left[x] in r && MatchedObjects(last.left, l[x], r[last.left[x]]) && x in from
    {
      if x in first.left { MatchedStays(first.left, last.left, l[x], r[first.left[x]]); }
    }
  }

  lemma MatchedStays(f: map<Address, Address>, g: map<Address, Address>, x: Object, y: Object)
    requires Extends(f, g) && MatchedObjects(f, x, y)
    ensures MatchedObjects(g, x, y)
  {
    forall i | 0 <= i < |x.entries|
      ensures MatchedEntry(g, x.entries[i], y.entries[i])
    {
      assert MatchedEntry(f, x.entries[i], y.entries[i]);
    }
  }

  lemma ReachThroughItem(h: Heap, a: Value, item: Value)
    requires a.Ref? && a.to in h && exists e :: e in h[a.to].entries && e.item == item
    ensures forall x :: x in ReachFrom(h, item) ==> x in ReachFrom(h, a)
  {
    forall x | x in ReachFrom(h, item)
      ensures x in ReachFrom(h, a)
    {
      var path :| IsPath(h, item, path, x);
      var longer := [a.to] + path;
      assert Edge(h, a.to, path[0]);
      assert forall i :: 0 <= i < |longer| - 1 ==> Edge(h, longer[i], longer[i + 1]);
      assert IsPath(h, a, longer, x);
    }
  }

  // ---- Completeness ----------------------------------------------------------

  lemma {:induction false} CompareIsComplete(l: Heap, r: Heap, a: Value, b: Value, pairs: Pairs, f: map<Address, Address>)
    requires Closed(l) && Closed(r) && InHeap(l, a) && InHeap(r, b)
    requires Matching(l, r, f) && Inverse(pairs) && Extends(pairs.left, f) && Matched(f, a, b)
    ensures Compare(l, r, a, b, pairs).Equal?
    ensures var after := Compare(l, r, a, b, pairs).pairs; Inverse(after) && Extends(after.left, f)
    decreases l.Keys - pairs.left.Keys, 0
  {
    if a.Ref? && a.to !in pairs.left {
      assert a.to in l.Keys - pairs.left.Keys;
      EntriesAreComplete(l, r, l[a.to].entries, r[b.to].entries, Paired(pairs, a.to, b.to), f);
    }
  }

  lemma {:induction false} EntriesAreComplete(l: Heap, r: Heap, xs: seq<Entry>, ys: seq<Entry>, pairs: Pairs, f: map<Address, Address>)
    requires Closed(l) && Closed(r) && |xs| == |ys|
    requires forall i :: 0 <= i < |xs| ==> InHeap(l, xs[i].item) && InHeap(r, ys[i].item)
    requires Matching(l, r, f) && Inverse(pairs) && Extends(pairs.left, f) && MatchedEntries(f, xs, ys)
    ensures CompareEntries(l, r, xs, ys, pairs).Equal?
    ensures var after := CompareEntries(l, r, xs, ys, pairs).pairs; Inverse(after) && Extends(after.left, f)
    decreases l.Keys - pairs.left.Keys, 1 + |xs|
  {
    if xs != [] {
      assert MatchedEntry(f, xs[0], ys[0]);
      CompareIsComplete(l, r, xs[0].item, ys[0].item, pairs, f);
      var first := Compare(l, r, xs[0].item, ys[0].item, pairs).pairs;
      assert forall i :: 0 <= i < |xs[1..]| ==> MatchedEntry(f, xs[1..][i], ys[1..][i]);
      EntriesAreComplete(l, r, xs[1..], ys[1..], first, f);
    }
  }

  // ---- Reachable objects -----------------------------------------------------

  lemma {:induction false} MatchingCoversPaths(l: Heap, r: Heap, a: Value, b: Value, f: map<Address, Address>, path: seq<Address>, x: Address)
    requires Matching(l, r, f) && Matched(f, a, b) && IsPath(l, a, path, x)
    ensures x in f && Reachable(r, b, f[x])
    decreases |path|
  {
    if |path| == 1 {
      assert IsPath(r, b, [f[x]], f[x]);
    } else {
      var prefix := path[..|path| - 1];
      var before := prefix[|prefix| - 1];
      ShortenPath(l, a, path, x);
      MatchingCoversPaths(l, r, a, b, f, prefix, before);
      var i :| 0 <= i < |l[before].entries| && l[before].entries[i].item == Ref(x);
      assert MatchedEntry(f, l[before].entries[i], r[f[before]].entries[i]);
      LengthenPath(r, b, f[before], f[x]);
    }
  }

  lemma ShortenPath(h: Heap, v: Value, path: seq<Address>, x: Address)
    requires IsPath(h, v, path, x) && |path| > 1
    ensures IsPath(h, v, path[..|path| - 1], path[|path| - 2]) && Edge(h, path[|path| - 2], x)
  {
    var prefix := path[..|path| - 1];
    forall i | 0 <= i < |prefix| - 1
      ensures Edge(h, prefix[i], prefix[i + 1])
    {
      assert Edge(h, path[i], path[i + 1]);
    }
    assert Edge(h, path[|path| - 2], path[|path| - 2 + 1]);
  }

  lemma LengthenPath(h: Heap, v: Value, x: Address, y: Address)
    requires Reachable(h, v, x) && Edge(h, x, y) && y in h
    ensures Reachable(h, v, y)
  {
    var path :| IsPath(h, v, path, x);
    var longer := path + [y];
    assert forall i :: 0 <= i < |longer| - 1 ==> Edge(h, longer[i], longer[i + 1]);
    assert IsPath(h, v, longer, y);
  }

  /** The inverse of a matching is a matching of the other side. */
  lemma InverseMatches(l: Heap, r: Heap, a: Value, b: Value, pairs: Pairs)
    requires Inverse(pairs) && Matching(l, r, pairs.left) && Matched(pairs.left, a, b)
    ensures Matching(r, l, pairs.right) && Matched(pairs.right, b, a)
  {
    forall y | y in pairs.right
      ensures y in r && pairs.right[y] in l && MatchedObjects(pairs.right, r[y], l[pairs.right[y]])
    {
      var x := pairs.right[y];
      assert pairs.left[x] == y;
      forall i | 0 <= i < |r[y].entries|
        ensures MatchedEntry(pairs.right, r[y].entries[i], l[x].entries[i])
      {
        assert MatchedEntry(pairs.left, l[x].entries[i], r[y].entries[i]);
      }
    }
  }

  // ---- The theorem -----------------------------------------------------------

  lemma EqualGivesIsomorphism(l: Heap, r: Heap, a: Value, b: Value)
    requires Closed(l) && Closed(r) && InHeap(l, a) && InHeap(r, b)
    requires Compare(l, r, a, b, NoPairs).Equal?
    ensures Isomorphism(l, r, a, b, Compare(l, r, a, b, NoPairs).pairs.left)
  {
    hide *;
    EqualGivesMatching(l, r, a, b);
    InversePairsAreIsomorphism(l, r, a, b, Compare(l, r, a, b, NoPairs).pairs);
  }

  /** What an equal comparison from no pairs leaves behind. */
  ghost predicate ReachedMatching(l: Heap, r: Heap, a: Value, b: Value, pairs: Pairs) {
    && Inverse(pairs) && Matching(l, r, pairs.left) && Matched(pairs.left, a, b)
    && forall x :: x in pairs.left ==> x in ReachFrom(l, a)
  }

  lemma EqualGivesMatching(l: Heap, r: Heap, a: Value, b: Value)
    requires Closed(l) && Closed(r) && InHeap(l, a) && InHeap(r, b)
    requires Compare(l, r, a, b, NoPairs).Equal?
    ensures ReachedMatching(l, r, a, b, Compare(l, r, a, b, NoPairs).pairs)
  {
    hide Compare, MatchedObjects, Matched, Reachable;
    assert Inverse(NoPairs);
    CompareIsSound(l, r, a, b, NoPairs);
  }

  lemma InversePairsAreIsomorphism(l: Heap, r: Heap, a: Value, b: Value, pairs: Pairs)
    requires ReachedMatching(l, r, a, b, pairs)
    ensures Isomorphism(l, r, a, b, pairs.left)
  {
    hide Matching, Matched, Inverse;
    InverseMatches(l, r, a, b, pairs);
    MatchingIsOnto(l, r, a, b, pairs.left);
    MatchingIsOnto(r, l, b, a, pairs.right);
    InverseValues(pairs);
    hide Reachable;
    forall x
      ensures x in pairs.left.Keys <==> x in Reach(l, a)
    {
    }
    forall y
      ensures y in pairs.left.Values <==> y in Reach(r, b)
    {
    }
  }

  lemma InverseValues(pairs: Pairs)
    requires Inverse(pairs)
    ensures forall y :: y in pairs.right ==> y in pairs.left.Values
    ensures forall y :: y in pairs.left.Values ==> exists x :: x in pairs.left && pairs.left[x] == y
  {
    forall y | y in pairs.right
      ensures y in pairs.left.Values
    {
      assert pairs.left[pairs.right[y]] == y;
    }
  }

  /** A matching covers all that is reachable, and reaches what it maps to. */
  lemma MatchingIsOnto(l: Heap, r: Heap, a: Value, b: Value, f: map<Address, Address>)
    requires Matching(l, r, f) && Matched(f, a, b)
    ensures forall x :: x in Reach(l, a) ==> x in f && f[x] in Reach(r, b)
  {
    forall x | x in Reach(l, a)
      ensures x in f && f[x] in Reach(r, b)
    {
      var path :| IsPath(l, a, path, x);
      MatchingCoversPaths(l, r, a, b, f, path, x);
    }
  }

  /** `deepEqual` returns true exactly when the two graphs are the same graph up to the identity of
      their objects. */
  lemma EqualIffIsomorphic(l: Heap, r: Heap, a: Value, b: Value)
    requires Closed(l) && Closed(r) && InHeap(l, a) && InHeap(r, b)
    ensures Compare(l, r, a, b, NoPairs).Equal? <==> exists f :: Isomorphism(l, r, a, b, f)
  {
    if Compare(l, r, a, b, NoPairs).Equal? {
      EqualGivesIsomorphism(l, r, a, b);
    }
    if f :| Isomorphism(l, r, a, b, f) {
      CompareIsComplete(l, r, a, b, NoPairs, f);
    }
  }

  // ---- Values that can be compared --------------------------------------------

  /** The objects seen, or `None` when a value cannot be compared. */
  function CheckComparable(h: Heap, v: Value, seen: set<Address>): (after: Option<set<Address>>)
    requires Closed(h) && InHeap(h, v)
    ensures after.Some? ==> seen <= after.value
    decreases h.Keys - seen, 0
  {
    if v.Prim? || v.to in seen then Some(seen)
    else if h[v.to].shape.OtherShape? then None
    else
      assert v.to in h.Keys - seen;
      CheckEntries(h, h[v.to].entries, seen + {v.to})
  }

  function CheckEntries(h: Heap, xs: seq<Entry>, seen: set<Address>): (after: Option<set<Address>>)
    requires Closed(h) && forall i :: 0 <= i < |xs| ==> InHeap(h, xs[i].item)
    ensures after.Some? ==> seen <= after.value
    decreases h.Keys - seen, 1 + |xs|
  {
    if xs == [] then Some(seen)
    else if xs[0].key.Ref? then None
    else
      var first := CheckComparable(h, xs[0].item, seen);
      if first.Some? then CheckEntries(h, xs[1..], first.value) else None
  }

  /** An object of a comparable kind whose map keys and set members are primitives. */
  ghost predicate Comparable(o: Object) {
    !o.shape.OtherShape? && forall e :: e in o.entries ==> e.key.Prim?
  }

  /** All objects of `s` are comparable and refer only into `known`. */
  ghost predicate ComparableSet(h: Heap, s: set<Address>, known: set<Address>) {
    forall x :: x in s ==> x in h && Comparable(h[x]) && forall e :: e in h[x].entries ==> (e.item.Ref? ==> e.item.to in known)
  }

  lemma {:induction false} CheckCloses(h: Heap, v: Value, seen: set<Address>)
    requires Closed(h) && InHeap(h, v) && CheckComparable(h, v, seen).Some?
    ensures var after := CheckComparable(h, v, seen).value;
            ComparableSet(h, after - seen, after) && (v.Ref? ==> v.to in after)
    decreases h.Keys - seen, 0
  {
    if v.Ref? && v.to !in seen {
      assert v.to in h.Keys - seen;
      EntriesClose(h, h[v.to].entries, seen + {v.to});
    }
  }

  lemma {:induction false} EntriesClose(h: Heap, xs: seq<Entry>, seen: set<Address>)
    requires Closed(h) && forall i :: 0 <= i < |xs| ==> InHeap(h, xs[i].item)
    requires CheckEntries(h, xs, seen).Some?
    ensures var after := CheckEntries(h, xs, seen).value;
            ComparableSet(h, after - seen, after) && forall e :: e in xs ==> e.key.Prim? && (e.item.Ref? ==> e.item.to in after)
    decreases h.Keys - seen, 1 + |xs|
  {
    if xs != [] {
      CheckCloses(h, xs[0].item, seen);
      var first := CheckComparable(h, xs[0].item, seen).value;
      EntriesClose(h, xs[1..], first);
      assert forall e :: e in xs ==> e == xs[0] || e in xs[1..];
    }
  }

  ghost predicate AllComparable(h: Heap, v: Value) {
    forall x :: Reachable(h, v, x) ==> Comparable(h[x])
  }

  lemma {:induction false} ClosedSetCoversPaths(h: Heap, v: Value, s: set<Address>, path: seq<Address>, x: Address)
    requires ComparableSet(h, s, s) && (v.Ref? ==> v.to in s) && IsPath(h, v, path, x)
    ensures x in s
    decreases |path|
  {
    if |path| > 1 {
      ShortenPath(h, v, path, x);
      ClosedSetCoversPaths(h, v, s, path[..|path| - 1], path[|path| - 2]);
      var before := path[|path| - 2];
      var i :| 0 <= i < |h[before].entries| && h[before].entries[i].item == Ref(x);
      assert h[before].entries[i] in h[before].entries;
    }
  }

  lemma {:induction false} ComparableIsAccepted(h: Heap, v: Value, seen: set<Address>)
    requires Closed(h) && InHeap(h, v) && AllComparable(h, v)
    ensures CheckComparable(h, v, seen).Some?
    decreases h.Keys - seen, 0
  {
    if v.Ref? && v.to !in seen {
      assert v.to in h.Keys - seen;
      assert IsPath(h, v, [v.to], v.to);
      EntriesAreAccepted(h, v, h[v.to].entries, seen + {v.to});
    }
  }

  lemma {:induction false} EntriesAreAccepted(h: Heap, v: Value, xs: seq<Entry>, seen: set<Address>)
    requires Closed(h) && forall i :: 0 <= i < |xs| ==> InHeap(h, xs[i].item)
    requires v.Ref? && v.to in h && AllComparable(h, v) && Comparable(h[v.to]) && forall e :: e in xs ==> e in h[v.to].entries
    ensures CheckEntries(h, xs, seen).Some?
    decreases h.Keys - seen, 1 + |xs|
  {
    if xs != [] {
      ItemIsComparable(h, v, xs[0]);
      ComparableIsAccepted(h, xs[0].item, seen);
      EntriesAreAccepted(h, v, xs[1..], CheckComparable(h, xs[0].item, seen).value);
    }
  }

  lemma ItemIsComparable(h: Heap, v: Value, e: Entry)
    requires v.Ref? && v.to in h && e in h[v.to].entries && AllComparable(h, v)
    ensures AllComparable(h, e.item)
  {
    ReachThroughItem(h, v, e.item);
    forall x | Reachable(h, e.item, x)
      ensures Comparable(h[x])
    {
      assert x in ReachFrom(h, e.item);
    }
  }

  /** `assertComparable` accepts a value exactly when every object it reaches is comparable. */
  lemma AcceptedIffAllComparable(h: Heap, v: Value)
    requires Closed(h) && InHeap(h, v)
    ensures CheckComparable(h, v, {}).Some? <==> AllComparable(h, v)
  {
    if CheckComparable(h, v, {}).Some? {
      CheckCloses(h, v, {});
      var s := CheckComparable(h, v, {}).value;
      assert s - {} == s;
      forall x | Reachable(h, v, x)
        ensures Comparable(h[x])
      {
        var path :| IsPath(h, v, path, x);
        ClosedSetCoversPaths(h, v, s, path, x);
      }
    }
    if AllComparable(h, v) {
      ComparableIsAccepted(h, v, {});
    }
  }

  lemma {:induction false} ComparableNeverThrows(l: Heap, r: Heap, a: Value, b: Value, pairs: Pairs)
    requires Closed(l) && Closed(r) && InHeap(l, a) && InHeap(r, b) && AllComparable(l, a)
    ensures !Compare(l, r, a, b, pairs).Throws?
    decreases l.Keys - pairs.left.Keys, 0
  {
    if a.Ref? && b.Ref? && a.to !in pairs.left && b.to !in pairs.right && l[a.to].shape == r[b.to].shape
       && |l[a.to].entries| == |r[b.to].entries| {
      assert a.to in l.Keys - pairs.left.Keys;
      assert IsPath(l, a, [a.to], a.to);
      EntriesNeverThrow(l, r, a, l[a.to].entries, r[b.to].entries, Paired(pairs, a.to, b.to));
    } else if a.Ref? {
      assert IsPath(l, a, [a.to], a.to);
    }
  }

  lemma {:induction false} EntriesNeverThrow(l: Heap, r: Heap, a: Value, xs: seq<Entry>, ys: seq<Entry>, pairs: Pairs)
    requires Closed(l) && Closed(r) && |xs| == |ys|
    requires forall i :: 0 <= i < |xs| ==> InHeap(l, xs[i].item) && InHeap(r, ys[i].item)
    requires a.Ref? && a.to in l && AllComparable(l, a) && Comparable(l[a.to]) && forall e :: e in xs ==> e in l[a.to].entries
    ensures !CompareEntries(l, r, xs, ys, pairs).Throws?
    decreases l.Keys - pairs.left.Keys, 1 + |xs|
  {
    if xs != [] {
      ItemIsComparable(l, a, xs[0]);
      ComparableNeverThrows(l, r, xs[0].item, ys[0].item, pairs);
      var first := Compare(l, r, xs[0].item, ys[0].item, pairs);
      if first.Equal? {
        EntriesNeverThrow(l, r, a, xs[1..], ys[1..], first.pairs);
      }
    }
  }

  /** On values that `assertComparable` accepted at the write, `deepEqual` never throws: it decides. */
  lemma AcceptedValuesAreDecided(l: Heap, r: Heap, a: Value, b: Value)
    requires Closed(l) && Closed(r) && InHeap(l, a) && InHeap(r, b)
    requires CheckComparable(l, a, {}).Some?
    ensures if exists f :: Isomorphism(l, r, a, b, f) then Compare(l, r, a, b, NoPairs).Equal?
            else Compare(l, r, a, b, NoPairs) == Different
  {
    AcceptedIffAllComparable(l, a);
    ComparableNeverThrows(l, r, a, b, NoPairs);
    EqualIffIsomorphic(l, r, a, b);
  }

  // ---- Copies -----------------------------------------------------------------

  function CopyOfValue(f: map<Address, Address>, v: Value): Value {
    if v.Ref? && v.to in f then Ref(f[v.to]) else v
  }

  function CopyOfObject(f: map<Address, Address>, o: Object): Object {
    Object(o.shape, seq(|o.entries|, i requires 0 <= i < |o.entries| =>
      Entry(CopyOfValue(f, o.entries[i].key), CopyOfValue(f, o.entries[i].item))))
  }

  /** Heap `r` is a structured clone of heap `l`: every object copied once, to a place of its own. */
  ghost predicate IsCopy(l: Heap, r: Heap, f: map<Address, Address>) {
    && OneToOne(f) && f.Keys == l.Keys && f.Values == r.Keys
    && forall x :: x in l ==> r[f[x]] == CopyOfObject(f, l[x])
  }

  lemma CopiedObjectMatches(l: Heap, r: Heap, a: Value, f: map<Address, Address>, g: map<Address, Address>, x: Address)
    requires Closed(l) && IsCopy(l, r, f) && AllComparable(l, a) && x in Reach(l, a)
    requires g == map y | y in Reach(l, a) :: f[y]
    ensures g[x] in r && MatchedObjects(g, l[x], r[g[x]])
  {
    assert f[x] in f.Values;
    forall i | 0 <= i < |l[x].entries|
      ensures MatchedEntry(g, l[x].entries[i], CopyOfObject(f, l[x]).entries[i])
    {
      var e := l[x].entries[i];
      assert e in l[x].entries;
      if e.item.Ref? {
        assert Edge(l, x, e.item.to);
        LengthenPath(l, a, x, e.item.to);
      }
    }
  }

  lemma ComparableCopyIsEqual(l: Heap, r: Heap, a: Value, f: map<Address, Address>)
    requires Closed(l) && Closed(r) && InHeap(l, a) && InHeap(r, CopyOfValue(f, a)) && IsCopy(l, r, f) && AllComparable(l, a)
    ensures Compare(l, r, a, CopyOfValue(f, a), NoPairs).Equal?
  {
    var g := map x | x in Reach(l, a) :: f[x];
    forall x | x in g
      ensures g[x] in r && MatchedObjects(g, l[x], r[g[x]])
    {
      CopiedObjectMatches(l, r, a, f, g, x);
    }
    if a.Ref? {
      assert IsPath(l, a, [a.to], a.to);
    }
    CompareIsComplete(l, r, a, CopyOfValue(f, a), NoPairs, g);
  }

  lemma EqualIsComparable(l: Heap, r: Heap, a: Value, b: Value)
    requires Closed(l) && Closed(r) && InHeap(l, a) && InHeap(r, b) && Compare(l, r, a, b, NoPairs).Equal?
    ensures AllComparable(l, a)
  {
    EqualGivesIsomorphism(l, r, a, b);
    var g := Compare(l, r, a, b, NoPairs).pairs.left;
    forall x | Reachable(l, a, x)
      ensures Comparable(l[x])
    {
      assert x in Reach(l, a) && MatchedObjects(g, l[x], r[g[x]]);
      forall e | e in l[x].entries
        ensures e.key.Prim?
      {
        var i :| 0 <= i < |l[x].entries| && l[x].entries[i] == e;
        assert MatchedEntry(g, l[x].entries[i], r[g[x]].entries[i]);
      }
    }
  }

  /** A value compares equal to its stored copy exactly when it is comparable, so checking values
      at the write is what keeps later compare-and-swaps from conflicting forever. */
  lemma CopyIsEqualIffComparable(l: Heap, r: Heap, a: Value, f: map<Address, Address>)
    requires Closed(l) && Closed(r) && InHeap(l, a) && InHeap(r, CopyOfValue(f, a)) && IsCopy(l, r, f)
    ensures Compare(l, r, a, CopyOfValue(f, a), NoPairs).Equal? <==> CheckComparable(l, a, {}).Some?
  {
    AcceptedIffAllComparable(l, a);
    if AllComparable(l, a) {
      ComparableCopyIsEqual(l, r, a, f);
    }
    if Compare(l, r, a, CopyOfValue(f, a), NoPairs).Equal? {
      EqualIsComparable(l, r, a, CopyOfValue(f, a));
    }
  }

  // ---- The recursive procedures over shared maps -------------------------------

  datatype Verdict = Same | Unlike | Threw

  function VerdictOf(outcome: Outcome): Verdict {
    match outcome
    case Equal(_) => Same
    case Different => Unlike
    case Throws => Threw
  }

  /** The two maps that one comparison fills, and the set that one check fills. */
  class PairMaps {
    var left: map<Address, Address>
    var right: map<Address, Address>

    constructor ()
      ensures View() == NoPairs
    {
      left, right := map[], map[];
    }

    ghost function View(): Pairs
      reads this
    {
      Pairs(left, right)
    }

    /** Pairs objects one-to-one as it descends; stops at the first difference. */
    method DeepEqual(l: Heap, r: Heap, a: Value, b: Value) returns (verdict: Verdict)
      requires Closed(l) && Closed(r) && InHeap(l, a) && InHeap(r, b)
      modifies this
      ensures verdict == VerdictOf(Compare(l, r, a, b, old(View())))
      ensures verdict == Same ==> View() == Compare(l, r, a, b, old(View())).pairs
      decreases l.Keys - left.Keys
    {
      if a.Prim? && b.Prim? {
        return if SameValueZero(a.p, b.p) then Same else Unlike;
      }
      if a.Prim? || b.Prim? { return Unlike; }
      if a.to in left || b.to in right {
        return if a.to in left && left[a.to] == b.to && b.to in right && right[b.to] == a.to then Same else Unlike;
      }
      left, right := left[a.to := b.to], right[b.to := a.to];
      var x, y := l[a.to], r[b.to];
      if x.shape != y.shape { return Unlike; }
      if x.shape.OtherShape? { return Threw; }
      if |x.entries| != |y.entries| { return Unlike; }
      assert a.to in l.Keys - old(left).Keys;
      ghost var before := View();
      var i := 0;
      while i < |x.entries|
        invariant 0 <= i <= |x.entries|
        invariant before.left.Keys <= left.Keys
        invariant CompareEntries(l, r, x.entries, y.entries, before) == CompareEntries(l, r, x.entries[i..], y.entries[i..], View())
      {
        var e, e' := x.entries[i], y.entries[i];
        if e.key.Ref? { return Threw; }
        if !SameKey(e.key, e'.key) { return Unlike; }
        ghost var pairs := View();
        var item := DeepEqual(l, r, e.item, e'.item);
        if item != Same { return item; }
        assert x.entries[i..][1..] == x.entries[i + 1..] && y.entries[i..][1..] == y.entries[i + 1..];
        i := i + 1;
      }
      return Same;
    }
  }

  class SeenSet {
    var seen: set<Address>

    constructor ()
      ensures seen == {}
    {
      seen := {};
    }

    /** Checks each object once; false stands for throwing. */
    method AssertComparable(h: Heap, v: Value) returns (ok: bool)
      requires Closed(h) && InHeap(h, v)
      modifies this
      ensures ok <==> CheckComparable(h, v, old(seen)).Some?
      ensures ok ==> seen == CheckComparable(h, v, old(seen)).value
      decreases h.Keys - seen
    {
      if v.Prim? || v.to in seen { return true; }
      assert v.to in h.Keys - seen;
      seen := seen + {v.to};
      if h[v.to].shape.OtherShape? { return false; }
      var entries := h[v.to].entries;
      var i := 0;
      while i < |entries|
        invariant 0 <= i <= |entries|
        invariant old(seen) + {v.to} <= seen
        invariant CheckEntries(h, entries, old(seen) + {v.to}) == CheckEntries(h, entries[i..], seen)
      {
        if entries[i].key.Ref? { return false; }
        var item := AssertComparable(h, entries[i].item);
        if !item { return false; }
        assert entries[i..][1..] == entries[i + 1..];
        i := i + 1;
      }
      return true;
    }
  }
}
