/** The objects of a Durable Object namespace: one per key, beside the replay shards
    (src/Store.ts:485-492, 560-564, 613-624, 870-881). */
module StoreObjects {
  import opened Basics
  import opened Text
  import opened StoredValues

  const SHARD_PREFIX := Ascii("mppx:replay:")
  const KEY_PREFIX := Ascii("mppx:key:")
  const VERSION_PREFIX := Ascii("mppx:replay:v")

  /** Where the run of digits from `i` ends. */
  function DigitsEnd(s: Text, i: nat): (end: nat)
    requires i <= |s|
    ensures i <= end <= |s|
    ensures forall k | i <= k < end :: IsDigit(s[k])
    ensures end < |s| ==> !IsDigit(s[end])
    decreases |s| - i
  {
    if i < |s| && IsDigit(s[i]) then DigitsEnd(s, i + 1) else i
  }

  /** `/^mppx:replay:v\d+:\d+$/`. */
  predicate IsShardName(name: Text) {
    && VERSION_PREFIX <= name
    && var version := DigitsEnd(name, |VERSION_PREFIX|);
       && |VERSION_PREFIX| < version < |name|
       && name[version] == COLON
       && version + 1 < |name|
       && DigitsEnd(name, version + 1) == |name|
  }

  /** The name of a key's object: names that could pass for a shard, and names already escaped, are escaped. */
  function KeyObject(key: Text): Text {
    if IsShardName(key) || KEY_PREFIX <= key then KEY_PREFIX + key else key
  }

  function ShardOf(version: nat, shards: nat, hash: nat): Text
    requires shards > 0
  {
    SHARD_PREFIX + Ascii("v") + Decimal(version) + [COLON] + Decimal(hash % shards)
  }

  lemma DifferentStart(name: Text)
    requires KEY_PREFIX <= name
    ensures !(VERSION_PREFIX <= name)
  {
    assert KEY_PREFIX[5] == 0x6B && VERSION_PREFIX[5] == 0x72;
    assert name[5] == KEY_PREFIX[5];
  }

  /** No two keys share an object. */
  lemma KeyObjectIsInjective(a: Text, b: Text)
    ensures KeyObject(a) == KeyObject(b) <==> a == b
  {
    if KeyObject(a) == KeyObject(b) {
      assert a == KeyObject(a) || a == KeyObject(a)[|KEY_PREFIX|..];
      assert b == KeyObject(b) || b == KeyObject(b)[|KEY_PREFIX|..];
    }
  }

  /** No key's object is named like a shard. */
  lemma KeyObjectIsNoShard(key: Text)
    ensures !IsShardName(KeyObject(key))
  {
    if IsShardName(key) || KEY_PREFIX <= key { DifferentStart(KEY_PREFIX + key); }
  }

  lemma DigitsEndAt(s: Text, i: nat, end: nat)
    requires i <= end <= |s|
    requires forall k | i <= k < end :: IsDigit(s[k])
    requires end < |s| ==> !IsDigit(s[end])
    ensures DigitsEnd(s, i) == end
  {
  }

  /** Every shard's object is named like one. */
  lemma ShardOfIsAShard(version: nat, shards: nat, hash: nat)
    requires shards > 0
    ensures IsShardName(ShardOf(version, shards, hash))
  {
    var name := ShardOf(version, shards, hash);
    var v := Decimal(version);
    var n := Decimal(hash % shards);
    assert SHARD_PREFIX + Ascii("v") == VERSION_PREFIX;
    assert name == VERSION_PREFIX + v + [COLON] + n;
    var colon := |VERSION_PREFIX| + |v|;
    assert forall k | |VERSION_PREFIX| <= k < colon :: name[k] == v[k - |VERSION_PREFIX|];
    assert forall k | colon + 1 <= k < |name| :: name[k] == n[k - colon - 1];
    DigitsEndAt(name, |VERSION_PREFIX|, colon);
    DigitsEndAt(name, colon + 1, |name|);
  }

  lemma {:induction false} DecimalsDiffer(m: nat, n: nat)
    ensures Decimal(m) == Decimal(n) <==> m == n
    decreases m
  {
    if Decimal(m) == Decimal(n) {
      var t := Decimal(m);
      assert t[|t| - 1] == 0x30 + m % 10 && t[|t| - 1] == 0x30 + n % 10;
      if m >= 10 {
        assert Decimal(m / 10) == t[..|t| - 1];
        if n >= 10 {
          assert Decimal(n / 10) == t[..|t| - 1];
          DecimalsDiffer(m / 10, n / 10);
        }
      }
    }
  }

  /** Every version has its own shards, and each of them its own object. */
  lemma ShardsDiffer(version: nat, shards: nat, hash: nat, version': nat, shards': nat, hash': nat)
    requires shards > 0 && shards' > 0
    ensures ShardOf(version, shards, hash) == ShardOf(version', shards', hash')
            <==> version == version' && hash % shards == hash' % shards'
  {
    var name, name' := ShardOf(version, shards, hash), ShardOf(version', shards', hash');
    var start := |SHARD_PREFIX| + 1;
    var v, v' := Decimal(version), Decimal(version');
    var n, n' := Decimal(hash % shards), Decimal(hash' % shards');
    DecimalsDiffer(version, version');
    DecimalsDiffer(hash % shards, hash' % shards');
    if name == name' {
      VersionEnds(name, version, shards, hash);
      VersionEnds(name', version', shards', hash');
      assert v == name[start..start + |v|] && v' == name'[start..start + |v'|];
      assert n == name[start + |v| + 1..] && n' == name'[start + |v'| + 1..];
    }
  }

  lemma VersionEnds(name: Text, version: nat, shards: nat, hash: nat)
    requires shards > 0 && name == ShardOf(version, shards, hash)
    ensures |SHARD_PREFIX| + 1 <= |name|
    ensures DigitsEnd(name, |SHARD_PREFIX| + 1) == |SHARD_PREFIX| + 1 + |Decimal(version)|
  {
    var start := |SHARD_PREFIX| + 1;
    var v := Decimal(version);
    var n := Decimal(hash % shards);
    assert name == (SHARD_PREFIX + Ascii("v")) + (v + ([COLON] + n));
    assert forall k | start <= k < start + |v| :: name[k] == v[k - start];
    assert name[start + |v|] == COLON;
    DigitsEndAt(name, start, start + |v|);
  }

  // ---- The namespace as one map ---------------------------------------------

  type Table = map<Text, int>

  /** What an object stores: the value of the key it serves, or the claims of a shard. It has one
      place for either, so keys that shared an object would overwrite each other. */
  datatype Content = Nothing | Value(raw: Raw) | Claims(table: Table)

  /** An object, with a record of the keys whose operations reached it. */
  datatype Object = Object(content: Content, keys: set<Text>)

  type Cluster = map<Text, Object>

  function ObjectNamed(c: Cluster, name: Text): Object {
    if name in c then c[name] else Object(Nothing, {})
  }

  function ValueIn(o: Object): Option<Raw> {
    if o.content.Value? then Some(o.content.raw) else None
  }

  function TableIn(o: Object): Table {
    if o.content.Claims? then o.content.table else map[]
  }

  /** What a client reads at a key. */
  function ValueOf(c: Cluster, key: Text): Option<Raw> {
    ValueIn(ObjectNamed(c, KeyObject(key)))
  }

  /** One operation at a key's object, or at a shard. */
  datatype Operation =
    | OnKey(key: Text, effect: Option<Raw> -> Option<Raw>)
    | OnShard(version: nat, shards: nat, hash: nat, shardEffect: Table -> Table)

  predicate Enabled(op: Operation) {
    op.OnShard? ==> op.shards > 0
  }

  function Next(c: Cluster, op: Operation): Cluster
    requires Enabled(op)
  {
    match op
    case OnKey(key, effect) =>
      var holder := ObjectNamed(c, KeyObject(key));
      var value := effect(ValueIn(holder));
      c[KeyObject(key) := Object(if value.Some? then Value(value.value) else Nothing, holder.keys + {key})]
    case OnShard(version, shards, hash, shardEffect) =>
      var name := ShardOf(version, shards, hash);
      var holder := ObjectNamed(c, name);
      c[name := holder.(content := Claims(shardEffect(TableIn(holder))))]
  }

  /** The same operations on one map of keys and a map of claim tables by shard. */
  datatype Ideal = Ideal(values: Contents, tables: map<Text, Table>)

  function TableAt(m: Ideal, name: Text): Table {
    if name in m.tables then m.tables[name] else map[]
  }

  function NextIdeal(m: Ideal, op: Operation): Ideal
    requires Enabled(op)
  {
    match op
    case OnKey(key, effect) => m.(values := Store(m.values, key, effect(Look(m.values, key))))
    case OnShard(version, shards, hash, shardEffect) =>
      var name := ShardOf(version, shards, hash);
      m.(tables := m.tables[name := shardEffect(TableAt(m, name))])
  }

  function Run(ops: seq<Operation>): Cluster
    requires forall op | op in ops :: Enabled(op)
  {
    if ops == [] then map[] else Next(Run(ops[..|ops| - 1]), ops[|ops| - 1])
  }

  function RunIdeal(ops: seq<Operation>): Ideal
    requires forall op | op in ops :: Enabled(op)
  {
    if ops == [] then Ideal(map[], map[]) else NextIdeal(RunIdeal(ops[..|ops| - 1]), ops[|ops| - 1])
  }

  /** An object serves at most one key, or is a shard, and never both: by what reached it and by what
      it stores. */
  ghost predicate Separate(c: Cluster) {
    forall name | name in c ::
      && (forall a, b | a in c[name].keys && b in c[name].keys :: a == b)
      && (forall key | key in c[name].keys :: name == KeyObject(key) && !IsShardName(name) && !c[name].content.Claims?)
      && (c[name].content.Value? ==> c[name].keys != {})
      && (c[name].content.Claims? ==> IsShardName(name) && c[name].keys == {})
  }

  /** The objects hold what one map of keys and the tables of the shards would. */
  ghost predicate Refines(c: Cluster, m: Ideal) {
    && (forall key :: ValueOf(c, key) == Look(m.values, key))
    && (forall name | IsShardName(name) :: TableIn(ObjectNamed(c, name)) == TableAt(m, name))
  }

  lemma StepKeepsSeparate(c: Cluster, op: Operation)
    requires Separate(c) && Enabled(op)
    ensures Separate(Next(c, op))
  {
    match op
    case OnKey(key, effect) =>
      KeyObjectIsNoShard(key);
      forall other | other in ObjectNamed(c, KeyObject(key)).keys
        ensures other == key
      {
        KeyObjectIsInjective(other, key);
      }
      hide IsShardName, KeyObject;
    case OnShard(version, shards, hash, _) =>
      ShardOfIsAShard(version, shards, hash);
      hide IsShardName, KeyObject, ShardOf;
  }

  lemma StepRefines(c: Cluster, m: Ideal, op: Operation)
    requires Separate(c) && Refines(c, m) && Enabled(op)
    ensures Refines(Next(c, op), NextIdeal(m, op))
  {
    hide IsShardName, KeyObject, ShardOf;
    match op
    case OnKey(written, effect) =>
      KeyObjectIsNoShard(written);
      forall key
        ensures ValueOf(Next(c, op), key) == Look(NextIdeal(m, op).values, key)
      {
        assert ValueOf(c, key) == Look(m.values, key) && ValueOf(c, written) == Look(m.values, written);
        KeyObjectIsInjective(key, written);
      }
    case OnShard(version, shards, hash, _) =>
      ShardOfIsAShard(version, shards, hash);
      forall key
        ensures ValueOf(Next(c, op), key) == Look(NextIdeal(m, op).values, key)
      {
        assert ValueOf(c, key) == Look(m.values, key);
        KeyObjectIsNoShard(key);
      }
  }

  /** After any run of operations on keys and shards: the objects together hold what one map of keys
      and the tables of the shards would; an object serves at most one key; and none serves a key and
      holds claims. */
  lemma {:induction false} ObjectsActAsOneMap(ops: seq<Operation>)
    requires forall op | op in ops :: Enabled(op)
    ensures Refines(Run(ops), RunIdeal(ops)) && Separate(Run(ops))
  {
    if ops != [] {
      var before := ops[..|ops| - 1];
      ObjectsActAsOneMap(before);
      StepRefines(Run(before), RunIdeal(before), ops[|ops| - 1]);
      StepKeepsSeparate(Run(before), ops[|ops| - 1]);
    }
  }

  /** The object a key's operation reached serves no other key, and holds no claims. */
  lemma ObjectsAreNotShared(ops: seq<Operation>, name: Text, a: Text, b: Text)
    requires forall op | op in ops :: Enabled(op)
    requires name in Run(ops) && a in Run(ops)[name].keys
    ensures b in Run(ops)[name].keys ==> b == a
    ensures name == KeyObject(a) && !IsShardName(name) && TableIn(Run(ops)[name]) == map[]
  {
    ObjectsActAsOneMap(ops);
    hide Run, RunIdeal, KeyObject, IsShardName;
  }
}
