/** The chained hash table with resize. Lookups compare hash codes and never keys, so what it refines is a finite map over
    hash codes, and a map over keys for as long as no two keys in use share theirs. */
module Dictionary {
  import opened Memory
  import opened CrewTable

  type Key = seq<bv8>

  /** `data` is None for a null pointer. */
  datatype Element<V> = Element(key: Key, hash: Word, data: Option<V>)

  const INITIAL_SIZE: nat := 20

  // ----- Hash codes ----------------------------------------------------------------------------------------

  function Mix(h: bv32, c: bv8): bv32 {
    var a := h + c as bv32;
    var b := a + (a << 10);
    b ^ (b >> 6)
  }

  function Mixed(key: Key): bv32 {
    if key == [] then 0 else Mix(Mixed(key[..|key| - 1]), key[|key| - 1])
  }

  function Finish(h: bv32): bv32 {
    var a := h + (h << 3);
    var b := a ^ (a >> 11);
    b + (b << 15)
  }

  function Hash(key: Key): Word {
    Finish(Mixed(key)) as int
  }

  method HashOf(key: Key) returns (hash: Word)
    ensures hash == Hash(key)
  {
    hide Mix, Finish;
    var h: bv32 := 0;
    for i := 0 to |key|
      invariant h == Mixed(key[..i])
    {
      assert key[..i + 1][..i] == key[..i];
      h := Mix(h, key[i]);
    }
    assert key[..|key|] == key;
    hash := Finish(h) as int;
  }

  /** The key that the log manager uses for a crew member whose tid has these five digits. */
  function LogKey(digits: Key): Key {
    [84, 114, 105, 112, 117, 108, 97, 110, 116, 101] + digits
  }

  lemma MixedSnoc(key: Key, c: bv8)
    ensures Mixed(key + [c]) == Mix(Mixed(key), c)
  {
    assert (key + [c])[..|key|] == key;
  }

  lemma MixedFive(key: Key, a: bv8, b: bv8, c: bv8, d: bv8, e: bv8)
    ensures Mixed(key + [a, b, c, d, e]) == Mix(Mix(Mix(Mix(Mix(Mixed(key), a), b), c), d), e)
  {
    hide Mix, Mixed;
    MixedSnoc(key, a);
    MixedSnoc(key + [a], b);
    MixedSnoc(key + [a] + [b], c);
    MixedSnoc(key + [a] + [b] + [c], d);
    MixedSnoc(key + [a] + [b] + [c] + [d], e);
    assert key + [a] + [b] + [c] + [d] + [e] == key + [a, b, c, d, e];
  }

  lemma MixedPrefix()
    ensures Mixed(LogKey([])) == 0x96743755
  {
    MixedFive([], 84, 114, 105, 112, 117);
    MixedFive([] + [84, 114, 105, 112, 117], 108, 97, 110, 116, 101);
    assert [] + [84, 114, 105, 112, 117] + [108, 97, 110, 116, 101] == LogKey([]);
    assert Mixed([]) == 0;
  }

  /** The logs of crew members 24600 and 24633 have different keys with the same hash code. */
  lemma LogsCollide()
    ensures LogKey([50, 52, 54, 48, 48]) != LogKey([50, 52, 54, 51, 51])
    ensures Hash(LogKey([50, 52, 54, 48, 48])) == Hash(LogKey([50, 52, 54, 51, 51]))
  {
    MixedPrefix();
    var p := LogKey([]);
    MixedFive(p, 50, 52, 54, 48, 48);
    MixedFive(p, 50, 52, 54, 51, 51);
    assert p + [50, 52, 54, 48, 48] == LogKey([50, 52, 54, 48, 48]);
    assert p + [50, 52, 54, 51, 51] == LogKey([50, 52, 54, 51, 51]);
    assert LogKey([50, 52, 54, 48, 48])[13] != LogKey([50, 52, 54, 51, 51])[13];
  }

  /** The hash code of the text "a", which takes every step of the computation. */
  lemma HashOfOneLetter()
    ensures Hash([97]) == 0xCA2E9442
  {
    MixedSnoc([], 97);
    assert [] + [97] == [97];
    assert Mixed([]) == 0 && Mix(0, 97) == 0x18270;
  }

  // ----- The map behind the table -------------------------------------------------------------------------

  type Model<V> = map<Word, Element<V>>

  /** Putting where the hash code is taken replaces the data and keeps the key that was there. */
  function PutIn<V>(m: Model<V>, key: Key, data: Option<V>): (r: Model<V>)
  {
    var h := Hash(key);
    m[h := if h in m then m[h].(data := data) else Element(key, h, data)]
  }

  function GetFrom<V>(m: Model<V>, key: Key): Option<V> {
    if Hash(key) in m then m[Hash(key)].data else None
  }

  function RemoveFrom<V>(m: Model<V>, key: Key): Model<V> {
    m - {Hash(key)}
  }

  // ----- Chains ---------------------------------------------------------------------------------------------

  /** The first element of a chain with this hash code, or the chain's length. */
  function Find<V>(chain: seq<Element<V>>, h: Word): (k: nat)
    ensures k <= |chain|
    ensures forall j :: 0 <= j < k ==> chain[j].hash != h
    ensures k < |chain| ==> chain[k].hash == h
  {
    if chain == [] || chain[0].hash == h then 0 else 1 + Find(chain[1..], h)
  }

  /** The bucket of a hash code. */
  function Slot(h: Word, size: nat): (b: nat)
    requires size > 0
    ensures b < size
  {
    h % size
  }

  function Occupied<V>(t: seq<seq<Element<V>>>): (n: nat)
    ensures n <= |t|
  {
    if t == [] then 0 else (if t[0] == [] then 0 else 1) + Occupied(t[1..])
  }

  lemma {:induction false} OccupiedUpdate<V>(t: seq<seq<Element<V>>>, b: nat, chain: seq<Element<V>>)
    requires b < |t|
    ensures Occupied(t[b := chain]) == Occupied(t) - (if t[b] == [] then 0 else 1) + (if chain == [] then 0 else 1)
  {
    if b == 0 {
      assert t[b := chain][1..] == t[1..];
    } else {
      assert t[b := chain][1..] == t[1..][b - 1 := chain];
      OccupiedUpdate(t[1..], b - 1, chain);
    }
  }

  lemma {:induction false} OccupiedNone<V>(t: seq<seq<Element<V>>>)
    requires forall b :: 0 <= b < |t| ==> t[b] == []
    ensures Occupied(t) == 0
  {
    if t != [] {
      OccupiedNone(t[1..]);
    }
  }

  /** Every element of bucket `b` belongs there and is the one that the map has for its hash code. */
  ghost predicate BucketOk<V(!new)>(t: seq<seq<Element<V>>>, m: Model<V>, b: nat)
    requires b < |t|
  {
    && (forall k :: 0 <= k < |t[b]| ==> t[b][k].hash in m && m[t[b][k].hash] == t[b][k] && Slot(t[b][k].hash, |t|) == b)
    && (forall k, l :: 0 <= k < l < |t[b]| ==> t[b][k].hash != t[b][l].hash)
  }

  /** The element with this hash code is in its bucket. */
  ghost predicate Present<V(!new)>(t: seq<seq<Element<V>>>, h: Word)
    requires |t| > 0
  {
    Find(t[Slot(h, |t|)], h) < |t[Slot(h, |t|)]|
  }

  /** The table holds exactly the map: each element once, in bucket hash modulo size. */
  ghost predicate TableOk<V(!new)>(t: seq<seq<Element<V>>>, m: Model<V>) {
    && |t| > 0
    && (forall b: nat {:trigger BucketOk(t, m, b)} :: b < |t| ==> BucketOk(t, m, b))
    && (forall h: Word {:trigger h in m} :: h in m ==> Present(t, h))
  }

  /** What a lookup finds. */
  lemma FindIs<V(!new)>(t: seq<seq<Element<V>>>, m: Model<V>, h: Word)
    requires TableOk(t, m)
    ensures var b := Slot(h, |t|);
            var k := Find(t[b], h);
            (h in m <==> k < |t[b]|) && (h in m ==> t[b][k] == m[h])
  {
    assert BucketOk(t, m, Slot(h, |t|));
  }

  /** Bucket number `b` has, each once, the elements whose hash code leaves the remainder `b`. */
  lemma TableIs<V(!new)>(t: seq<seq<Element<V>>>, m: Model<V>, b: nat, e: Element<V>)
    requires TableOk(t, m) && b < |t|
    ensures e in t[b] <==> e.hash in m && m[e.hash] == e && e.hash % |t| == b
    ensures forall k, l :: 0 <= k < l < |t[b]| ==> t[b][k] != t[b][l]
  {
    assert BucketOk(t, m, b);
    if e.hash in m && m[e.hash] == e && e.hash % |t| == b {
      FindIs(t, m, e.hash);
    }
  }

  lemma FindUpdate<V>(chain: seq<Element<V>>, k: nat, e: Element<V>, h: Word)
    requires k < |chain| && e.hash == chain[k].hash
    ensures Find(chain[k := e], h) == Find(chain, h)
  {
    assert forall j :: 0 <= j < |chain| ==> chain[k := e][j].hash == chain[j].hash;
  }

  lemma FindAdd<V>(chain: seq<Element<V>>, e: Element<V>, h: Word)
    ensures Find(chain + [e], h) < |chain| + 1 <==> h == e.hash || Find(chain, h) < |chain|
  {
    assert (chain + [e])[|chain|] == e && forall j :: 0 <= j < |chain| ==> (chain + [e])[j] == chain[j];
  }

  function DropAt<V>(chain: seq<V>, k: nat): (r: seq<V>)
    requires k < |chain|
    ensures |r| == |chain| - 1 && forall j :: 0 <= j < |r| ==> r[j] == chain[if j < k then j else j + 1]
  {
    chain[..k] + chain[k + 1..]
  }

  lemma FindDrop<V>(chain: seq<Element<V>>, k: nat, h: Word)
    requires k < |chain| && h != chain[k].hash
    ensures Find(DropAt(chain, k), h) < |chain| - 1 <==> Find(chain, h) < |chain|
  {
    var j := Find(chain, h);
    var i := Find(DropAt(chain, k), h);
    if j < |chain| {
      assert DropAt(chain, k)[if j < k then j else j - 1].hash == h;
    }
    if i < |chain| - 1 {
      assert chain[if i < k then i else i + 1].hash == h;
    }
  }

  // ----- What the operations do to the table -------------------------------------------------------------------

  /** New data for a hash code that is there. */
  lemma TableReplaces<V(!new)>(t: seq<seq<Element<V>>>, m: Model<V>, h: Word, data: Option<V>)
    requires TableOk(t, m) && h in m
    ensures var b := Slot(h, |t|);
            var k := Find(t[b], h);
            k < |t[b]| && TableOk(t[b := t[b][k := t[b][k].(data := data)]], m[h := m[h].(data := data)])
  {
    FindIs(t, m, h);
    var b := Slot(h, |t|);
    var k := Find(t[b], h);
    var e := t[b][k].(data := data);
    var t', m' := t[b := t[b][k := e]], m[h := m[h].(data := data)];
    forall c: nat | c < |t'| ensures BucketOk(t', m', c) {
      assert BucketOk(t, m, c) && BucketOk(t, m, b);
    }
    forall g: Word | g in m' ensures Present(t', g) {
      assert Present(t, g);
      FindUpdate(t[b], k, e, g);
    }
  }

  /** An element for a hash code that is not there goes to the end of its bucket. */
  lemma TableAdds<V(!new)>(t: seq<seq<Element<V>>>, m: Model<V>, e: Element<V>)
    requires TableOk(t, m) && e.hash !in m
    ensures TableOk(t[Slot(e.hash, |t|) := t[Slot(e.hash, |t|)] + [e]], m[e.hash := e])
  {
    var b := Slot(e.hash, |t|);
    var t', m' := t[b := t[b] + [e]], m[e.hash := e];
    forall c: nat | c < |t'| ensures BucketOk(t', m', c) {
      assert BucketOk(t, m, c);
    }
    forall g: Word | g in m' ensures Present(t', g) {
      assert g in m ==> Present(t, g);
      FindAdd(t[b], e, g);
    }
  }

  lemma TableRemoves<V(!new)>(t: seq<seq<Element<V>>>, m: Model<V>, h: Word)
    requires TableOk(t, m) && h in m
    ensures var b := Slot(h, |t|);
            var k := Find(t[b], h);
            k < |t[b]| && TableOk(t[b := DropAt(t[b], k)], m - {h})
  {
    FindIs(t, m, h);
    var b := Slot(h, |t|);
    var k := Find(t[b], h);
    var t', m' := t[b := DropAt(t[b], k)], m - {h};
    forall c: nat | c < |t'| ensures BucketOk(t', m', c) {
      hide Find, DropAt;
      assert BucketOk(t, m, c) && BucketOk(t, m, b);
    }
    forall g: Word | g in m' ensures Present(t', g) {
      hide Find, DropAt, BucketOk;
      assert Present(t, g);
      FindDrop(t[b], k, g);
    }
  }

  lemma EmptyOk<V(!new)>(t: seq<seq<Element<V>>>)
    requires |t| > 0 && forall b :: 0 <= b < |t| ==> t[b] == []
    ensures TableOk<V>(t, map[])
  {
    forall b: nat | b < |t| ensures BucketOk<V>(t, map[], b) {
    }
  }

  lemma RemovedSize<K, V>(m: map<K, V>, k: K)
    ensures |m - {k}| == |m| - if k in m then 1 else 0
  {
    assert (m - {k}).Keys == m.Keys - {k};
  }

  // ----- Moving to a larger table --------------------------------------------------------------------------------

  /** The elements of the buckets before `i`, and the first `k` of bucket `i`, are the ones that have moved. */
  ghost predicate Moved<V(!new)>(t: seq<seq<Element<V>>>, m: Model<V>, i: nat, k: nat, done: Model<V>)
    requires |t| > 0
  {
    && (forall h: Word {:trigger h in done} :: h in done <==> h in m && MovedBy(t, h, i, k))
    && (forall h: Word {:trigger done[h]} :: h in done && h in m ==> done[h] == m[h])
  }

  predicate MovedBy<V>(t: seq<seq<Element<V>>>, h: Word, i: nat, k: nat)
    requires |t| > 0
  {
    Slot(h, |t|) < i || (Slot(h, |t|) == i && Find(t[Slot(h, |t|)], h) < k)
  }

  lemma FindSelf<V(!new)>(t: seq<seq<Element<V>>>, m: Model<V>, i: nat, k: nat)
    requires TableOk(t, m) && i < |t| && k < |t[i]|
    ensures Slot(t[i][k].hash, |t|) == i && Find(t[i], t[i][k].hash) == k
    ensures t[i][k].hash in m && m[t[i][k].hash] == t[i][k]
  {
    assert BucketOk(t, m, i);
  }

  lemma MoveOne<V(!new)>(t: seq<seq<Element<V>>>, m: Model<V>, i: nat, k: nat, done: Model<V>)
    requires TableOk(t, m) && i < |t| && k < |t[i]| && Moved(t, m, i, k, done)
    ensures t[i][k].hash !in done && Moved(t, m, i, k + 1, done[t[i][k].hash := t[i][k]])
  {
    hide Find;
    var e := t[i][k];
    FindSelf(t, m, i, k);
    assert !MovedBy(t, e.hash, i, k);
    var done' := done[e.hash := e];
    forall h: Word ensures h in done' <==> h in m && MovedBy(t, h, i, k + 1) {
      assert h in done <==> h in m && MovedBy(t, h, i, k);
      if h in m && Slot(h, |t|) == i && Find(t[i], h) == k {
        FindIs(t, m, h);
      }
    }
  }

  lemma MoveOn<V(!new)>(t: seq<seq<Element<V>>>, m: Model<V>, i: nat, done: Model<V>)
    requires TableOk(t, m) && i < |t| && Moved(t, m, i, |t[i]|, done)
    ensures Moved(t, m, i + 1, 0, done)
  {
    forall h: Word ensures h in done <==> h in m && MovedBy(t, h, i + 1, 0) {
      assert h in done <==> h in m && MovedBy(t, h, i, |t[i]|);
      assert h in m ==> Present(t, h);
    }
  }

  lemma MovedAll<V(!new)>(t: seq<seq<Element<V>>>, m: Model<V>, done: Model<V>)
    requires TableOk(t, m) && Moved(t, m, |t|, 0, done)
    ensures done == m
  {
    forall h: Word ensures h in done <==> h in m {
      assert h in done <==> h in m && MovedBy(t, h, |t|, 0);
    }
  }

  // ----- Keys --------------------------------------------------------------------------------------------------------

  datatype Op<V> = Put(key: Key, data: Option<V>) | Remove(key: Key)

  /** What a run of puts and removals makes of the empty dictionary, and of the empty map over keys. */
  function Run<V>(ops: seq<Op<V>>): Model<V> {
    if ops == [] then map[]
    else
      var m := Run(ops[..|ops| - 1]);
      match ops[|ops| - 1]
      case Put(key, data) => PutIn(m, key, data)
      case Remove(key) => RemoveFrom(m, key)
  }

  function RunKeys<V>(ops: seq<Op<V>>): map<Key, Option<V>> {
    if ops == [] then map[]
    else
      var f := RunKeys(ops[..|ops| - 1]);
      match ops[|ops| - 1]
      case Put(key, data) => f[key := data]
      case Remove(key) => f - {key}
  }

  /** No two of these keys share their hash code. */
  ghost predicate Apart(keys: set<Key>) {
    forall a, b :: a in keys && b in keys && Hash(a) == Hash(b) ==> a == b
  }

  ghost predicate UsesOnly<V>(ops: seq<Op<V>>, keys: set<Key>) {
    forall i :: 0 <= i < |ops| ==> ops[i].key in keys
  }

  /** The map over hash codes and the map over keys hold the same. */
  ghost predicate SameFor<V(!new)>(m: Model<V>, f: map<Key, Option<V>>, keys: set<Key>) {
    && (forall key {:trigger key in f} :: key in f ==> key in keys)
    && (forall key {:trigger key in keys} :: key in keys ==> SameAt(m, f, key))
    && (forall h: Word {:trigger h in m} :: h in m ==> m[h].key in keys && Hash(m[h].key) == h)
  }

  ghost predicate SameAt<V(!new)>(m: Model<V>, f: map<Key, Option<V>>, key: Key) {
    (key in f <==> Hash(key) in m) && (key in f ==> m[Hash(key)] == Element(key, Hash(key), f[key]))
  }

  /** Over keys with distinct hash codes, every run leaves the dictionary with exactly the map over keys. */
  lemma {:induction false} RunRefines<V(!new)>(ops: seq<Op<V>>, keys: set<Key>)
    requires Apart(keys) && UsesOnly(ops, keys)
    ensures SameFor(Run(ops), RunKeys(ops), keys)
  {
    if ops != [] {
      var before := ops[..|ops| - 1];
      RunRefines(before, keys);
      StepRefines(Run(before), RunKeys(before), keys, ops[|ops| - 1], Run(ops), RunKeys(ops));
    }
  }

  lemma StepRefines<V(!new)>(m: Model<V>, f: map<Key, Option<V>>, keys: set<Key>, op: Op<V>, m': Model<V>, f': map<Key, Option<V>>)
    requires Apart(keys) && SameFor(m, f, keys) && op.key in keys
    requires m' == if op.Put? then PutIn(m, op.key, op.data) else RemoveFrom(m, op.key)
    requires f' == if op.Put? then f[op.key := op.data] else f - {op.key}
    ensures SameFor(m', f', keys)
  {
    hide Hash;
    assert SameAt(m, f, op.key);
    forall key | key in keys ensures SameAt(m', f', key) {
      assert SameAt(m, f, key);
    }
  }

  /** After such a run a lookup gives what the map over keys gives. */
  lemma LookupRefines<V(!new)>(ops: seq<Op<V>>, keys: set<Key>, key: Key)
    requires Apart(keys) && UsesOnly(ops, keys) && key in keys
    ensures GetFrom(Run(ops), key) == if key in RunKeys(ops) then RunKeys(ops)[key] else None
    ensures Hash(key) in Run(ops) <==> key in RunKeys(ops)
  {
    hide Hash;
    RunRefines(ops, keys);
    assert SameAt(Run(ops), RunKeys(ops), key);
  }

  /** And the dictionary has as many elements as the map over keys. */
  lemma {:induction false} SizeRefines<V(!new)>(ops: seq<Op<V>>, keys: set<Key>)
    requires Apart(keys) && UsesOnly(ops, keys)
    ensures |Run(ops)| == |RunKeys(ops)|
  {
    if ops != [] {
      var before := ops[..|ops| - 1];
      SizeRefines(before, keys);
      RunRefines(before, keys);
      StepSize(Run(before), RunKeys(before), keys, ops[|ops| - 1]);
    }
  }

  lemma StepSize<V(!new)>(m: Model<V>, f: map<Key, Option<V>>, keys: set<Key>, op: Op<V>)
    requires SameFor(m, f, keys) && op.key in keys && |m| == |f|
    ensures op.Put? ==> |PutIn(m, op.key, op.data)| == |f[op.key := op.data]|
    ensures op.Remove? ==> |RemoveFrom(m, op.key)| == |f - {op.key}|
  {
    hide Hash;
    assert Hash(op.key) in m <==> op.key in f by { assert SameAt(m, f, op.key); }
    hide SameFor, SameAt;
    match op
    case Put(key, data) =>
      PutSize(m, Hash(key), PutIn(m, key, data)[Hash(key)]);
      PutSize(f, key, data);
    case Remove(key) =>
      RemovedSize(m, Hash(key));
      RemovedSize(f, key);
  }

  lemma PutSize<K, V>(m: map<K, V>, k: K, v: V)
    ensures |m[k := v]| == |m| + if k in m then 0 else 1
  {
    assert m[k := v].Keys == m.Keys + {k};
  }

  /** Distinct hash codes are needed: two keys keep their own data exactly when their hash codes differ. */
  lemma KeepsBothIff<V(!new)>(a: Key, b: Key, x: V, y: V)
    requires x != y
    ensures GetFrom(Run([Put(a, Some(x)), Put(b, Some(y))]), a) == Some(x) <==> Hash(a) != Hash(b)
  {
    hide Hash;
    var ops := [Put(a, Some(x)), Put(b, Some(y))];
    assert ops[..1] == [Put(a, Some(x))] && ops[..1][..0] == [];
  }

  /** What is put where the hash code is taken goes under the key that was there. */
  lemma FirstKeyStays<V(!new)>(a: Key, b: Key, x: Option<V>, y: Option<V>)
    requires Hash(a) == Hash(b)
    ensures Run([Put(a, x), Put(b, y)]) == map[Hash(a) := Element(a, Hash(a), y)]
  {
    hide Hash;
    var ops := [Put(a, x), Put(b, y)];
    assert ops[..1] == [Put(a, x)] && ops[..1][..0] == [];
    assert Run(ops[..1]) == map[Hash(a) := Element(a, Hash(a), x)];
  }

  /** So the log of one crew member can be lost to another. */
  lemma LogsShared<V(!new)>(x: V, y: V)
    requires x != y
    ensures GetFrom(Run([Put(LogKey([50, 52, 54, 48, 48]), Some(x)), Put(LogKey([50, 52, 54, 51, 51]), Some(y))]),
                    LogKey([50, 52, 54, 48, 48])) != Some(x)
    ensures Run([Put(LogKey([50, 52, 54, 48, 48]), Some(x)), Put(LogKey([50, 52, 54, 51, 51]), Some(y))])
         == map[Hash(LogKey([50, 52, 54, 48, 48])) := Element(LogKey([50, 52, 54, 48, 48]), Hash(LogKey([50, 52, 54, 48, 48])), Some(y))]
  {
    hide Hash, LogKey, Run, GetFrom;
    LogsCollide();
    KeepsBothIff(LogKey([50, 52, 54, 48, 48]), LogKey([50, 52, 54, 51, 51]), x, y);
    FirstKeyStays(LogKey([50, 52, 54, 48, 48]), LogKey([50, 52, 54, 51, 51]), Some(x), Some(y));
  }

  // ----- The table ---------------------------------------------------------------------------------------------------

  class Dictionary<V(!new)> {
    var table: array<seq<Element<V>>>
    var maxSize: nat
    var used: nat
    var amount: int
    ghost var model: Model<V>
    /** How many elements left while their data was null: the amount still counts them. */
    ghost var lost: nat

    ghost predicate Valid()
      reads this, table
    {
      && maxSize == table.Length && TableOk(table[..], model)
      && used == Occupied(table[..]) && amount == |model| + lost
    }

    constructor ()
      ensures Valid() && fresh(table) && maxSize == 20 && model == map[] && lost == 0
    {
      table := new seq<Element<V>>[INITIAL_SIZE](_ => []);
      maxSize, used, amount := INITIAL_SIZE, 0, 0;
      model, lost := map[], 0;
      new;
      EmptyOk(table[..]);
      OccupiedNone(table[..]);
    }

    /** The element with the key's hash code, whatever its key. */
    method GetElement(key: Key) returns (h: Word, b: nat, k: nat)
      requires Valid()
      ensures h == Hash(key) && b == Slot(h, maxSize) && k == Find(table[b], h)
      ensures h in model <==> k < |table[b]|
      ensures h in model ==> table[b][k] == model[h]
    {
      h := HashOf(key);
      b := h % maxSize;
      k := 0;
      FindIs(table[..], model, h);
      while k < |table[b]| && table[b][k].hash != h
        invariant k <= Find(table[b], h)
      {
        k := k + 1;
      }
    }

    method Get(key: Key) returns (data: Option<V>)
      requires Valid()
      ensures data == GetFrom(model, key)
    {
      var h, b, k := GetElement(key);
      data := if k < |table[b]| then table[b][k].data else None;
    }

    method HasKey(key: Key) returns (has: bool)
      requires Valid()
      ensures has <==> Hash(key) in model
    {
      var h, b, k := GetElement(key);
      has := k < |table[b]|;
    }

    /** Replaces the data of an element with the same hash code, or adds an element. */
    method Put(key: Key, data: Option<V>)
      requires Valid()
      modifies this, table
      ensures Valid() && (table == old(table) || fresh(table))
      ensures model == PutIn(old(model), key, data) && lost == old(lost)
      ensures var h := Hash(key);
              maxSize == if h !in old(model) && old(table[h % maxSize]) == [] && old(used) + 1 >= old(maxSize)
                         then 2 * old(maxSize) else old(maxSize)
    {
      hide Find, TableOk, Occupied, Hash;
      var h, b, k := GetElement(key);
      if k < |table[b]| {
        TableReplaces(table[..], model, h, data);
        OccupiedUpdate(table[..], b, table[b][k := table[b][k].(data := data)]);
        ghost var t := table[..][b := table[b][k := table[b][k].(data := data)]];
        table[b] := table[b][k := table[b][k].(data := data)];
        assert table[..] == t;
        model := model[h := model[h].(data := data)];
        return;
      }
      var e := Element(key, h, data);
      var first := table[b] == [];
      AddElement(e, b);
      if first {
        used := used + 1;
        if used >= maxSize {
          Resize(maxSize * 2);
        }
      }
      amount := amount + 1;
    }

    /** Adds an element at the end of its bucket. The counters are for the caller to keep. */
    method AddElement(e: Element<V>, b: nat)
      requires maxSize == table.Length && TableOk(table[..], model) && e.hash !in model && b == Slot(e.hash, maxSize)
      modifies table, this`model
      ensures TableOk(table[..], model) && model == old(model)[e.hash := e] && |model| == |old(model)| + 1
      ensures Occupied(table[..]) == old(Occupied(table[..])) + if old(table[b]) == [] then 1 else 0
    {
      TableAdds(table[..], model, e);
      OccupiedUpdate(table[..], b, table[b] + [e]);
      ghost var t := table[..][b := table[b] + [e]];
      table[b] := table[b] + [e];
      assert table[..] == t;
      model := model[e.hash := e];
    }

    /** Moves every element to its bucket in a table of the new size; no lookup changes. */
    method Resize(size: nat)
      requires maxSize == table.Length && TableOk(table[..], model) && size > 0
      modifies this`table, this`maxSize, this`used
      ensures fresh(table) && maxSize == table.Length == size && TableOk(table[..], model) && used == Occupied(table[..])
    {
      ghost var t, done: Model<V> := table[..], map[];
      MoveBegins(t, model);
      hide Find, TableOk, Occupied, Moved, Slot, Hash;
      var old' := table;
      var new' := new seq<Element<V>>[size](_ => []);
      EmptyOk(new'[..]);
      OccupiedNone(new'[..]);
      used := 0;
      for i := 0 to maxSize
        invariant old'[..] == t && new'.Length == size && fresh(new')
        invariant TableOk(new'[..], done) && used == Occupied(new'[..]) && Moved(t, model, i, 0, done)
      {
        var chain := old'[i];
        for k := 0 to |chain|
          invariant old'[..] == t && new'.Length == size
          invariant TableOk(new'[..], done) && used == Occupied(new'[..]) && Moved(t, model, i, k, done)
        {
          MoveOne(t, model, i, k, done);
          done := MoveTo(new', chain[k], done);
        }
        MoveOn(t, model, i, done);
      }
      MovedAll(t, model, done);
      table, maxSize := new', size;
    }

    method MoveTo(a: array<seq<Element<V>>>, e: Element<V>, ghost done: Model<V>) returns (ghost done': Model<V>)
      requires TableOk(a[..], done) && e.hash !in done && used == Occupied(a[..])
      modifies a, this`used
      ensures TableOk(a[..], done') && done' == done[e.hash := e] && used == Occupied(a[..])
    {
      TableAdds(a[..], done, e);
      var b := e.hash % a.Length;
      OccupiedUpdate(a[..], b, a[b] + [e]);
      ghost var t := a[..][b := a[b] + [e]];
      if a[b] == [] {
        used := used + 1;
      }
      a[b] := a[b] + [e];
      assert a[..] == t;
      done' := done[e.hash := e];
    }

    static lemma MoveBegins(t: seq<seq<Element<V>>>, m: Model<V>)
      requires |t| > 0
      ensures Moved(t, m, 0, 0, map[])
    {
    }

    /** Takes the element with the key's hash code out. Only non-null data counts as a removal. */
    method Remove(key: Key) returns (data: Option<V>)
      requires Valid()
      modifies this`used, this`amount, this`model, this`lost, table
      ensures Valid() && data == GetFrom(old(model), key) && model == RemoveFrom(old(model), key)
      ensures lost == old(lost) + if Hash(key) in old(model) && data == None then 1 else 0
    {
      hide Find, TableOk, Occupied, Hash;
      data := RemoveElement(key);
      if data.Some? {
        amount := amount - 1;
      }
    }

    method RemoveElement(key: Key) returns (data: Option<V>)
      requires Valid()
      modifies this`used, this`model, this`lost, table
      ensures maxSize == table.Length && TableOk(table[..], model) && used == Occupied(table[..])
      ensures data == GetFrom(old(model), key) && model == RemoveFrom(old(model), key)
      ensures lost == old(lost) + if Hash(key) in old(model) && data == None then 1 else 0
      ensures amount == |model| + lost + if data.Some? then 1 else 0
    {
      hide Find, TableOk, Occupied, Hash;
      var h, b, k := GetElement(key);
      RemovedSize(model, h);
      if k == |table[b]| {
        assert model - {h} == model;
        return None;
      }
      data := table[b][k].data;
      TableRemoves(table[..], model, h);
      OccupiedUpdate(table[..], b, DropAt(table[b], k));
      ghost var t := table[..][b := DropAt(table[b], k)];
      table[b] := DropAt(table[b], k);
      assert table[..] == t;
      if k == 0 && table[b] == [] {
        used := used - 1;
      }
      model := model - {h};
      if data.None? {
        lost := lost + 1;
      }
    }

    /** Empties the table, and with it the count of lost elements. */
    method Clean()
      requires Valid()
      modifies this`used, this`amount, this`model, this`lost, table
      ensures Valid() && model == map[] && lost == 0
    {
      for i := 0 to maxSize
        invariant forall b :: 0 <= b < i ==> table[b] == []
      {
        table[i] := [];
      }
      EmptyOk(table[..]);
      OccupiedNone(table[..]);
      used, amount, model, lost := 0, 0, map[], 0;
    }
  }
}
