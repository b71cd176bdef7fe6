/** rx/rxhash.c: nested tables of sixteen buckets.  A table is known by its path from the root; the
    bucket an item goes to at each level is taken from its hash under the mask of that level. */
module RxHash {
  import opened Options

  type Hash = bv32
  const BUCKETS: nat := 16
  const MASKS: seq<Hash> := [0x12488421, 0x96699669, 0xbe7dd7eb, 0xffffffff]

  /** JOIN_BYTE on two values below 16: h + (h << 3) + b, kept to four bits */
  function Join(h: nat, b: nat): nat {
    (9 * h + b) % 16
  }

  /** H2B of the hash under the mask of a level */
  function Slot(hash: Hash, level: nat): (b: nat)
    requires level < 4
    ensures b < BUCKETS
  {
    var x := (hash & MASKS[level]) as int;
    Join(Join(Join(x % 16, x / 0x100 % 16), x / 0x10000 % 16), x / 0x1000000 % 16)
  }

  /** The bytes' low halves, weighted 9 and 1 by turns */
  lemma SlotIsSum(hash: Hash, level: nat)
    requires level < 4
    ensures var x := (hash & MASKS[level]) as int;
      Slot(hash, level) == (9 * (x % 16 + x / 0x10000 % 16) + x / 0x100 % 16 + x / 0x1000000 % 16) % 16
  {
    var x := (hash & MASKS[level]) as int;
    JoinThrice(x % 16, x / 0x100 % 16, x / 0x10000 % 16, x / 0x1000000 % 16);
  }

  lemma JoinThrice(a: nat, b: nat, c: nat, d: nat)
    ensures Join(Join(Join(a, b), c), d) == (9 * (a + c) + b + d) % 16
  {
    var h := 9 * a + b;
    var k := 9 * h + c;
    assert Join(a, b) == h % 16;
    JoinMod(h, c);
    assert Join(h, c) == k % 16;
    JoinMod(k, d);
    SumMod(a, b, c, d);
  }

  lemma SumMod(a: nat, b: nat, c: nat, d: nat)
    ensures (9 * (9 * (9 * a + b) + c) + d) % 16 == (9 * (a + c) + b + d) % 16
  {
    var k, y := 45 * a + 5 * b, 9 * (a + c) + b + d;
    Mod16(k, y);
    assert 9 * (9 * (9 * a + b) + c) + d == 16 * k + y;
  }

  lemma JoinMod(x: nat, b: nat)
    ensures Join(x % 16, b) == Join(x, b)
  {
    Mod16(9 * (x / 16), 9 * (x % 16) + b);
  }

  lemma Mod16(k: nat, y: nat)
    ensures (16 * k + y) % 16 == y % 16
  {
  }

  /** What a hash is used for: the bucket it selects at each of the four levels */
  type Route = r: seq<nat> | |r| == 4 && forall k :: 0 <= k < 4 ==> r[k] < BUCKETS witness [0, 0, 0, 0]

  function RouteOf(hash: Hash): (r: Route)
  {
    [Slot(hash, 0), Slot(hash, 1), Slot(hash, 2), Slot(hash, 3)]
  }

  /** struct rx_hash_item, apart from its link to the next */
  datatype Item = Item(table: Path, hash: Route, data: nat)

  /** Items in a chain are known by their addresses. */
  datatype Bucket = Items(chain: seq<nat>) | Nested

  datatype Tab = Tab(refs: int, buckets: seq<Bucket>)

  /** A table is known by its path from the root. */
  type Path = seq<nat>

  datatype Trie = Trie(tabs: map<Path, Tab>, items: map<nat, Item>)

  function Empty(): (b: seq<Bucket>) {
    seq(BUCKETS, _ => Items([]))
  }

  // ----- What refs counts -----

  function WeightOf(b: Bucket): nat {
    match b
    case Items(chain) => |chain|
    case Nested => 1
  }

  function Weight(bs: seq<Bucket>): nat {
    if bs == [] then 0 else Weight(bs[..|bs| - 1]) + WeightOf(bs[|bs| - 1])
  }

  lemma {:induction false} WeightUpdate(bs: seq<Bucket>, i: nat, b: Bucket)
    requires i < |bs|
    ensures Weight(bs[i := b]) == Weight(bs) - WeightOf(bs[i]) + WeightOf(b)
  {
    var n := |bs| - 1;
    if i == n {
      assert bs[i := b][..n] == bs[..n];
    } else {
      WeightUpdate(bs[..n], i, b);
      assert bs[i := b][..n] == bs[..n][i := b];
    }
  }

  lemma {:induction false} WeightAt(bs: seq<Bucket>, i: nat)
    requires i < |bs|
    ensures Weight(bs) >= WeightOf(bs[i])
  {
    var n := |bs| - 1;
    if i < n {
      WeightAt(bs[..n], i);
    }
  }

  lemma {:induction false} WeightEmpty(n: nat)
    ensures Weight(seq(n, _ => Items([]))) == 0
  {
    if n > 0 {
      WeightEmpty(n - 1);
      var bs := seq(n, _ => Items([]));
      assert bs[..n - 1] == seq(n - 1, _ => Items([]));
    }
  }

  // ----- The invariant -----

  /** The path is the one the hash selects, level by level. */
  predicate Follows(p: Path, hash: Route) {
    |p| <= 3 && forall k :: 0 <= k < |p| ==> p[k] == hash[k]
  }

  predicate Distinct(chain: seq<nat>) {
    forall i, j :: 0 <= i < j < |chain| ==> chain[i] != chain[j]
  }

  /** An item sits in the bucket its hash selects, and knows its table. */
  ghost predicate Placed(t: Trie, p: Path, b: nat, id: nat) {
    id in t.items && t.items[id].table == p && Follows(p, t.items[id].hash) && b == t.items[id].hash[|p|]
  }

  ghost predicate BucketOk(t: Trie, p: Path, b: nat, bucket: Bucket) {
    match bucket
    case Nested => |p| < 3 && p + [b] in t.tabs
    case Items(chain) => Distinct(chain) && forall i :: 0 <= i < |chain| ==> Placed(t, p, b, chain[i])
  }

  function Parent(p: Path): Path
    requires p != []
  {
    p[..|p| - 1]
  }

  ghost predicate Sized(t: Trie, p: Path) {
    p in t.tabs && |p| <= 3 && |t.tabs[p].buckets| == BUCKETS
  }

  /** The bucket that leads to a table is nested. */
  ghost predicate Hangs(t: Trie, p: Path) {
    p != [] ==> Sized(t, Parent(p)) && p[|p| - 1] < BUCKETS && t.tabs[Parent(p)].buckets[p[|p| - 1]] == Nested
  }

  /** `refs` is the number of items plus nested tables; only a table in `loose` may hold nothing. */
  ghost predicate TabOk(t: Trie, loose: set<Path>, p: Path) {
    && Sized(t, p) && Hangs(t, p) && t.tabs[p].refs == Weight(t.tabs[p].buckets)
    && (p != [] && p !in loose ==> t.tabs[p].refs > 0)
    && forall b: nat :: b < BUCKETS ==> BucketOk(t, p, b, t.tabs[p].buckets[b])
  }

  ghost predicate TabsOk(t: Trie, loose: set<Path>) {
    [] in t.tabs && forall p {:trigger TabOk(t, loose, p)} :: p in t.tabs ==> TabOk(t, loose, p)
  }

  /** Every item is in the chain it names. */
  ghost predicate Linked(t: Trie, id: nat)
    requires id in t.items
  {
    var it := t.items[id];
    Sized(t, it.table) && t.tabs[it.table].buckets[it.hash[|it.table|]].Items? && id in t.tabs[it.table].buckets[it.hash[|it.table|]].chain
  }

  /** Equal values have equal hashes, and are stored once. */
  ghost predicate ItemsOk(t: Trie, hashOf: nat -> Route) {
    && (forall id :: id in t.items ==> Linked(t, id) && t.items[id].hash == hashOf(t.items[id].data))
    && (forall i, j :: i in t.items && j in t.items && t.items[i].data == t.items[j].data ==> i == j)
  }

  ghost predicate Inv(t: Trie, hashOf: nat -> Route, loose: set<Path>) {
    TabsOk(t, loose) && ItemsOk(t, hashOf)
  }

  /** The set that the trie stands for */
  ghost function Values(t: Trie): set<nat> {
    DataOf(t.items)
  }

  ghost function DataOf(items: map<nat, Item>): set<nat> {
    set id | id in items :: items[id].data
  }

  // ----- Where an item can be -----

  /** Every table above a table has the next step of the path nested. */
  lemma {:induction false} Above(t: Trie, loose: set<Path>, p: Path, k: nat)
    requires TabsOk(t, loose) && p in t.tabs && k < |p|
    ensures Sized(t, p[..k]) && p[k] < BUCKETS && t.tabs[p[..k]].buckets[p[k]] == Nested
    decreases |p|
  {
    assert TabOk(t, loose, p);
    if k < |p| - 1 {
      Above(t, loose, Parent(p), k);
      assert Parent(p)[..k] == p[..k];
    }
  }

  lemma NestedAbove(t: Trie, loose: set<Path>, q: Path, hash: Route, p: Path)
    requires TabsOk(t, loose) && q in t.tabs && Follows(q, hash) && Follows(p, hash) && |p| < |q|
    ensures Sized(t, p) && t.tabs[p].buckets[hash[|p|]] == Nested
  {
    Above(t, loose, q, |p|);
    assert q[..|p|] == p;
  }

  /** The walk along a hash ends in the only chain that can hold it. */
  lemma OnlyHere(t: Trie, hashOf: nat -> Route, loose: set<Path>, q: Path, id: nat)
    requires Inv(t, hashOf, loose) == true && id in t.items
    requires Sized(t, q) && Follows(q, t.items[id].hash) && t.tabs[q].buckets[t.items[id].hash[|q|]].Items?
    ensures t.items[id].table == q && id in t.tabs[q].buckets[t.items[id].hash[|q|]].chain
  {
    var p, hash := t.items[id].table, t.items[id].hash;
    assert Linked(t, id);
    LinkedPlaced(t, loose, id);
    if |p| < |q| {
      NestedAbove(t, loose, q, hash, p);
    } else if |q| < |p| {
      NestedAbove(t, loose, p, hash, q);
    }
    assert p == q;
  }

  lemma LinkedPlaced(t: Trie, loose: set<Path>, id: nat)
    requires TabsOk(t, loose) && id in t.items && Linked(t, id)
    ensures Placed(t, t.items[id].table, t.items[id].hash[|t.items[id].table|], id)
  {
    var p := t.items[id].table;
    var b := t.items[id].hash[|p|];
    assert TabOk(t, loose, p);
    assert BucketOk(t, p, b, t.tabs[p].buckets[b]);
  }

  function Put(t: Trie, p: Path, b: nat, bucket: Bucket, change: int): Trie
    requires p in t.tabs && b < |t.tabs[p].buckets|
  {
    t.(tabs := t.tabs[p := Tab(t.tabs[p].refs + change, t.tabs[p].buckets[b := bucket])])
  }

  /** A chain that is not nested may be replaced without any table losing its parent. */
  lemma PutHangs(t: Trie, p: Path, b: nat, bucket: Bucket, change: int, x: Path)
    requires Sized(t, p) && b < BUCKETS && Hangs(t, x) && (t.tabs[p].buckets[b].Items? || x != p + [b])
    ensures Hangs(Put(t, p, b, bucket, change), x)
  {
    if x != [] && Parent(x) == p {
      assert x == p + [x[|x| - 1]];
    }
  }

  // ----- Adding to a chain -----

  ghost predicate Room(t: Trie, p: Path, hash: Route, id: nat) {
    Sized(t, p) && Follows(p, hash) && t.tabs[p].buckets[hash[|p|]].Items? && id !in t.items
  }

  function Added(t: Trie, p: Path, hash: Route, data: nat, id: nat): Trie
    requires p in t.tabs && |p| <= 3 && |t.tabs[p].buckets| == BUCKETS && t.tabs[p].buckets[hash[|p|]].Items?
  {
    Put(t, p, hash[|p|], Items([id] + t.tabs[p].buckets[hash[|p|]].chain), 1).(items := t.items[id := Item(p, hash, data)])
  }

  lemma AddedBucket(t: Trie, p: Path, hash: Route, data: nat, id: nat, x: Path, c: nat)
    requires Room(t, p, hash, id) && Sized(t, x) && c < BUCKETS && BucketOk(t, x, c, t.tabs[x].buckets[c])
    ensures BucketOk(Added(t, p, hash, data, id), x, c, Added(t, p, hash, data, id).tabs[x].buckets[c])
  {
    var t2, was := Added(t, p, hash, data, id), t.tabs[x].buckets[c];
    if was.Items? {
      var chain2 := t2.tabs[x].buckets[c].chain;
      forall i | 0 <= i < |was.chain| ensures Placed(t2, x, c, was.chain[i]) && was.chain[i] != id {
        assert Placed(t, x, c, was.chain[i]);
      }
      if x == p && c == hash[|p|] {
        assert chain2[0] == id && forall i :: 0 < i < |chain2| ==> chain2[i] == was.chain[i - 1];
      }
    }
  }

  lemma AddedTab(t: Trie, loose: set<Path>, p: Path, hash: Route, data: nat, id: nat, x: Path)
    requires TabOk(t, loose, x) && TabOk(t, loose, p) && loose <= {p} && Room(t, p, hash, id)
    ensures TabOk(Added(t, p, hash, data, id), {}, x)
  {
    var t2, b := Added(t, p, hash, data, id), hash[|p|];
    PutHangs(t, p, b, t2.tabs[p].buckets[b], 1, x);
    WeightUpdate(t.tabs[p].buckets, b, t2.tabs[p].buckets[b]);
    WeightAt(t2.tabs[p].buckets, b);
    forall c: nat | c < BUCKETS ensures BucketOk(t2, x, c, t2.tabs[x].buckets[c]) {
      AddedBucket(t, p, hash, data, id, x, c);
    }
  }

  lemma AddedItems(t: Trie, hashOf: nat -> Route, p: Path, hash: Route, data: nat, id: nat)
    requires ItemsOk(t, hashOf) && Room(t, p, hash, id) && hash == hashOf(data) && data !in Values(t)
    ensures ItemsOk(Added(t, p, hash, data, id), hashOf) && Values(Added(t, p, hash, data, id)) == Values(t) + {data}
  {
    var t2 := Added(t, p, hash, data, id);
    forall i | i in t2.items ensures Linked(t2, i) && t2.items[i].hash == hashOf(t2.items[i].data) {
      if i == id {
        assert t2.tabs[p].buckets[hash[|p|]].chain[0] == id;
      } else {
        assert Linked(t, i);
      }
    }
    assert forall i :: i in t.items ==> t.items[i].data in Values(t);
    AddedValues(t.items, id, Item(p, hash, data));
  }

  lemma AddedValues(items: map<nat, Item>, id: nat, it: Item)
    requires id !in items
    ensures DataOf(items[id := it]) == DataOf(items) + {it.data}
  {
    var more := items[id := it];
    assert more[id].data == it.data;
    forall v | v in DataOf(items) ensures v in DataOf(more) {
      var i :| i in items && items[i].data == v;
      assert more[i].data == v;
    }
  }

  lemma AddedOk(t: Trie, hashOf: nat -> Route, loose: set<Path>, p: Path, hash: Route, data: nat, id: nat)
    requires Inv(t, hashOf, loose) == true && loose <= {p} && Room(t, p, hash, id) == true && hash == hashOf(data) && data !in Values(t)
    ensures Inv(Added(t, p, hash, data, id), hashOf, {}) == true && Values(Added(t, p, hash, data, id)) == Values(t) + {data}
  {
    var t2 := Added(t, p, hash, data, id);
    forall x | x in t2.tabs ensures TabOk(t2, {}, x) == true {
      AddedTab(t, loose, p, hash, data, id, x);
    }
    AddedItems(t, hashOf, p, hash, data, id);
  }

  // ----- Nesting a bucket -----

  /** A chain spread over the buckets of the next level */
  ghost predicate Spread(t: Trie, chain: seq<nat>, level: nat, bs: seq<Bucket>)
    requires level < 4
  {
    && |bs| == BUCKETS && Weight(bs) == |chain|
    && (forall c: nat :: c < BUCKETS ==> bs[c].Items? && SpreadPart(t, chain, level, c, bs[c].chain))
    && (forall id :: id in chain ==> id in t.items && bs[t.items[id].hash[level]].Items? && id in bs[t.items[id].hash[level]].chain)
  }

  ghost predicate SpreadPart(t: Trie, chain: seq<nat>, level: nat, c: nat, part: seq<nat>)
    requires level < 4
  {
    Distinct(part) && forall i :: 0 <= i < |part| ==> part[i] in chain && part[i] in t.items && t.items[part[i]].hash[level] == c
  }

  function Deepened(t: Trie, p: Path, b: nat, bs: seq<Bucket>): Trie
    requires p in t.tabs && b < |t.tabs[p].buckets| && t.tabs[p].buckets[b].Items?
  {
    var chain := t.tabs[p].buckets[b].chain;
    Trie(Put(t, p, b, Nested, 1 - |chain|).tabs[p + [b] := Tab(|chain|, bs)],
         map id | id in t.items :: if id in chain then t.items[id].(table := p + [b]) else t.items[id])
  }

  ghost predicate Deepens(t: Trie, p: Path, b: nat, bs: seq<Bucket>) {
    && Sized(t, p) && |p| < 3 && b < BUCKETS && t.tabs[p].buckets[b].Items? && p + [b] !in t.tabs
    && BucketOk(t, p, b, t.tabs[p].buckets[b]) && Spread(t, t.tabs[p].buckets[b].chain, |p| + 1, bs)
  }

  /** A bucket without nesting has no table below it. */
  lemma NoTableBelow(t: Trie, loose: set<Path>, p: Path, b: nat)
    requires TabsOk(t, loose) == true && Sized(t, p) && b < BUCKETS && t.tabs[p].buckets[b].Items?
    ensures p + [b] !in t.tabs
  {
    var q := p + [b];
    assert Parent(q) == p;
    assert q in t.tabs ==> TabOk(t, loose, q) == true;
  }

  lemma DeepenedOld(t: Trie, p: Path, b: nat, bs: seq<Bucket>, x: Path, c: nat)
    requires Deepens(t, p, b, bs) && Sized(t, x) && c < BUCKETS && BucketOk(t, x, c, t.tabs[x].buckets[c])
    ensures BucketOk(Deepened(t, p, b, bs), x, c, Deepened(t, p, b, bs).tabs[x].buckets[c])
  {
    var t2, was := Deepened(t, p, b, bs), t.tabs[x].buckets[c];
    if was.Items? && !(x == p && c == b) {
      forall i | 0 <= i < |was.chain| ensures Placed(t2, x, c, was.chain[i]) {
        assert Placed(t, x, c, was.chain[i]);
        var chain := t.tabs[p].buckets[b].chain;
        forall j | 0 <= j < |chain| ensures chain[j] != was.chain[i] {
          assert Placed(t, p, b, chain[j]);
        }
      }
    }
  }

  lemma DeepenedNew(t: Trie, p: Path, b: nat, bs: seq<Bucket>, c: nat)
    requires Deepens(t, p, b, bs) && c < BUCKETS
    ensures BucketOk(Deepened(t, p, b, bs), p + [b], c, bs[c])
  {
    var t2, part := Deepened(t, p, b, bs), bs[c].chain;
    assert SpreadPart(t, t.tabs[p].buckets[b].chain, |p| + 1, c, part);
    forall i | 0 <= i < |part| ensures Placed(t2, p + [b], c, part[i]) {
      var j :| 0 <= j < |t.tabs[p].buckets[b].chain| && t.tabs[p].buckets[b].chain[j] == part[i];
      assert Placed(t, p, b, part[i]);
    }
  }

  lemma DeepenedTab(t: Trie, p: Path, b: nat, bs: seq<Bucket>, x: Path)
    requires TabsOk(t, {}) && Deepens(t, p, b, bs) && (x in t.tabs || x == p + [b])
    ensures TabOk(Deepened(t, p, b, bs), {p + [b]}, x)
  {
    var t2, q := Deepened(t, p, b, bs), p + [b];
    assert TabOk(t, {}, p);
    if x == q {
      assert Parent(q) == p && q[|q| - 1] == b;
      forall c: nat | c < BUCKETS ensures BucketOk(t2, q, c, bs[c]) {
        DeepenedNew(t, p, b, bs, c);
      }
    } else {
      assert TabOk(t, {}, x);
      PutHangs(t, p, b, Nested, 1 - |t.tabs[p].buckets[b].chain|, x);
      WeightUpdate(t.tabs[p].buckets, b, Nested);
      WeightAt(t.tabs[p].buckets[b := Nested], b);
      DeepenedHangs(t, p, b, bs, x);
      forall c: nat | c < BUCKETS ensures BucketOk(t2, x, c, t2.tabs[x].buckets[c]) {
        DeepenedOld(t, p, b, bs, x, c);
      }
    }
  }

  lemma DeepenedHangs(t: Trie, p: Path, b: nat, bs: seq<Bucket>, x: Path)
    requires Deepens(t, p, b, bs) && Hangs(t, x) && x != p + [b]
    requires Hangs(Put(t, p, b, Nested, 1 - |t.tabs[p].buckets[b].chain|), x)
    ensures Hangs(Deepened(t, p, b, bs), x)
  {
  }

  lemma DeepenedItems(t: Trie, hashOf: nat -> Route, p: Path, b: nat, bs: seq<Bucket>)
    requires ItemsOk(t, hashOf) && Deepens(t, p, b, bs)
    ensures ItemsOk(Deepened(t, p, b, bs), hashOf) && Values(Deepened(t, p, b, bs)) == Values(t)
  {
    var t2 := Deepened(t, p, b, bs);
    forall id | id in t2.items ensures Linked(t2, id) {
      assert Linked(t, id);
      DeepenedLinked(t, p, b, bs, id);
    }
    SameData(t.items, t2.items);
  }

  lemma SameData(items: map<nat, Item>, items2: map<nat, Item>)
    requires items.Keys == items2.Keys && forall i :: i in items ==> items2[i].data == items[i].data
    ensures DataOf(items) == DataOf(items2)
  {
    forall v | v in DataOf(items) ensures v in DataOf(items2) {
      var i :| i in items && items[i].data == v;
      assert items2[i].data == v;
    }
  }

  /** Nesting moves items to a new table and changes nothing else. */
  lemma DeepenedOk(t: Trie, hashOf: nat -> Route, p: Path, b: nat, bs: seq<Bucket>)
    requires Inv(t, hashOf, {}) == true && Deepens(t, p, b, bs) == true
    ensures Inv(Deepened(t, p, b, bs), hashOf, {p + [b]}) == true && Values(Deepened(t, p, b, bs)) == Values(t)
  {
    var t2 := Deepened(t, p, b, bs);
    forall x | x in t2.tabs ensures TabOk(t2, {p + [b]}, x) == true {
      DeepenedTab(t, p, b, bs, x);
    }
    DeepenedItems(t, hashOf, p, b, bs);
  }

  lemma DeepenedLinked(t: Trie, p: Path, b: nat, bs: seq<Bucket>, id: nat)
    requires Deepens(t, p, b, bs) && id in t.items && Linked(t, id)
    ensures Linked(Deepened(t, p, b, bs), id)
  {
    var chain := t.tabs[p].buckets[b].chain;
    if id in chain {
      assert bs[t.items[id].hash[|p| + 1]].Items? && id in bs[t.items[id].hash[|p| + 1]].chain;
    }
  }

  // ----- Removing an item -----

  function Without(chain: seq<nat>, i: nat): seq<nat>
    requires i < |chain|
  {
    chain[..i] + chain[i + 1..]
  }

  function Removed(t: Trie, id: nat, i: nat): Trie
    requires id in t.items && t.items[id].table in t.tabs && |t.items[id].table| <= 3
    requires |t.tabs[t.items[id].table].buckets| == BUCKETS && t.tabs[t.items[id].table].buckets[t.items[id].hash[|t.items[id].table|]].Items?
    requires i < |t.tabs[t.items[id].table].buckets[t.items[id].hash[|t.items[id].table|]].chain|
  {
    var p := t.items[id].table;
    var b := t.items[id].hash[|p|];
    Put(t, p, b, Items(Without(t.tabs[p].buckets[b].chain, i)), -1).(items := t.items - {id})
  }

  /** Position `i` of its chain holds the item. */
  ghost predicate Here(t: Trie, id: nat, i: nat) {
    id in t.items && Linked(t, id) && var p := t.items[id].table;
    var chain := t.tabs[p].buckets[t.items[id].hash[|p|]].chain;
    i < |chain| && chain[i] == id
  }

  lemma RemovedBucket(t: Trie, id: nat, i: nat, x: Path, c: nat)
    requires Here(t, id, i) && Sized(t, x) && c < BUCKETS && BucketOk(t, x, c, t.tabs[x].buckets[c])
    requires Placed(t, t.items[id].table, t.items[id].hash[|t.items[id].table|], id)
    ensures BucketOk(Removed(t, id, i), x, c, Removed(t, id, i).tabs[x].buckets[c])
  {
    var t2, was := Removed(t, id, i), t.tabs[x].buckets[c];
    if was.Items? {
      var chain, chain2 := was.chain, t2.tabs[x].buckets[c].chain;
      forall k | 0 <= k < |chain| && chain[k] != id ensures Placed(t2, x, c, chain[k]) {
        assert Placed(t, x, c, chain[k]);
      }
      if x == t.items[id].table && c == t.items[id].hash[|x|] {
        assert forall k :: 0 <= k < |chain2| ==> chain2[k] == if k < i then chain[k] else chain[k + 1];
      } else {
        forall k | 0 <= k < |chain| ensures chain[k] != id {
          assert Placed(t, x, c, chain[k]);
        }
      }
    }
  }

  lemma RemovedTab(t: Trie, id: nat, i: nat, x: Path)
    requires TabsOk(t, {}) && Here(t, id, i) && x in t.tabs
    ensures TabOk(Removed(t, id, i), {t.items[id].table}, x)
  {
    var t2, p := Removed(t, id, i), t.items[id].table;
    var b := t.items[id].hash[|p|];
    LinkedPlaced(t, {}, id);
    assert TabOk(t, {}, x) && TabOk(t, {}, p);
    PutHangs(t, p, b, t2.tabs[p].buckets[b], -1, x);
    WeightUpdate(t.tabs[p].buckets, b, t2.tabs[p].buckets[b]);
    forall c: nat | c < BUCKETS ensures BucketOk(t2, x, c, t2.tabs[x].buckets[c]) {
      RemovedBucket(t, id, i, x, c);
    }
  }

  lemma RemovedLinked(t: Trie, id: nat, i: nat, k: nat)
    requires Here(t, id, i) && k in t.items && k != id && Linked(t, k)
    ensures Linked(Removed(t, id, i), k)
  {
    var q := t.items[k].table;
    var c := t.items[k].hash[|q|];
    var chain, chain2 := t.tabs[q].buckets[c].chain, Removed(t, id, i).tabs[q].buckets[c].chain;
    var m :| 0 <= m < |chain| && chain[m] == k;
    if chain2 != chain {
      assert chain2 == Without(chain, i);
      assert chain2[if m < i then m else m - 1] == k;
    }
  }

  lemma RemovedItems(t: Trie, hashOf: nat -> Route, id: nat, i: nat)
    requires ItemsOk(t, hashOf) && Here(t, id, i)
    ensures ItemsOk(Removed(t, id, i), hashOf) == true
    ensures Values(Removed(t, id, i)) == Values(t) - {t.items[id].data}
  {
    var t2 := Removed(t, id, i);
    forall k | k in t2.items ensures Linked(t2, k) == true {
      RemovedLinked(t, id, i, k);
    }
    forall v | v in Values(t) && v != t.items[id].data ensures v in Values(t2) {
      var k :| k in t.items && t.items[k].data == v;
      assert t2.items[k].data == v;
    }
  }

  lemma RemovedOk(t: Trie, hashOf: nat -> Route, id: nat, i: nat)
    requires Inv(t, hashOf, {}) == true && Here(t, id, i) == true
    ensures Inv(Removed(t, id, i), hashOf, {t.items[id].table}) == true
    ensures Values(Removed(t, id, i)) == Values(t) - {t.items[id].data}
  {
    var t2 := Removed(t, id, i);
    forall x | x in t2.tabs ensures TabOk(t2, {t.items[id].table}, x) == true {
      RemovedTab(t, id, i, x);
    }
    RemovedItems(t, hashOf, id, i);
  }

  // ----- Cutting off an empty table -----

  function Cut(t: Trie, p: Path): Trie
    requires p != [] && Parent(p) in t.tabs && p[|p| - 1] < |t.tabs[Parent(p)].buckets|
  {
    var t1 := Put(t, Parent(p), p[|p| - 1], Items([]), -1);
    t1.(tabs := t1.tabs - {p})
  }

  /** A table that hangs from its parent and holds nothing */
  ghost predicate Prunable(t: Trie, p: Path) {
    && p != [] && Sized(t, p) && Hangs(t, p)
    && forall b: nat :: b < BUCKETS ==> t.tabs[p].buckets[b] == Items([])
  }

  lemma EmptyPrunable(t: Trie, loose: set<Path>, p: Path)
    requires TabOk(t, loose, p) && p != [] && t.tabs[p].refs == 0
    ensures Prunable(t, p)
  {
    forall b: nat | b < BUCKETS ensures t.tabs[p].buckets[b] == Items([]) {
      WeightAt(t.tabs[p].buckets, b);
    }
  }

  lemma PathIs(p: Path)
    requires p != []
    ensures p == Parent(p) + [p[|p| - 1]]
  {
  }

  lemma CutBucket(t: Trie, p: Path, x: Path, c: nat)
    requires Prunable(t, p) && Sized(t, x) && x != p && c < BUCKETS && BucketOk(t, x, c, t.tabs[x].buckets[c])
    ensures BucketOk(Cut(t, p), x, c, Cut(t, p).tabs[x].buckets[c])
  {
    var t2, was := Cut(t, p), t.tabs[x].buckets[c];
    assert Parent(x + [c]) == x;
    if was.Items? {
      forall i | 0 <= i < |was.chain| ensures Placed(t2, x, c, was.chain[i]) {
        assert Placed(t, x, c, was.chain[i]);
      }
    }
  }

  lemma CutHangs(t: Trie, p: Path, x: Path)
    requires Prunable(t, p) && Hangs(t, x) && x != p
    ensures Hangs(Cut(t, p), x)
  {
    PathIs(p);
    if x != [] {
      PathIs(x);
    }
  }

  lemma CutTab(t: Trie, p: Path, x: Path)
    requires Prunable(t, p) == true && TabOk(t, {p}, x) == true && TabOk(t, {p}, Parent(p)) == true && x != p
    ensures TabOk(Cut(t, p), {Parent(p)}, x) == true
  {
    CutHangs(t, p, x);
    var t2, q, b := Cut(t, p), Parent(p), p[|p| - 1];
    WeightUpdate(t.tabs[q].buckets, b, Items([]));
    forall c: nat | c < BUCKETS ensures BucketOk(t2, x, c, t2.tabs[x].buckets[c]) {
      CutBucket(t, p, x, c);
    }
  }

  lemma CutLinked(t: Trie, p: Path, id: nat)
    requires Prunable(t, p) && id in t.items && Linked(t, id)
    ensures Linked(Cut(t, p), id)
  {
  }

  lemma CutTabs(t: Trie, p: Path)
    requires Prunable(t, p) == true && TabsOk(t, {p}) == true
    ensures TabsOk(Cut(t, p), {Parent(p)}) == true
  {
    forall x | x in Cut(t, p).tabs ensures TabOk(Cut(t, p), {Parent(p)}, x) == true {
      TabIsOk(t, {p}, x);
      TabIsOk(t, {p}, Parent(p));
      CutTab(t, p, x);
    }
  }

  lemma TabIsOk(t: Trie, loose: set<Path>, x: Path)
    requires TabsOk(t, loose) == true && x in t.tabs
    ensures TabOk(t, loose, x) == true
  {
  }

  /** A table without items or tables goes, and with it the nesting in its parent. */
  lemma CutOk(t: Trie, hashOf: nat -> Route, p: Path)
    requires Inv(t, hashOf, {p}) == true && p in t.tabs && p != [] && t.tabs[p].refs == 0
    ensures Prunable(t, p) == true && Sized(t, Parent(p)) && p[|p| - 1] < BUCKETS
    ensures Inv(Cut(t, p), hashOf, {Parent(p)}) == true && Values(Cut(t, p)) == Values(t) && Parent(p) in Cut(t, p).tabs
  {
    assert TabOk(t, {p}, p) == true;
    EmptyPrunable(t, {p}, p);
    CutTabs(t, p);
    CutItems(t, hashOf, p);
  }

  lemma CutItems(t: Trie, hashOf: nat -> Route, p: Path)
    requires Prunable(t, p) && ItemsOk(t, hashOf)
    ensures ItemsOk(Cut(t, p), hashOf) == true
  {
    forall id | id in t.items ensures Linked(Cut(t, p), id) == true {
      CutLinked(t, p, id);
    }
  }

  /** The last cut leaves a table with something in it, or the root. */
  lemma Tighten(t: Trie, hashOf: nat -> Route, p: Path)
    requires Inv(t, hashOf, {p}) == true && p in t.tabs && (p == [] || t.tabs[p].refs != 0)
    ensures Inv(t, hashOf, {})
  {
    forall x | x in t.tabs ensures TabOk(t, {}, x) == true {
      assert TabOk(t, {p}, x) == true;
      TightenTab(t, p, x);
    }
  }

  lemma TightenTab(t: Trie, p: Path, x: Path)
    requires TabOk(t, {p}, x) == true && (x == p ==> p == [] || t.tabs[p].refs != 0)
    ensures TabOk(t, {}, x) == true
  {
  }

  function Prepended(t: Trie, bs: seq<Bucket>, level: nat, id: nat): seq<Bucket>
    requires level < 4 && |bs| == BUCKETS && id in t.items && bs[t.items[id].hash[level]].Items?
  {
    var c := t.items[id].hash[level];
    bs[c := Items([id] + bs[c].chain)]
  }

  lemma SpreadStep(t: Trie, chain: seq<nat>, level: nat, bs: seq<Bucket>, id: nat)
    requires level < 4 && Spread(t, chain, level, bs) && id in t.items && id !in chain
    ensures Spread(t, chain + [id], level, Prepended(t, bs, level, id))
  {
    var c, bs2 := t.items[id].hash[level], Prepended(t, bs, level, id);
    WeightUpdate(bs, c, bs2[c]);
    forall k: nat | k < BUCKETS ensures bs2[k].Items? && SpreadPart(t, chain + [id], level, k, bs2[k].chain) {
      assert SpreadPart(t, chain, level, k, bs[k].chain);
      if k == c {
        assert bs2[k].chain[0] == id && forall i :: 0 < i < |bs2[k].chain| ==> bs2[k].chain[i] == bs[k].chain[i - 1];
      }
    }
    forall x | x in chain + [id]
      ensures x in t.items && bs2[t.items[x].hash[level]].Items? && x in bs2[t.items[x].hash[level]].chain
    {
      if x == id {
        assert bs2[c].chain[0] == id;
      } else {
        assert x in chain;
      }
    }
  }

  // ----- The operations -----

  // ----- How early tables nest -----

  /** The root table holds nested tables only: `overflows` holds of a short chain, so the first item of a
      bucket already makes a table of it. */
  ghost predicate RootBare(t: Trie) {
    [] in t.tabs && forall b: nat :: b < |t.tabs[[]].buckets| ==> BareAt(t, b)
  }

  ghost predicate BareAt(t: Trie, b: nat)
    requires [] in t.tabs && b < |t.tabs[[]].buckets|
  {
    t.tabs[[]].buckets[b] == Nested || t.tabs[[]].buckets[b] == Items([])
  }

  lemma BareDeepened(t: Trie, p: Path, b: nat, bs: seq<Bucket>)
    requires RootBare(t) && p in t.tabs && b < |t.tabs[p].buckets| && t.tabs[p].buckets[b].Items?
    ensures RootBare(Deepened(t, p, b, bs)) == true
  {
    forall c: nat | c < |t.tabs[[]].buckets| ensures BareAt(Deepened(t, p, b, bs), c) {
      assert BareAt(t, c);
    }
  }

  lemma BareAdded(t: Trie, p: Path, hash: Route, data: nat, id: nat)
    requires RootBare(t) && p != [] && Room(t, p, hash, id)
    ensures RootBare(Added(t, p, hash, data, id)) == true
  {
    forall c: nat | c < |t.tabs[[]].buckets| ensures BareAt(Added(t, p, hash, data, id), c) {
      assert BareAt(t, c);
    }
  }

  lemma BareRemoved(t: Trie, id: nat, i: nat)
    requires RootBare(t) && Here(t, id, i)
    ensures RootBare(Removed(t, id, i)) == true
  {
    forall c: nat | c < |t.tabs[[]].buckets| ensures BareAt(Removed(t, id, i), c) {
      assert BareAt(t, c);
    }
  }

  lemma BareCut(t: Trie, p: Path)
    requires RootBare(t) && p != [] && Parent(p) in t.tabs && p[|p| - 1] < |t.tabs[Parent(p)].buckets|
    ensures RootBare(Cut(t, p)) == true
  {
    forall c: nat | c < |t.tabs[[]].buckets| ensures BareAt(Cut(t, p), c) {
      assert BareAt(t, c);
    }
  }

  class HashTable {
    /** The buckets that the hash of a value selects */
    const route: nat -> Route
    var t: Trie
    var nextId: nat

    ghost predicate Valid()
      reads this
    {
      Inv(t, route, {}) == true && Older(t.items, nextId) == true && RootBare(t) == true
    }

    constructor (hashOf: nat -> Hash)
      ensures Valid() && Values(t) == {} && forall v :: route(v) == RouteOf(hashOf(v))
    {
      route := v => RouteOf(hashOf(v));
      t := Trie(map[[] := Tab(0, Empty())], map[]);
      nextId := 0;
      new;
      WeightEmpty(BUCKETS);
      assert TabOk(t, {}, []);
    }

    /** The walk of rx_hash_find and rx_hash_store: down the nested buckets that the hash selects */
    method Walk(hash: Route) returns (p: Path)
      requires Valid()
      ensures Sized(t, p) && Follows(p, hash) && t.tabs[p].buckets[hash[|p|]].Items?
    {
      p := [];
      assert TabOk(t, {}, p);
      while t.tabs[p].buckets[hash[|p|]] == Nested
        invariant Sized(t, p) && Follows(p, hash)
        decreases 4 - |p|
      {
        assert TabOk(t, {}, p);
        assert BucketOk(t, p, hash[|p|], Nested);
        p := p + [hash[|p|]];
        assert TabOk(t, {}, p);
      }
    }

    /** The scan of a chain */
    method Scan(chain: seq<nat>, value: nat) returns (found: Option<nat>)
      requires forall i :: 0 <= i < |chain| ==> chain[i] in t.items
      ensures found.Some? ==> found.value in chain && found.value in t.items && t.items[found.value].data == value
      ensures found.None? ==> forall i :: 0 <= i < |chain| ==> t.items[chain[i]].data != value
    {
      for i := 0 to |chain|
        invariant forall k :: 0 <= k < i ==> t.items[chain[k]].data != value
      {
        if t.items[chain[i]].data == value {
          return Some(chain[i]);
        }
      }
      return None;
    }

    /** What the walk and the scan together find out */
    lemma ScanDecides(p: Path, value: nat)
      requires Valid() && Sized(t, p) && Follows(p, route(value)) && t.tabs[p].buckets[route(value)[|p|]].Items?
      ensures var chain := t.tabs[p].buckets[route(value)[|p|]].chain;
        (forall i :: 0 <= i < |chain| ==> chain[i] in t.items) &&
        (value in Values(t) ==> exists i :: 0 <= i < |chain| && chain[i] in t.items && t.items[chain[i]].data == value)
    {
      var hash := route(value);
      var chain := t.tabs[p].buckets[hash[|p|]].chain;
      assert TabOk(t, {}, p);
      assert BucketOk(t, p, hash[|p|], t.tabs[p].buckets[hash[|p|]]);
      forall i | 0 <= i < |chain| ensures chain[i] in t.items {
        assert Placed(t, p, hash[|p|], chain[i]);
      }
      if value in Values(t) {
        var id :| id in t.items && t.items[id].data == value;
        OnlyHere(t, route, {}, p, id);
      }
    }

    /** rx_hash_find */
    method Find(value: nat) returns (found: Option<nat>)
      requires Valid()
      ensures found.Some? <==> value in Values(t)
      ensures found.Some? ==> found.value in t.items && t.items[found.value].data == value
    {
      var hash := route(value);
      var p := Walk(hash);
      ScanDecides(p, value);
      found := Scan(t.tabs[p].buckets[hash[|p|]].chain, value);
      assert found.Some? ==> t.items[found.value].data in Values(t);
    }

    /** The loop that relinks a chain into a new table */
    method SpreadOver(chain: seq<nat>, level: nat) returns (bs: seq<Bucket>)
      requires level < 4 && Distinct(chain) && forall i :: 0 <= i < |chain| ==> chain[i] in t.items
      ensures Spread(t, chain, level, bs) == true
    {
      bs := Empty();
      WeightEmpty(BUCKETS);
      assert chain[..0] == [];
      for i := 0 to |chain|
        invariant Spread(t, chain[..i], level, bs) == true
      {
        assert chain[..i + 1] == chain[..i] + [chain[i]];
        SpreadStep(t, chain[..i], level, bs, chain[i]);
        bs := Prepended(t, bs, level, chain[i]);
      }
      assert chain[..|chain|] == chain;
    }

    /** `overflows`, which answers the opposite of its name */
    predicate Overflows(chain: seq<nat>) {
      !(|chain| >= 4)
    }

    /** The bucket becomes a table of its own. */
    method Deepen(p: Path, hash: Route)
      requires Valid() && Sized(t, p) && Follows(p, hash) && |p| < 3 && t.tabs[p].buckets[hash[|p|]].Items?
      modifies this`t
      ensures Inv(t, route, {p + [hash[|p|]]}) == true && Room(t, p + [hash[|p|]], hash, nextId) == true
      ensures Values(t) == old(Values(t)) && SameItems(old(t.items), t.items) == true && Older(t.items, nextId) == true
      ensures RootBare(t) == true
    {
      var b := hash[|p|];
      BucketAt(t, p, b);
      var bs := SpreadOver(t.tabs[p].buckets[b].chain, |p| + 1);
      CanDeepen(t, p, b, bs);
      DeepenedOk(t, route, p, b, bs);
      DeepenedRoom(t, p, hash, bs, nextId);
      BareDeepened(t, p, b, bs);
      t := Deepened(t, p, b, bs);
    }

    method AddAt(p: Path, hash: Route, value: nat, ghost loose: set<Path>) returns (id: nat)
      requires Inv(t, route, loose) == true && loose <= {p} && Room(t, p, hash, nextId) == true
      requires hash == route(value) && value !in Values(t) && Older(t.items, nextId) == true && RootBare(t) == true && p != []
      modifies this
      ensures Valid() && Values(t) == old(Values(t)) + {value} && id in t.items && t.items[id].data == value
      ensures SameItems(old(t.items), t.items) == true
    {
      id := nextId;
      AddedOk(t, route, loose, p, hash, value, id);
      AddedOlder(t.items, id, Item(p, hash, value));
      BareAdded(t, p, hash, value, id);
      t := Added(t, p, hash, value, id);
      nextId := nextId + 1;
    }

    /** rx_hash_store: storing a value that is there changes nothing.  The root keeps no items of its own. */
    method Store(value: nat) returns (id: nat)
      requires Valid()
      modifies this
      ensures Valid() && Values(t) == old(Values(t)) + {value}
      ensures id in t.items && t.items[id].data == value
      ensures old(value in Values(t)) ==> t == old(t)
      ensures SameItems(old(t.items), t.items)
      ensures RootBare(t)
    {
      var hash := route(value);
      var p := Walk(hash);
      ScanDecides(p, value);
      var found := Scan(t.tabs[p].buckets[hash[|p|]].chain, value);
      if found.Some? {
        assert t.items[found.value].data in Values(t);
        return found.value;
      }
      ghost var loose: set<Path> := {};
      if |p| < 3 && Overflows(t.tabs[p].buckets[hash[|p|]].chain) {
        Deepen(p, hash);
        p := p + [hash[|p|]];
        loose := {p};
      } else {
        assert p == [] ==> BareAt(t, hash[0]);
      }
      id := AddAt(p, hash, value, loose);
    }

    method Position(chain: seq<nat>, id: nat) returns (i: nat)
      requires id in chain
      ensures i < |chain| && chain[i] == id
    {
      i := 0;
      while chain[i] != id
        invariant 0 <= i < |chain| && id in chain[i..]
        decreases |chain| - i
      {
        i := i + 1;
      }
    }

    /** Tables left empty go, up to the root. */
    method Prune(from: Path)
      requires Inv(t, route, {from}) == true && from in t.tabs && RootBare(t) == true
      modifies this`t
      ensures Inv(t, route, {}) == true && Values(t) == old(Values(t)) && t.items == old(t.items) && RootBare(t) == true
    {
      var p := from;
      while p != [] && t.tabs[p].refs == 0
        invariant Inv(t, route, {p}) == true && p in t.tabs && Values(t) == old(Values(t)) && t.items == old(t.items)
        invariant RootBare(t) == true
        decreases |p|
      {
        CutOk(t, route, p);
        BareCut(t, p);
        t := Cut(t, p);
        p := Parent(p);
      }
      Tighten(t, route, p);
    }

    method Unlink(id: nat) returns (p: Path)
      requires Valid() && id in t.items
      modifies this`t
      ensures Inv(t, route, {p}) == true && p in t.tabs && Values(t) == old(Values(t)) - {old(t.items[id].data)}
      ensures t.items == old(t.items) - {id} && RootBare(t) == true
    {
      assert Linked(t, id);
      p := t.items[id].table;
      var i := Position(t.tabs[p].buckets[t.items[id].hash[|p|]].chain, id);
      assert Here(t, id, i) == true;
      RemovedOk(t, route, id, i);
      BareRemoved(t, id, i);
      t := Removed(t, id, i);
    }

    /** rx_hash_free */
    method Free(id: nat)
      requires Valid() && id in t.items
      modifies this
      ensures Valid() && Values(t) == old(Values(t)) - {old(t.items[id].data)}
      ensures t.items == old(t.items) - {id}
    {
      RemovedOlder(t.items, id, nextId);
      var p := Unlink(id);
      Prune(p);
    }
  }

  /** Item addresses are below `n`. */
  ghost predicate Older(items: map<nat, Item>, n: nat) {
    forall id :: id in items ==> id < n
  }

  lemma AddedOlder(items: map<nat, Item>, n: nat, it: Item)
    requires Older(items, n) == true
    ensures Older(items[n := it], n + 1) == true && SameItems(items, items[n := it]) == true
  {
  }

  lemma RemovedOlder(items: map<nat, Item>, id: nat, n: nat)
    requires Older(items, n) == true
    ensures Older(items - {id}, n) == true
  {
  }

  ghost predicate SameItems(items: map<nat, Item>, items2: map<nat, Item>) {
    forall k :: k in items ==> k in items2 && items2[k].data == items[k].data
  }

  lemma CanDeepen(t: Trie, p: Path, b: nat, bs: seq<Bucket>)
    requires TabsOk(t, {}) == true && Sized(t, p) && |p| < 3 && b < BUCKETS && t.tabs[p].buckets[b].Items?
    requires Spread(t, t.tabs[p].buckets[b].chain, |p| + 1, bs) == true
    ensures Deepens(t, p, b, bs) == true
  {
    BucketAt(t, p, b);
    NoTableBelow(t, {}, p, b);
  }

  lemma DeepenedRoom(t: Trie, p: Path, hash: Route, bs: seq<Bucket>, id: nat)
    requires Follows(p, hash) && Deepens(t, p, hash[|p|], bs) == true && id !in t.items
    ensures Room(Deepened(t, p, hash[|p|], bs), p + [hash[|p|]], hash, id) == true
    ensures SameItems(t.items, Deepened(t, p, hash[|p|], bs).items) == true
    ensures Deepened(t, p, hash[|p|], bs).items.Keys == t.items.Keys
  {
  }

  lemma BucketAt(t: Trie, p: Path, b: nat)
    requires TabsOk(t, {}) == true && Sized(t, p) && b < BUCKETS && t.tabs[p].buckets[b].Items?
    ensures BucketOk(t, p, b, t.tabs[p].buckets[b]) == true && Distinct(t.tabs[p].buckets[b].chain)
    ensures forall i :: 0 <= i < |t.tabs[p].buckets[b].chain| ==> t.tabs[p].buckets[b].chain[i] in t.items
  {
    assert TabOk(t, {}, p);
    assert BucketOk(t, p, b, t.tabs[p].buckets[b]);
    forall i | 0 <= i < |t.tabs[p].buckets[b].chain| ensures t.tabs[p].buckets[b].chain[i] in t.items {
      assert Placed(t, p, b, t.tabs[p].buckets[b].chain[i]);
    }
  }
}
