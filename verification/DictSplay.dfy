/** src/dict-splay.c: a top-down splay tree whose nodes are also threaded in order. */
module DictSplay {
  import opened Options
  import opened IrcCase
  import opened DoublyLinked

  /** What a node holds besides its links; `id` is its address. */
  datatype Entry = Entry(id: nat, key: Str, data: int)

  datatype Tree = Leaf | Node(l: Tree, e: Entry, r: Tree)

  function InOrder(t: Tree): seq<Entry> {
    match t
    case Leaf => []
    case Node(l, e, r) => InOrder(l) + [e] + InOrder(r)
  }

  ghost predicate Sorted(s: seq<Entry>) {
    forall i, j :: 0 <= i < j < |s| ==> Compare(s[i].key, s[j].key) < 0
  }

  ghost predicate AllBelow(s: seq<Entry>, key: Str) {
    forall i :: 0 <= i < |s| ==> Compare(s[i].key, key) < 0
  }

  ghost predicate AllAbove(s: seq<Entry>, key: Str) {
    forall i :: 0 <= i < |s| ==> Compare(key, s[i].key) < 0
  }

  lemma SortedParts(a: seq<Entry>, e: Entry, b: seq<Entry>)
    ensures Sorted(a + [e] + b) <==>
      Sorted(a) && Sorted(b) && AllBelow(a, e.key) && AllAbove(b, e.key) &&
      forall i, j :: 0 <= i < |a| && 0 <= j < |b| ==> Compare(a[i].key, b[j].key) < 0
  {
    var s := a + [e] + b;
    if Sorted(s) {
      forall i | 0 <= i < |a| ensures Compare(a[i].key, e.key) < 0 {
        assert s[i] == a[i] && s[|a|] == e;
      }
      forall j | 0 <= j < |b| ensures Compare(e.key, b[j].key) < 0 {
        assert s[|a|] == e && s[|a| + 1 + j] == b[j];
      }
      forall i, j | 0 <= i < j < |b| ensures Compare(b[i].key, b[j].key) < 0 {
        assert s[|a| + 1 + i] == b[i] && s[|a| + 1 + j] == b[j];
      }
      forall i, j | 0 <= i < |a| && 0 <= j < |b| ensures Compare(a[i].key, b[j].key) < 0 {
        assert s[i] == a[i] && s[|a| + 1 + j] == b[j];
      }
      forall i, j | 0 <= i < j < |a| ensures Compare(a[i].key, a[j].key) < 0 {
        assert s[i] == a[i] && s[j] == a[j];
      }
    }
  }

  lemma BelowTrans(s: seq<Entry>, k: Str, key: Str)
    requires AllBelow(s, k) && Compare(k, key) < 0
    ensures AllBelow(s, key)
  {
    forall i | 0 <= i < |s| ensures Compare(s[i].key, key) < 0 {
      CompareTrans(s[i].key, k, key);
    }
  }

  lemma AboveTrans(s: seq<Entry>, k: Str, key: Str)
    requires AllAbove(s, k) && Compare(key, k) < 0
    ensures AllAbove(s, key)
  {
    forall i | 0 <= i < |s| ensures Compare(key, s[i].key) < 0 {
      CompareTrans(key, k, s[i].key);
    }
  }

  // ----- dict_splay -----

  /** A node that has been linked to one of the scratch trees, with the subtree it keeps */
  datatype Part = Part(e: Entry, kept: Tree)

  /** The left tree, in order: each new part goes to the right end. */
  function FlatL(ls: seq<Part>): seq<Entry> {
    if ls == [] then [] else FlatL(ls[..|ls| - 1]) + (InOrder(ls[|ls| - 1].kept) + [ls[|ls| - 1].e])
  }

  /** The right tree, in order: each new part goes to the left end. */
  function FlatR(rs: seq<Part>): seq<Entry> {
    if rs == [] then [] else ([rs[|rs| - 1].e] + InOrder(rs[|rs| - 1].kept)) + FlatR(rs[..|rs| - 1])
  }

  /** The left tree, closed off with `tail` at its right end */
  function LinkL(ls: seq<Part>, tail: Tree): (t: Tree)
    ensures InOrder(t) == FlatL(ls) + InOrder(tail)
    decreases |ls|
  {
    if ls == [] then tail else LinkL(ls[..|ls| - 1], Node(ls[|ls| - 1].kept, ls[|ls| - 1].e, tail))
  }

  function LinkR(rs: seq<Part>, tail: Tree): (t: Tree)
    ensures InOrder(t) == InOrder(tail) + FlatR(rs)
    decreases |rs|
  {
    if rs == [] then tail else LinkR(rs[..|rs| - 1], Node(tail, rs[|rs| - 1].e, rs[|rs| - 1].kept))
  }

  function Size(t: Tree): nat {
    match t
    case Leaf => 0
    case Node(l, _, r) => Size(l) + 1 + Size(r)
  }

  /** The loop of dict_splay: what has been put aside lies on its side of the key. */
  ghost predicate SetAside(s: seq<Entry>, key: Str, ls: seq<Part>, node: Tree, rs: seq<Part>) {
    && s == FlatL(ls) + InOrder(node) + FlatR(rs) && node.Node?
    && AllBelow(FlatL(ls), key) && AllAbove(FlatR(rs), key) && Sorted(InOrder(node))
  }

  /** The root is the key, or there is nothing between the two. */
  ghost predicate Near(t: Tree, key: Str)
    requires t.Node?
  {
    && (Compare(key, t.e.key) <= 0 ==> AllBelow(InOrder(t.l), key))
    && (Compare(key, t.e.key) >= 0 ==> AllAbove(InOrder(t.r), key))
  }

  lemma LinkRightStep(s: seq<Entry>, key: Str, ls: seq<Part>, node: Tree, rs: seq<Part>)
    requires SetAside(s, key, ls, node, rs) && Compare(key, node.e.key) < 0 && node.l.Node?
    ensures SetAside(s, key, ls, node.l, rs + [Part(node.e, node.r)])
  {
    var rs2 := rs + [Part(node.e, node.r)];
    assert rs2[..|rs2| - 1] == rs;
    SortedParts(InOrder(node.l), node.e, InOrder(node.r));
    AboveTrans(InOrder(node.r), node.e.key, key);
    assert FlatR(rs2) == [node.e] + InOrder(node.r) + FlatR(rs);
  }

  lemma LinkLeftStep(s: seq<Entry>, key: Str, ls: seq<Part>, node: Tree, rs: seq<Part>)
    requires SetAside(s, key, ls, node, rs) && Compare(key, node.e.key) > 0 && node.r.Node?
    ensures SetAside(s, key, ls + [Part(node.e, node.l)], node.r, rs)
  {
    var ls2 := ls + [Part(node.e, node.l)];
    assert ls2[..|ls2| - 1] == ls;
    SortedParts(InOrder(node.l), node.e, InOrder(node.r));
    CompareAnti(key, node.e.key);
    BelowTrans(InOrder(node.l), node.e.key, key);
    assert FlatL(ls2) == FlatL(ls) + (InOrder(node.l) + [node.e]);
  }

  function RotateRight(t: Tree): Tree
    requires t.Node? && t.l.Node?
  {
    Node(t.l.l, t.l.e, Node(t.l.r, t.e, t.r))
  }

  function RotateLeft(t: Tree): Tree
    requires t.Node? && t.r.Node?
  {
    Node(Node(t.l, t.e, t.r.l), t.r.e, t.r.r)
  }

  lemma RotateRightOrder(t: Tree)
    requires t.Node? && t.l.Node?
    ensures InOrder(RotateRight(t)) == InOrder(t) && Size(RotateRight(t)) == Size(t)
  {
  }

  lemma RotateLeftOrder(t: Tree)
    requires t.Node? && t.r.Node?
    ensures InOrder(RotateLeft(t)) == InOrder(t) && Size(RotateLeft(t)) == Size(t)
  {
    assert InOrder(t) == InOrder(t.l) + [t.e] + (InOrder(t.r.l) + [t.r.e] + InOrder(t.r.r));
  }

  /** When the loop stops, the tree put together keeps the order of the entries and has the key, or a
      neighbour of where it would be, at its root. */
  lemma SplayEnd(s: seq<Entry>, key: Str, ls: seq<Part>, node: Tree, rs: seq<Part>)
    requires SetAside(s, key, ls, node, rs)
    requires var c := Compare(key, node.e.key); c == 0 || (c < 0 && node.l == Leaf) || (c > 0 && node.r == Leaf)
    ensures var root := Node(LinkL(ls, node.l), node.e, LinkR(rs, node.r)); InOrder(root) == s && Near(root, key)
  {
    var l, r := LinkL(ls, node.l), LinkR(rs, node.r);
    assert InOrder(Node(l, node.e, r)) == s by {
      Regroup(FlatL(ls), InOrder(node.l), node.e, InOrder(node.r), FlatR(rs));
    }
    SortedParts(InOrder(node.l), node.e, InOrder(node.r));
    if Compare(key, node.e.key) == 0 {
      SameSide(InOrder(node.l), InOrder(node.r), node.e.key, key);
    }
    Sides(FlatL(ls), InOrder(node.l), InOrder(node.r), FlatR(rs), key);
  }

  lemma Regroup(a: seq<Entry>, b: seq<Entry>, e: Entry, c: seq<Entry>, d: seq<Entry>)
    ensures (a + b) + [e] + (c + d) == a + (b + [e] + c) + d
  {
  }

  lemma Sides(a: seq<Entry>, b: seq<Entry>, c: seq<Entry>, d: seq<Entry>, key: Str)
    ensures AllBelow(a, key) && AllBelow(b, key) ==> AllBelow(a + b, key)
    ensures AllAbove(c, key) && AllAbove(d, key) ==> AllAbove(c + d, key)
  {
  }

  lemma SameSide(a: seq<Entry>, b: seq<Entry>, k: Str, key: Str)
    requires AllBelow(a, k) && AllAbove(b, k) && Compare(key, k) == 0
    ensures AllBelow(a, key) && AllAbove(b, key)
  {
    CompareAnti(key, k);
    forall i | 0 <= i < |a| ensures Compare(a[i].key, key) < 0 {
      CompareTrans(a[i].key, k, key);
    }
    forall i | 0 <= i < |b| ensures Compare(key, b[i].key) < 0 {
      CompareTrans(key, k, b[i].key);
    }
  }

  // ----- The order as a map -----

  /** The dictionary as a map from folded keys */
  ghost function Dictionary(s: seq<Entry>): map<seq<int>, (Str, int)> {
    if s == [] then map[] else Dictionary(s[1..])[Folded(s[0].key) := (s[0].key, s[0].data)]
  }

  lemma {:induction false} DictionaryKeys(s: seq<Entry>)
    ensures forall f :: f in Dictionary(s) <==> exists i :: 0 <= i < |s| && Folded(s[i].key) == f
  {
    if s != [] {
      DictionaryKeys(s[1..]);
      forall f ensures f in Dictionary(s) <==> exists i :: 0 <= i < |s| && Folded(s[i].key) == f {
        if f in Dictionary(s[1..]) {
          var i :| 0 <= i < |s[1..]| && Folded(s[1..][i].key) == f;
          assert Folded(s[i + 1].key) == f;
        }
        if i :| 0 <= i < |s| && Folded(s[i].key) == f {
          if i > 0 {
            assert s[1..][i - 1] == s[i];
          }
        }
      }
    }
  }

  /** Every binding of the map is some entry. */
  lemma {:induction false} DictionaryEntry(s: seq<Entry>, f: seq<int>)
    requires f in Dictionary(s)
    ensures exists i :: 0 <= i < |s| && Folded(s[i].key) == f && Dictionary(s)[f] == (s[i].key, s[i].data)
  {
    if Folded(s[0].key) != f {
      DictionaryEntry(s[1..], f);
      var i :| 0 <= i < |s[1..]| && Folded(s[1..][i].key) == f && Dictionary(s[1..])[f] == (s[1..][i].key, s[1..][i].data);
      assert s[i + 1] == s[1..][i];
    }
  }

  /** The list has an entry for the key, in whatever case, with this data. */
  ghost predicate HasEntry(s: seq<Entry>, key: Str, data: int) {
    exists i :: 0 <= i < |s| && SameLetters(s[i].key, key) && s[i].data == data
  }

  /** Looking a key up in the map is looking for an entry that differs from it in case at most. */
  lemma DictionaryHas(s: seq<Entry>, key: Str)
    requires Sorted(s)
    ensures Folded(key) in Dictionary(s) <==> exists i :: 0 <= i < |s| && SameLetters(s[i].key, key)
    ensures Folded(key) in Dictionary(s) ==> HasEntry(s, key, Dictionary(s)[Folded(key)].1)
    ensures forall data :: HasEntry(s, key, data) ==> Folded(key) in Dictionary(s) && Dictionary(s)[Folded(key)].1 == data
  {
    DictionaryKeys(s);
    forall i | 0 <= i < |s| ensures SameLetters(s[i].key, key) <==> Folded(s[i].key) == Folded(key) {
      FoldedMeans(s[i].key, key);
    }
    if Folded(key) in Dictionary(s) {
      DictionaryEntry(s, Folded(key));
    }
    SortedDiffer(s);
  }

  /** Entries with different keys: order does not matter, and each is found under its own key. */
  ghost predicate KeysDiffer(s: seq<Entry>) {
    forall i, j :: 0 <= i < j < |s| ==> Folded(s[i].key) != Folded(s[j].key)
  }

  lemma SortedDiffer(s: seq<Entry>)
    requires Sorted(s)
    ensures KeysDiffer(s)
  {
    forall i, j | 0 <= i < j < |s| ensures Folded(s[i].key) != Folded(s[j].key) {
      CompareZero(s[i].key, s[j].key);
    }
  }

  lemma {:induction false} DictionarySize(s: seq<Entry>)
    requires KeysDiffer(s)
    ensures |Dictionary(s)| == |s|
  {
    if s != [] {
      DictionarySize(s[1..]);
      DictionaryKeys(s[1..]);
      assert Folded(s[0].key) !in Dictionary(s[1..]);
    }
  }

  lemma {:induction false} DictionaryInsert(a: seq<Entry>, e: Entry, b: seq<Entry>)
    requires KeysDiffer(a + [e] + b)
    ensures Dictionary(a + [e] + b) == Dictionary(a + b)[Folded(e.key) := (e.key, e.data)]
    ensures Folded(e.key) !in Dictionary(a + b)
    decreases |a|
  {
    var s := a + [e] + b;
    if a == [] {
      assert s[1..] == b && a + b == b;
      DictionaryKeys(b);
      forall i | 0 <= i < |b| ensures Folded(b[i].key) != Folded(e.key) {
        assert s[0] == e && s[i + 1] == b[i];
      }
    } else {
      assert s[1..] == a[1..] + [e] + b && (a + b)[1..] == a[1..] + b;
      forall i, j | 0 <= i < j < |s[1..]| ensures Folded(s[1..][i].key) != Folded(s[1..][j].key) {
        assert s[1..][i] == s[i + 1] && s[1..][j] == s[j + 1];
      }
      DictionaryInsert(a[1..], e, b);
      assert s[0] == a[0] && s[|a|] == e;
    }
  }

  // ----- The thread -----

  /** prev and next of every node, and the two ends */
  datatype Thread = Thread(links: Links, first: Option<nat>, last: Option<nat>)

  function Ids(s: seq<Entry>): (ids: seq<nat>)
    ensures |ids| == |s| && forall i :: 0 <= i < |s| ==> ids[i] == s[i].id
  {
    seq(|s|, i requires 0 <= i < |s| => s[i].id)
  }

  /** The thread is the in-order traversal, from first to last. */
  ghost predicate Threaded(s: seq<Entry>, k: Thread) {
    Chained(Ids(s), k.links) && k.first == At(Ids(s), 0) && k.last == At(Ids(s), |s| - 1)
  }

  /** dict_insert's patch for a node `n` just before `at` */
  function Before(k: Thread, n: nat, at: nat): Thread
    requires at in k.links.prev
  {
    Thread(LinkBefore(k.links, n, at), if k.links.prev[at].Some? then k.first else Some(n), k.last)
  }

  function After(k: Thread, n: nat, at: nat): Thread
    requires at in k.links.next
  {
    Thread(LinkAfter(k.links, n, Some(at)), k.first, if k.links.next[at].Some? then k.last else Some(n))
  }

  /** dict_remove2's patch for the node `at` */
  function Unthread(k: Thread, at: nat): Thread
    requires at in k.links.prev && at in k.links.next
  {
    Thread(Unlink(k.links, at),
           if k.first == Some(at) then k.links.next[at] else k.first,
           if k.last == Some(at) then k.links.prev[at] else k.last)
  }

  lemma BeforeThreads(s: seq<Entry>, k: Thread, p: nat, e: Entry)
    requires Threaded(s, k) == true && p < |s| && forall i :: 0 <= i < |s| ==> s[i].id != e.id
    ensures s[p].id in k.links.prev && Threaded(s[..p] + [e] + s[p..], Before(k, e.id, s[p].id)) == true
  {
    var ids, t := Ids(s), s[..p] + [e] + s[p..];
    LinkBeforeChained(ids, k.links, p, e.id);
    assert Ids(t) == With(ids, p, e.id);
  }

  lemma AfterThreads(s: seq<Entry>, k: Thread, p: nat, e: Entry)
    requires Threaded(s, k) == true && p < |s| && forall i :: 0 <= i < |s| ==> s[i].id != e.id
    ensures s[p].id in k.links.next && Threaded(s[..p + 1] + [e] + s[p + 1..], After(k, e.id, s[p].id)) == true
  {
    var ids, t := Ids(s), s[..p + 1] + [e] + s[p + 1..];
    LinkAfterChained(ids, k.links, p, e.id);
    assert Ids(t) == With(ids, p + 1, e.id);
  }

  lemma UnthreadThreads(s: seq<Entry>, k: Thread, p: nat)
    requires Threaded(s, k) == true && p < |s|
    ensures s[p].id in k.links.prev && s[p].id in k.links.next && Threaded(s[..p] + s[p + 1..], Unthread(k, s[p].id)) == true
  {
    var ids, t := Ids(s), s[..p] + s[p + 1..];
    UnlinkChained(ids, k.links, p);
    assert Ids(t) == Without(ids, p);
    assert ids[p] == s[p].id;
    assert k.first == Some(s[p].id) ==> p == 0;
    assert k.last == Some(s[p].id) ==> p == |s| - 1;
  }

  // ----- The dictionary -----

  lemma {:induction false} NoEntriesIsLeaf(t: Tree)
    requires InOrder(t) == []
    ensures t == Leaf
  {
  }

  /** The order after the key at the root is replaced in place */
  lemma Replaced(a: seq<Entry>, e: Entry, b: seq<Entry>, key: Str, data: int)
    requires Sorted(a + [e] + b) && Compare(key, e.key) == 0
    ensures var e2 := Entry(e.id, key, data);
      Sorted(a + [e2] + b) && Dictionary(a + [e2] + b) == Dictionary(a + [e] + b)[Folded(key) := (key, data)]
  {
    var e2 := Entry(e.id, key, data);
    SortedParts(a, e, b);
    SameSide(a, b, e.key, key);
    SortedParts2(a, e2, b);
    SortedDiffer(a + [e] + b);
    SortedDiffer(a + [e2] + b);
    DictionaryInsert(a, e, b);
    DictionaryInsert(a, e2, b);
    CompareZero(key, e.key);
  }

  lemma SortedParts2(a: seq<Entry>, e: Entry, b: seq<Entry>)
    requires Sorted(a) && Sorted(b) && AllBelow(a, e.key) && AllAbove(b, e.key)
    ensures Sorted(a + [e] + b)
  {
    forall i, j | 0 <= i < |a| && 0 <= j < |b| ensures Compare(a[i].key, b[j].key) < 0 {
      CompareTrans(a[i].key, e.key, b[j].key);
    }
    SortedParts(a, e, b);
  }

  /** A new entry between `a` and `b` */
  lemma Inserted(a: seq<Entry>, e: Entry, b: seq<Entry>)
    requires Sorted(a + b) && AllBelow(a, e.key) && AllAbove(b, e.key)
    ensures Sorted(a + [e] + b) && Dictionary(a + [e] + b) == Dictionary(a + b)[Folded(e.key) := (e.key, e.data)]
    ensures Folded(e.key) !in Dictionary(a + b)
  {
    assert forall i, j :: 0 <= i < j < |a| ==> (a + b)[i] == a[i] && (a + b)[j] == a[j];
    forall i, j | 0 <= i < j < |b| ensures Compare(b[i].key, b[j].key) < 0 {
      assert (a + b)[|a| + i] == b[i] && (a + b)[|a| + j] == b[j];
    }
    SortedParts2(a, e, b);
    SortedDiffer(a + [e] + b);
    DictionaryInsert(a, e, b);
  }

  /** The invariant: sorted, threaded in that order, and made of nodes older than `n` */
  ghost predicate Keeps(s: seq<Entry>, k: Thread, n: nat) {
    Sorted(s) && Threaded(s, k) && forall i :: 0 <= i < |s| ==> s[i].id < n
  }

  /** A new entry at position `p` */
  lemma InsertAt(s: seq<Entry>, k: Thread, p: nat, e: Entry, k2: Thread)
    requires Keeps(s, k, e.id) == true && p <= |s| && AllBelow(s[..p], e.key) && AllAbove(s[p..], e.key)
    requires Threaded(s[..p] + [e] + s[p..], k2) == true
    ensures Keeps(s[..p] + [e] + s[p..], k2, e.id + 1) == true
    ensures Dictionary(s[..p] + [e] + s[p..]) == Dictionary(s)[Folded(e.key) := (e.key, e.data)]
  {
    assert s[..p] + s[p..] == s;
    Inserted(s[..p], e, s[p..]);
    InsertOlder(s, p, e);
  }

  lemma InsertOlder(s: seq<Entry>, p: nat, e: Entry)
    requires p <= |s| && forall i :: 0 <= i < |s| ==> s[i].id < e.id
    ensures forall i :: 0 <= i < |s| + 1 ==> (s[..p] + [e] + s[p..])[i].id < e.id + 1
  {
  }

  /** Where the splay puts a key that comes just before the root */
  lemma SplitBefore(t: Tree, e: Entry)
    requires t.Node? && Sorted(InOrder(t)) && Near(t, e.key) && Compare(e.key, t.e.key) < 0
    ensures var s, p := InOrder(t), |InOrder(t.l)|;
      p < |s| && s[p] == t.e && AllBelow(s[..p], e.key) && AllAbove(s[p..], e.key) &&
      InOrder(Node(t.l, e, Node(Leaf, t.e, t.r))) == s[..p] + [e] + s[p..]
  {
    var a, b := InOrder(t.l), InOrder(t.r);
    SortedParts(a, t.e, b);
    AboveTrans(b, t.e.key, e.key);
    Sides(a, [], [t.e], b, e.key);
    SeqSplit(a, t.e, b);
    var none: seq<Entry> := [];
    assert InOrder(Node(Leaf, t.e, t.r)) == none + [t.e] + b == [t.e] + b;
  }

  lemma SeqSplit(a: seq<Entry>, x: Entry, b: seq<Entry>)
    ensures var s := a + [x] + b;
      |a| < |s| && s[|a|] == x && s[..|a|] == a && s[|a|..] == [x] + b && s[..|a| + 1] == a + [x] && s[|a| + 1..] == b
  {
  }

  lemma SplitAfter(t: Tree, e: Entry)
    requires t.Node? && Sorted(InOrder(t)) && Near(t, e.key) && Compare(e.key, t.e.key) > 0
    ensures var s, p := InOrder(t), |InOrder(t.l)|;
      p < |s| && s[p] == t.e && AllBelow(s[..p + 1], e.key) && AllAbove(s[p + 1..], e.key) &&
      InOrder(Node(Node(t.l, t.e, Leaf), e, t.r)) == s[..p + 1] + [e] + s[p + 1..]
  {
    var a, b := InOrder(t.l), InOrder(t.r);
    SortedParts(a, t.e, b);
    CompareAnti(e.key, t.e.key);
    BelowTrans(a, t.e.key, e.key);
    Sides(a, [t.e], b, [], e.key);
    SeqSplit(a, t.e, b);
    var none: seq<Entry> := [];
    assert InOrder(Node(t.l, t.e, Leaf)) == a + [t.e] + none == a + [t.e];
  }

  lemma AtRootBefore(s: seq<Entry>, k: Thread, t: Tree, e: Entry)
    requires t.Node? && s == InOrder(t) && Keeps(s, k, e.id) == true && Near(t, e.key) && Compare(e.key, t.e.key) < 0
    ensures t.e.id in k.links.prev
    ensures var s2 := InOrder(Node(t.l, e, Node(Leaf, t.e, t.r)));
      |s2| == |s| + 1 && Keeps(s2, Before(k, e.id, t.e.id), e.id + 1) == true &&
      Dictionary(s2) == Dictionary(s)[Folded(e.key) := (e.key, e.data)]
  {
    var p := |InOrder(t.l)|;
    SplitBefore(t, e);
    BeforeThreads(s, k, p, e);
    InsertAt(s, k, p, e, Before(k, e.id, t.e.id));
  }

  lemma AtRootAfter(s: seq<Entry>, k: Thread, t: Tree, e: Entry)
    requires t.Node? && s == InOrder(t) && Keeps(s, k, e.id) == true && Near(t, e.key) && Compare(e.key, t.e.key) > 0
    ensures t.e.id in k.links.next
    ensures var s2 := InOrder(Node(Node(t.l, t.e, Leaf), e, t.r));
      |s2| == |s| + 1 && Keeps(s2, After(k, e.id, t.e.id), e.id + 1) == true &&
      Dictionary(s2) == Dictionary(s)[Folded(e.key) := (e.key, e.data)]
  {
    var p := |InOrder(t.l)|;
    SplitAfter(t, e);
    AfterThreads(s, k, p, e);
    InsertAt(s, k, p + 1, e, After(k, e.id, t.e.id));
  }

  lemma AtRoot(s: seq<Entry>, k: Thread, t: Tree, key: Str, data: int, n: nat)
    requires t.Node? && s == InOrder(t) && Keeps(s, k, n) == true && Compare(key, t.e.key) == 0
    ensures var s2 := InOrder(Node(t.l, Entry(t.e.id, key, data), t.r));
      |s2| == |s| && Keeps(s2, k, n) == true && Dictionary(s2) == Dictionary(s)[Folded(key) := (key, data)]
  {
    Replaced(InOrder(t.l), t.e, InOrder(t.r), key, data);
    SameIds(InOrder(t.l), t.e, Entry(t.e.id, key, data), InOrder(t.r), k, n);
  }

  /** The thread and the ages of nodes do not depend on keys. */
  lemma SameIds(a: seq<Entry>, e: Entry, e2: Entry, b: seq<Entry>, k: Thread, n: nat)
    requires e.id == e2.id && Threaded(a + [e] + b, k) == true && forall i :: 0 <= i < |a + [e] + b| ==> (a + [e] + b)[i].id < n
    ensures Threaded(a + [e2] + b, k) == true && forall i :: 0 <= i < |a + [e2] + b| ==> (a + [e2] + b)[i].id < n
  {
    var s, s2 := a + [e] + b, a + [e2] + b;
    assert forall i :: 0 <= i < |s| ==> s2[i].id == s[i].id;
    assert Ids(s2) == Ids(s);
  }

  /** After a splay the key is in the dictionary exactly when it is at the root. */
  lemma FoundAtRoot(t: Tree, key: Str)
    requires t.Node? && Sorted(InOrder(t)) && Near(t, key)
    ensures Folded(key) in Dictionary(InOrder(t)) <==> Compare(key, t.e.key) == 0
    ensures Compare(key, t.e.key) == 0 ==> Dictionary(InOrder(t))[Folded(key)] == (t.e.key, t.e.data)
  {
    var a, b, s := InOrder(t.l), InOrder(t.r), InOrder(t);
    SortedParts(a, t.e, b);
    DictionaryKeys(s);
    CompareZero(key, t.e.key);
    CompareAnti(key, t.e.key);
    if Compare(key, t.e.key) == 0 {
      SortedDiffer(s);
      DictionaryInsert(a, t.e, b);
    } else {
      forall i | 0 <= i < |s| ensures Folded(s[i].key) != Folded(key) {
        CompareZero(key, s[i].key);
        CompareAnti(key, s[i].key);
        NotHere(t, key, i);
      }
    }
  }

  lemma NotHere(t: Tree, key: Str, i: int)
    requires t.Node? && Sorted(InOrder(t)) && Near(t, key) && Compare(key, t.e.key) != 0 && 0 <= i < |InOrder(t)|
    ensures Compare(key, InOrder(t)[i].key) != 0
  {
    var a, b, s := InOrder(t.l), InOrder(t.r), InOrder(t);
    SortedParts(a, t.e, b);
    CompareAnti(key, t.e.key);
    CompareAnti(key, s[i].key);
    if Compare(key, t.e.key) < 0 {
      AboveTrans(b, t.e.key, key);
    } else {
      BelowTrans(a, t.e.key, key);
    }
    if i < |a| {
      assert s[i] == a[i];
    } else if i > |a| {
      assert s[i] == b[i - |a| - 1];
    }
  }

  lemma RemovedAt(a: seq<Entry>, e: Entry, b: seq<Entry>, key: Str, k: Thread, n: nat)
    requires Keeps(a + [e] + b, k, n) == true && Compare(key, e.key) == 0
    ensures e.id in k.links.prev && e.id in k.links.next
    ensures Keeps(a + b, Unthread(k, e.id), n) == true
    ensures Dictionary(a + b) == Dictionary(a + [e] + b) - {Folded(key)}
  {
    var s := a + [e] + b;
    assert s[..|a|] == a && s[|a| + 1..] == b && s[|a|] == e;
    UnthreadThreads(s, k, |a|);
    DropOne(s, |a|, n);
    RemovedEntry(a, e, b, key);
  }

  lemma RemovedEntry(a: seq<Entry>, e: Entry, b: seq<Entry>, key: Str)
    requires Sorted(a + [e] + b) && Compare(key, e.key) == 0
    ensures Dictionary(a + b) == Dictionary(a + [e] + b) - {Folded(key)}
  {
    SortedDiffer(a + [e] + b);
    DictionaryInsert(a, e, b);
    CompareZero(key, e.key);
  }

  lemma DropOne(s: seq<Entry>, p: nat, n: nat)
    requires Sorted(s) && p < |s| && forall i :: 0 <= i < |s| ==> s[i].id < n
    ensures var t := s[..p] + s[p + 1..]; Sorted(t) && forall i :: 0 <= i < |t| ==> t[i].id < n
  {
    var t := s[..p] + s[p + 1..];
    assert forall i :: 0 <= i < |t| ==> t[i] == if i < p then s[i] else s[i + 1];
  }

  /** dict_remove2's splayed left subtree has no right subtree of its own. */
  lemma NothingAbove(t: Tree, key: Str)
    requires t.Node? && Near(t, key) && AllBelow(InOrder(t), key)
    ensures t.r == Leaf
  {
    var s := InOrder(t);
    assert s[|InOrder(t.l)|] == t.e;
    CompareAnti(key, t.e.key);
    var b := InOrder(t.r);
    if b != [] {
      assert s[|InOrder(t.l)| + 1] == b[0];
      CompareAnti(key, b[0].key);
    }
    NoEntriesIsLeaf(t.r);
  }
}
