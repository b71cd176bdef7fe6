/** The operations of the superstate cache keep its invariant (rx/rxsuper.c). */
module RxCacheOps {
  import opened Options
  import opened RxSyntax
  import opened RxNfa
  import opened RxEclose
  import opened RxSubset
  import opened RxCache

  /** Only frames and semi-free flags may differ. */
  ghost predicate SameShape(c: Core, c2: Core) {
    && c2.supers.Keys == c.supers.Keys && c2.futures.Keys == c.futures.Keys
    && c2.index == c.index && c2.next == c.next
    && (forall s :: s in c.supers ==>
          var a, b := c.supers[s], c2.supers[s];
          a.contents == b.contents && a.refs == b.refs && a.edges == b.edges && |b.table| == |a.table|)
    && (forall d :: d in c.futures ==> c2.futures[d] == c.futures[d].(frame := c2.futures[d].frame))
  }

  lemma ShapeContents(g: Graph, c: Core, c2: Core)
    requires SameShape(c, c2) && ContentsOk(g, c) && EdgesOk(c)
    ensures ContentsOk(g, c2) && EdgesOk(c2)
  {
  }

  lemma ShapeRing(g: Graph, c: Core, c2: Core, d: nat)
    requires SameShape(c, c2) && d in c.futures && RingOk(g, c, d)
    ensures RingOk(g, c2, d)
  {
    forall x | HasPresent(c, x) ensures HasPresent(c2, x) && Target(g, c2, x) == Target(g, c, x) {
    }
  }

  lemma ShapeRings(g: Graph, c: Core, c2: Core)
    requires SameShape(c, c2) && RingsOk(g, c)
    ensures RingsOk(g, c2)
  {
    forall d | d in c2.futures ensures RingOk(g, c2, d) {
      ShapeRing(g, c, c2, d);
    }
  }

  lemma ShapeKeeps(g: Graph, c: Core, c2: Core)
    requires SameShape(c, c2) && ContentsOk(g, c) && EdgesOk(c) && RingsOk(g, c)
    ensures ContentsOk(g, c2) && EdgesOk(c2) && RingsOk(g, c2)
  {
    ShapeContents(g, c, c2);
    ShapeRings(g, c, c2);
  }

  lemma ShapeFuture(g: Graph, fin: nat, c: Core, c2: Core, d: nat)
    requires SameShape(c, c2) && d in c.futures && FutureOk(g, fin, c, d)
    requires var f := c2.futures[d];
      f.frame == (if f.future.Some? && !c2.supers[f.future.value].semifree
                  then NextChar(f.future.value, IsFinal(fin, c2.supers[f.future.value].contents))
                  else Miss(Some(d)))
    ensures FutureOk(g, fin, c2, d)
  {
  }

  // ----- semifree_superstate -----

  function Asleep(c: Core, t: nat): Core
    requires t in c.supers
  {
    c.(supers := c.supers[t := c.supers[t].(semifree := true)])
  }

  ghost predicate SleepTo(c: Core, c2: Core, t: nat) {
    t in c.supers && Reframed(Asleep(c, t), c2, c.supers[t].refs, None)
  }

  lemma SleepShape(c: Core, c2: Core, t: nat)
    requires SleepTo(c, c2, t)
    ensures SameShape(c, c2)
    ensures forall s :: s in c.supers ==> c2.supers[s].semifree == (s == t || c.supers[s].semifree)
  {
  }

  /** A ring of references is exactly the futures that lead to its superstate. */
  lemma RefsExactly(g: Graph, c: Core, t: nat, d: nat)
    requires RingsOk(g, c) && t in c.supers
    ensures d in c.supers[t].refs <==> d in c.futures && c.futures[d].future == Some(t)
  {
    if d in c.futures { assert RingOk(g, c, d); }
  }

  lemma SleepFuture(g: Graph, fin: nat, c: Core, c2: Core, t: nat, d: nat)
    requires SleepTo(c, c2, t) && d in c.futures && FutureOk(g, fin, c, d)
    requires d in c.supers[t].refs <==> c.futures[d].future == Some(t)
    ensures d in c2.futures && FutureOk(g, fin, c2, d)
  {
    SleepShape(c, c2, t);
    ShapeFuture(g, fin, c, c2, d);
  }

  lemma SleepFrame(g: Graph, fin: nat, c: Core, c2: Core, t: nat, s: nat, b: Byte)
    requires SleepTo(c, c2, t) && RingsOk(g, c)
    requires s in c.supers && |c.supers[s].table| == 256 && FrameOk(g, fin, c, s, b, c.supers[s].table[b])
    ensures s in c2.supers && |c2.supers[s].table| == 256 && FrameOk(g, fin, c2, s, b, c2.supers[s].table[b])
  {
    var c1 := Asleep(c, t);
    var ring := c.supers[t].refs;
    var f := c2.supers[s].table[b];
    if Installed(c1, ring, None, s, b, f) {
      var d :| d in ring && OnEdge(c1, d, s, b) && f == FrameFor(d, None);
    } else {
      assert f == c.supers[s].table[b];
      if f.NextChar? {
        var d :| Leads(c, d, s, b, f.dest);
        if f.dest == t {
          RefsExactly(g, c, t, d);
          assert d in ring && OnEdge(c1, d, s, b);
        } else {
          assert Leads(c2, d, s, b, f.dest);
        }
      }
    }
  }

  lemma SleepOk(g: Graph, fin: nat, c: Core, c2: Core, t: nat)
    requires SleepTo(c, c2, t) && CoreOk(g, fin, c)
    ensures CoreOk(g, fin, c2)
  {
    SleepShape(c, c2, t);
    ShapeKeeps(g, c, c2);
    forall d | d in c2.futures ensures FutureOk(g, fin, c2, d) {
      RefsExactly(g, c, t, d);
      SleepFuture(g, fin, c, c2, t, d);
    }
    forall s, b: Byte | s in c2.supers && b < |c2.supers[s].table|
      ensures FrameOk(g, fin, c2, s, b, c2.supers[s].table[b])
    {
      SleepFrame(g, fin, c, c2, t, s, b);
    }
  }

  // ----- refresh_semifree_superstate, rx_refresh_this_superstate -----

  function IndexOf(q: seq<nat>, s: nat): (k: nat)
    requires s in q
    ensures k < |q| && q[k] == s
  {
    if q[0] == s then 0 else 1 + IndexOf(q[1..], s)
  }

  function RemoveAt(q: seq<nat>, k: nat): seq<nat>
    requires k < |q|
  {
    q[..k] + q[k + 1..]
  }

  /** Unlinks a superstate from the semi-free ring; when it was the head, the one before it, the
      last, becomes the head. */
  function Unlink(q: seq<nat>, s: nat): seq<nat>
    requires s in q
  {
    var k := IndexOf(q, s);
    if k == 0 && |q| > 1 then [q[|q| - 1]] + q[1..|q| - 1] else RemoveAt(q, k)
  }

  lemma UnlinkElems(q: seq<nat>, s: nat)
    requires NoDup(q) && s in q
    ensures NoDup(Unlink(q, s))
    ensures forall x :: x in Unlink(q, s) <==> x in q && x != s
  {
    var k := IndexOf(q, s);
    var r := Unlink(q, s);
    forall x ensures x in r <==> x in q && x != s {
      if x in q && x != s {
        var m :| 0 <= m < |q| && q[m] == x;
        if k == 0 && |q| > 1 {
          assert m == |q| - 1 || r[m] == x;
          assert r[0] == q[|q| - 1];
        } else {
          assert m < k ==> r[m] == x;
          assert m > k ==> r[m - 1] == x;
        }
      }
    }
  }

  lemma AppendElems(q: seq<nat>, s: nat)
    requires NoDup(q) && s !in q
    ensures NoDup(q + [s]) && forall x :: x in q + [s] <==> x in q || x == s
  {
  }

  function Awake(c: Core, t: nat): Core
    requires t in c.supers
  {
    c.(supers := c.supers[t := c.supers[t].(semifree := false)])
  }

  ghost predicate WakeTo(fin: nat, c: Core, c2: Core, t: nat) {
    t in c.supers && c.supers[t].semifree &&
    Reframed(Awake(c, t), c2, c.supers[t].refs, Some((t, IsFinal(fin, c.supers[t].contents))))
  }

  lemma WakeShape(fin: nat, c: Core, c2: Core, t: nat)
    requires WakeTo(fin, c, c2, t)
    ensures SameShape(c, c2)
    ensures forall s :: s in c.supers ==> c2.supers[s].semifree == (s != t && c.supers[s].semifree)
  {
  }

  lemma WakeFuture(g: Graph, fin: nat, c: Core, c2: Core, t: nat, d: nat)
    requires WakeTo(fin, c, c2, t) && d in c.futures && FutureOk(g, fin, c, d)
    requires d in c.supers[t].refs <==> c.futures[d].future == Some(t)
    ensures d in c2.futures && FutureOk(g, fin, c2, d)
  {
    WakeShape(fin, c, c2, t);
    ShapeFuture(g, fin, c, c2, d);
  }

  lemma WakeFrame(g: Graph, fin: nat, c: Core, c2: Core, t: nat, s: nat, b: Byte)
    requires WakeTo(fin, c, c2, t) && RingsOk(g, c)
    requires s in c.supers && |c.supers[s].table| == 256 && FrameOk(g, fin, c, s, b, c.supers[s].table[b])
    ensures s in c2.supers && |c2.supers[s].table| == 256 && FrameOk(g, fin, c2, s, b, c2.supers[s].table[b])
  {
    var c1 := Awake(c, t);
    var ring := c.supers[t].refs;
    var to := Some((t, IsFinal(fin, c.supers[t].contents)));
    var f := c2.supers[s].table[b];
    if Installed(c1, ring, to, s, b, f) {
      var d :| d in ring && OnEdge(c1, d, s, b) && f == FrameFor(d, to);
      RefsExactly(g, c, t, d);
      assert Leads(c2, d, s, b, t);
    } else {
      assert f == c.supers[s].table[b];
      if f.NextChar? {
        var d :| Leads(c, d, s, b, f.dest);
        assert Leads(c2, d, s, b, f.dest);
      }
    }
  }

  lemma WakeOk(g: Graph, fin: nat, c: Core, c2: Core, t: nat)
    requires WakeTo(fin, c, c2, t) && CoreOk(g, fin, c)
    ensures CoreOk(g, fin, c2)
  {
    WakeShape(fin, c, c2, t);
    ShapeKeeps(g, c, c2);
    forall d | d in c2.futures ensures FutureOk(g, fin, c2, d) {
      RefsExactly(g, c, t, d);
      WakeFuture(g, fin, c, c2, t, d);
    }
    forall s, b: Byte | s in c2.supers && b < |c2.supers[s].table|
      ensures FrameOk(g, fin, c2, s, b, c2.supers[s].table[b])
    {
      WakeFrame(g, fin, c, c2, t, s, b);
    }
  }

  // ----- rx_really_free_superstate -----

  /** Frees a superstate: the futures that led to it lose their destination but stay in their
      ring; the futures that left from it go. */
  function Freed(c: Core, it: nat): Core
    requires it in c.supers
  {
    var gone := set d | d in c.supers[it].edges;
    Core(
      map s | s in c.supers && s != it :: c.supers[s].(refs := c.supers[s].refs - gone),
      map d | d in c.futures && d !in gone :: FreedFuture(c.futures[d], d, it, gone),
      c.index - {c.supers[it].contents},
      c.next)
  }

  function FreedFuture(f: Future, d: nat, it: nat, gone: set<nat>): Future {
    if f.future == Some(it) then f.(ring := f.ring - gone, future := None, frame := Miss(Some(d)))
    else f.(ring := f.ring - gone)
  }

  lemma FreedContents(g: Graph, c: Core, it: nat)
    requires ContentsOk(g, c) && EdgesOk(c) && it in c.supers
    ensures ContentsOk(g, Freed(c, it)) && EdgesOk(Freed(c, it))
  {
    var c2 := Freed(c, it);
    forall s | s in c2.supers ensures c2.supers[s].contents in c2.index && c2.index[c2.supers[s].contents] == s {
      assert c.supers[s].contents != c.supers[it].contents;
    }
    forall s, d | s in c2.supers && d in c2.supers[s].edges
      ensures d in c2.futures && c2.futures[d].present == s
    {
      assert d in c.futures && c.futures[d].present == s;
    }
  }

  lemma FreedFutureOk(g: Graph, fin: nat, c: Core, it: nat, d: nat)
    requires it in c.supers
    requires d in Freed(c, it).futures && FutureOk(g, fin, c, d)
    ensures FutureOk(g, fin, Freed(c, it), d)
  {
    var c2 := Freed(c, it);
    var f := c.futures[d];
    assert f.present != it;
    assert c2.supers[f.present].contents == c.supers[f.present].contents;
  }

  lemma FreedFutures(g: Graph, fin: nat, c: Core, it: nat)
    requires FuturesOk(g, fin, c) && it in c.supers
    ensures FuturesOk(g, fin, Freed(c, it))
  {
    forall d | d in Freed(c, it).futures ensures FutureOk(g, fin, Freed(c, it), d) {
      FreedFutureOk(g, fin, c, it, d);
    }
  }

  lemma FreedTarget(g: Graph, c: Core, it: nat, d: nat)
    requires it in c.supers
    requires d in Freed(c, it).futures && HasPresent(c, d) && d in c.supers[c.futures[d].present].edges
    ensures HasPresent(Freed(c, it), d) && Target(g, Freed(c, it), d) == Target(g, c, d)
  {
    assert c.futures[d].present != it;
  }

  lemma FreedRing(g: Graph, fin: nat, c: Core, it: nat, d: nat)
    requires FuturesOk(g, fin, c) && it in c.supers
    requires d in Freed(c, it).futures && RingOk(g, c, d)
    ensures RingOk(g, Freed(c, it), d)
  {
    var c2 := Freed(c, it);
    assert FutureOk(g, fin, c, d);
    FreedTarget(g, c, it, d);
    forall x | x in c2.futures[d].ring
      ensures HasPresent(c2, x) && c2.futures[x].ring == c2.futures[d].ring &&
        c2.futures[x].future == c2.futures[d].future && Target(g, c2, x) == Target(g, c2, d)
    {
      assert FutureOk(g, fin, c, x);
      FreedTarget(g, c, it, x);
    }
  }

  lemma FreedRefs(g: Graph, c: Core, it: nat)
    requires RingsOk(g, c) && it in c.supers
    ensures RefsOk(Freed(c, it))
  {
    var c2 := Freed(c, it);
    forall t, d | t in c2.supers && d in c2.supers[t].refs
      ensures d in c2.futures && c2.futures[d].future == Some(t)
    {
      assert d in c.supers[t].refs;
    }
  }

  lemma FreedRings(g: Graph, fin: nat, c: Core, it: nat)
    requires FuturesOk(g, fin, c) && RingsOk(g, c) && it in c.supers
    ensures RingsOk(g, Freed(c, it))
  {
    var c2 := Freed(c, it);
    FreedRefs(g, c, it);
    forall d | d in c2.futures ensures RingOk(g, c2, d) {
      FreedRing(g, fin, c, it, d);
    }
  }

  lemma FreedFrame(g: Graph, fin: nat, c: Core, it: nat, s: nat, b: Byte)
    requires it in c.supers && c.supers[it].semifree && EdgesOk(c)
    requires s in Freed(c, it).supers && |c.supers[s].table| == 256 && FrameOk(g, fin, c, s, b, c.supers[s].table[b])
    ensures FrameOk(g, fin, Freed(c, it), s, b, Freed(c, it).supers[s].table[b])
  {
    var c2 := Freed(c, it);
    var f := c.supers[s].table[b];
    match f
    case Miss(None) =>
    case Miss(Some(d)) => assert d !in c.supers[it].edges;
    case NextChar(t, final) =>
      var d :| Leads(c, d, s, b, t);
      assert d !in c.supers[it].edges;
      assert Leads(c2, d, s, b, t);
    case Backtrack =>
  }

  lemma FreedTables(g: Graph, fin: nat, c: Core, it: nat)
    requires it in c.supers && c.supers[it].semifree && EdgesOk(c)
    requires TablesOk(g, fin, c) && ContentsOk(g, c)
    ensures TablesOk(g, fin, Freed(c, it))
  {
    var c2 := Freed(c, it);
    forall s, b: Byte | s in c2.supers && b < |c2.supers[s].table|
      ensures FrameOk(g, fin, c2, s, b, c2.supers[s].table[b])
    {
      FreedFrame(g, fin, c, it, s, b);
    }
  }

  lemma FreedOk(g: Graph, fin: nat, c: Core, it: nat)
    requires CoreOk(g, fin, c) && it in c.supers && c.supers[it].semifree
    ensures CoreOk(g, fin, Freed(c, it))
  {
    FreedContents(g, c, it);
    FreedFutures(g, fin, c, it);
    FreedRings(g, fin, c, it);
    FreedTables(g, fin, c, it);
  }

  // ----- rx_superstate, making a new one -----

  function NewTable(): seq<Frame> {
    seq(256, _ => Miss(None))
  }

  function Created(c: Core, contents: seq<nat>): Core {
    c.(supers := c.supers[c.next := Super(contents, false, {}, [], NewTable())],
       index := c.index[contents := c.next],
       next := c.next + 1)
  }

  lemma CreatedContents(g: Graph, c: Core, contents: seq<nat>)
    requires ContentsOk(g, c) && contents !in c.index
    requires Sorted(contents) && Within(g, contents)
    ensures ContentsOk(g, Created(c, contents))
  {
    var c2 := Created(c, contents);
    forall k | k in c2.index ensures c2.index[k] in c2.supers && c2.supers[c2.index[k]].contents == k {
      if k != contents { assert c.index[k] in c.supers; }
    }
  }

  lemma CreatedEdges(c: Core, contents: seq<nat>)
    requires EdgesOk(c) && c.next !in c.supers
    ensures EdgesOk(Created(c, contents))
  {
  }

  lemma CreatedTarget(g: Graph, c: Core, contents: seq<nat>, d: nat)
    requires HasPresent(c, d) && c.next !in c.supers
    ensures HasPresent(Created(c, contents), d) && Target(g, Created(c, contents), d) == Target(g, c, d)
  {
  }

  lemma CreatedFutures(g: Graph, fin: nat, c: Core, contents: seq<nat>)
    requires FuturesOk(g, fin, c) && RingsOk(g, c) && c.next !in c.supers
    ensures FuturesOk(g, fin, Created(c, contents)) && RingsOk(g, Created(c, contents))
  {
    var c2 := Created(c, contents);
    forall d | d in c2.futures ensures FutureOk(g, fin, c2, d) && RingOk(g, c2, d) {
      assert FutureOk(g, fin, c, d) && RingOk(g, c, d);
      CreatedTarget(g, c, contents, d);
      forall x | HasPresent(c, x) ensures HasPresent(c2, x) && Target(g, c2, x) == Target(g, c, x) {
        CreatedTarget(g, c, contents, x);
      }
    }
    forall d | d in c2.futures ensures c2.futures[d].future != Some(c.next) {
      assert FutureOk(g, fin, c, d);
    }
  }

  lemma CreatedTables(g: Graph, fin: nat, c: Core, contents: seq<nat>)
    requires TablesOk(g, fin, c) && c.next !in c.supers
    ensures TablesOk(g, fin, Created(c, contents))
  {
    var c2 := Created(c, contents);
    forall s, b: Byte | s in c2.supers && b < |c2.supers[s].table|
      ensures FrameOk(g, fin, c2, s, b, c2.supers[s].table[b])
    {
      if s != c.next {
        var f := c.supers[s].table[b];
        assert FrameOk(g, fin, c, s, b, f);
        if f.NextChar? {
          var d :| Leads(c, d, s, b, f.dest);
          assert Leads(c2, d, s, b, f.dest);
        }
      }
    }
  }

  lemma CreatedOk(g: Graph, fin: nat, c: Core, contents: seq<nat>)
    requires CoreOk(g, fin, c) && contents !in c.index
    requires Sorted(contents) && Within(g, contents)
    ensures CoreOk(g, fin, Created(c, contents))
  {
    CreatedContents(g, c, contents);
    CreatedEdges(c, contents);
    CreatedFutures(g, fin, c, contents);
    CreatedTables(g, fin, c, contents);
  }

  // ----- install_partial_transition -----

  /** The 32 characters that share a word with `b` */
  predicate SameWord(b: Byte, x: Byte) {
    b / 32 == x / 32
  }

  function WordOf(cset: set<Byte>, b: Byte): set<Byte> {
    set x | x in cset && SameWord(b, x)
  }

  function InstalledAt(c: Core, s: nat, f: Frame, cset: set<Byte>): Core
    requires s in c.supers && |c.supers[s].table| == 256
  {
    c.(supers := c.supers[s := c.supers[s].(table := Install(c.supers[s].table, f, cset))])
  }

  lemma InstalledFutures(g: Graph, fin: nat, c: Core, s: nat, f: Frame, cset: set<Byte>)
    requires FuturesOk(g, fin, c) && s in c.supers && |c.supers[s].table| == 256
    ensures FuturesOk(g, fin, InstalledAt(c, s, f, cset))
  {
    var c2 := InstalledAt(c, s, f, cset);
    forall d | d in c2.futures ensures FutureOk(g, fin, c2, d) {
      assert FutureOk(g, fin, c, d);
      ShapeFuture(g, fin, c, c2, d);
    }
  }

  lemma InstalledOk(g: Graph, fin: nat, c: Core, s: nat, f: Frame, cset: set<Byte>)
    requires CoreOk(g, fin, c) && s in c.supers
    requires forall b: Byte :: b in cset ==> FrameOk(g, fin, c, s, b, f)
    ensures CoreOk(g, fin, InstalledAt(c, s, f, cset))
  {
    var c2 := InstalledAt(c, s, f, cset);
    ShapeKeeps(g, c, c2);
    InstalledFutures(g, fin, c, s, f, cset);
    InstalledTables(g, fin, c, s, f, cset);
  }

  lemma InstalledTables(g: Graph, fin: nat, c: Core, s: nat, f: Frame, cset: set<Byte>)
    requires TablesOk(g, fin, c) && s in c.supers && |c.supers[s].table| == 256
    requires forall b: Byte :: b in cset ==> FrameOk(g, fin, c, s, b, f)
    ensures TablesOk(g, fin, InstalledAt(c, s, f, cset))
  {
    var c2 := InstalledAt(c, s, f, cset);
    forall p, b: Byte | p in c2.supers && b < |c2.supers[p].table|
      ensures FrameOk(g, fin, c2, p, b, c2.supers[p].table[b])
    {
      var e := c2.supers[p].table[b];
      assert FrameOk(g, fin, c, p, b, e);
      if e.NextChar? {
        var d :| Leads(c, d, p, b, e.dest);
        assert Leads(c2, d, p, b, e.dest);
      }
    }
  }

  // ----- rx_super_edge, with the one future that include_futures makes for it -----

  function WithEdge(c: Core, s: nat, cset: set<Byte>): Core
    requires s in c.supers
  {
    c.(futures := c.futures[c.next := Future(s, cset, None, Miss(Some(c.next)), {c.next})],
       supers := c.supers[s := c.supers[s].(edges := [c.next] + c.supers[s].edges)],
       next := c.next + 1)
  }

  lemma WithEdgeContents(g: Graph, c: Core, s: nat, cset: set<Byte>)
    requires ContentsOk(g, c) && s in c.supers
    ensures ContentsOk(g, WithEdge(c, s, cset))
  {
  }

  lemma WithEdgeEdges(c: Core, s: nat, cset: set<Byte>)
    requires EdgesOk(c) && s in c.supers && c.next !in c.futures
    ensures EdgesOk(WithEdge(c, s, cset))
  {
    var c2 := WithEdge(c, s, cset);
    forall p, d | p in c2.supers && d in c2.supers[p].edges ensures d in c2.futures && c2.futures[d].present == p {
      if !(p == s && d == c.next) { assert d in c.supers[p].edges; }
    }
  }

  lemma WithEdgeTarget(g: Graph, c: Core, s: nat, cset: set<Byte>, d: nat)
    requires s in c.supers && HasPresent(c, d) && c.next !in c.futures
    ensures HasPresent(WithEdge(c, s, cset), d) && Target(g, WithEdge(c, s, cset), d) == Target(g, c, d)
  {
  }

  lemma WithEdgeFutures(g: Graph, fin: nat, c: Core, s: nat, cset: set<Byte>)
    requires FuturesOk(g, fin, c) && s in c.supers && c.next !in c.futures
    requires ClassEdge(g, States(c, s), cset)
    ensures FuturesOk(g, fin, WithEdge(c, s, cset))
  {
    var c2 := WithEdge(c, s, cset);
    forall d | d in c2.futures ensures FutureOk(g, fin, c2, d) {
      if d != c.next {
        assert FutureOk(g, fin, c, d);
        WithEdgeTarget(g, c, s, cset, d);
      } else {
        assert States(c2, s) == States(c, s);
      }
    }
  }

  lemma WithEdgeRings(g: Graph, c: Core, s: nat, cset: set<Byte>)
    requires RingsOk(g, c) && s in c.supers && c.next !in c.futures
    ensures RingsOk(g, WithEdge(c, s, cset))
  {
    var c2 := WithEdge(c, s, cset);
    forall d | d in c2.futures ensures RingOk(g, c2, d) {
      if d != c.next {
        assert RingOk(g, c, d);
        forall x | x in c.futures[d].ring ensures HasPresent(c2, x) && Target(g, c2, x) == Target(g, c, x) {
          WithEdgeTarget(g, c, s, cset, x);
        }
      }
    }
  }

  lemma WithEdgeTables(g: Graph, fin: nat, c: Core, s: nat, cset: set<Byte>)
    requires TablesOk(g, fin, c) && s in c.supers && c.next !in c.futures
    ensures TablesOk(g, fin, WithEdge(c, s, cset))
  {
    var c2 := WithEdge(c, s, cset);
    forall p, b: Byte | p in c2.supers && b < |c2.supers[p].table|
      ensures FrameOk(g, fin, c2, p, b, c2.supers[p].table[b])
    {
      var f := c.supers[p].table[b];
      assert FrameOk(g, fin, c, p, b, f);
      if f.NextChar? {
        var d :| Leads(c, d, p, b, f.dest);
        assert Leads(c2, d, p, b, f.dest);
      }
    }
  }

  lemma WithEdgeOk(g: Graph, fin: nat, c: Core, s: nat, cset: set<Byte>)
    requires CoreOk(g, fin, c) && s in c.supers && ClassEdge(g, States(c, s), cset)
    ensures CoreOk(g, fin, WithEdge(c, s, cset))
  {
    WithEdgeContents(g, c, s, cset);
    WithEdgeEdges(c, s, cset);
    WithEdgeFutures(g, fin, c, s, cset);
    WithEdgeRings(g, c, s, cset);
    WithEdgeTables(g, fin, c, s, cset);
  }

  // ----- solve_destination, once the destination superstate is there -----

  /** Every future of the ring gets the destination, and the ring joins the ring of those that
      already lead there. */
  function Solved(c: Core, d: nat, t: nat, final: bool): Core
    requires d in c.futures && t in c.supers
  {
    var ring := c.futures[d].ring;
    var joined := ring + c.supers[t].refs;
    c.(futures := map x | x in c.futures ::
         if x in ring then c.futures[x].(future := Some(t), frame := NextChar(t, final), ring := joined)
         else if x in c.supers[t].refs then c.futures[x].(ring := joined)
         else c.futures[x],
       supers := c.supers[t := c.supers[t].(refs := joined)])
  }

  ghost predicate Solvable(g: Graph, fin: nat, c: Core, d: nat, t: nat) {
    && d in c.futures && t in c.supers && c.futures[d].future.None? && HasPresent(c, d)
    && States(c, t) == Target(g, c, d) && !c.supers[t].semifree
  }

  lemma SolvedContents(g: Graph, c: Core, d: nat, t: nat, final: bool)
    requires ContentsOk(g, c) && d in c.futures && t in c.supers
    ensures ContentsOk(g, Solved(c, d, t, final))
  {
  }

  lemma SolvedEdges(c: Core, d: nat, t: nat, final: bool)
    requires EdgesOk(c) && d in c.futures && t in c.supers
    ensures EdgesOk(Solved(c, d, t, final))
  {
  }

  lemma SolvedTarget(g: Graph, c: Core, d: nat, t: nat, final: bool, x: nat)
    requires d in c.futures && t in c.supers && HasPresent(c, x)
    ensures HasPresent(Solved(c, d, t, final), x) && Target(g, Solved(c, d, t, final), x) == Target(g, c, x)
  {
  }

  lemma SolvedFuture(g: Graph, fin: nat, c: Core, d: nat, t: nat, x: nat)
    requires Solvable(g, fin, c, d, t) && RingOk(g, c, d) && x in c.futures && FutureOk(g, fin, c, x)
    ensures FutureOk(g, fin, Solved(c, d, t, IsFinal(fin, c.supers[t].contents)), x)
  {
    SolvedTarget(g, c, d, t, IsFinal(fin, c.supers[t].contents), x);
  }

  lemma SolvedFutures(g: Graph, fin: nat, c: Core, d: nat, t: nat)
    requires Solvable(g, fin, c, d, t) && FuturesOk(g, fin, c) && RingOk(g, c, d)
    ensures FuturesOk(g, fin, Solved(c, d, t, IsFinal(fin, c.supers[t].contents)))
  {
    forall x | x in c.futures ensures FutureOk(g, fin, Solved(c, d, t, IsFinal(fin, c.supers[t].contents)), x) {
      SolvedFuture(g, fin, c, d, t, x);
    }
  }

  /** In the joined ring every future has the destination's states as its target. */
  lemma SolvedJoined(g: Graph, fin: nat, c: Core, d: nat, t: nat, x: nat)
    requires Solvable(g, fin, c, d, t) && RingsOk(g, c) && FuturesOk(g, fin, c)
    requires x in c.futures[d].ring || x in c.supers[t].refs
    ensures HasPresent(c, x) && Target(g, c, x) == States(c, t)
  {
    RefsExactly(g, c, t, x);
    assert RingOk(g, c, d);
    assert x in c.futures && FutureOk(g, fin, c, x);
  }

  lemma SolvedRingIn(g: Graph, fin: nat, c: Core, d: nat, t: nat, final: bool, x: nat)
    requires Solvable(g, fin, c, d, t) && RingsOk(g, c) && FuturesOk(g, fin, c)
    requires x in c.futures[d].ring || x in c.supers[t].refs
    ensures x in c.futures && RingOk(g, Solved(c, d, t, final), x)
  {
    var c2 := Solved(c, d, t, final);
    SolvedJoined(g, fin, c, d, t, x);
    SolvedTarget(g, c, d, t, final, x);
    forall y | y in c2.futures[x].ring
      ensures HasPresent(c2, y) && c2.futures[y].ring == c2.futures[x].ring &&
        c2.futures[y].future == c2.futures[x].future && Target(g, c2, y) == Target(g, c2, x)
    {
      RefsExactly(g, c, t, x);
      RefsExactly(g, c, t, y);
      SolvedJoined(g, fin, c, d, t, y);
      SolvedTarget(g, c, d, t, final, y);
    }
  }

  lemma SolvedRingOut(g: Graph, fin: nat, c: Core, d: nat, t: nat, final: bool, x: nat)
    requires Solvable(g, fin, c, d, t) && RingsOk(g, c)
    requires x in c.futures && x !in c.futures[d].ring && x !in c.supers[t].refs
    ensures RingOk(g, Solved(c, d, t, final), x)
  {
    var c2 := Solved(c, d, t, final);
    assert RingOk(g, c, d) && RingOk(g, c, x);
    SolvedTarget(g, c, d, t, final, x);
    forall y | y in c2.futures[x].ring
      ensures HasPresent(c2, y) && c2.futures[y].ring == c2.futures[x].ring &&
        c2.futures[y].future == c2.futures[x].future && Target(g, c2, y) == Target(g, c2, x)
    {
      RefsExactly(g, c, t, x);
      RefsExactly(g, c, t, y);
      assert RingOk(g, c, y);
      SolvedTarget(g, c, d, t, final, y);
    }
  }

  lemma SolvedRings(g: Graph, fin: nat, c: Core, d: nat, t: nat, final: bool)
    requires Solvable(g, fin, c, d, t) && RingsOk(g, c) && FuturesOk(g, fin, c)
    ensures RingsOk(g, Solved(c, d, t, final))
  {
    var c2 := Solved(c, d, t, final);
    forall x | x in c2.futures ensures RingOk(g, c2, x) {
      if x in c.futures[d].ring || x in c.supers[t].refs {
        SolvedRingIn(g, fin, c, d, t, final, x);
      } else {
        SolvedRingOut(g, fin, c, d, t, final, x);
      }
    }
    SolvedRefs(g, fin, c, d, t, final);
  }

  lemma SolvedRefs(g: Graph, fin: nat, c: Core, d: nat, t: nat, final: bool)
    requires Solvable(g, fin, c, d, t) && RingsOk(g, c)
    ensures RefsOk(Solved(c, d, t, final))
  {
    var c2 := Solved(c, d, t, final);
    assert RingOk(g, c, d);
    forall u, x | u in c2.supers && x in c2.supers[u].refs
      ensures x in c2.futures && c2.futures[x].future == Some(u)
    {
      RefsExactly(g, c, u, x);
    }
    forall x | x in c2.futures && c2.futures[x].future.Some? && c2.futures[x].future.value in c2.supers
      ensures c2.futures[x].ring == c2.supers[c2.futures[x].future.value].refs
    {
      RefsExactly(g, c, t, x);
      assert RingOk(g, c, x);
    }
  }

  lemma SolvedTables(g: Graph, fin: nat, c: Core, d: nat, t: nat, final: bool)
    requires Solvable(g, fin, c, d, t) && RingsOk(g, c) && TablesOk(g, fin, c)
    ensures TablesOk(g, fin, Solved(c, d, t, final))
  {
    var c2 := Solved(c, d, t, final);
    assert RingOk(g, c, d);
    forall p, b: Byte | p in c2.supers && b < |c2.supers[p].table|
      ensures FrameOk(g, fin, c2, p, b, c2.supers[p].table[b])
    {
      var f := c.supers[p].table[b];
      assert FrameOk(g, fin, c, p, b, f);
      if f.NextChar? {
        var x :| Leads(c, x, p, b, f.dest);
        assert RingOk(g, c, x);
        assert Leads(c2, x, p, b, f.dest);
      }
    }
  }

  lemma SolvedOk(g: Graph, fin: nat, c: Core, d: nat, t: nat)
    requires CoreOk(g, fin, c) && Solvable(g, fin, c, d, t)
    ensures CoreOk(g, fin, Solved(c, d, t, IsFinal(fin, c.supers[t].contents)))
  {
    var final := IsFinal(fin, c.supers[t].contents);
    SolvedContents(g, c, d, t, final);
    SolvedEdges(c, d, t, final);
    assert RingOk(g, c, d);
    SolvedFutures(g, fin, c, d, t);
    SolvedRings(g, fin, c, d, t, final);
    SolvedTables(g, fin, c, d, t, final);
  }
}
