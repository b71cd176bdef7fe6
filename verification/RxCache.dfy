/** The superstate cache of rx/rxsuper.c as a value, with the invariant that every operation keeps.

    Superstates and distinct futures are addressed by numbers.  Without side-effect edges a super
    edge has one distinct future, so the two are one record here.  Circular lists are sequences
    from their head (the recycling queues) or sets (the futures that share a destination). */
module RxCache {
  import opened Options
  import opened RxSyntax
  import opened RxNfa
  import opened RxEclose
  import opened RxSubset

  /** Instruction frames */
  datatype Frame = Miss(df: Option<nat>) | NextChar(dest: nat, fin: bool) | Backtrack

  datatype Super = Super(contents: seq<nat>, semifree: bool, refs: set<nat>, edges: seq<nat>, table: seq<Frame>)

  datatype Future = Future(present: nat, cset: set<Byte>, future: Option<nat>, frame: Frame, ring: set<nat>)

  /** The superstates, the futures between them, the supersets' pointers to their superstates, and
      the next free address */
  datatype Core = Core(supers: map<nat, Super>, futures: map<nat, Future>, index: map<seq<nat>, nat>, next: nat)

  /** The core with its two recycling queues, the lock counts of its superstates, and the counters
      superstates and semifree_superstates */
  datatype Cache = Cache(core: Core, lru: seq<nat>, semi: seq<nat>, locks: map<nat, nat>, superstates: int, semifree: int)

  // ----- The invariant -----

  ghost predicate NoDup(s: seq<nat>) {
    forall i, j :: 0 <= i < j < |s| ==> s[i] != s[j]
  }

  /** The two queues partition the superstates; the semi-free flag says which one; a locked
      superstate is never semi-free; the counters are the lengths of the queues, as check_cache asks. */
  ghost predicate QueuesOk(c: Cache) {
    && c.superstates == |c.lru| + |c.semi| && c.semifree == |c.semi|
    && NoDup(c.lru) && NoDup(c.semi)
    && (forall s :: s in c.core.supers <==> s in c.lru || s in c.semi)
    && (forall s :: s in c.lru ==> s !in c.semi)
    && (forall s :: s in c.core.supers ==> (c.core.supers[s].semifree <==> s in c.semi))
    && c.locks.Keys == c.core.supers.Keys
    && (forall s :: s in c.core.supers && c.locks[s] > 0 ==> !c.core.supers[s].semifree)
  }

  /** One superstate per state set, found by the index. */
  ghost predicate ContentsOk(g: Graph, c: Core) {
    && (forall s :: s in c.supers ==>
          Sorted(c.supers[s].contents) && Within(g, c.supers[s].contents) && |c.supers[s].table| == 256)
    && (forall s :: s in c.supers ==> c.supers[s].contents in c.index && c.index[c.supers[s].contents] == s)
    && (forall k :: k in c.index ==> c.index[k] in c.supers && c.supers[c.index[k]].contents == k)
    && (forall s :: s in c.supers ==> s < c.next)
    && (forall d :: d in c.futures ==> d < c.next)
  }

  ghost function States(c: Core, s: nat): set<nat>
    requires s in c.supers
  {
    Elems(c.supers[s].contents)
  }

  predicate IsFinal(fin: nat, contents: seq<nat>) {
    fin in contents
  }

  ghost predicate HasPresent(c: Core, d: nat) {
    d in c.futures && c.futures[d].present in c.supers
  }

  /** Where a future leads by definition */
  ghost function Target(g: Graph, c: Core, d: nat): set<nat>
    requires HasPresent(c, d)
  {
    Dest(g, States(c, c.futures[d].present), c.futures[d].cset)
  }

  /** The character set of an edge is a whole class of characters that its source superstate does
      not tell apart. */
  ghost predicate ClassEdge(g: Graph, S: set<nat>, cset: set<Byte>) {
    cset != {} && forall b :: b in cset ==> Enabled(g, S, b) && Class(g, S, b) == cset
  }

  ghost predicate FutureOk(g: Graph, fin: nat, c: Core, d: nat)
    requires d in c.futures
  {
    var f := c.futures[d];
    && f.present in c.supers
    && d in c.supers[f.present].edges
    && ClassEdge(g, States(c, f.present), f.cset)
    && (f.future.Some? ==> f.future.value in c.supers && States(c, f.future.value) == Target(g, c, d))
    && f.frame == (if f.future.Some? && !c.supers[f.future.value].semifree
                   then NextChar(f.future.value, IsFinal(fin, c.supers[f.future.value].contents))
                   else Miss(Some(d)))
  }

  ghost predicate FuturesOk(g: Graph, fin: nat, c: Core) {
    forall d :: d in c.futures ==> FutureOk(g, fin, c, d)
  }

  ghost predicate EdgesOk(c: Core) {
    forall s, d :: s in c.supers && d in c.supers[s].edges ==> d in c.futures && c.futures[d].present == s
  }

  /** All futures of one same-dest ring share one destination set and one destination. */
  ghost predicate RingOk(g: Graph, c: Core, d: nat)
    requires d in c.futures
  {
    && d in c.futures[d].ring
    && (forall x :: x in c.futures[d].ring ==>
          HasPresent(c, x) && HasPresent(c, d) && c.futures[x].ring == c.futures[d].ring &&
          c.futures[x].future == c.futures[d].future && Target(g, c, x) == Target(g, c, d))
  }

  /** `refs` is the ring of the futures that lead to a superstate. */
  ghost predicate RefsOk(c: Core) {
    && (forall t, d :: t in c.supers && d in c.supers[t].refs ==> d in c.futures && c.futures[d].future == Some(t))
    && (forall d :: d in c.futures && c.futures[d].future.Some? && c.futures[d].future.value in c.supers ==>
          c.futures[d].ring == c.supers[c.futures[d].future.value].refs)
  }

  ghost predicate RingsOk(g: Graph, c: Core) {
    (forall d :: d in c.futures ==> RingOk(g, c, d)) && RefsOk(c)
  }

  ghost predicate Leads(c: Core, d: nat, s: nat, b: Byte, t: nat) {
    d in c.futures && c.futures[d].present == s && b in c.futures[d].cset && c.futures[d].future == Some(t)
  }

  ghost predicate FrameOk(g: Graph, fin: nat, c: Core, s: nat, b: Byte, f: Frame)
    requires s in c.supers
  {
    match f
    case Miss(None) => true
    case Miss(Some(d)) => d in c.futures && c.futures[d].present == s && b in c.futures[d].cset
    case NextChar(t, final) =>
      t in c.supers && !c.supers[t].semifree && final == IsFinal(fin, c.supers[t].contents) &&
      exists d :: Leads(c, d, s, b, t)
    case Backtrack => !Enabled(g, States(c, s), b)
  }

  ghost predicate TablesOk(g: Graph, fin: nat, c: Core) {
    forall s, b: Byte :: s in c.supers && b < |c.supers[s].table| ==> FrameOk(g, fin, c, s, b, c.supers[s].table[b])
  }

  ghost predicate CoreOk(g: Graph, fin: nat, c: Core) {
    ContentsOk(g, c) && EdgesOk(c) && FuturesOk(g, fin, c) && RingsOk(g, c) && TablesOk(g, fin, c)
  }

  ghost predicate Valid(g: Graph, fin: nat, c: Cache) {
    QueuesOk(c) && CoreOk(g, fin, c.core)
  }

  /** What the invariant is for: a next-char frame for (superstate, character) leads to the
      superstate whose contents are the engine's step of its contents. */
  lemma NextCharIsStep(g: Graph, fin: nat, c: Core, s: nat, b: Byte, d: nat, t: nat)
    requires CoreOk(g, fin, c) && s in c.supers && Leads(c, d, s, b, t)
    ensures t in c.supers && States(c, t) == CodeStep(g, States(c, s), b)
  {
    assert FutureOk(g, fin, c, d);
  }

  // ----- Rewriting the frames of a ring -----

  function FrameFor(d: nat, to: Option<(nat, bool)>): Frame {
    match to
    case None => Miss(Some(d))
    case Some((t, final)) => NextChar(t, final)
  }

  ghost predicate OnEdge(c: Core, d: nat, s: nat, b: Byte) {
    d in c.futures && c.futures[d].present == s && b in c.futures[d].cset
  }

  /** Frame `f` was put at (s, b) on behalf of a future in `ring`. */
  ghost predicate Installed(c: Core, ring: set<nat>, to: Option<(nat, bool)>, s: nat, b: Byte, f: Frame) {
    exists d :: d in ring && OnEdge(c, d, s, b) && f == FrameFor(d, to)
  }

  /** `c2` is `c` with new frames for the futures in `ring`, in the futures themselves and in the
      transition tables of their sources. */
  ghost predicate Reframed(c: Core, c2: Core, ring: set<nat>, to: Option<(nat, bool)>) {
    && c2 == c.(supers := c2.supers, futures := c2.futures)
    && c2.supers.Keys == c.supers.Keys && c2.futures.Keys == c.futures.Keys
    && (forall d :: d in c.futures ==>
          c2.futures[d] == c.futures[d].(frame := if d in ring then FrameFor(d, to) else c.futures[d].frame))
    && (forall s :: s in c.supers ==> c2.supers[s] == c.supers[s].(table := c2.supers[s].table))
    && (forall s :: s in c.supers ==> |c2.supers[s].table| == |c.supers[s].table| == 256)
    && (forall s, b: Byte :: s in c.supers ==>
          c2.supers[s].table[b] == c.supers[s].table[b] || Installed(c, ring, to, s, b, c2.supers[s].table[b]))
    && (forall d, s, b: Byte :: d in ring && s in c.supers && OnEdge(c, d, s, b) ==>
          Installed(c, ring, to, s, b, c2.supers[s].table[b]))
  }

  /** install_transition: the frame goes into the table at every character of the set. */
  function Install(table: seq<Frame>, f: Frame, cset: set<Byte>): (r: seq<Frame>)
    requires |table| == 256
    ensures |r| == 256
    ensures forall b: Byte :: r[b] == if b in cset then f else table[b]
  {
    seq(256, b requires 0 <= b < 256 => if b in cset then f else table[b])
  }

  function ReframeOne(c: Core, d: nat, to: Option<(nat, bool)>): Core
    requires d in c.futures && c.futures[d].present in c.supers
    requires |c.supers[c.futures[d].present].table| == 256
  {
    var f := c.futures[d];
    var p := c.supers[f.present];
    c.(futures := c.futures[d := f.(frame := FrameFor(d, to))],
       supers := c.supers[f.present := p.(table := Install(p.table, FrameFor(d, to), f.cset))])
  }

  lemma ReframeStep(c: Core, c1: Core, done: set<nat>, d: nat, to: Option<(nat, bool)>)
    requires Reframed(c, c1, done, to) && d in c.futures && c.futures[d].present in c.supers
    ensures Reframed(c, ReframeOne(c1, d, to), done + {d}, to)
  {
    var c2 := ReframeOne(c1, d, to);
    var ring := done + {d};
    var p := c.futures[d].present;
    assert c1.futures[d].present == p && c1.futures[d].cset == c.futures[d].cset;
    forall s, b: Byte | s in c.supers
      ensures c2.supers[s].table[b] == c.supers[s].table[b] || Installed(c, ring, to, s, b, c2.supers[s].table[b])
    {
      ReframeEntry(c, c1, done, d, to, s, b);
    }
    forall x, s, b: Byte | x in ring && s in c.supers && OnEdge(c, x, s, b)
      ensures Installed(c, ring, to, s, b, c2.supers[s].table[b])
    {
      ReframeEntry(c, c1, done, d, to, s, b);
    }
  }

  lemma ReframeEntry(c: Core, c1: Core, done: set<nat>, d: nat, to: Option<(nat, bool)>, s: nat, b: Byte)
    requires Reframed(c, c1, done, to) && d in c.futures && c.futures[d].present in c.supers && s in c.supers
    ensures var f := ReframeOne(c1, d, to).supers[s].table[b];
      var ring := done + {d};
      (f == c.supers[s].table[b] || Installed(c, ring, to, s, b, f)) &&
      ((exists x :: x in ring && OnEdge(c, x, s, b)) ==> Installed(c, ring, to, s, b, f))
  {
    var f := ReframeOne(c1, d, to).supers[s].table[b];
    if OnEdge(c, d, s, b) {
      assert f == FrameFor(d, to);
      assert Installed(c, done + {d}, to, s, b, f);
    } else {
      assert f == c1.supers[s].table[b];
      if Installed(c, done, to, s, b, f) {
        var x :| x in done && OnEdge(c, x, s, b) && f == FrameFor(x, to);
        assert x in done + {d};
      }
    }
  }

  method SetFrames(c: Core, ring: set<nat>, to: Option<(nat, bool)>) returns (c2: Core)
    requires forall s :: s in c.supers ==> |c.supers[s].table| == 256
    requires forall d :: d in ring ==> HasPresent(c, d)
    ensures Reframed(c, c2, ring, to)
  {
    c2 := c;
    var todo := ring;
    assert Reframed(c, c, {}, to);
    while todo != {}
      invariant todo <= ring
      invariant Reframed(c, c2, ring - todo, to)
      decreases todo
    {
      var d :| d in todo;
      ReframeStep(c, c2, ring - todo, d, to);
      c2 := ReframeOne(c2, d, to);
      assert ring - (todo - {d}) == (ring - todo) + {d};
      todo := todo - {d};
    }
    assert ring - todo == ring;
  }
}
