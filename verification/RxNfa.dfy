/** Thompson's construction (rx/rxnfa.c) and its exactness: the words on the paths from the start
    state to the end state are the regular language of the tree. */
module RxNfa {
  import opened Options
  import opened RxSyntax

  datatype Edge = Eps(dest: nat) | On(cs: set<Byte>, dest: nat)

  /** The out-edges of every state, newest first; a state is its index. */
  type Graph = seq<seq<Edge>>

  datatype Built = Built(g: Graph, start: nat, end: nat)

  /** Trees without context operators, which become side-effect edges in the source.  A
      simplified tree is always one of these. */
  predicate Plain(e: Rexp) {
    match e
    case Null => true
    case Cset(_) => true
    case Str(s) => s != []
    case Concat(l, r) => Plain(l) && Plain(r)
    case Alt(l, r) => Plain(l) && Plain(r)
    case Opt(b) => Plain(b)
    case Star(b) => Plain(b)
    case Plus(b) => Plain(b)
    case Interval(b, _, _) => Plain(b)
    case Parens(b, _) => Plain(b)
    case Context(_) => false
  }

  function Size(e: Rexp): nat {
    match e
    case Null => 0
    case Cset(_) => 1
    case Str(s) => |s|
    case Concat(l, r) => 1 + Size(l) + Size(r)
    case Alt(l, r) => 1 + Size(l) + Size(r)
    case Opt(b) => 1 + Size(b)
    case Star(b) => 1 + Size(b)
    case Plus(b) => 1 + Size(b)
    case Interval(b, _, _) => 1 + Size(b)
    case Parens(b, _) => 1 + Size(b)
    case Context(_) => 1
  }

  function AddEdge(g: Graph, q: nat, e: Edge): (h: Graph)
    requires q < |g|
    ensures |h| == |g|
  {
    g[q := [e] + g[q]]
  }

  predicate Usable(g: Graph, so: Option<nat>, eo: Option<nat>) {
    (so.Some? ==> so.value < |g|) && (eo.Some? ==> eo.value < |g|) &&
    (so.Some? && eo.Some? ==> so.value != eo.value)
  }

  /** rx_build_nfa as a function of the graph so far.  The caller may have allocated the start and
      end states.  The end of a null tree is its start, whatever end the caller allocated. */
  function Build(g: Graph, e: Rexp, so: Option<nat>, eo: Option<nat>): (b: Built)
    requires Usable(g, so, eo) && Plain(e)
    ensures |g| <= |b.g| && b.start < |b.g| && b.end < |b.g|
    ensures b.start == if so.Some? then so.value else |g|
    ensures b.end >= |g| || b.end == b.start || eo == Some(b.end)
    decreases Size(e), 1
  {
    var s := if so.Some? then so.value else |g|;
    var g1 := if so.Some? then g else g + [[]];
    if e.Null? then Built(g1, s, s)
    else
      var t := if eo.Some? then eo.value else |g1|;
      var g2 := if eo.Some? then g1 else g1 + [[]];
      Wire(g2, e, s, t)
  }

  /** The switch of rx_build_nfa, once both states exist. */
  function Wire(g: Graph, e: Rexp, s: nat, t: nat): (b: Built)
    requires s < |g| && t < |g| && s != t && Plain(e) && !e.Null?
    ensures |g| <= |b.g| && b.start == s && b.end < |b.g|
    ensures b.end >= |g| || b.end == s || b.end == t
    decreases Size(e), 0
  {
    match e
    case Cset(cs) => Built(AddEdge(g, s, On(cs, t)), s, t)
    case Str(x) =>
      if |x| == 1 then Built(AddEdge(g, s, On({x[0]}, t)), s, t)
      else
        var rest := Build(g, Str(x[1..]), None, Some(t));
        var first := Build(rest.g, Str([x[0]]), Some(s), Some(rest.start));
        Built(first.g, s, t)
    case Opt(b) =>
      var inner := Build(g, b, Some(s), Some(t));
      Built(AddEdge(inner.g, s, Eps(inner.end)), s, inner.end)
    case Plus(b) =>
      var once := Build(g, b, Some(s), None);
      var loop := Build(once.g, b, None, None);
      Built(Loop(loop, once.end, t), s, t)
    case Star(b) =>
      Built(Loop(Build(g, b, None, None), s, t), s, t)
    case Interval(b, _, _) =>
      Built(Loop(Build(g, b, None, None), s, t), s, t)
    case Parens(b, _) =>
      Build(g, b, Some(s), Some(t))
    case Concat(x, y) =>
      var left := Build(g, x, Some(s), None);
      var right := Build(left.g, y, Some(left.end), Some(t));
      Built(right.g, s, right.end)
    case Alt(x, y) =>
      var left := Build(g, x, None, None);
      var right := Build(left.g, y, None, None);
      Built(Fork(right.g, s, t, left.start, left.end, right.start, right.end), s, t)
  }

  /** The four epsilon edges around a body that may be repeated or skipped. */
  function Loop(body: Built, from: nat, to: nat): (h: Graph)
    requires from < |body.g| && to < |body.g| && body.start < |body.g| && body.end < |body.g|
    ensures |h| == |body.g|
  {
    var g1 := AddEdge(body.g, body.start, Eps(body.end));
    var g2 := AddEdge(g1, from, Eps(body.start));
    var g3 := AddEdge(g2, body.end, Eps(to));
    AddEdge(g3, body.end, Eps(body.start))
  }

  /** The four epsilon edges around two alternatives. */
  function Fork(g: Graph, s: nat, t: nat, ls: nat, le: nat, rs: nat, re: nat): (h: Graph)
    requires s < |g| && t < |g| && ls < |g| && le < |g| && rs < |g| && re < |g|
    ensures |h| == |g|
  {
    AddEdge(AddEdge(AddEdge(AddEdge(g, s, Eps(ls)), s, Eps(rs)), le, Eps(t)), re, Eps(t))
  }

  /** rx_unfa_rx: the automaton of a tree, built from nothing. */
  function Compile(e: Rexp): Built
    requires Plain(e)
  {
    Build([], e, None, None)
  }

  // ----- Paths -----

  predicate Closed(g: Graph) {
    forall q, k :: 0 <= q < |g| && 0 <= k < |g[q]| ==> g[q][k].dest < |g|
  }

  predicate Sub(g: Graph, h: Graph) {
    |g| <= |h| && forall q, k :: 0 <= q < |g| && 0 <= k < |g[q]| ==> g[q][k] in h[q]
  }

  /** One edge takes state `q` at position `i` of `w` to `q2` at `j`. */
  predicate Crosses(e: Edge, w: Text, i: nat, q2: nat, j: nat) {
    e.dest == q2 &&
    match e
    case Eps(_) => i == j
    case On(cs, _) => i < |w| && j == i + 1 && w[i] in cs
  }

  ghost predicate Step(g: Graph, w: Text, q: nat, i: nat, q2: nat, j: nat) {
    q < |g| && exists k :: 0 <= k < |g[q]| && Crosses(g[q][k], w, i, q2, j)
  }

  ghost predicate Path(g: Graph, w: Text, n: nat, q: nat, i: nat, q2: nat, j: nat) {
    if n == 0 then q == q2 && i == j
    else exists q1: nat, i1: nat :: Step(g, w, q, i, q1, i1) && Path(g, w, n - 1, q1, i1, q2, j)
  }

  ghost predicate Reach(g: Graph, w: Text, q: nat, i: nat, q2: nat, j: nat) {
    exists n: nat :: Path(g, w, n, q, i, q2, j)
  }

  lemma {:induction false} PathTrans(g: Graph, w: Text, n: nat, m: nat, q: nat, i: nat, q1: nat, k: nat, q2: nat, j: nat)
    requires Path(g, w, n, q, i, q1, k) && Path(g, w, m, q1, k, q2, j)
    ensures Path(g, w, n + m, q, i, q2, j)
    decreases n
  {
    if n > 0 {
      var p: nat, x: nat :| Step(g, w, q, i, p, x) && Path(g, w, n - 1, p, x, q1, k);
      PathTrans(g, w, n - 1, m, p, x, q1, k, q2, j);
    }
  }

  lemma ReachTrans(g: Graph, w: Text, q: nat, i: nat, q1: nat, k: nat, q2: nat, j: nat)
    requires Reach(g, w, q, i, q1, k) && Reach(g, w, q1, k, q2, j)
    ensures Reach(g, w, q, i, q2, j)
  {
    var n: nat :| Path(g, w, n, q, i, q1, k);
    var m: nat :| Path(g, w, m, q1, k, q2, j);
    PathTrans(g, w, n, m, q, i, q1, k, q2, j);
  }

  lemma {:induction false} PathMono(g: Graph, h: Graph, w: Text, n: nat, q: nat, i: nat, q2: nat, j: nat)
    requires Sub(g, h) && Path(g, w, n, q, i, q2, j)
    ensures Path(h, w, n, q, i, q2, j)
    decreases n
  {
    if n > 0 {
      var p: nat, x: nat :| Step(g, w, q, i, p, x) && Path(g, w, n - 1, p, x, q2, j);
      var k :| 0 <= k < |g[q]| && Crosses(g[q][k], w, i, p, x);
      assert g[q][k] in h[q];
      assert Step(h, w, q, i, p, x);
      PathMono(g, h, w, n - 1, p, x, q2, j);
    }
  }

  lemma ReachMono(g: Graph, h: Graph, w: Text, q: nat, i: nat, q2: nat, j: nat)
    requires Sub(g, h) && Reach(g, w, q, i, q2, j)
    ensures Reach(h, w, q, i, q2, j)
  {
    var n: nat :| Path(g, w, n, q, i, q2, j);
    PathMono(g, h, w, n, q, i, q2, j);
  }

  lemma ReachEdge(g: Graph, w: Text, q: nat, e: Edge, i: nat, j: nat)
    requires q < |g| && e in g[q] && Crosses(e, w, i, e.dest, j)
    ensures Reach(g, w, q, i, e.dest, j)
  {
    var k :| 0 <= k < |g[q]| && g[q][k] == e;
    assert Step(g, w, q, i, e.dest, j);
    assert Path(g, w, 0, e.dest, j, e.dest, j);
    assert Path(g, w, 1, q, i, e.dest, j);
  }

  // ----- The shape of what is built -----

  lemma AddEdgeShape(g: Graph, q: nat, e: Edge)
    requires q < |g|
    ensures Sub(g, AddEdge(g, q, e)) && e in AddEdge(g, q, e)[q]
    ensures Closed(g) && e.dest < |g| ==> Closed(AddEdge(g, q, e))
  {
    var h := AddEdge(g, q, e);
    assert h[q][0] == e;
    forall p, k | 0 <= p < |g| && 0 <= k < |g[p]| ensures g[p][k] in h[p] {
      if p == q { assert h[q][k + 1] == g[q][k]; }
    }
  }

  lemma SubTrans(g: Graph, h: Graph, k: Graph)
    requires Sub(g, h) && Sub(h, k)
    ensures Sub(g, k)
  {
    forall q, i | 0 <= q < |g| && 0 <= i < |g[q]| ensures g[q][i] in k[q] {
      var j :| 0 <= j < |h[q]| && h[q][j] == g[q][i];
    }
  }
}
