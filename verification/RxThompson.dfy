/** The automaton that RxNfa builds accepts exactly the regular language of its tree. */
module RxThompson {
  import opened Options
  import opened RxSyntax
  import opened RxNfa

  // ----- Completeness: a match is a path -----

  lemma LoopShape(body: Built, from: nat, to: nat)
    requires from < |body.g| && to < |body.g| && body.start < |body.g| && body.end < |body.g|
    ensures var h := Loop(body, from, to);
      Sub(body.g, h) &&
      Eps(body.end) in h[body.start] && Eps(body.start) in h[from] &&
      Eps(to) in h[body.end] && Eps(body.start) in h[body.end]
  {
    var g1 := AddEdge(body.g, body.start, Eps(body.end));
    var g2 := AddEdge(g1, from, Eps(body.start));
    var g3 := AddEdge(g2, body.end, Eps(to));
    var g4 := AddEdge(g3, body.end, Eps(body.start));
    AddEdgeShape(body.g, body.start, Eps(body.end));
    AddEdgeShape(g1, from, Eps(body.start));
    AddEdgeShape(g2, body.end, Eps(to));
    AddEdgeShape(g3, body.end, Eps(body.start));
    SubTrans(body.g, g1, g2);
    SubTrans(body.g, g2, g3);
    SubTrans(body.g, g3, g4);
    SubTrans(g1, g2, g3);
    SubTrans(g1, g3, g4);
    SubTrans(g2, g3, g4);
  }

  lemma ForkShape(g: Graph, s: nat, t: nat, ls: nat, le: nat, rs: nat, re: nat)
    requires s < |g| && t < |g| && ls < |g| && le < |g| && rs < |g| && re < |g|
    ensures var h := Fork(g, s, t, ls, le, rs, re);
      Sub(g, h) && Eps(ls) in h[s] && Eps(rs) in h[s] && Eps(t) in h[le] && Eps(t) in h[re]
  {
    var g1 := AddEdge(g, s, Eps(ls));
    var g2 := AddEdge(g1, s, Eps(rs));
    var g3 := AddEdge(g2, le, Eps(t));
    var g4 := AddEdge(g3, re, Eps(t));
    AddEdgeShape(g, s, Eps(ls));
    AddEdgeShape(g1, s, Eps(rs));
    AddEdgeShape(g2, le, Eps(t));
    AddEdgeShape(g3, re, Eps(t));
    SubTrans(g, g1, g2);
    SubTrans(g, g2, g3);
    SubTrans(g, g3, g4);
    SubTrans(g1, g2, g3);
    SubTrans(g1, g3, g4);
    SubTrans(g2, g3, g4);
  }

  lemma SubState(g: Graph)
    ensures Sub(g, g) && Sub(g, g + [[]])
  {
  }

  /** Building only adds states and edges. */
  lemma {:induction false} BuildSub(g: Graph, e: Rexp, so: Option<nat>, eo: Option<nat>)
    requires Usable(g, so, eo) && Plain(e)
    ensures Sub(g, Build(g, e, so, eo).g)
    decreases Size(e), 1
  {
    var s := if so.Some? then so.value else |g|;
    var g1 := if so.Some? then g else g + [[]];
    SubState(g);
    SubState(g1);
    if !e.Null? {
      var t := if eo.Some? then eo.value else |g1|;
      var g2 := if eo.Some? then g1 else g1 + [[]];
      SubTrans(g, g1, g2);
      WireSub(g2, e, s, t);
      SubTrans(g, g2, Wire(g2, e, s, t).g);
    }
  }

  lemma {:induction false} WireSub(g: Graph, e: Rexp, s: nat, t: nat)
    requires s < |g| && t < |g| && s != t && Plain(e) && !e.Null?
    ensures Sub(g, Wire(g, e, s, t).g)
    decreases Size(e), 0
  {
    match e
    case Cset(cs) => AddEdgeShape(g, s, On(cs, t));
    case Str(x) =>
      if |x| == 1 {
        AddEdgeShape(g, s, On({x[0]}, t));
      } else {
        var rest := Build(g, Str(x[1..]), None, Some(t));
        BuildSub(g, Str(x[1..]), None, Some(t));
        BuildSub(rest.g, Str([x[0]]), Some(s), Some(rest.start));
        SubTrans(g, rest.g, Wire(g, e, s, t).g);
      }
    case Opt(b) =>
      var inner := Build(g, b, Some(s), Some(t));
      BuildSub(g, b, Some(s), Some(t));
      AddEdgeShape(inner.g, s, Eps(inner.end));
      SubTrans(g, inner.g, Wire(g, e, s, t).g);
    case Plus(b) =>
      var once := Build(g, b, Some(s), None);
      var loop := Build(once.g, b, None, None);
      BuildSub(g, b, Some(s), None);
      BuildSub(once.g, b, None, None);
      LoopShape(loop, once.end, t);
      SubTrans(g, once.g, loop.g);
      SubTrans(g, loop.g, Wire(g, e, s, t).g);
    case Star(b) =>
      BuildSub(g, b, None, None);
      LoopShape(Build(g, b, None, None), s, t);
      SubTrans(g, Build(g, b, None, None).g, Wire(g, e, s, t).g);
    case Interval(b, _, _) =>
      BuildSub(g, b, None, None);
      LoopShape(Build(g, b, None, None), s, t);
      SubTrans(g, Build(g, b, None, None).g, Wire(g, e, s, t).g);
    case Parens(b, _) => BuildSub(g, b, Some(s), Some(t));
    case Concat(x, y) =>
      var left := Build(g, x, Some(s), None);
      BuildSub(g, x, Some(s), None);
      BuildSub(left.g, y, Some(left.end), Some(t));
      SubTrans(g, left.g, Wire(g, e, s, t).g);
    case Alt(x, y) =>
      var left := Build(g, x, None, None);
      var right := Build(left.g, y, None, None);
      BuildSub(g, x, None, None);
      BuildSub(left.g, y, None, None);
      ForkShape(right.g, s, t, left.start, left.end, right.start, right.end);
      SubTrans(g, left.g, right.g);
      SubTrans(g, right.g, Wire(g, e, s, t).g);
  }

  /** Where a loop has been built, any number of iterations of its body is a path. */
  lemma {:induction false} LoopComplete(h: Graph, body: Built, b: Rexp, w: Text, n: nat, i: nat, j: nat)
    requires body.start < |h| && body.end < |h|
    requires Eps(body.end) in h[body.start] && Eps(body.start) in h[body.end]
    requires i <= j <= |w| && RoughIter(b, w, n, i, j)
    requires forall x: nat, y: nat :: x <= y <= |w| && Rough(b, w, x, y) ==> Reach(h, w, body.start, x, body.end, y)
    ensures Reach(h, w, body.start, i, body.end, j)
    decreases n
  {
    if n == 0 {
      ReachEdge(h, w, body.start, Eps(body.end), i, j);
    } else {
      var k: nat :| i <= k <= j && Rough(b, w, i, k) && RoughIter(b, w, n - 1, k, j);
      LoopComplete(h, body, b, w, n - 1, k, j);
      ReachEdge(h, w, body.end, Eps(body.start), k, k);
      ReachTrans(h, w, body.start, i, body.end, k, body.start, k);
      ReachTrans(h, w, body.start, i, body.start, k, body.end, j);
    }
  }

  lemma {:induction false} BuildComplete(g: Graph, e: Rexp, so: Option<nat>, eo: Option<nat>, w: Text, i: nat, j: nat)
    requires Usable(g, so, eo) && Plain(e)
    requires i <= j <= |w| && Rough(e, w, i, j)
    ensures var b := Build(g, e, so, eo); Reach(b.g, w, b.start, i, b.end, j)
    decreases Size(e), 1
  {
    var s := if so.Some? then so.value else |g|;
    var g1 := if so.Some? then g else g + [[]];
    if e.Null? {
      assert Path(g1, w, 0, s, i, s, j);
    } else {
      var t := if eo.Some? then eo.value else |g1|;
      var g2 := if eo.Some? then g1 else g1 + [[]];
      WireComplete(g2, e, s, t, w, i, j);
    }
  }

  lemma {:induction false} WireComplete(g: Graph, e: Rexp, s: nat, t: nat, w: Text, i: nat, j: nat)
    requires s < |g| && t < |g| && s != t && Plain(e) && !e.Null?
    requires i <= j <= |w| && Rough(e, w, i, j)
    ensures var b := Wire(g, e, s, t); Reach(b.g, w, s, i, b.end, j)
    decreases Size(e), 0
  {
    var h := Wire(g, e, s, t).g;
    match e
    case Cset(cs) =>
      AddEdgeShape(g, s, On(cs, t));
      ReachEdge(h, w, s, On(cs, t), i, j);
    case Str(x) =>
      assert w[i] == w[i..j][0];
      if |x| == 1 {
        AddEdgeShape(g, s, On({x[0]}, t));
        ReachEdge(h, w, s, On({x[0]}, t), i, j);
      } else {
        var rest := Build(g, Str(x[1..]), None, Some(t));
        var first := Build(rest.g, Str([x[0]]), Some(s), Some(rest.start));
        assert w[i + 1..j] == w[i..j][1..];
        assert w[i..i + 1] == [x[0]];
        BuildComplete(g, Str(x[1..]), None, Some(t), w, i + 1, j);
        StrEnd(g, x[1..], None, t);
        BuildSub(rest.g, Str([x[0]]), Some(s), Some(rest.start));
        ReachMono(rest.g, h, w, rest.start, i + 1, t, j);
        BuildComplete(rest.g, Str([x[0]]), Some(s), Some(rest.start), w, i, i + 1);
        StrEnd(rest.g, [x[0]], Some(s), rest.start);
        ReachTrans(h, w, s, i, rest.start, i + 1, t, j);
      }
    case Opt(b) =>
      var inner := Build(g, b, Some(s), Some(t));
      AddEdgeShape(inner.g, s, Eps(inner.end));
      if Rough(b, w, i, j) {
        BuildComplete(g, b, Some(s), Some(t), w, i, j);
        ReachMono(inner.g, h, w, s, i, inner.end, j);
      } else {
        ReachEdge(h, w, s, Eps(inner.end), i, j);
      }
    case Plus(b) => PlusComplete(g, b, s, t, w, i, j);
    case Star(b) =>
      var n: nat :| RoughIter(b, w, n, i, j);
      StarComplete(g, b, s, t, w, n, i, j);
    case Interval(b, _, _) =>
      var n: nat :| RoughIter(b, w, n, i, j);
      StarComplete(g, b, s, t, w, n, i, j);
    case Parens(b, _) => BuildComplete(g, b, Some(s), Some(t), w, i, j);
    case Concat(x, y) =>
      var left := Build(g, x, Some(s), None);
      var right := Build(left.g, y, Some(left.end), Some(t));
      var k: nat :| i <= k <= j && Rough(x, w, i, k) && Rough(y, w, k, j);
      BuildComplete(g, x, Some(s), None, w, i, k);
      BuildSub(left.g, y, Some(left.end), Some(t));
      ReachMono(left.g, h, w, s, i, left.end, k);
      BuildComplete(left.g, y, Some(left.end), Some(t), w, k, j);
      ReachTrans(h, w, s, i, left.end, k, right.end, j);
    case Alt(x, y) => AltComplete(g, x, y, s, t, w, i, j);
  }

  lemma RoughIterHead(b: Rexp, w: Text, n: nat, i: nat, j: nat)
    requires i <= j <= |w| && n >= 1 && RoughIter(b, w, n, i, j)
    ensures exists k: nat :: i <= k <= j && Rough(b, w, i, k) && RoughIter(b, w, n - 1, k, j)
  {
  }

  lemma StrEnd(g: Graph, x: Text, so: Option<nat>, t: nat)
    requires Usable(g, so, Some(t)) && x != []
    ensures Build(g, Str(x), so, Some(t)).end == t
  {
  }

  lemma {:induction false} StarComplete(g: Graph, b: Rexp, s: nat, t: nat, w: Text, n: nat, i: nat, j: nat)
    requires s < |g| && t < |g| && Plain(b)
    requires i <= j <= |w| && RoughIter(b, w, n, i, j)
    ensures Reach(Loop(Build(g, b, None, None), s, t), w, s, i, t, j)
    decreases Size(b), 3
  {
    var body := Build(g, b, None, None);
    var h := Loop(body, s, t);
    LoopShape(body, s, t);
    BodyComplete(g, b, h, w);
    LoopComplete(h, body, b, w, n, i, j);
    ReachEdge(h, w, s, Eps(body.start), i, i);
    ReachEdge(h, w, body.end, Eps(t), j, j);
    ReachTrans(h, w, s, i, body.start, i, body.end, j);
    ReachTrans(h, w, s, i, body.end, j, t, j);
  }

  lemma {:induction false} BodyComplete(g: Graph, b: Rexp, h: Graph, w: Text)
    requires Plain(b) && Sub(Build(g, b, None, None).g, h)
    ensures var body := Build(g, b, None, None);
      forall x: nat, y: nat :: x <= y <= |w| && Rough(b, w, x, y) ==> Reach(h, w, body.start, x, body.end, y)
    decreases Size(b), 2
  {
    var body := Build(g, b, None, None);
    forall x: nat, y: nat | x <= y <= |w| && Rough(b, w, x, y)
      ensures Reach(h, w, body.start, x, body.end, y)
    {
      BuildComplete(g, b, None, None, w, x, y);
      ReachMono(body.g, h, w, body.start, x, body.end, y);
    }
  }

  lemma {:induction false} PlusComplete(g: Graph, b: Rexp, s: nat, t: nat, w: Text, i: nat, j: nat)
    requires s < |g| && t < |g| && s != t && Plain(b)
    requires i <= j <= |w| && Rough(Plus(b), w, i, j)
    ensures Reach(Wire(g, Plus(b), s, t).g, w, s, i, t, j)
    decreases Size(b), 4
  {
    var h := Wire(g, Plus(b), s, t).g;
    var once := Build(g, b, Some(s), None);
    var body := Build(once.g, b, None, None);
    LoopShape(body, once.end, t);
    BuildSub(once.g, b, None, None);
    SubTrans(once.g, body.g, h);
    var n: nat :| n >= 1 && RoughIter(b, w, n, i, j);
    RoughIterHead(b, w, n, i, j);
    var k: nat :| i <= k <= j && Rough(b, w, i, k) && RoughIter(b, w, n - 1, k, j);
    BuildComplete(g, b, Some(s), None, w, i, k);
    ReachMono(once.g, h, w, s, i, once.end, k);
    StarComplete(once.g, b, once.end, t, w, n - 1, k, j);
    ReachTrans(h, w, s, i, once.end, k, t, j);
  }

  lemma {:induction false} AltComplete(g: Graph, x: Rexp, y: Rexp, s: nat, t: nat, w: Text, i: nat, j: nat)
    requires s < |g| && t < |g| && s != t && Plain(x) && Plain(y)
    requires i <= j <= |w| && Rough(Alt(x, y), w, i, j)
    ensures Reach(Wire(g, Alt(x, y), s, t).g, w, s, i, t, j)
    decreases Size(x) + Size(y), 2
  {
    var h := Wire(g, Alt(x, y), s, t).g;
    var left := Build(g, x, None, None);
    var right := Build(left.g, y, None, None);
    BuildSub(left.g, y, None, None);
    ForkShape(right.g, s, t, left.start, left.end, right.start, right.end);
    SubTrans(left.g, right.g, h);
    var a, z := left.start, left.end;
    if Rough(x, w, i, j) {
      BuildComplete(g, x, None, None, w, i, j);
      ReachMono(left.g, h, w, left.start, i, left.end, j);
    } else {
      a, z := right.start, right.end;
      BuildComplete(left.g, y, None, None, w, i, j);
      ReachMono(right.g, h, w, right.start, i, right.end, j);
    }
    ReachEdge(h, w, s, Eps(a), i, i);
    ReachEdge(h, w, z, Eps(t), j, j);
    ReachTrans(h, w, s, i, a, i, z, j);
    ReachTrans(h, w, s, i, z, j, t, j);
  }

  // ----- Soundness: a path is a match -----

  /** Positions that a match of `e` from a position in `P` can end at */
  ghost function Post(e: Rexp, w: Text, P: set<nat>): set<nat> {
    set j: nat | 0 <= j <= |w| && EndsAt(e, w, P, j)
  }

  ghost predicate EndsAt(e: Rexp, w: Text, P: set<nat>, j: nat)
    requires j <= |w|
  {
    exists i: nat :: i in P && i <= j && Rough(e, w, i, j)
  }

  /** Labels give each state a set of positions.  A labelling is closed when crossing any edge
      stays inside it, so it bounds what any path can reach. */
  predicate EdgeOk(e: Edge, w: Text, from: set<nat>, labels: seq<set<nat>>) {
    e.dest < |labels| &&
    match e
    case Eps(d) => from <= labels[d]
    case On(cs, d) => forall i :: i in from && i < |w| && w[i] in cs ==> i + 1 in labels[d]
  }

  predicate Labelled(g: Graph, w: Text, labels: seq<set<nat>>) {
    |labels| == |g| &&
    forall q, k :: 0 <= q < |g| && 0 <= k < |g[q]| ==> EdgeOk(g[q][k], w, labels[q], labels)
  }

  lemma LabelNewState(g: Graph, w: Text, labels: seq<set<nat>>, p: set<nat>)
    requires Labelled(g, w, labels)
    ensures Labelled(g + [[]], w, labels + [p])
  {
    var h, more := g + [[]], labels + [p];
    forall q, k | 0 <= q < |h| && 0 <= k < |h[q]| ensures EdgeOk(h[q][k], w, more[q], more) {
      assert q < |g| && EdgeOk(g[q][k], w, labels[q], labels);
    }
  }

  lemma LabelNewEdge(g: Graph, w: Text, labels: seq<set<nat>>, q: nat, e: Edge)
    requires Labelled(g, w, labels) && q < |g| && EdgeOk(e, w, labels[q], labels)
    ensures Labelled(AddEdge(g, q, e), w, labels)
  {
    var h := AddEdge(g, q, e);
    forall p, k | 0 <= p < |h| && 0 <= k < |h[p]| ensures EdgeOk(h[p][k], w, labels[p], labels) {
      if p == q && k > 0 {
        assert h[p][k] == g[p][k - 1];
      }
    }
  }

  lemma {:induction false} PathLabelled(g: Graph, w: Text, labels: seq<set<nat>>, n: nat, q: nat, i: nat, q2: nat, j: nat)
    requires Labelled(g, w, labels) && Path(g, w, n, q, i, q2, j)
    requires q < |g| && i in labels[q]
    ensures q2 < |g| && j in labels[q2]
    decreases n
  {
    if n > 0 {
      var p: nat, x: nat :| Step(g, w, q, i, p, x) && Path(g, w, n - 1, p, x, q2, j);
      var k :| 0 <= k < |g[q]| && Crosses(g[q][k], w, i, p, x);
      assert EdgeOk(g[q][k], w, labels[q], labels);
      PathLabelled(g, w, labels, n - 1, p, x, q2, j);
    }
  }

  /** Trees whose end state is their start state: nothing but null subtrees, once optional and
      parenthesis nodes are looked through. */
  predicate Alias(e: Rexp) {
    match e
    case Null => true
    case Opt(b) => Alias(b)
    case Parens(b, _) => Alias(b)
    case Concat(x, y) => Alias(x) && Alias(y)
    case _ => false
  }

  lemma {:induction false} AliasOnlyEmpty(e: Rexp, w: Text, i: nat, j: nat)
    requires Alias(e) && i <= j <= |w| && Rough(e, w, i, j)
    ensures i == j
    decreases e
  {
    match e
    case Null =>
    case Opt(b) => if Rough(b, w, i, j) { AliasOnlyEmpty(b, w, i, j); }
    case Parens(b, _) => AliasOnlyEmpty(b, w, i, j);
    case Concat(x, y) =>
      var k: nat :| i <= k <= j && Rough(x, w, i, k) && Rough(y, w, k, j);
      AliasOnlyEmpty(x, w, i, k);
      AliasOnlyEmpty(y, w, k, j);
  }

  lemma {:induction false} AliasMatchesEmpty(e: Rexp, w: Text, i: nat)
    requires Alias(e) && i <= |w|
    ensures Rough(e, w, i, i)
    decreases e
  {
    match e
    case Null =>
    case Opt(b) =>
    case Parens(b, _) => AliasMatchesEmpty(b, w, i);
    case Concat(x, y) =>
      AliasMatchesEmpty(x, w, i);
      AliasMatchesEmpty(y, w, i);
  }

  predicate Positions(P: set<nat>, w: Text) {
    forall i :: i in P ==> i <= |w|
  }

  lemma AliasPost(e: Rexp, w: Text, P: set<nat>)
    requires Alias(e) && Positions(P, w)
    ensures Post(e, w, P) == P
  {
    forall j: nat | j <= |w| && EndsAt(e, w, P, j) ensures j in P {
      var i: nat :| i in P && i <= j && Rough(e, w, i, j);
      AliasOnlyEmpty(e, w, i, j);
    }
    forall j: nat | j in P ensures j <= |w| && EndsAt(e, w, P, j) {
      AliasMatchesEmpty(e, w, j);
    }
  }

  /** What a step case of the labelling needs to know about its children's ends. */
  lemma PostConcat(x: Rexp, y: Rexp, w: Text, P: set<nat>)
    requires Positions(P, w)
    ensures Post(y, w, Post(x, w, P)) == Post(Concat(x, y), w, P)
  {
    forall j: nat | j <= |w| && EndsAt(y, w, Post(x, w, P), j) ensures EndsAt(Concat(x, y), w, P, j) {
      var k: nat :| k in Post(x, w, P) && k <= j && Rough(y, w, k, j);
      var i: nat :| i in P && i <= k && Rough(x, w, i, k);
      assert Rough(Concat(x, y), w, i, j);
    }
    forall j: nat | j <= |w| && EndsAt(Concat(x, y), w, P, j) ensures EndsAt(y, w, Post(x, w, P), j) {
      var i: nat :| i in P && i <= j && Rough(Concat(x, y), w, i, j);
      ConcatSplit(x, y, w, i, j);
      var k: nat :| i <= k <= j && Rough(x, w, i, k) && Rough(y, w, k, j);
      assert EndsAt(x, w, P, k);
    }
  }

  lemma ConcatSplit(x: Rexp, y: Rexp, w: Text, i: nat, j: nat)
    requires i <= j <= |w| && Rough(Concat(x, y), w, i, j)
    ensures exists k: nat :: i <= k <= j && Rough(x, w, i, k) && Rough(y, w, k, j)
  {
  }

  /** One iteration more stays inside a star or a plus. */
  lemma StarStep(b: Rexp, w: Text, i: nat, k: nat, j: nat)
    requires i <= k <= j <= |w| && Rough(Star(b), w, i, k) && Rough(b, w, k, j)
    ensures Rough(Star(b), w, i, j)
  {
    var n: nat :| RoughIter(b, w, n, i, k);
    RoughIterOne(b, w, k, j);
    RoughIterAppend(b, w, n, 1, i, k, j);
  }

  lemma PlusStep(b: Rexp, w: Text, i: nat, k: nat, j: nat)
    requires i <= k <= j <= |w| && Rough(Plus(b), w, i, k) && Rough(b, w, k, j)
    ensures Rough(Plus(b), w, i, j)
  {
    var n: nat :| n >= 1 && RoughIter(b, w, n, i, k);
    RoughIterOne(b, w, k, j);
    RoughIterAppend(b, w, n, 1, i, k, j);
  }

  lemma PostStar(b: Rexp, w: Text, P: set<nat>)
    requires Positions(P, w)
    ensures P <= Post(Star(b), w, P)
    ensures Post(b, w, Post(Star(b), w, P)) <= Post(Star(b), w, P)
  {
    forall j: nat | j in P ensures EndsAt(Star(b), w, P, j) {
      assert RoughIter(b, w, 0, j, j);
      assert Rough(Star(b), w, j, j);
    }
    forall j: nat | j <= |w| && EndsAt(b, w, Post(Star(b), w, P), j) ensures EndsAt(Star(b), w, P, j) {
      var k: nat :| k in Post(Star(b), w, P) && k <= j && Rough(b, w, k, j);
      var i: nat :| i in P && i <= k && Rough(Star(b), w, i, k);
      StarStep(b, w, i, k, j);
    }
  }

  lemma PostPlus(b: Rexp, w: Text, P: set<nat>)
    requires Positions(P, w)
    ensures Post(b, w, P) <= Post(Plus(b), w, P)
    ensures Post(b, w, Post(Plus(b), w, P)) <= Post(Plus(b), w, P)
  {
    forall j: nat | j in Post(b, w, P) ensures EndsAt(Plus(b), w, P, j) {
      var i: nat :| i in P && i <= j && Rough(b, w, i, j);
      RoughIterOne(b, w, i, j);
      assert Rough(Plus(b), w, i, j);
    }
    forall j: nat | j <= |w| && EndsAt(b, w, Post(Plus(b), w, P), j) ensures EndsAt(Plus(b), w, P, j) {
      var k: nat :| k in Post(Plus(b), w, P) && k <= j && Rough(b, w, k, j);
      var i: nat :| i in P && i <= k && Rough(Plus(b), w, i, k);
      PlusStep(b, w, i, k, j);
    }
  }

  /** A closed labelling of the graph so far extends to one of the graph after building `e`, with
      `P` at the start of `e` and any `Q` that holds the ends of its matches at the end of `e`. */
  lemma {:induction false} BuildLabel(g: Graph, e: Rexp, so: Option<nat>, eo: Option<nat>,
      w: Text, old0: seq<set<nat>>, P: set<nat>, Q: set<nat>) returns (labels: seq<set<nat>>)
    requires Usable(g, so, eo) && Plain(e) && Labelled(g, w, old0)
    requires so.Some? ==> old0[so.value] == P
    requires eo.Some? ==> old0[eo.value] == Q
    requires Positions(P, w) && Positions(Q, w) && Post(e, w, P) <= Q && (Alias(e) ==> P == Q)
    ensures var b := Build(g, e, so, eo);
      Labelled(b.g, w, labels) && labels[b.start] == P && labels[b.end] == Q && old0 <= labels
    decreases Size(e), 2
  {
    var s := if so.Some? then so.value else |g|;
    var g1 := if so.Some? then g else g + [[]];
    var l1 := if so.Some? then old0 else old0 + [P];
    LabelNewState(g, w, old0, P);
    if e.Null? {
      labels := l1;
    } else {
      var t := if eo.Some? then eo.value else |g1|;
      var g2 := if eo.Some? then g1 else g1 + [[]];
      var l2 := if eo.Some? then l1 else l1 + [Q];
      LabelNewState(g1, w, l1, Q);
      labels := WireLabel(g2, e, s, t, w, l2, P, Q);
    }
  }

  lemma {:induction false} WireLabel(g: Graph, e: Rexp, s: nat, t: nat,
      w: Text, old0: seq<set<nat>>, P: set<nat>, Q: set<nat>) returns (labels: seq<set<nat>>)
    requires s < |g| && t < |g| && s != t && Plain(e) && !e.Null? && Labelled(g, w, old0)
    requires old0[s] == P && old0[t] == Q
    requires Positions(P, w) && Positions(Q, w) && Post(e, w, P) <= Q && (Alias(e) ==> P == Q)
    ensures var b := Wire(g, e, s, t);
      Labelled(b.g, w, labels) && labels[b.end] == Q && old0 <= labels
    decreases Size(e), 1
  {
    match e
    case Cset(cs) =>
      forall i | i in P && i < |w| && w[i] in cs ensures i + 1 in Q {
        assert EndsAt(e, w, P, i + 1) by { assert Rough(e, w, i, i + 1); }
      }
      LabelNewEdge(g, w, old0, s, On(cs, t));
      labels := old0;
    case Str(x) => labels := StrLabel(g, x, s, t, w, old0, P, Q);
    case Opt(b) =>
      OptPost(b, w, P);
      labels := BuildLabel(g, b, Some(s), Some(t), w, old0, P, Q);
      var inner := Build(g, b, Some(s), Some(t));
      LabelNewEdge(inner.g, w, labels, s, Eps(inner.end));
    case Plus(b) => labels := PlusLabel(g, b, s, t, w, old0, P, Q);
    case Star(b) => labels := StarLabel(g, b, s, t, w, old0, P, Q);
    case Interval(b, lo, hi) =>
      IntervalPost(b, lo, hi, w, P);
      labels := StarLabel(g, b, s, t, w, old0, P, Q);
    case Parens(b, grp) =>
      ParensPost(b, grp, w, P);
      labels := BuildLabel(g, b, Some(s), Some(t), w, old0, P, Q);
    case Concat(x, y) => labels := ConcatLabel(g, x, y, s, t, w, old0, P, Q);
    case Alt(x, y) => labels := AltLabel(g, x, y, s, t, w, old0, P, Q);
  }

  lemma OptPost(b: Rexp, w: Text, P: set<nat>)
    requires Positions(P, w)
    ensures Post(Opt(b), w, P) == Post(b, w, P) + P
  {
    forall j: nat | j <= |w|
      ensures EndsAt(Opt(b), w, P, j) <==> EndsAt(b, w, P, j) || j in P
    {
      if j in P { assert Rough(Opt(b), w, j, j); }
      if EndsAt(b, w, P, j) {
        var i: nat :| i in P && i <= j && Rough(b, w, i, j);
        assert Rough(Opt(b), w, i, j);
      }
    }
  }

  lemma IntervalPost(b: Rexp, lo: nat, hi: nat, w: Text, P: set<nat>)
    ensures Post(Interval(b, lo, hi), w, P) == Post(Star(b), w, P)
  {
    forall i: nat, j: nat | i <= j <= |w| ensures Rough(Interval(b, lo, hi), w, i, j) == Rough(Star(b), w, i, j) {
    }
    forall j: nat | j <= |w| ensures EndsAt(Interval(b, lo, hi), w, P, j) == EndsAt(Star(b), w, P, j) {
    }
  }

  lemma ParensPost(b: Rexp, grp: nat, w: Text, P: set<nat>)
    ensures Post(Parens(b, grp), w, P) == Post(b, w, P)
  {
    forall i: nat, j: nat | i <= j <= |w| ensures Rough(Parens(b, grp), w, i, j) == Rough(b, w, i, j) {
    }
    forall j: nat | j <= |w| ensures EndsAt(Parens(b, grp), w, P, j) == EndsAt(b, w, P, j) {
    }
  }

  lemma LoopLabel(body: Built, w: Text, labels: seq<set<nat>>, from: nat, to: nat, L: set<nat>)
    requires from < |body.g| && to < |body.g| && body.start < |body.g| && body.end < |body.g|
    requires Labelled(body.g, w, labels)
    requires labels[body.start] == L && labels[body.end] == L && labels[from] <= L <= labels[to]
    ensures Labelled(Loop(body, from, to), w, labels)
  {
    var g1 := AddEdge(body.g, body.start, Eps(body.end));
    var g2 := AddEdge(g1, from, Eps(body.start));
    var g3 := AddEdge(g2, body.end, Eps(to));
    LabelNewEdge(body.g, w, labels, body.start, Eps(body.end));
    LabelNewEdge(g1, w, labels, from, Eps(body.start));
    LabelNewEdge(g2, w, labels, body.end, Eps(to));
    LabelNewEdge(g3, w, labels, body.end, Eps(body.start));
  }

  lemma {:induction false} StarLabel(g: Graph, b: Rexp, s: nat, t: nat,
      w: Text, old0: seq<set<nat>>, P: set<nat>, Q: set<nat>) returns (labels: seq<set<nat>>)
    requires s < |g| && t < |g| && s != t && Plain(b) && Labelled(g, w, old0)
    requires old0[s] == P && old0[t] == Q
    requires Positions(P, w) && Positions(Q, w) && Post(Star(b), w, P) <= Q
    ensures Labelled(Loop(Build(g, b, None, None), s, t), w, labels) && old0 <= labels
    decreases Size(b), 3
  {
    var L := Post(Star(b), w, P);
    PostStar(b, w, P);
    labels := BuildLabel(g, b, None, None, w, old0, L, L);
    LoopLabel(Build(g, b, None, None), w, labels, s, t, L);
  }

  lemma {:induction false} PlusLabel(g: Graph, b: Rexp, s: nat, t: nat,
      w: Text, old0: seq<set<nat>>, P: set<nat>, Q: set<nat>) returns (labels: seq<set<nat>>)
    requires s < |g| && t < |g| && s != t && Plain(b) && Labelled(g, w, old0)
    requires old0[s] == P && old0[t] == Q
    requires Positions(P, w) && Positions(Q, w) && Post(Plus(b), w, P) <= Q
    ensures var once := Build(g, b, Some(s), None);
      Labelled(Loop(Build(once.g, b, None, None), once.end, t), w, labels) && old0 <= labels
    decreases Size(b), 3
  {
    var L := Post(Plus(b), w, P);
    PostPlus(b, w, P);
    if Alias(b) { AliasPost(b, w, P); }
    var first := Post(b, w, P);
    var once := Build(g, b, Some(s), None);
    var l1 := BuildLabel(g, b, Some(s), None, w, old0, P, first);
    labels := BuildLabel(once.g, b, None, None, w, l1, L, L);
    assert labels[once.end] == l1[once.end] == first;
    assert labels[t] == l1[t] == old0[t];
    LoopLabel(Build(once.g, b, None, None), w, labels, once.end, t, L);
  }

  lemma {:induction false} ConcatLabel(g: Graph, x: Rexp, y: Rexp, s: nat, t: nat,
      w: Text, old0: seq<set<nat>>, P: set<nat>, Q: set<nat>) returns (labels: seq<set<nat>>)
    requires s < |g| && t < |g| && s != t && Plain(x) && Plain(y) && Labelled(g, w, old0)
    requires old0[s] == P && old0[t] == Q
    requires Positions(P, w) && Positions(Q, w) && Post(Concat(x, y), w, P) <= Q
    requires Alias(Concat(x, y)) ==> P == Q
    ensures var b := Wire(g, Concat(x, y), s, t);
      Labelled(b.g, w, labels) && labels[b.end] == Q && old0 <= labels
    decreases Size(x) + Size(y), 3
  {
    PostConcat(x, y, w, P);
    if Alias(x) { AliasPost(x, w, P); }
    var mid := if !Alias(x) && Alias(y) then Q else Post(x, w, P);
    if Alias(y) {
      AliasPost(y, w, Post(x, w, P));
      AliasPost(y, w, mid);
    }
    var left := Build(g, x, Some(s), None);
    var l1 := BuildLabel(g, x, Some(s), None, w, old0, P, mid);
    labels := BuildLabel(left.g, y, Some(left.end), Some(t), w, l1, mid, Q);
  }

  lemma {:induction false} AltLabel(g: Graph, x: Rexp, y: Rexp, s: nat, t: nat,
      w: Text, old0: seq<set<nat>>, P: set<nat>, Q: set<nat>) returns (labels: seq<set<nat>>)
    requires s < |g| && t < |g| && s != t && Plain(x) && Plain(y) && Labelled(g, w, old0)
    requires old0[s] == P && old0[t] == Q
    requires Positions(P, w) && Positions(Q, w) && Post(Alt(x, y), w, P) <= Q
    ensures var left := Build(g, x, None, None);
      var right := Build(left.g, y, None, None);
      Labelled(Fork(right.g, s, t, left.start, left.end, right.start, right.end), w, labels) == true && old0 <= labels
    decreases Size(x) + Size(y), 3
  {
    AltPost(x, y, w, P);
    var Px, Py := Post(x, w, P), Post(y, w, P);
    if Alias(x) { AliasPost(x, w, P); }
    if Alias(y) { AliasPost(y, w, P); }
    var left := Build(g, x, None, None);
    var right := Build(left.g, y, None, None);
    var l1 := BuildLabel(g, x, None, None, w, old0, P, Px);
    assert l1[s] == P && l1[t] == Q && l1[left.start] == P && l1[left.end] == Px;
    labels := BuildLabel(left.g, y, None, None, w, l1, P, Py);
    assert labels[s] == P && labels[t] == Q && labels[left.start] == P && labels[left.end] == Px;
    ForkLabel(right.g, w, labels, s, t, left.start, left.end, right.start, right.end);
  }

  lemma {:induction false} ForkLabel(g: Graph, w: Text, labels: seq<set<nat>>, s: nat, t: nat, ls: nat, le: nat, rs: nat, re: nat)
    requires s < |g| && t < |g| && ls < |g| && le < |g| && rs < |g| && re < |g|
    requires Labelled(g, w, labels) == true
    requires labels[s] <= labels[ls] && labels[s] <= labels[rs] && labels[le] <= labels[t] && labels[re] <= labels[t]
    ensures Labelled(Fork(g, s, t, ls, le, rs, re), w, labels) == true
  {
    var g1 := AddEdge(g, s, Eps(ls));
    var g2 := AddEdge(g1, s, Eps(rs));
    var g3 := AddEdge(g2, le, Eps(t));
    LabelNewEdge(g, w, labels, s, Eps(ls));
    LabelNewEdge(g1, w, labels, s, Eps(rs));
    LabelNewEdge(g2, w, labels, le, Eps(t));
    LabelNewEdge(g3, w, labels, re, Eps(t));
  }

  lemma AltPost(x: Rexp, y: Rexp, w: Text, P: set<nat>)
    ensures Post(Alt(x, y), w, P) == Post(x, w, P) + Post(y, w, P)
  {
    forall i: nat, j: nat | i <= j <= |w|
      ensures Rough(Alt(x, y), w, i, j) == (Rough(x, w, i, j) || Rough(y, w, i, j))
    {
    }
    forall j: nat | j <= |w|
      ensures EndsAt(Alt(x, y), w, P, j) == (EndsAt(x, w, P, j) || EndsAt(y, w, P, j))
    {
    }
  }

  lemma {:induction false} StrLabel(g: Graph, x: Text, s: nat, t: nat,
      w: Text, old0: seq<set<nat>>, P: set<nat>, Q: set<nat>) returns (labels: seq<set<nat>>)
    requires s < |g| && t < |g| && s != t && x != [] && Labelled(g, w, old0)
    requires old0[s] == P && old0[t] == Q
    requires Positions(P, w) && Positions(Q, w) && Post(Str(x), w, P) <= Q
    ensures Labelled(Wire(g, Str(x), s, t).g, w, labels) && old0 <= labels
    decreases |x|, 0
  {
    if |x| == 1 {
      forall i | i in P && i < |w| && w[i] in {x[0]} ensures i + 1 in Q {
        assert w[i..i + 1] == x;
        assert EndsAt(Str(x), w, P, i + 1) by { assert Rough(Str(x), w, i, i + 1); }
      }
      LabelNewEdge(g, w, old0, s, On({x[0]}, t));
      labels := old0;
    } else {
      var mid := Post(Str([x[0]]), w, P);
      StrPost(x, w, P);
      var rest := Build(g, Str(x[1..]), None, Some(t));
      var l1 := BuildLabel(g, Str(x[1..]), None, Some(t), w, old0, mid, Q);
      labels := BuildLabel(rest.g, Str([x[0]]), Some(s), Some(rest.start), w, l1, P, mid);
    }
  }

  lemma StrStep(x: Text, w: Text, i: nat, k: nat, j: nat)
    requires |x| > 1 && i <= k <= j <= |w|
    requires Rough(Str([x[0]]), w, i, k) && Rough(Str(x[1..]), w, k, j)
    ensures Rough(Str(x), w, i, j)
  {
    assert w[i..j] == w[i..k] + w[k..j];
    assert x == [x[0]] + x[1..];
  }

  lemma StrPost(x: Text, w: Text, P: set<nat>)
    requires |x| > 1
    ensures Post(Str(x[1..]), w, Post(Str([x[0]]), w, P)) <= Post(Str(x), w, P)
  {
    forall j: nat | j <= |w| && EndsAt(Str(x[1..]), w, Post(Str([x[0]]), w, P), j)
      ensures EndsAt(Str(x), w, P, j)
    {
      var k: nat :| k in Post(Str([x[0]]), w, P) && k <= j && Rough(Str(x[1..]), w, k, j);
      var i: nat :| i in P && i <= k && Rough(Str([x[0]]), w, i, k);
      StrStep(x, w, i, k, j);
    }
  }

  lemma CompileLabel(e: Rexp, w: Text, i: nat) returns (labels: seq<set<nat>>)
    requires Plain(e) && i <= |w|
    ensures var b := Compile(e);
      Labelled(b.g, w, labels) && i in labels[b.start] && labels[b.end] == Post(e, w, {i})
  {
    if Alias(e) { AliasPost(e, w, {i}); }
    labels := BuildLabel([], e, None, None, w, [], {i}, Post(e, w, {i}));
  }

  lemma CompileSound(e: Rexp, w: Text, i: nat, j: nat, n: nat)
    requires Plain(e) && i <= j <= |w|
    requires Path(Compile(e).g, w, n, Compile(e).start, i, Compile(e).end, j)
    ensures Rough(e, w, i, j)
  {
    var labels := CompileLabel(e, w, i);
    PathLabelled(Compile(e).g, w, labels, n, Compile(e).start, i, Compile(e).end, j);
    assert EndsAt(e, w, {i}, j);
  }

  /** Thompson's construction is exact, null subtrees included; an interval reads as a star. */
  lemma CompileExact(e: Rexp, w: Text, i: nat, j: nat)
    requires Plain(e) && i <= j <= |w|
    ensures var b := Compile(e); Reach(b.g, w, b.start, i, b.end, j) <==> Rough(e, w, i, j)
  {
    var b := Compile(e);
    if Rough(e, w, i, j) {
      BuildComplete([], e, None, None, w, i, j);
    }
    if Reach(b.g, w, b.start, i, b.end, j) {
      var n: nat :| Path(b.g, w, n, b.start, i, b.end, j);
      CompileSound(e, w, i, j, n);
    }
  }
}
