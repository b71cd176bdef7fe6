/** Plain subset simulation of the automaton, and the step that rx/rxsuper.c really takes.

    The two differ because rx_bitset_is_subset (rx/rxbitset.c) never looks at the last word of the
    sets it compares.  The exact condition for one step to be right is `CodeStepExact`. */
module RxSubset {
  import opened RxSyntax
  import opened RxNfa
  import opened RxEclose

  /** The characters that rx_bitset_is_subset inspects: all words of 32 but the last one. */
  const INSPECTED: int := 224

  predicate SubsetTest(a: set<Byte>, b: set<Byte>) {
    forall x :: x in a && x < INSPECTED ==> x in b
  }

  predicate Inspected(w: Text) {
    forall i :: 0 <= i < |w| ==> w[i] < INSPECTED
  }

  predicate CsetEdge(g: Graph, S: set<nat>, q: nat, k: nat) {
    q in S && q < |g| && k < |g[q]| && g[q][k].On?
  }

  ghost predicate MovesTo(g: Graph, S: set<nat>, c: Byte, q2: nat) {
    exists q: nat, k: nat :: CsetEdge(g, S, q, k) && c in g[q][k].cs && q2 in Closure(g, g[q][k].dest)
  }

  /** The epsilon-closed successors of a set of states on one character */
  ghost function StepSet(g: Graph, S: set<nat>, c: Byte): set<nat> {
    set q2: nat | 0 <= q2 < |g| && MovesTo(g, S, c, q2)
  }

  ghost function Run(g: Graph, S: set<nat>, w: Text): set<nat>
    decreases |w|
  {
    if w == [] then S else Run(g, StepSet(g, S, w[0]), w[1..])
  }

  // ----- Simulation agrees with paths -----

  ghost predicate EpsClosed(g: Graph, S: set<nat>) {
    forall q: nat, d: nat :: q in S && HasEps(g, q, d) && d < |g| ==> d in S
  }

  lemma {:induction false} WalkSnoc(g: Graph, n: nat, q: nat, p: nat, d: nat)
    requires Walk(g, {}, n, q, p) && HasEps(g, p, d) && d < |g|
    ensures Walk(g, {}, n + 1, q, d)
    decreases n
  {
    if n == 0 {
      assert Walk(g, {}, 0, d, d);
    } else {
      var x: nat :| HasEps(g, q, x) && Walk(g, {}, n - 1, x, p);
      WalkSnoc(g, n - 1, x, p, d);
    }
  }

  lemma ClosureClosed(g: Graph, q: nat)
    ensures EpsClosed(g, Closure(g, q))
    ensures q < |g| ==> q in Closure(g, q)
  {
    forall p: nat, d: nat | p in Closure(g, q) && HasEps(g, p, d) && d < |g| ensures d in Closure(g, q) {
      var n: nat :| Walk(g, {}, n, q, p);
      WalkSnoc(g, n, q, p, d);
    }
    if q < |g| {
      assert Walk(g, {}, 0, q, q);
    }
  }

  lemma StepSetClosed(g: Graph, S: set<nat>, c: Byte)
    ensures EpsClosed(g, StepSet(g, S, c))
  {
    forall p: nat, d: nat | p in StepSet(g, S, c) && HasEps(g, p, d) && d < |g| ensures d in StepSet(g, S, c) {
      var q: nat, k: nat :| CsetEdge(g, S, q, k) && c in g[q][k].cs && p in Closure(g, g[q][k].dest);
      ClosureClosed(g, g[q][k].dest);
      assert MovesTo(g, S, c, d);
    }
  }

  lemma {:induction false} PathForward(g: Graph, w: Text, n: nat, q: nat, i: nat, q2: nat, j: nat)
    requires Path(g, w, n, q, i, q2, j)
    ensures i <= j
    decreases n
  {
    if n > 0 {
      var p: nat, x: nat :| Step(g, w, q, i, p, x) && Path(g, w, n - 1, p, x, q2, j);
      PathForward(g, w, n - 1, p, x, q2, j);
    }
  }

  lemma {:induction false} PathIsRun(g: Graph, S: set<nat>, w: Text, n: nat, q: nat, i: nat, q2: nat, j: nat)
    requires Closed(g) && EpsClosed(g, S) && q in S && q < |g|
    requires Path(g, w, n, q, i, q2, j) && i <= j <= |w|
    ensures q2 in Run(g, S, w[i..j])
    decreases n
  {
    if n > 0 {
      var p: nat, x: nat :| Step(g, w, q, i, p, x) && Path(g, w, n - 1, p, x, q2, j);
      PathForward(g, w, n - 1, p, x, q2, j);
      var k :| 0 <= k < |g[q]| && Crosses(g[q][k], w, i, p, x);
      if g[q][k].Eps? {
        assert HasEps(g, q, p);
        PathIsRun(g, S, w, n - 1, p, x, q2, j);
      } else {
        var S2 := StepSet(g, S, w[i]);
        ClosureClosed(g, p);
        assert CsetEdge(g, S, q, k) && p in Closure(g, g[q][k].dest);
        assert MovesTo(g, S, w[i], p);
        StepSetClosed(g, S, w[i]);
        PathIsRun(g, S2, w, n - 1, p, x, q2, j);
        assert w[i..j][0] == w[i] && w[i..j][1..] == w[i + 1..j];
      }
    } else {
      assert w[i..j] == [];
    }
  }

  lemma {:induction false} WalkIsPath(g: Graph, w: Text, n: nat, q: nat, q2: nat, i: nat)
    requires Walk(g, {}, n, q, q2)
    ensures Path(g, w, n, q, i, q2, i)
    decreases n
  {
    if n > 0 {
      var d: nat :| HasEps(g, q, d) && Walk(g, {}, n - 1, d, q2);
      var k :| 0 <= k < |g[q]| && g[q][k] == Eps(d);
      assert Crosses(g[q][k], w, i, d, i);
      assert Step(g, w, q, i, d, i);
      WalkIsPath(g, w, n - 1, d, q2, i);
    }
  }

  lemma {:induction false} RunIsPath(g: Graph, S: set<nat>, w: Text, i: nat, j: nat, q2: nat) returns (q: nat)
    requires Closed(g) && i <= j <= |w| && q2 in Run(g, S, w[i..j])
    ensures q in S && Reach(g, w, q, i, q2, j)
    decreases j - i
  {
    if i == j {
      assert w[i..j] == [];
      q := q2;
      assert Path(g, w, 0, q, i, q2, j);
    } else {
      assert w[i..j][0] == w[i] && w[i..j][1..] == w[i + 1..j];
      var p := RunIsPath(g, StepSet(g, S, w[i]), w, i + 1, j, q2);
      q :| q in S && exists k: nat :: CsetEdge(g, S, q, k) && w[i] in g[q][k].cs && p in Closure(g, g[q][k].dest);
      var k: nat :| CsetEdge(g, S, q, k) && w[i] in g[q][k].cs && p in Closure(g, g[q][k].dest);
      var d := g[q][k].dest;
      ReachEdge(g, w, q, g[q][k], i, i + 1);
      var n: nat :| Walk(g, {}, n, d, p);
      WalkIsPath(g, w, n, d, p, i + 1);
      ReachTrans(g, w, q, i, d, i + 1, p, i + 1);
      ReachTrans(g, w, q, i, p, i + 1, q2, j);
    }
  }

  /** Subset simulation from the closure of the start state visits exactly the states that paths
      reach. */
  lemma RunExact(g: Graph, s: nat, w: Text, i: nat, j: nat, q2: nat)
    requires Closed(g) && s < |g| && i <= j <= |w|
    ensures q2 in Run(g, Closure(g, s), w[i..j]) <==> Reach(g, w, s, i, q2, j)
  {
    ClosureClosed(g, s);
    if Reach(g, w, s, i, q2, j) {
      var n: nat :| Path(g, w, n, s, i, q2, j);
      PathIsRun(g, Closure(g, s), w, n, s, i, q2, j);
    }
    if q2 in Run(g, Closure(g, s), w[i..j]) {
      var p := RunIsPath(g, Closure(g, s), w, i, j, q2);
      var n: nat :| Walk(g, {}, n, s, p);
      WalkIsPath(g, w, n, s, p, i);
      ReachTrans(g, w, s, i, p, i, q2, j);
    }
  }

  // ----- The step of the engine -----

  ghost predicate Enabled(g: Graph, S: set<nat>, c: Byte) {
    exists q: nat, k: nat :: CsetEdge(g, S, q, k) && c in g[q][k].cs
  }

  /** The characters that enable the same edges as `c`: compute_super_edge's character set */
  ghost predicate SameEdges(g: Graph, S: set<nat>, c: Byte, x: Byte) {
    forall q: nat, k: nat :: CsetEdge(g, S, q, k) ==> (x in g[q][k].cs <==> c in g[q][k].cs)
  }

  ghost function Class(g: Graph, S: set<nat>, c: Byte): set<Byte> {
    set x: Byte | 0 <= x < 256 && SameEdges(g, S, c, x)
  }

  ghost predicate DestHas(g: Graph, S: set<nat>, cset: set<Byte>, q2: nat) {
    exists q: nat, k: nat :: CsetEdge(g, S, q, k) && SubsetTest(cset, g[q][k].cs) && q2 in Closure(g, g[q][k].dest)
  }

  /** solve_destination: the closures of the edges whose label passes the subset test */
  ghost function Dest(g: Graph, S: set<nat>, cset: set<Byte>): set<nat> {
    set q2: nat | 0 <= q2 < |g| && DestHas(g, S, cset, q2)
  }

  ghost function CodeStep(g: Graph, S: set<nat>, c: Byte): set<nat> {
    if Enabled(g, S, c) then Dest(g, S, Class(g, S, c)) else {}
  }

  ghost function CodeRun(g: Graph, S: set<nat>, w: Text): set<nat>
    decreases |w|
  {
    if w == [] then S else CodeRun(g, CodeStep(g, S, w[0]), w[1..])
  }

  /** A class is inside an edge label or disjoint from it, and classes are classes of each of
      their members. */
  lemma ClassOnEdge(g: Graph, S: set<nat>, c: Byte, q: nat, k: nat)
    requires CsetEdge(g, S, q, k)
    ensures c in Class(g, S, c)
    ensures if c in g[q][k].cs then Class(g, S, c) <= g[q][k].cs else Class(g, S, c) !! g[q][k].cs
  {
    forall x | x in Class(g, S, c) ensures x in g[q][k].cs <==> c in g[q][k].cs {
      assert SameEdges(g, S, c, x);
    }
  }

  lemma ClassOfMember(g: Graph, S: set<nat>, c: Byte, x: Byte)
    requires x in Class(g, S, c)
    ensures Class(g, S, x) == Class(g, S, c)
    ensures Enabled(g, S, x) <==> Enabled(g, S, c)
  {
    assert SameEdges(g, S, c, x);
    forall y: Byte ensures SameEdges(g, S, x, y) <==> SameEdges(g, S, c, y) {
    }
  }

  /** A class with an inspected character is judged rightly: the subset test holds for exactly the
      edges that accept the character. */
  lemma TestExact(g: Graph, S: set<nat>, c: Byte, q: nat, k: nat)
    requires CsetEdge(g, S, q, k)
    requires exists x :: x in Class(g, S, c) && x < INSPECTED
    ensures SubsetTest(Class(g, S, c), g[q][k].cs) <==> c in g[q][k].cs
  {
    ClassOnEdge(g, S, c, q, k);
  }

  /** The engine's step never loses a state. */
  lemma StepInCodeStep(g: Graph, S: set<nat>, c: Byte)
    ensures StepSet(g, S, c) <= CodeStep(g, S, c)
  {
    forall q2 | q2 in StepSet(g, S, c) ensures q2 in CodeStep(g, S, c) {
      var q: nat, k: nat :| CsetEdge(g, S, q, k) && c in g[q][k].cs && q2 in Closure(g, g[q][k].dest);
      ClassOnEdge(g, S, c, q, k);
      assert Enabled(g, S, c);
      assert DestHas(g, S, Class(g, S, c), q2);
    }
  }

  /** All successors of a set, whatever the character */
  ghost function AnySuccessor(g: Graph, S: set<nat>): set<nat> {
    Dest(g, S, {})
  }

  /** Exactly when one step of the engine is the step of the automaton: the characters that share
      edges with `c` include an inspected one, or no edge takes `c`, or the edges that take `c`
      already lead everywhere that any edge leads. */
  lemma CodeStepExact(g: Graph, S: set<nat>, c: Byte)
    ensures CodeStep(g, S, c) == StepSet(g, S, c) <==>
      (exists x :: x in Class(g, S, c) && x < INSPECTED) || !Enabled(g, S, c) || StepSet(g, S, c) == AnySuccessor(g, S)
  {
    StepInCodeStep(g, S, c);
    if Enabled(g, S, c) {
      if exists x :: x in Class(g, S, c) && x < INSPECTED {
        forall q2 | q2 in CodeStep(g, S, c) ensures q2 in StepSet(g, S, c) {
          var q: nat, k: nat :| CsetEdge(g, S, q, k) && SubsetTest(Class(g, S, c), g[q][k].cs) && q2 in Closure(g, g[q][k].dest);
          TestExact(g, S, c, q, k);
          assert MovesTo(g, S, c, q2);
        }
      } else {
        forall q2: nat ensures DestHas(g, S, Class(g, S, c), q2) <==> DestHas(g, S, {}, q2) {
        }
        assert CodeStep(g, S, c) == AnySuccessor(g, S);
      }
    }
  }

  /** On inspected characters the engine simulates the automaton. */
  lemma {:induction false} CodeRunExact(g: Graph, S: set<nat>, w: Text)
    requires Inspected(w)
    ensures CodeRun(g, S, w) == Run(g, S, w)
    decreases |w|
  {
    if w != [] {
      var c := w[0];
      assert SameEdges(g, S, c, c);
      assert c in Class(g, S, c) && c < INSPECTED;
      CodeStepExact(g, S, c);
      CodeRunExact(g, StepSet(g, S, c), w[1..]);
    }
  }

  lemma StepSetMono(g: Graph, S: set<nat>, T: set<nat>, c: Byte)
    requires S <= T
    ensures StepSet(g, S, c) <= StepSet(g, T, c)
  {
    forall q2 | q2 in StepSet(g, S, c) ensures MovesTo(g, T, c, q2) {
      var q: nat, k: nat :| CsetEdge(g, S, q, k) && c in g[q][k].cs && q2 in Closure(g, g[q][k].dest);
      assert CsetEdge(g, T, q, k);
    }
  }

  /** On any characters the engine only adds states, so what it rejects the automaton rejects. */
  lemma {:induction false} RunInCodeRun(g: Graph, S: set<nat>, T: set<nat>, w: Text)
    requires S <= T
    ensures Run(g, S, w) <= CodeRun(g, T, w)
    decreases |w|
  {
    if w != [] {
      StepSetMono(g, S, T, w[0]);
      StepInCodeStep(g, T, w[0]);
      RunInCodeRun(g, StepSet(g, S, w[0]), CodeStep(g, T, w[0]), w[1..]);
    }
  }
}
