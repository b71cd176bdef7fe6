/** Epsilon closures of the automaton (rx/rxnfa.c): eclose_node marks a state on entry and unmarks
    it on exit, so it walks every simple path; it still finds exactly the reachable states. */
module RxEclose {
  import opened RxNfa

  /** Strictly increasing lists of states: the nfa_state_set and superset representations. */
  predicate Sorted(s: seq<nat>) {
    forall i, j :: 0 <= i < j < |s| ==> s[i] < s[j]
  }

  predicate Within(g: Graph, s: seq<nat>) {
    forall i :: 0 <= i < |s| ==> s[i] < |g|
  }

  ghost function Elems(s: seq<nat>): set<nat> {
    set q | q in s
  }

  lemma ElemsNonEmpty(s: seq<nat>)
    requires s != []
    ensures Elems(s) != {}
  {
    assert s[0] in Elems(s);
  }

  /** A sorted list is determined by its elements. */
  lemma {:induction false} SortedUnique(a: seq<nat>, b: seq<nat>)
    requires Sorted(a) && Sorted(b) && Elems(a) == Elems(b)
    ensures a == b
    decreases |a|
  {
    if a == [] {
      if b != [] { ElemsNonEmpty(b); }
    } else {
      assert a[0] in Elems(b) && b[0] in Elems(a);
      assert a[0] == b[0];
      forall q | q in Elems(a[1..]) ensures q in Elems(b[1..]) {
        assert q in Elems(a) && q > a[0];
      }
      forall q | q in Elems(b[1..]) ensures q in Elems(a[1..]) {
        assert q in Elems(b) && q > b[0];
      }
      SortedUnique(a[1..], b[1..]);
      assert a == [a[0]] + a[1..] && b == [b[0]] + b[1..];
    }
  }

  lemma SortedCons(x: nat, s: seq<nat>)
    requires Sorted(s) && forall y :: y in s ==> x < y
    ensures Sorted([x] + s) && Elems([x] + s) == {x} + Elems(s)
  {
    var r := [x] + s;
    forall i, j | 0 <= i < j < |r| ensures r[i] < r[j] {
      assert r[j] == s[j - 1] && s[j - 1] in s;
    }
  }

  lemma SortedTail(s: seq<nat>)
    requires Sorted(s) && s != []
    ensures Sorted(s[1..]) && Elems(s) == {s[0]} + Elems(s[1..])
    ensures forall y :: y in s[1..] ==> s[0] < y
  {
    assert s == [s[0]] + s[1..];
  }

  /** nfa_set_enjoin */
  function Enjoin(q: nat, s: seq<nat>): seq<nat> {
    if s == [] || q < s[0] then [q] + s
    else if q == s[0] then s
    else [s[0]] + Enjoin(q, s[1..])
  }

  lemma {:induction false} EnjoinAdds(q: nat, s: seq<nat>)
    requires Sorted(s)
    ensures Sorted(Enjoin(q, s)) && Elems(Enjoin(q, s)) == Elems(s) + {q}
    decreases |s|
  {
    if s == [] {
      assert Enjoin(q, s) == [q];
    } else if q < s[0] {
      forall y | y in s ensures q < y {
      }
      SortedCons(q, s);
    } else if q > s[0] {
      SortedTail(s);
      EnjoinAdds(q, s[1..]);
      EnjoinStep(q, s);
    }
  }

  lemma EnjoinStep(q: nat, s: seq<nat>)
    requires s != [] && q > s[0] && Sorted(Enjoin(q, s[1..]))
    requires Elems(Enjoin(q, s[1..])) == Elems(s[1..]) + {q} && Elems(s) == {s[0]} + Elems(s[1..])
    requires forall y :: y in s[1..] ==> s[0] < y
    ensures Sorted(Enjoin(q, s)) && Elems(Enjoin(q, s)) == Elems(s) + {q}
  {
    var r := Enjoin(q, s[1..]);
    forall y | y in r ensures s[0] < y {
      assert y in Elems(r);
    }
    SortedCons(s[0], r);
  }

  predicate HasEps(g: Graph, q: nat, d: nat) {
    q < |g| && Eps(d) in g[q]
  }

  /** A path of `n` epsilon edges that visits no state of `marked` */
  ghost predicate Walk(g: Graph, marked: set<nat>, n: nat, q: nat, q2: nat) {
    q < |g| && q !in marked &&
    if n == 0 then q == q2
    else exists d: nat :: HasEps(g, q, d) && Walk(g, marked, n - 1, d, q2)
  }

  ghost predicate Walks(g: Graph, marked: set<nat>, q: nat, q2: nat) {
    exists n: nat :: Walk(g, marked, n, q, q2)
  }

  ghost function Reachable(g: Graph, marked: set<nat>, q: nat): set<nat> {
    set q2: nat | 0 <= q2 < |g| && Walks(g, marked, q, q2)
  }

  /** The epsilon closure of a state */
  ghost function Closure(g: Graph, q: nat): set<nat> {
    Reachable(g, {}, q)
  }

  lemma {:induction false} WalkEnd(g: Graph, marked: set<nat>, n: nat, q: nat, q2: nat)
    requires Walk(g, marked, n, q, q2)
    ensures q2 < |g| && q2 !in marked
    decreases n
  {
    if n > 0 {
      var d: nat :| HasEps(g, q, d) && Walk(g, marked, n - 1, d, q2);
      WalkEnd(g, marked, n - 1, d, q2);
    }
  }

  lemma {:induction false} WalkFewerMarks(g: Graph, m1: set<nat>, m2: set<nat>, n: nat, q: nat, q2: nat)
    requires m1 <= m2 && Walk(g, m2, n, q, q2)
    ensures Walk(g, m1, n, q, q2)
    decreases n
  {
    if n > 0 {
      var d: nat :| HasEps(g, q, d) && Walk(g, m2, n - 1, d, q2);
      WalkFewerMarks(g, m1, m2, n - 1, d, q2);
    }
  }

  /** A walk either never visits `q` or has a suffix that starts there. */
  lemma {:induction false} WalkAround(g: Graph, marked: set<nat>, q: nat, n: nat, p: nat, q2: nat) returns (m: nat)
    requires Walk(g, marked, n, p, q2)
    ensures Walk(g, marked + {q}, n, p, q2) || (m <= n && Walk(g, marked, m, q, q2))
    decreases n
  {
    m := n;
    if p != q && n > 0 {
      var d: nat :| HasEps(g, p, d) && Walk(g, marked, n - 1, d, q2);
      m := WalkAround(g, marked, q, n - 1, d, q2);
    }
  }

  /** Whatever is reachable from `q` is `q` itself or reachable from a successor without coming
      back to `q`. */
  lemma {:induction false} WalkLeaves(g: Graph, marked: set<nat>, n: nat, q: nat, q2: nat) returns (d: nat)
    requires Walk(g, marked, n, q, q2) && q != q2
    ensures HasEps(g, q, d) && Walks(g, marked + {q}, d, q2)
    decreases n
  {
    d :| HasEps(g, q, d) && Walk(g, marked, n - 1, d, q2);
    var m := WalkAround(g, marked, q, n - 1, d, q2);
    if !Walk(g, marked + {q}, n - 1, d, q2) {
      d := WalkLeaves(g, marked, m, q, q2);
    }
  }

  /** The states reached through the first `k` edges of `q` */
  ghost function Through(g: Graph, marked: set<nat>, q: nat, k: nat): set<nat>
    requires q < |g| && k <= |g[q]|
  {
    if k == 0 then {q}
    else Through(g, marked, q, k - 1) +
         (if g[q][k - 1].Eps? then Reachable(g, marked + {q}, g[q][k - 1].dest) else {})
  }

  lemma {:induction false} ThroughHas(g: Graph, marked: set<nat>, q: nat, k: nat, x: nat)
    requires q < |g| && k <= |g[q]|
    ensures x in Through(g, marked, q, k) <==>
      x == q || exists m :: 0 <= m < k && g[q][m].Eps? && x in Reachable(g, marked + {q}, g[q][m].dest)
    decreases k
  {
    if k > 0 {
      ThroughHas(g, marked, q, k - 1, x);
      if x in Through(g, marked, q, k) && x !in Through(g, marked, q, k - 1) {
        assert g[q][k - 1].Eps? && x in Reachable(g, marked + {q}, g[q][k - 1].dest);
      }
    }
  }

  lemma ThroughAll(g: Graph, marked: set<nat>, q: nat)
    requires q < |g| && q !in marked
    ensures Through(g, marked, q, |g[q]|) == Reachable(g, marked, q)
  {
    forall x | x in Through(g, marked, q, |g[q]|) ensures x in Reachable(g, marked, q) {
      ThroughHas(g, marked, q, |g[q]|, x);
      if x == q {
        assert Walk(g, marked, 0, q, q);
      } else {
        var m :| 0 <= m < |g[q]| && g[q][m].Eps? && x in Reachable(g, marked + {q}, g[q][m].dest);
        var n: nat :| Walk(g, marked + {q}, n, g[q][m].dest, x);
        WalkFewerMarks(g, marked, marked + {q}, n, g[q][m].dest, x);
        assert HasEps(g, q, g[q][m].dest);
        assert Walk(g, marked, n + 1, q, x);
      }
    }
    forall x | x in Reachable(g, marked, q) ensures x in Through(g, marked, q, |g[q]|) {
      ThroughHas(g, marked, q, |g[q]|, x);
      if x != q {
        var n: nat :| Walk(g, marked, n, q, x);
        var d := WalkLeaves(g, marked, n, q, x);
        var m :| 0 <= m < |g[q]| && g[q][m] == Eps(d);
        assert x in Reachable(g, marked + {q}, g[q][m].dest);
      }
    }
  }

  ghost function MarkedIn(marks: seq<bool>): set<nat> {
    set q: nat | 0 <= q < |marks| && marks[q]
  }

  ghost function UnmarkedIn(marks: seq<bool>): set<nat> {
    set q: nat | 0 <= q < |marks| && !marks[q]
  }

  lemma MarkOne(marks: seq<bool>, q: nat)
    requires q < |marks| && !marks[q]
    ensures MarkedIn(marks[q := true]) == MarkedIn(marks) + {q}
    ensures UnmarkedIn(marks[q := true]) < UnmarkedIn(marks)
  {
    assert q in UnmarkedIn(marks) && q !in UnmarkedIn(marks[q := true]);
  }

  lemma NothingThroughMarked(g: Graph, marked: set<nat>, q: nat)
    requires q in marked
    ensures Reachable(g, marked, q) == {}
  {
    forall x: nat | x < |g| ensures !Walks(g, marked, q, x) {
    }
  }

  /** The automaton with its marks and its memo of closures (futures, futures_computed).  Without
      side-effect edges a state has one possible future, so only its destset is kept. */
  class Rx {
    const g: Graph
    const mark: array<bool>
    var destset: seq<nat>
    var futures: map<nat, seq<nat>>

    constructor (g: Graph)
      requires Closed(g)
      ensures this.g == g && Valid() && fresh(mark) && futures == map[]
    {
      this.g := g;
      mark := new bool[|g|](_ => false);
      destset := [];
      futures := map[];
    }

    ghost predicate Memo()
      reads this
    {
      forall q :: q in futures ==> q < |g| && Sorted(futures[q]) && Elems(futures[q]) == Closure(g, q)
    }

    /** Between calls nothing is marked and every memo entry is a closure. */
    ghost predicate Valid()
      reads this, mark
    {
      Closed(g) && mark.Length == |g| && MarkedIn(mark[..]) == {} && Memo()
    }

    /** eclose_node: every mark is restored, and the states added are those an unmarked path
        leads to. */
    method EcloseNode(node: nat)
      requires Closed(g) && mark.Length == |g| && node < |g| && Sorted(destset)
      modifies mark, this`destset
      ensures mark[..] == old(mark[..])
      ensures Sorted(destset)
      ensures Elems(destset) == old(Elems(destset)) + Reachable(g, MarkedIn(old(mark[..])), node)
      decreases UnmarkedIn(mark[..])
    {
      ghost var marks := mark[..];
      ghost var m0 := MarkedIn(marks);
      if mark[node] {
        NothingThroughMarked(g, m0, node);
        return;
      }
      MarkOne(marks, node);
      mark[node] := true;
      ghost var inside := mark[..];
      assert inside == marks[node := true];
      EnjoinAdds(node, destset);
      destset := Enjoin(node, destset);
      var k := 0;
      while k < |g[node]|
        invariant 0 <= k <= |g[node]|
        invariant mark[..] == inside
        invariant Sorted(destset)
        invariant Elems(destset) == old(Elems(destset)) + Through(g, m0, node, k)
      {
        if g[node][k].Eps? {
          assert g[node][k].dest < |g|;
          EcloseNode(g[node][k].dest);
        }
        k := k + 1;
      }
      ThroughAll(g, m0, node);
      mark[node] := false;
      assert mark[..] == inside[node := false] == marks;
    }

    /** rx_state_possible_futures */
    method PossibleFutures(n: nat) returns (dest: seq<nat>)
      requires Valid() && n < |g|
      modifies this, mark
      ensures Valid()
      ensures Sorted(dest) && Elems(dest) == Closure(g, n)
      ensures futures == old(futures)[n := dest]
    {
      if n in futures {
        dest := futures[n];
      } else {
        destset := [];
        EcloseNode(n);
        futures := futures[n := destset];
        dest := destset;
      }
    }
  }
}
