/** compute_super_edge and solve_destination (rx/rxsuper.c): the loops over the edges of a
    superstate's states, and what they add up to. */
module RxSuperEdge {
  import opened RxSyntax
  import opened RxNfa
  import opened RxEclose
  import opened RxSuperset
  import opened RxSubset

  const UNIVERSE: set<Byte> := set b: Byte | 0 <= b < 256

  // ----- compute_super_edge -----

  function NarrowBy(e: Edge, chr: Byte, cset: set<Byte>): set<Byte> {
    match e
    case Eps(_) => cset
    case On(cs, _) => if chr in cs then cset * cs else cset - cs
  }

  predicate Takes(e: Edge, chr: Byte) {
    e.On? && chr in e.cs
  }

  /** Narrows the set by the edges of one state. */
  method NarrowByState(es: seq<Edge>, chr: Byte, cset0: set<Byte>, enabled0: bool) returns (cset: set<Byte>, enabled: bool)
    ensures forall x :: x in cset <==> x in cset0 && Agrees(es, |es|, chr, x)
    ensures enabled <==> enabled0 || exists k :: 0 <= k < |es| && Takes(es[k], chr)
  {
    cset, enabled := cset0, enabled0;
    for k := 0 to |es|
      invariant forall x :: x in cset <==> x in cset0 && Agrees(es, k, chr, x)
      invariant enabled <==> enabled0 || exists m :: 0 <= m < k && Takes(es[m], chr)
    {
      cset := NarrowBy(es[k], chr, cset);
      enabled := enabled || Takes(es[k], chr);
    }
  }

  /** The first `n` edges do not tell `x` from `chr`. */
  ghost predicate Agrees(es: seq<Edge>, n: nat, chr: Byte, x: Byte)
    requires n <= |es|
  {
    forall k :: 0 <= k < n && es[k].On? ==> (x in es[k].cs <==> chr in es[k].cs)
  }

  ghost predicate AgreesAt(g: Graph, contents: seq<nat>, n: nat, chr: Byte, x: Byte)
    requires n <= |contents| && Within(g, contents)
  {
    forall i :: 0 <= i < n ==> Agrees(g[contents[i]], |g[contents[i]]|, chr, x)
  }

  lemma AgreesIsSameEdges(g: Graph, contents: seq<nat>, chr: Byte, x: Byte)
    requires Within(g, contents)
    ensures AgreesAt(g, contents, |contents|, chr, x) <==> SameEdges(g, Elems(contents), chr, x)
  {
    if AgreesAt(g, contents, |contents|, chr, x) {
      forall q: nat, k: nat | CsetEdge(g, Elems(contents), q, k) ensures x in g[q][k].cs <==> chr in g[q][k].cs {
        var i :| 0 <= i < |contents| && contents[i] == q;
        assert Agrees(g[contents[i]], |g[contents[i]]|, chr, x);
      }
    }
    if SameEdges(g, Elems(contents), chr, x) {
      forall i | 0 <= i < |contents| ensures Agrees(g[contents[i]], |g[contents[i]]|, chr, x) {
        forall k: nat | k < |g[contents[i]]| && g[contents[i]][k].On?
          ensures x in g[contents[i]][k].cs <==> chr in g[contents[i]][k].cs
        {
          assert CsetEdge(g, Elems(contents), contents[i], k);
        }
      }
    }
  }

  ghost predicate TakesAt(g: Graph, contents: seq<nat>, i: nat, chr: Byte)
    requires i < |contents| && Within(g, contents)
  {
    exists k :: 0 <= k < |g[contents[i]]| && Takes(g[contents[i]][k], chr)
  }

  lemma TakesIsEnabled(g: Graph, contents: seq<nat>, chr: Byte)
    requires Within(g, contents)
    ensures (exists i :: 0 <= i < |contents| && TakesAt(g, contents, i, chr)) <==> Enabled(g, Elems(contents), chr)
  {
    if exists i :: 0 <= i < |contents| && TakesAt(g, contents, i, chr) {
      var i :| 0 <= i < |contents| && TakesAt(g, contents, i, chr);
      var k :| 0 <= k < |g[contents[i]]| && Takes(g[contents[i]][k], chr);
      assert CsetEdge(g, Elems(contents), contents[i], k);
    }
    if Enabled(g, Elems(contents), chr) {
      var q: nat, k: nat :| CsetEdge(g, Elems(contents), q, k) && chr in g[q][k].cs;
      var i :| 0 <= i < |contents| && contents[i] == q;
      assert Takes(g[contents[i]][k], chr);
      assert TakesAt(g, contents, i, chr);
    }
  }

  /** compute_super_edge: the characters that share all edges with `chr`, and whether there are
      any edges to share. */
  method ComputeSuperEdge(g: Graph, contents: seq<nat>, chr: Byte) returns (cset: set<Byte>, enabled: bool)
    requires Within(g, contents)
    ensures cset == Class(g, Elems(contents), chr)
    ensures enabled <==> Enabled(g, Elems(contents), chr)
  {
    cset, enabled := UNIVERSE, false;
    for i := 0 to |contents|
      invariant forall x: Byte :: x in cset <==> AgreesAt(g, contents, i, chr, x)
      invariant enabled <==> exists m :: 0 <= m < i && TakesAt(g, contents, m, chr)
    {
      ghost var before := enabled;
      cset, enabled := NarrowByState(g[contents[i]], chr, cset, enabled);
      assert enabled <==> before || TakesAt(g, contents, i, chr);
    }
    forall x: Byte ensures x in cset <==> SameEdges(g, Elems(contents), chr, x) {
      AgreesIsSameEdges(g, contents, chr, x);
    }
    TakesIsEnabled(g, contents, chr);
  }

  // ----- solve_destination -----

  predicate Passes(e: Edge, cset: set<Byte>) {
    e.On? && SubsetTest(cset, e.cs)
  }

  ghost function DestOf(g: Graph, es: seq<Edge>, k: nat, cset: set<Byte>): set<nat>
    requires k <= |es|
  {
    if k == 0 then {}
    else DestOf(g, es, k - 1, cset) + (if Passes(es[k - 1], cset) then Closure(g, es[k - 1].dest) else {})
  }

  ghost function DestOfAll(g: Graph, contents: seq<nat>, i: nat, cset: set<Byte>): set<nat>
    requires i <= |contents| && Within(g, contents)
  {
    if i == 0 then {}
    else DestOfAll(g, contents, i - 1, cset) + DestOf(g, g[contents[i - 1]], |g[contents[i - 1]]|, cset)
  }

  lemma {:induction false} DestOfHas(g: Graph, es: seq<Edge>, k: nat, cset: set<Byte>, x: nat)
    requires k <= |es|
    ensures x in DestOf(g, es, k, cset) <==> exists m :: 0 <= m < k && Passes(es[m], cset) && x in Closure(g, es[m].dest)
    decreases k
  {
    if k > 0 {
      DestOfHas(g, es, k - 1, cset, x);
    }
  }

  lemma {:induction false} DestOfAllHas(g: Graph, contents: seq<nat>, i: nat, cset: set<Byte>, x: nat)
    requires i <= |contents| && Within(g, contents)
    ensures x in DestOfAll(g, contents, i, cset) <==>
      exists a, m :: 0 <= a < i && 0 <= m < |g[contents[a]]| && Passes(g[contents[a]][m], cset) && x in Closure(g, g[contents[a]][m].dest)
    decreases i
  {
    if i > 0 {
      DestOfAllHas(g, contents, i - 1, cset, x);
      DestOfHas(g, g[contents[i - 1]], |g[contents[i - 1]]|, cset, x);
    }
  }

  lemma DestOfAllIsDest(g: Graph, contents: seq<nat>, cset: set<Byte>)
    requires Within(g, contents)
    ensures DestOfAll(g, contents, |contents|, cset) == Dest(g, Elems(contents), cset)
  {
    forall x: nat ensures x in DestOfAll(g, contents, |contents|, cset) <==> x in Dest(g, Elems(contents), cset) {
      DestOfAllHas(g, contents, |contents|, cset, x);
      if x in Dest(g, Elems(contents), cset) {
        var q: nat, k: nat :| CsetEdge(g, Elems(contents), q, k) && SubsetTest(cset, g[q][k].cs) && x in Closure(g, g[q][k].dest);
        var a :| 0 <= a < |contents| && contents[a] == q;
        assert Passes(g[contents[a]][k], cset);
      }
      if x in DestOfAll(g, contents, |contents|, cset) {
        var a, m :| 0 <= a < |contents| && 0 <= m < |g[contents[a]]| && Passes(g[contents[a]][m], cset) && x in Closure(g, g[contents[a]][m].dest);
        assert CsetEdge(g, Elems(contents), contents[a], m);
      }
    }
  }

  method SolveState(rx: Rx, es: seq<Edge>, cset: set<Byte>, sol0: seq<nat>) returns (sol: seq<nat>)
    requires rx.Valid() && Sorted(sol0) && forall k :: 0 <= k < |es| ==> es[k].dest < |rx.g|
    modifies rx, rx.mark
    ensures rx.Valid() && Sorted(sol) && Elems(sol) == Elems(sol0) + DestOf(rx.g, es, |es|, cset)
  {
    sol := sol0;
    for k := 0 to |es|
      invariant rx.Valid() && Sorted(sol) && Elems(sol) == Elems(sol0) + DestOf(rx.g, es, k, cset)
    {
      if Passes(es[k], cset) {
        var ecl := rx.PossibleFutures(es[k].dest);
        MergeIsUnion(sol, ecl);
        sol := Merge(sol, ecl);
      }
    }
  }

  /** solve_destination's search: the union of the closures behind the edges whose label passes
      the subset test. */
  method SolveContents(rx: Rx, contents: seq<nat>, cset: set<Byte>) returns (sol: seq<nat>)
    requires rx.Valid() && Within(rx.g, contents)
    modifies rx, rx.mark
    ensures rx.Valid() && Sorted(sol) && Elems(sol) == Dest(rx.g, Elems(contents), cset)
  {
    sol := [];
    for i := 0 to |contents|
      invariant rx.Valid() && Sorted(sol) && Elems(sol) == DestOfAll(rx.g, contents, i, cset)
    {
      sol := SolveState(rx, rx.g[contents[i]], cset, sol);
    }
    DestOfAllIsDest(rx.g, contents, cset);
  }
}
