/** Inputs on which the engine departs from what it is meant to do; the exact conditions are
    RxSubset.CodeStepExact, RxPosix.SearchExact and RxSimp.BackRefExact. */
module RxExamples {
  import opened Options
  import opened RxSyntax
  import opened RxAnalysis
  import opened RxNfa
  import opened RxEclose
  import opened RxSubset
  import opened RxRun
  import opened RxSimp
  import opened RxFit
  import opened RxAnswers
  import opened RxPosix

  lemma {:induction false} LeafClosure(g: Graph, q: nat)
    requires q < |g| && forall d: nat :: !HasEps(g, q, d)
    ensures Closure(g, q) == {q}
  {
    assert Walk(g, {}, 0, q, q);
    forall d: nat | d in Closure(g, q) ensures d == q {
      var n: nat :| Walk(g, {}, n, q, d);
    }
  }

  // ----- A character of the last word of a set -----

  /** a|\xe9b */
  const A_OR_E9B: Rexp := Alt(Str([97]), Str([233, 98]))

  const A_OR_E9B_GRAPH: Graph :=
    [[Eps(4), Eps(2)], [], [On({97}, 3)], [Eps(1)], [On({233}, 6)], [Eps(1)], [On({98}, 5)]]

  lemma AOrE9bGraph()
    ensures Compile(A_OR_E9B) == Built(A_OR_E9B_GRAPH, 0, 1)
  {
    var empty: Graph := [];
    var none: seq<Edge> := [];
    var g2: Graph := [[], []];
    assert empty + [[]] + [[]] == g2;
    assert [On({97}, 3)] + none == [On({97}, 3)] && [On({98}, 5)] + none == [On({98}, 5)];
    assert [On({233}, 6)] + none == [On({233}, 6)] && [Eps(1)] + none == [Eps(1)] && [Eps(2)] + none == [Eps(2)];
    assert [Eps(4)] + [Eps(2)] == [Eps(4), Eps(2)];
    var left := Build(g2, Str([97]), None, None);
    assert left == Built([[], [], [On({97}, 3)], []], 2, 3);
    var g6: Graph := [[], [], [On({97}, 3)], [], [], []];
    assert left.g + [[]] + [[]] == g6;
    assert [233, 98][1..] == [98];
    var rest := Build(g6, Str([98]), None, Some(5));
    assert rest == Built(g6 + [[On({98}, 5)]], 6, 5);
    var first := Build(rest.g, Str([233]), Some(4), Some(6));
    assert first.g == [[], [], [On({97}, 3)], [], [On({233}, 6)], [], [On({98}, 5)]];
    var right := Build(left.g, Str([233, 98]), None, None);
    assert right == Built(first.g, 4, 5);
    assert Fork(right.g, 0, 1, 2, 3, 4, 5) == A_OR_E9B_GRAPH;
    assert Wire(g2, A_OR_E9B, 0, 1) == Built(A_OR_E9B_GRAPH, 0, 1);
  }

  /** The engine crosses the edge on 'a' when it reads character 233. */
  lemma CrossesOnA()
    ensures var g := A_OR_E9B_GRAPH; 1 in CodeStep(g, Closure(g, 0), 233)
  {
    var g := A_OR_E9B_GRAPH;
    var S := Closure(g, 0);
    ClosureClosed(g, 0);
    ClosureClosed(g, 3);
    assert g[0][0] == Eps(4) && g[0][1] == Eps(2) && g[3][0] == Eps(1);
    assert HasEps(g, 0, 4) && HasEps(g, 0, 2) && HasEps(g, 3, 1);
    assert CsetEdge(g, S, 2, 0) && CsetEdge(g, S, 4, 0);
    assert Enabled(g, S, 233);
    ClassOnEdge(g, S, 233, 4, 0);
    assert DestHas(g, S, Class(g, S, 233), 1);
  }

  /** The fit test accepts a text of character 233 alone, which is not in the language. */
  lemma LastWordIsNotInspected()
    ensures Fits(A_OR_E9B, [233], 0, 1) && !Rough(A_OR_E9B, [233], 0, 1)
  {
    AOrE9bGraph();
    CrossesOnA();
    var w: Text := [233];
    assert w[0..1] == w && w[1..] == [];
    var g := A_OR_E9B_GRAPH;
    assert CodeRun(g, Closure(g, 0), w) == CodeRun(g, CodeStep(g, Closure(g, 0), 233), []);
    assert |[233, 98]| == 2 && w[0..1][0] != [97][0];
  }

  // ----- A fixed-length match past the end of the subject -----

  /** a[\\x00] */
  const A_NUL: Rexp := Concat(Str([97]), Cset({0}))

  function OverrunRegex(): Regex {
    Regex(A_NUL, Groups(map[], map[], 0), seq(256, b => b == 97), false, false, false)
  }

  /** The subject "a", with the zero byte that ends it */
  function OverrunSubject(): Subject {
    Subject([97, 0, 0, 0], 1, Rules(false, false, false))
  }

  lemma OverrunFine()
    ensures Fine(OverrunRegex(), OverrunSubject()) == true
  {
    ParsedIsResolved(A_NUL);
    assert GroupsOf(A_NUL) == OverrunRegex().gs;
  }

  lemma OverrunHit()
    ensures Hit(OverrunRegex(), OverrunSubject(), 0, 2) && Overrun(OverrunRegex(), OverrunSubject(), 0)
  {
    var preg, s := OverrunRegex(), OverrunSubject();
    OverrunFine();
    var c := Local(preg, s, 2);
    assert c.str[0..1] == [97];
    assert M(Str([97]), c, 0, 1, map[], map[]) && M(Cset({0}), c, 1, 2, map[], map[]);
    HitsAreMatches(preg, s, 0, 2, map[]);
    assert HitWith(preg, s, 0, 2, map[]) && MatchThere(preg, s, 0, 2, map[]);
  }

  lemma OverrunExample()
    ensures var preg, s := OverrunRegex(), OverrunSubject();
      Fine(preg, s) && Outcome(preg, s, Some((0, 2))) && Leftmost(preg, s, None) && !Faithful(preg, s)
  {
    var preg, s := OverrunRegex(), OverrunSubject();
    OverrunFine();
    OverrunHit();
    assert InRange(preg, s, 0, 2);
    assert Found(preg, s, 0);
    forall x: nat ensures !Starts(preg, s, x) {
      if Starts(preg, s, x) {
        var e: nat :| Matches(preg, s, x, e);
        MatchIsHit(preg, s, x, e);
        MatchAdmitted(preg, s, x, e);
      }
    }
  }

  // ----- An empty match lost on a long subject -----

  /** (ab)? */
  const MAYBE_GROUP: Rexp := Opt(Parens(Str([97, 98]), 1))

  /** and what it is simplified to */
  const MAYBE_AB: Rexp := Opt(Str([97, 98]))

  const MAYBE_AB_GRAPH: Graph := [[Eps(1), On({97}, 2)], [], [On({98}, 1)]]

  function DropRegex(): Regex {
    Regex(MAYBE_GROUP, Groups(map[1 := Parens(Str([97, 98]), 1)], map[1 := 0], 1), seq(256, b => true), true, false, false)
  }

  /** An 'a' and thirty 'c' */
  function DropSubject(): Subject {
    Subject([97] + seq(30, _ => 99), 31, Rules(false, false, false))
  }

  lemma MaybeAbGraph()
    ensures Compile(MAYBE_AB) == Built(MAYBE_AB_GRAPH, 0, 1)
  {
    assert [97, 98][1..] == [98];
    var g2: Graph := [[], []];
    var none: seq<Edge> := [];
    assert [On({98}, 1)] + none == [On({98}, 1)] && [On({97}, 2)] + none == [On({97}, 2)];
    assert [Eps(1)] + [On({97}, 2)] == [Eps(1), On({97}, 2)];
    var rest := Build(g2, Str([98]), None, Some(1));
    assert rest == Built([[], [], [On({98}, 1)]], 2, 1);
    var first := Build(rest.g, Str([97]), Some(0), Some(2));
    assert first.g == [[On({97}, 2)], [], [On({98}, 1)]];
    var str := Wire(g2, Str([97, 98]), 0, 1);
    assert str == Built(first.g, 0, 1);
    assert Build(g2, Str([97, 98]), Some(0), Some(1)) == str;
    assert Wire(g2, MAYBE_AB, 0, 1) == Built(AddEdge(str.g, 0, Eps(1)), 0, 1);
    assert AddEdge(str.g, 0, Eps(1)) == MAYBE_AB_GRAPH;
    var empty: Graph := [];
    assert empty + [[]] + [[]] == g2;
  }

  lemma MaybeAbSteps()
    ensures var g := MAYBE_AB_GRAPH;
      CodeStep(g, Closure(g, 0), 97) == {2} && CodeStep(g, {2}, 99) == {}
  {
    var g := MAYBE_AB_GRAPH;
    var S := Closure(g, 0);
    ClosureClosed(g, 0);
    LeafClosure(g, 2);
    assert CsetEdge(g, S, 0, 1);
    assert MovesTo(g, S, 97, 2);
    CodeRunExact(g, S, [97]);
    assert [97][1..] == [];
    assert CodeRun(g, S, [97]) == CodeRun(g, CodeStep(g, S, 97), []) && Run(g, S, [97]) == Run(g, StepSet(g, S, 97), []);
    assert StepSet(g, S, 97) == {2};
    assert !Enabled(g, {2}, 99);
  }

  lemma DropDead()
    ensures Dead(Compile(MAYBE_AB), DropSubject().mem)
  {
    var b, burst := Compile(MAYBE_AB), DropSubject().mem;
    MaybeAbGraph();
    MaybeAbSteps();
    var S0 := Closure(b.g, b.start);
    assert burst[..0] == [];
    CodeRunSnoc(b.g, S0, burst, 0);
    CodeRunSnoc(b.g, S0, burst, 1);
    assert NoFinal(b.g, b.end, S0, burst, 1);
    assert DeadAfter(b, burst, 1);
  }

  lemma DropSimple()
    ensures var gs := DropRegex().gs; Resolved(MAYBE_GROUP, gs) && Simple(MAYBE_GROUP, gs) == MAYBE_AB
  {
  }

  /** The empty match at the start is leftmost, and the search does not report it. */
  lemma DropExample(res: Option<(nat, nat)>)
    requires Readable(DropRegex(), DropSubject()) && Outcome(DropRegex(), DropSubject(), res)
    ensures Matches(DropRegex(), DropSubject(), 0, 0) && (res.Some? ==> res.value.0 != 0)
    ensures !Leftmost(DropRegex(), DropSubject(), res)
  {
    var preg, s := DropRegex(), DropSubject();
    assert Matches(preg, s, 0, 0) by {
      assert MatchWith(preg, s, 0, 0, map[]);
    }
    assert Starts(preg, s, 0);
    assert Dropped(preg, s, 0) == true by {
      DropDead();
      DropSimple();
      assert s.mem[0..s.n] == s.mem;
    }
    assert !Found(preg, s, 0) == true;
  }

  lemma DropFine()
    ensures Fine(DropRegex(), DropSubject())
  {
    ParsedIsResolved(MAYBE_GROUP);
    assert Closings(MAYBE_GROUP) == [1];
    assert GroupsOf(MAYBE_GROUP) == DropRegex().gs;
  }

  // ----- A back reference compared without case under a pattern compiled with case -----

  /** (a)\1 */
  const A_TWICE: Rexp := Concat(Parens(Str([97]), 1), Context(BackRef(1)))

  const A_TWICE_TEXT: Text := [97, 65]

  /** "aA" is a match when case is ignored, */
  lemma FoldedIsMatch()
    ensures M(A_TWICE, Ctx(A_TWICE_TEXT, 2, false, false, false, true), 0, 2, map[], map[1 := (0, 1)])
  {
    var c := Ctx(A_TWICE_TEXT, 2, false, false, false, true);
    var r: Regs := map[];
    var r1: Regs := map[1 := (0, 1)];
    assert c.str[0..1] == [97] && c.str[1..2] == [65];
    assert M(Str([97]), c, 0, 1, r, r);
    assert SetGroup(r, 1, 0, 1) == r1;
    assert M(Parens(Str([97]), 1), c, 0, 1, r, r1);
    assert SameText([65], [97], true);
    assert M(Context(BackRef(1)), c, 1, 2, r1, r1);
  }

  /** and the rough fit test rejects it. */
  lemma FoldedIsRejected()
    ensures Resolved(A_TWICE, GroupsOf(A_TWICE))
    ensures !Rough(Simple(A_TWICE, GroupsOf(A_TWICE)), A_TWICE_TEXT, 0, 2)
  {
    ParsedIsResolved(A_TWICE);
    assert Simple(A_TWICE, GroupsOf(A_TWICE)) == Concat(Str([97]), Str([97]));
    forall k: nat | k <= 2 && Rough(Str([97]), A_TWICE_TEXT, 0, k) ensures !Rough(Str([97]), A_TWICE_TEXT, k, 2) {
      assert |A_TWICE_TEXT[0..k]| == k;
      assert k == 1 ==> A_TWICE_TEXT[k..2] == [65];
    }
  }

  // ----- A comparison that stops at a zero byte -----

  /** (\x00x)\1 */
  const ZERO_X_TWICE: Rexp := Concat(Parens(Concat(Cset({0}), Str([120])), 1), Context(BackRef(1)))

  const ZERO_TEXT: Text := [0, 120, 0, 121]

  const ZERO_X: Rexp := Concat(Cset({0}), Str([120]))

  function ZeroCtx(): Ctx {
    Ctx(ZERO_TEXT, 4, false, false, false, false)
  }

  lemma ZeroGroup()
    ensures M(Parens(ZERO_X, 1), ZeroCtx(), 0, 2, map[], map[1 := (0, 2)])
  {
    var c, r: Regs := ZeroCtx(), map[];
    assert c.str[1..2] == [120];
    assert M(Cset({0}), c, 0, 1, r, r) && M(Str([120]), c, 1, 2, r, r);
    assert M(ZERO_X, c, 0, 2, r, r);
    assert SetGroup(r, 1, 0, 2) == map[1 := (0, 2)];
  }

  lemma ZeroSame()
    ensures Compared([0, 121], [0, 120], false)
  {
  }

  /** The two halves compare equal, */
  lemma ZeroIsMatch()
    ensures M(ZERO_X_TWICE, ZeroCtx(), 0, 4, map[], map[1 := (0, 2)])
  {
    var c, r1: Regs := ZeroCtx(), map[1 := (0, 2)];
    ZeroGroup();
    ZeroSame();
    assert c.str[2..4] == [0, 121] && c.str[0..2] == [0, 120];
    assert OpAt(c, BackRef(1), 2, 4, r1);
    assert M(Context(BackRef(1)), c, 2, 4, r1, r1);
  }

  lemma ZeroXEnds(w: Text, k: nat)
    requires k <= |w| && w != [] && w[|w| - 1] == 121
    ensures !Rough(ZERO_X, w, k, |w|)
  {
    forall m: nat | k <= m <= |w| ensures !Rough(Str([120]), w, m, |w|) {
      assert m < |w| ==> w[m..|w|][|w| - 1 - m] == 121;
    }
  }

  /** and the rough fit test rejects them: */
  lemma ZeroIsRejected()
    ensures Resolved(ZERO_X_TWICE, GroupsOf(ZERO_X_TWICE))
    ensures !Rough(Simple(ZERO_X_TWICE, GroupsOf(ZERO_X_TWICE)), ZERO_TEXT, 0, 4)
  {
    ParsedIsResolved(ZERO_X_TWICE);
    assert Simple(ZERO_X_TWICE, GroupsOf(ZERO_X_TWICE)) == Concat(ZERO_X, ZERO_X);
    forall k: nat | k <= 4 ensures !Rough(ZERO_X, ZERO_TEXT, k, 4) {
      ZeroXEnds(ZERO_TEXT, k);
    }
  }

  /** the group is not closed under comparing equal. */
  lemma ZeroNotClosed()
    ensures !SameFits(ZERO_X, false, true)
  {
    var u: Text, v: Text := [0, 121], [0, 120];
    ZeroSame();
    ZeroXEnds(u, 0);
    assert v[1..2] == [120];
    assert Rough(Cset({0}), v, 0, 1) && Rough(Str([120]), v, 1, 2);
    assert Accepted(ZERO_X, v);
  }

  // ----- The last iteration of a group -----

  /** (a|b)*\1 */
  const A_OR_B_TWICE: Rexp := Concat(Star(Parens(LETTER, 1)), Context(BackRef(1)))

  const LETTER: Rexp := Alt(Str([97]), Str([98]))

  lemma LetterRecorded(c: Ctx, i: nat, r: Regs)
    requires i < c.len <= |c.str| && (c.str[i] == 97 || c.str[i] == 98)
    ensures M(Parens(LETTER, 1), c, i, i + 1, r, r[1 := (i, i + 1)])
  {
    assert c.str[i..i + 1] == [c.str[i]];
    assert M(LETTER, c, i, i + 1, r, r);
    assert SetGroup(r, 1, i, i + 1) == r[1 := (i, i + 1)];
  }

  const ABB: Ctx := Ctx([97, 98, 98], 3, false, false, false, false)

  lemma TwoLetters()
    ensures M(Star(Parens(LETTER, 1)), ABB, 0, 2, map[], map[1 := (1, 2)])
  {
    var c, b := ABB, Parens(LETTER, 1);
    var r0: Regs, r1: Regs, r2: Regs := map[], map[1 := (0, 1)], map[1 := (1, 2)];
    LetterRecorded(c, 0, r0);
    LetterRecorded(c, 1, r1);
    assert r0[1 := (0, 1)] == r1 && r1[1 := (1, 2)] == r2;
    TwoIterations(b, c, 0, 1, 2, r0, r1, r2);
  }

  lemma {:induction false} TwoIterations(b: Rexp, c: Ctx, i: nat, k: nat, j: nat, r: Regs, r1: Regs, r2: Regs)
    requires i <= k <= j <= c.len <= |c.str| && M(b, c, i, k, r, r1) && M(b, c, k, j, r1, r2)
    ensures M(Star(b), c, i, j, r, r2)
  {
    assert Iter(b, c, 0, j, j, r2, r2);
    assert Iter(b, c, 1, k, j, r1, r2);
    assert Iter(b, c, 2, i, j, r, r2);
  }

  /** On "abb" the group is left with its second iteration, to which the back reference then refers. */
  lemma LastIterationIsMeant()
    ensures M(A_OR_B_TWICE, ABB, 0, 3, map[], map[1 := (1, 2)])
  {
    var r2: Regs := map[1 := (1, 2)];
    TwoLetters();
    assert ABB.str[1..2] == [98] && ABB.str[2..3] == [98];
    assert OpAt(ABB, BackRef(1), 2, 3, r2);
    assert M(Context(BackRef(1)), ABB, 2, 3, r2, r2);
  }

  // ----- What the analyses say of some patterns -----

  lemma AnalysesOfGroups()
    ensures var p := Parens(Alt(Str([97, 98]), Str([99, 100])), 1);
      Len(p) == 2 && Entered(p) == {97, 99} && !MayBeEmpty(p) && !Anchored(p) && Observed(p)
    ensures var p := Plus(Str([97]));
      Len(p) == -1 && Entered(p) == {97} && !MayBeEmpty(p) && !Anchored(p) && !Observed(p)
  {
  }

  lemma AnalysesOfAnchors()
    ensures var p := Concat(Context(Bol), Str([97, 98]));
      Len(p) == 2 && MayBeEmpty(p) && Anchored(p) && Observed(p) && Anchored(Plus(p)) && Anchored(Interval(p, 1, 2))
    ensures var p := Alt(Concat(Context(Bol), Str([97])), Str([98, 99]));
      Len(p) == -1 && !Anchored(p)
    ensures !Anchored(Context(Eol)) && Len(Context(BackRef(1))) == -1 && Len(Opt(Str([97]))) == -1
  {
  }
}
