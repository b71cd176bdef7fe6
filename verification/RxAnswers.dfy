/** The answers of the backtracking matcher (rx/rxspencer.c), as one list in the order in which they
    are given.  The list is what the resumable matcher of RxSpencer is proved against; here it is
    shown to hold exactly the register files that the meaning of the tree allows. */
module RxAnswers {
  import opened RxSyntax
  import opened RxAnalysis
  import opened RxNfa
  import opened RxSubset
  import opened RxSimp
  import opened RxFit

  datatype Env = Env(c: Ctx, gs: Groups)

  predicate Span(env: Env, i: nat, j: nat) {
    i <= j <= env.c.len <= |env.c.str|
  }

  /** The tree can match the empty string somewhere. */
  predicate Nullable(e: Rexp) {
    match e
    case Null => true
    case Cset(_) => false
    case Str(s) => s == []
    case Concat(l, r) => Nullable(l) && Nullable(r)
    case Alt(l, r) => Nullable(l) || Nullable(r)
    case Opt(_) => true
    case Star(_) => true
    case Plus(b) => Nullable(b)
    case Interval(b, lo, _) => lo == 0 || Nullable(b)
    case Parens(b, _) => Nullable(b)
    case Context(_) => true
  }

  /** No star that is matched by backtracking repeats a body that can be empty. */
  predicate Progresses(e: Rexp) {
    !Observed(e) ||
    match e
    case Concat(l, r) => Progresses(l) && Progresses(r)
    case Alt(l, r) => Progresses(l) && Progresses(r)
    case Opt(b) => Progresses(b)
    case Star(b) => !Nullable(b) && Progresses(b)
    case Plus(b) => !Nullable(b) && Progresses(b)
    case Interval(b, _, _) => Progresses(b)
    case Parens(b, _) => Progresses(b)
    case _ => true
  }

  ghost predicate Ready(e: Rexp, env: Env) {
    Resolved(e, env.gs) && Progresses(e)
  }

  lemma {:induction false} RoughNullable(e: Rexp, w: Text, i: nat)
    requires !Observed(e) && i <= |w| && Rough(e, w, i, i)
    ensures Nullable(e)
  {
    match e
    case Concat(x, y) =>
      RoughNullable(x, w, i);
      RoughNullable(y, w, i);
    case Alt(x, y) =>
      if Rough(x, w, i, i) {
        RoughNullable(x, w, i);
      } else {
        RoughNullable(y, w, i);
      }
    case Plus(b) =>
      var n: nat :| n >= 1 && RoughIter(b, w, n, i, i);
      assert Rough(b, w, i, i);
      RoughNullable(b, w, i);
    case _ =>
  }

  lemma FitNullable(e: Rexp, w: Text, i: nat)
    requires !Observed(e) && Plain(e) && i <= |w| && Fits(e, w, i, i)
    ensures Nullable(e)
  {
    assert w[i..i] == [];
    FitExact(e, w, i, i);
    RoughNullable(e, w, i);
  }

  function Marked(ls: seq<Regs>, g: nat, i: nat, j: nat): (s: seq<Regs>)
    ensures |s| == |ls| && forall k :: 0 <= k < |ls| ==> s[k] == SetGroup(ls[k], g, i, j)
  {
    seq(|ls|, k requires 0 <= k < |ls| => SetGroup(ls[k], g, i, j))
  }

  function Rest(e: Rexp, x: nat): nat {
    if e.Interval? && x < e.hi then e.hi - x else 0
  }

  predicate Splittable(e: Rexp) {
    Observed(e) && (e.Concat? || e.Star? || e.Plus? || e.Interval?)
  }

  /** The tree of the `left` solutions */
  function First(e: Rexp): Rexp
    requires Splittable(e)
  {
    if e.Concat? then e.l else e.body
  }

  /** A tree without groups, or with an automaton of its own: one run decides. */
  ghost predicate Decided(e: Rexp, env: Env, i: nat, j: nat)
    requires Ready(e, env) && Span(env, i, j) && !Observed(e)
  {
    UnobservedPlain(e);
    if e.Null? then i == j
    else if e.Str? then env.c.str[i..j] == e.s
    else Fits(e, env.c.str, i, j)
  }

  /** The first tests of rx_next_solution: the known length, then the rough fit. */
  ghost predicate Rejected(e: Rexp, env: Env, i: nat, j: nat)
    requires Ready(e, env) && Span(env, i, j)
  {
    (Len(e) >= 0 && Len(e) != j - i) ||
    (if Observed(e) then !Fits(Simple(e, env.gs), env.c.str, i, j) else !Decided(e, env, i, j))
  }

  /** The answers of rx_next_solution for `e` on [i, j), from registers `r`; `x` is interval_x. */
  ghost function Sols(e: Rexp, x: nat, env: Env, i: nat, j: nat, r: Regs): (s: seq<Regs>)
    requires Ready(e, env) && Span(env, i, j)
    ensures i == j && x == 0 && !Nullable(e) ==> s == []
    decreases e, Rest(e, x), j - i, 3, 0
  {
    if Rejected(e, env, i, j) then []
    else if !Observed(e) then
      DecidedNullable(e, env, i, j);
      [r]
    else
      match e
      case Parens(b, g) =>
        if Observed(b) then Marked(Sols(b, 0, env, i, j, r), g, i, j)
        else
          if i == j then FitNullable(b, env.c.str, i); [SetGroup(r, g, i, j)] else [SetGroup(r, g, i, j)]
      case Alt(a, b) => Sols(a, 0, env, i, j, r) + Sols(b, 0, env, i, j, r)
      case Opt(b) => Sols(b, 0, env, i, j, r) + if i == j then [r] else []
      case Context(op) => if OpAt(env.c, op, i, j, r) then [r] else []
      case Concat(_, _) => Splits(e, x, env, i, j, j, r)
      case Plus(_) => Splits(e, x, env, i, j, j, r)
      case Star(_) => Splits(e, x, env, i, j, j, r) + if i == j then [r] else []
      case Interval(_, lo, hi) =>
        (if x <= hi && lo <= x && i == j then [r] else []) +
        (if x < hi then Splits(e, x, env, i, j, j, r) else [])
  }

  /** The answers in which `left` ends at `k` or before: the guesses go down from `k`. */
  ghost function Splits(e: Rexp, x: nat, env: Env, i: nat, k: nat, j: nat, r: Regs): (s: seq<Regs>)
    requires Ready(e, env) && Span(env, i, j) && i <= k <= j
    requires Splittable(e) && (e.Interval? ==> x < e.hi)
    ensures i == j && !Nullable(e) ==> s == []
    decreases e, Rest(e, x), j - i, 2, k
  {
    var here := Lefts(e, x, env, i, k, j, Sols(First(e), 0, env, i, k, r));
    if k > i then here + Splits(e, x, env, i, k - 1, j, r) else here
  }

  /** The answers that go on from each of the `left` answers in turn */
  ghost function Lefts(e: Rexp, x: nat, env: Env, i: nat, k: nat, j: nat, ls: seq<Regs>): (s: seq<Regs>)
    requires Ready(e, env) && Span(env, i, j) && i <= k <= j
    requires Splittable(e) && (e.Interval? ==> x < e.hi)
    requires (e.Star? || e.Plus?) && ls != [] ==> i < k
    ensures k == j && e.Concat? && !Nullable(e.r) ==> s == []
    decreases e, Rest(e, x), j - i, 1, |ls|
  {
    if ls == [] then [] else After(e, x, env, i, k, j, ls[0]) + Lefts(e, x, env, i, k, j, ls[1..])
  }

  /** The answers that go on from one `left` answer */
  ghost function After(e: Rexp, x: nat, env: Env, i: nat, k: nat, j: nat, l: Regs): (s: seq<Regs>)
    requires Ready(e, env) && Span(env, i, j) && i <= k <= j
    requires Splittable(e) && (e.Interval? ==> x < e.hi)
    requires e.Star? || e.Plus? ==> i < k
    ensures k == j && e.Concat? && !Nullable(e.r) ==> s == []
    decreases e, Rest(e, x), j - i, 0, 0
  {
    if e.Concat? then Sols(e.r, 0, env, k, j, l)
    else if e.Interval? then Sols(e, x + 1, env, k, j, l)
    else (if k == j then [l] else []) + Sols(e, 0, env, k, j, l)
  }

  lemma DecidedNullable(e: Rexp, env: Env, i: nat, j: nat)
    requires Ready(e, env) && Span(env, i, j) && !Observed(e) && Decided(e, env, i, j)
    ensures i == j ==> Nullable(e)
  {
    UnobservedPlain(e);
    if i == j && !e.Null? && !e.Str? {
      FitNullable(e, env.c.str, i);
    }
  }

  // ----- Where an answer with a split comes from -----

  ghost predicate Continues(e: Rexp, x: nat, env: Env, i: nat, k: nat, j: nat, r: Regs, l: Regs, r2: Regs) {
    && Ready(e, env) && Span(env, i, j) && i <= k <= j
    && Splittable(e) && (e.Interval? ==> x < e.hi)
    && l in Sols(First(e), 0, env, i, k, r)
    && (e.Star? || e.Plus? ==> i < k)
    && r2 in After(e, x, env, i, k, j, l)
  }

  lemma {:induction false} LeftsHas(e: Rexp, x: nat, env: Env, i: nat, k: nat, j: nat, ls: seq<Regs>, l: Regs, r2: Regs)
    requires Ready(e, env) && Span(env, i, j) && i <= k <= j
    requires Splittable(e) && (e.Interval? ==> x < e.hi)
    requires e.Star? || e.Plus? ==> i < k
    requires l in ls && r2 in After(e, x, env, i, k, j, l)
    ensures r2 in Lefts(e, x, env, i, k, j, ls)
    decreases |ls|
  {
    if l != ls[0] {
      LeftsHas(e, x, env, i, k, j, ls[1..], l, r2);
    }
  }

  lemma {:induction false} LeftsFrom(e: Rexp, x: nat, env: Env, i: nat, k: nat, j: nat, ls: seq<Regs>, r2: Regs) returns (l: Regs)
    requires Ready(e, env) && Span(env, i, j) && i <= k <= j
    requires Splittable(e) && (e.Interval? ==> x < e.hi)
    requires (e.Star? || e.Plus?) && ls != [] ==> i < k
    requires r2 in Lefts(e, x, env, i, k, j, ls)
    ensures l in ls && (e.Star? || e.Plus? ==> i < k) && r2 in After(e, x, env, i, k, j, l)
    decreases |ls|
  {
    if r2 in After(e, x, env, i, k, j, ls[0]) {
      l := ls[0];
    } else {
      l := LeftsFrom(e, x, env, i, k, j, ls[1..], r2);
    }
  }

  lemma {:induction false} SplitsHas(e: Rexp, x: nat, env: Env, i: nat, k: nat, m: nat, j: nat, r: Regs, l: Regs, r2: Regs)
    requires Continues(e, x, env, i, k, j, r, l, r2) && k <= m <= j
    ensures r2 in Splits(e, x, env, i, m, j, r)
    decreases m
  {
    if m == k {
      LeftsHas(e, x, env, i, k, j, Sols(First(e), 0, env, i, k, r), l, r2);
    } else {
      SplitsHas(e, x, env, i, k, m - 1, j, r, l, r2);
    }
  }

  lemma {:induction false} SplitsFrom(e: Rexp, x: nat, env: Env, i: nat, m: nat, j: nat, r: Regs, r2: Regs) returns (k: nat, l: Regs)
    requires Ready(e, env) && Span(env, i, j) && i <= m <= j
    requires Splittable(e) && (e.Interval? ==> x < e.hi)
    requires r2 in Splits(e, x, env, i, m, j, r)
    ensures Continues(e, x, env, i, k, j, r, l, r2)
    decreases m
  {
    var ls := Sols(First(e), 0, env, i, m, r);
    if r2 in Lefts(e, x, env, i, m, j, ls) {
      k := m;
      l := LeftsFrom(e, x, env, i, m, j, ls, r2);
    } else {
      k, l := SplitsFrom(e, x, env, i, m - 1, j, r, r2);
    }
  }

  // ----- The answers are the matches -----

  predicate Repeats(e: Rexp) {
    e.Star? || e.Plus? || e.Interval?
  }

  /** `n` more iterations are allowed after `x`; only an interval counts. */
  predicate Counted(e: Rexp, x: nat, n: nat) {
    match e
    case Plus(_) => n >= 1
    case Interval(_, lo, hi) => lo <= n + x <= hi
    case _ => true
  }

  /** What `e` means when `x` iterations of it, if it is an interval, have been made. */
  ghost predicate Means(e: Rexp, x: nat, c: Ctx, i: nat, j: nat, r: Regs, r2: Regs)
    requires i <= j <= c.len <= |c.str|
  {
    if Repeats(e) then exists n: nat :: Counted(e, x, n) && Iter(e.body, c, n, i, j, r, r2)
    else M(e, c, i, j, r, r2)
  }

  lemma MeansM(e: Rexp, c: Ctx, i: nat, j: nat, r: Regs, r2: Regs)
    requires i <= j <= c.len <= |c.str| && Means(e, 0, c, i, j, r, r2)
    ensures M(e, c, i, j, r, r2)
  {
    if Repeats(e) {
      var n: nat :| Counted(e, 0, n) && Iter(e.body, c, n, i, j, r, r2);
      assert e.Interval? ==> e.lo <= n <= e.hi;
    }
  }

  lemma MMeans(e: Rexp, c: Ctx, i: nat, j: nat, r: Regs, r2: Regs)
    requires i <= j <= c.len <= |c.str| && M(e, c, i, j, r, r2)
    ensures Means(e, 0, c, i, j, r, r2)
  {
    match e
    case Star(b) =>
      var n: nat :| Iter(b, c, n, i, j, r, r2);
      assert Counted(e, 0, n);
    case Plus(b) =>
      var n: nat :| n >= 1 && Iter(b, c, n, i, j, r, r2);
      assert Counted(e, 0, n);
    case Interval(b, lo, hi) =>
      var n: nat :| lo <= n <= hi && Iter(b, c, n, i, j, r, r2);
      assert Counted(e, 0, n);
    case _ =>
  }

  lemma IterCons(b: Rexp, c: Ctx, n: nat, i: nat, k: nat, j: nat, r: Regs, l: Regs, r2: Regs)
    requires i <= k <= j <= c.len <= |c.str|
    requires M(b, c, i, k, r, l) && Iter(b, c, n, k, j, l, r2)
    ensures Iter(b, c, n + 1, i, j, r, r2)
  {
  }

  ghost predicate AllInspected(c: Ctx) {
    c.len <= |c.str| && forall k :: 0 <= k < c.len ==> c.str[k] < INSPECTED
  }

  lemma DecidedSound(e: Rexp, env: Env, i: nat, j: nat, r: Regs)
    requires Ready(e, env) && Span(env, i, j) && !Observed(e) && AllInspected(env.c) && Decided(e, env, i, j)
    ensures M(e, env.c, i, j, r, r)
  {
    if !e.Null? && !e.Str? {
      UnobservedPlain(e);
      FitExact(e, env.c.str, i, j);
      UnobservedComplete(e, env.c, i, j, r);
    }
  }

  lemma {:induction false} SolsSound(e: Rexp, x: nat, env: Env, i: nat, j: nat, r: Regs, r2: Regs)
    requires Ready(e, env) && Span(env, i, j) && AllInspected(env.c) && r2 in Sols(e, x, env, i, j, r)
    ensures Means(e, x, env.c, i, j, r, r2)
    decreases e, Rest(e, x), j - i, 3
  {
    if !Observed(e) {
      DecidedSound(e, env, i, j, r);
      MMeans(e, env.c, i, j, r, r2);
    } else if Splittable(e) {
      SplitSound(e, x, env, i, j, r, r2);
    } else {
      WholeSound(e, env, i, j, r, r2);
    }
  }

  /** An answer on the same span as one part's answer */
  lemma {:induction false} WholeSound(e: Rexp, env: Env, i: nat, j: nat, r: Regs, r2: Regs)
    requires Ready(e, env) && Span(env, i, j) && AllInspected(env.c) && r2 in Sols(e, 0, env, i, j, r)
    requires Observed(e) && !Splittable(e)
    ensures M(e, env.c, i, j, r, r2)
    decreases e, 0, 0, 0
  {
    match e
    case Parens(b, g) =>
      if Observed(b) {
        var ls := Sols(b, 0, env, i, j, r);
        var n :| 0 <= n < |ls| && r2 == SetGroup(ls[n], g, i, j);
        SolsSound(b, 0, env, i, j, r, ls[n]);
        MeansM(b, env.c, i, j, r, ls[n]);
      } else {
        FitExact(b, env.c.str, i, j);
        UnobservedComplete(b, env.c, i, j, r);
      }
    case Alt(a, b) =>
      if r2 in Sols(a, 0, env, i, j, r) {
        SolsSound(a, 0, env, i, j, r, r2);
        MeansM(a, env.c, i, j, r, r2);
      } else {
        SolsSound(b, 0, env, i, j, r, r2);
        MeansM(b, env.c, i, j, r, r2);
      }
    case Opt(b) =>
      if r2 in Sols(b, 0, env, i, j, r) {
        SolsSound(b, 0, env, i, j, r, r2);
        MeansM(b, env.c, i, j, r, r2);
      }
    case Context(_) =>
  }

  lemma {:induction false} SplitSound(e: Rexp, x: nat, env: Env, i: nat, j: nat, r: Regs, r2: Regs)
    requires Ready(e, env) && Span(env, i, j) && AllInspected(env.c) && r2 in Sols(e, x, env, i, j, r)
    requires Splittable(e)
    ensures Means(e, x, env.c, i, j, r, r2)
    decreases e, Rest(e, x), j - i, 2
  {
    if (e.Interval? ==> x < e.hi) && r2 in Splits(e, x, env, i, j, j, r) {
      var k, l := SplitsFrom(e, x, env, i, j, j, r, r2);
      ContinuesSound(e, x, env, i, k, j, r, l, r2);
    } else {
      assert Iter(e.body, env.c, 0, i, j, r, r2) && Counted(e, x, 0);
    }
  }

  lemma {:induction false} ContinuesSound(e: Rexp, x: nat, env: Env, i: nat, k: nat, j: nat, r: Regs, l: Regs, r2: Regs)
    requires Continues(e, x, env, i, k, j, r, l, r2) && AllInspected(env.c)
    ensures Means(e, x, env.c, i, j, r, r2)
    decreases e, Rest(e, x), j - i, 1
  {
    SolsSound(First(e), 0, env, i, k, r, l);
    MeansM(First(e), env.c, i, k, r, l);
    if e.Concat? {
      SolsSound(e.r, 0, env, k, j, l, r2);
      MeansM(e.r, env.c, k, j, l, r2);
    } else {
      var n := MoreSound(e, x, env, i, k, j, r, l, r2);
      IterCons(e.body, env.c, n, i, k, j, r, l, r2);
    }
  }

  lemma {:induction false} MoreSound(e: Rexp, x: nat, env: Env, i: nat, k: nat, j: nat, r: Regs, l: Regs, r2: Regs) returns (n: nat)
    requires Continues(e, x, env, i, k, j, r, l, r2) && AllInspected(env.c) && Repeats(e)
    ensures Iter(e.body, env.c, n, k, j, l, r2) && Counted(e, x, n + 1)
    decreases e, Rest(e, x), j - i, 0
  {
    if e.Interval? {
      SolsSound(e, x + 1, env, k, j, l, r2);
      n :| Counted(e, x + 1, n) && Iter(e.body, env.c, n, k, j, l, r2);
    } else if r2 in Sols(e, 0, env, k, j, l) {
      SolsSound(e, 0, env, k, j, l, r2);
      n :| Counted(e, 0, n) && Iter(e.body, env.c, n, k, j, l, r2);
    } else {
      n := 0;
    }
  }

  /** What a matcher may start from: the table lists the groups, and the registers are in order. */
  ghost predicate Prepared(e: Rexp, env: Env, r: Regs) {
    && Ready(e, env) && Listed(e, env.gs) && env.c.len <= |env.c.str|
    && Comparable(e, env.gs, env.c) && Recorded(r, env.gs, env.c)
  }

  lemma PreparedFirst(e: Rexp, env: Env, i: nat, k: nat, r: Regs, l: Regs)
    requires Prepared(e, env, r) && Splittable(e) && Span(env, i, k) && M(First(e), env.c, i, k, r, l)
    ensures Prepared(First(e), env, r) && Prepared(e, env, l)
  {
    SimplifyKeepsMatches(First(e), env.gs, env.c, i, k, r, l);
  }

  /** No test before the search rejects a match. */
  lemma NotRejected(e: Rexp, x: nat, env: Env, i: nat, j: nat, r: Regs, r2: Regs)
    requires Prepared(e, env, r) && Span(env, i, j) && Means(e, x, env.c, i, j, r, r2)
    ensures !Rejected(e, env, i, j)
  {
    if e.Interval? {
      var n: nat :| Counted(e, x, n) && Iter(e.body, env.c, n, i, j, r, r2);
      SimplifyKeepsIterations(e.body, env.gs, env.c, n, i, j, r, r2);
      FitNeverLoses(Simple(e, env.gs), env.c.str, i, j);
    } else {
      MeansNotRejected(e, x, env, i, j, r, r2);
    }
  }

  lemma MeansNotRejected(e: Rexp, x: nat, env: Env, i: nat, j: nat, r: Regs, r2: Regs)
    requires Prepared(e, env, r) && Span(env, i, j) && Means(e, x, env.c, i, j, r, r2) && !e.Interval?
    ensures !Rejected(e, env, i, j)
  {
    assert Means(e, 0, env.c, i, j, r, r2) by {
      if Repeats(e) {
        var n: nat :| Counted(e, x, n) && Iter(e.body, env.c, n, i, j, r, r2);
        assert Counted(e, 0, n);
      }
    }
    MeansM(e, env.c, i, j, r, r2);
    if Len(e) >= 0 {
      LenSound(e, env.c, i, j, r, r2);
    }
    SimplifyKeepsMatches(e, env.gs, env.c, i, j, r, r2);
    FitNeverLoses(Simple(e, env.gs), env.c.str, i, j);
  }

  /** Every match is answered. */
  lemma {:induction false} SolsComplete(e: Rexp, x: nat, env: Env, i: nat, j: nat, r: Regs, r2: Regs)
    requires Prepared(e, env, r) && Span(env, i, j) && Means(e, x, env.c, i, j, r, r2)
    ensures r2 in Sols(e, x, env, i, j, r)
    decreases e, Rest(e, x), j - i, 2
  {
    NotRejected(e, x, env, i, j, r, r2);
    if !Observed(e) {
      UnobservedKeepsRegs(e, x, env, i, j, r, r2);
    } else if Repeats(e) {
      var n: nat :| Counted(e, x, n) && Iter(e.body, env.c, n, i, j, r, r2);
      RepeatComplete(e, x, env, n, i, j, r, r2);
    } else if e.Concat? {
      ConcatComplete(e, env, i, j, r, r2);
    } else {
      WholeComplete(e, env, i, j, r, r2);
    }
  }

  lemma UnobservedKeepsRegs(e: Rexp, x: nat, env: Env, i: nat, j: nat, r: Regs, r2: Regs)
    requires !Observed(e) && Span(env, i, j) && Means(e, x, env.c, i, j, r, r2)
    ensures r2 == r
  {
    if Repeats(e) {
      var n: nat :| Counted(e, x, n) && Iter(e.body, env.c, n, i, j, r, r2);
      UnobservedIterSound(e.body, env.c, n, i, j, r, r2);
    } else {
      UnobservedSound(e, env.c, i, j, r, r2);
    }
  }

  lemma {:induction false} WholeComplete(e: Rexp, env: Env, i: nat, j: nat, r: Regs, r2: Regs)
    requires Prepared(e, env, r) && Span(env, i, j) && M(e, env.c, i, j, r, r2)
    requires Observed(e) && !Splittable(e) && !Rejected(e, env, i, j)
    ensures r2 in Sols(e, 0, env, i, j, r)
    decreases e, 0, 0, 0
  {
    match e
    case Parens(b, g) =>
      var r1 :| M(b, env.c, i, j, r, r1) && r2 == SetGroup(r1, g, i, j);
      if Observed(b) {
        MMeans(b, env.c, i, j, r, r1);
        SolsComplete(b, 0, env, i, j, r, r1);
        var ls := Sols(b, 0, env, i, j, r);
        var n :| 0 <= n < |ls| && ls[n] == r1;
        assert Marked(ls, g, i, j)[n] == r2;
      } else {
        UnobservedSound(b, env.c, i, j, r, r1);
      }
    case Alt(a, b) =>
      if M(a, env.c, i, j, r, r2) {
        MMeans(a, env.c, i, j, r, r2);
        SolsComplete(a, 0, env, i, j, r, r2);
      } else {
        MMeans(b, env.c, i, j, r, r2);
        SolsComplete(b, 0, env, i, j, r, r2);
      }
    case Opt(b) =>
      if M(b, env.c, i, j, r, r2) {
        MMeans(b, env.c, i, j, r, r2);
        SolsComplete(b, 0, env, i, j, r, r2);
      }
    case Context(_) =>
  }

  lemma {:induction false} ConcatComplete(e: Rexp, env: Env, i: nat, j: nat, r: Regs, r2: Regs)
    requires Prepared(e, env, r) && Span(env, i, j) && M(e, env.c, i, j, r, r2)
    requires e.Concat? && Observed(e) && !Rejected(e, env, i, j)
    ensures forall x: nat :: r2 in Sols(e, x, env, i, j, r)
    decreases e, 0, 0, 0
  {
    var c := env.c;
    var k: nat, l :| i <= k <= j && M(e.l, c, i, k, r, l) && M(e.r, c, k, j, l, r2);
    PreparedFirst(e, env, i, k, r, l);
    MMeans(e.l, c, i, k, r, l);
    SolsComplete(e.l, 0, env, i, k, r, l);
    MMeans(e.r, c, k, j, l, r2);
    SolsComplete(e.r, 0, env, k, j, l, r2);
    forall x: nat ensures r2 in Sols(e, x, env, i, j, r) {
      SplitsHas(e, x, env, i, k, j, j, r, l, r2);
    }
  }

  lemma {:induction false} RepeatComplete(e: Rexp, x: nat, env: Env, n: nat, i: nat, j: nat, r: Regs, r2: Regs)
    requires Prepared(e, env, r) && Span(env, i, j) && Counted(e, x, n) && Repeats(e) && Iter(e.body, env.c, n, i, j, r, r2)
    requires Observed(e) && !Rejected(e, env, i, j)
    ensures r2 in Sols(e, x, env, i, j, r)
    decreases e, Rest(e, x), j - i, 1
  {
    if n > 0 {
      var b, c := e.body, env.c;
      var k: nat, l :| i <= k <= j && M(b, c, i, k, r, l) && Iter(b, c, n - 1, k, j, l, r2);
      PreparedFirst(e, env, i, k, r, l);
      MMeans(b, c, i, k, r, l);
      SolsComplete(b, 0, env, i, k, r, l);
      AfterComplete(e, x, env, n - 1, i, k, j, l, r2);
      SplitsHas(e, x, env, i, k, j, j, r, l, r2);
    }
  }

  lemma {:induction false} AfterComplete(e: Rexp, x: nat, env: Env, n: nat, i: nat, k: nat, j: nat, l: Regs, r2: Regs)
    requires Prepared(e, env, l) && Span(env, i, j) && i <= k <= j
    requires Splittable(e) && Repeats(e) && Counted(e, x, n + 1) && (e.Star? || e.Plus? ==> i < k)
    requires Iter(e.body, env.c, n, k, j, l, r2)
    ensures r2 in After(e, x, env, i, k, j, l)
    decreases e, Rest(e, x), j - i, 0
  {
    if e.Interval? {
      assert Counted(e, x + 1, n);
      SolsComplete(e, x + 1, env, k, j, l, r2);
    } else if n > 0 {
      assert Counted(e, 0, n);
      SolsComplete(e, 0, env, k, j, l, r2);
    }
  }

  /** For every tree, span and starting registers: the answers are exactly the matches. */
  lemma AnswersAreMatches(e: Rexp, env: Env, i: nat, j: nat, r: Regs, r2: Regs)
    requires Prepared(e, env, r) && Span(env, i, j)
    ensures M(e, env.c, i, j, r, r2) ==> r2 in Sols(e, 0, env, i, j, r)
    ensures AllInspected(env.c) ==> (r2 in Sols(e, 0, env, i, j, r) <==> M(e, env.c, i, j, r, r2))
  {
    if M(e, env.c, i, j, r, r2) {
      MMeans(e, env.c, i, j, r, r2);
      SolsComplete(e, 0, env, i, j, r, r2);
    }
    if AllInspected(env.c) && r2 in Sols(e, 0, env, i, j, r) {
      SolsSound(e, 0, env, i, j, r, r2);
      MeansM(e, env.c, i, j, r, r2);
    }
  }

  /** Whatever the automata say, an answer of an anchored tree has passed a '^' at its start. */
  lemma {:induction false} SolsAnchored(e: Rexp, x: nat, env: Env, i: nat, j: nat, r: Regs, r2: Regs)
    requires Ready(e, env) && Span(env, i, j) && r2 in Sols(e, x, env, i, j, r)
    requires Anchored(e) && (e.Interval? ==> x == 0)
    ensures BolAt(env.c, i)
    decreases e
  {
    AnchoredObserved(e);
    if Splittable(e) {
      var k, l := SplitsFrom(e, x, env, i, j, j, r, r2);
      SolsAnchored(First(e), 0, env, i, k, r, l);
    } else if e.Parens? {
      AnchoredObserved(e.body);
      var ls := Sols(e.body, 0, env, i, j, r);
      var n :| 0 <= n < |ls| && r2 == SetGroup(ls[n], e.group, i, j);
      SolsAnchored(e.body, 0, env, i, j, r, ls[n]);
    } else if e.Alt? {
      if r2 in Sols(e.l, 0, env, i, j, r) {
        SolsAnchored(e.l, 0, env, i, j, r, r2);
      } else {
        SolsAnchored(e.r, 0, env, i, j, r, r2);
      }
    }
  }

  lemma {:induction false} AnchoredObserved(e: Rexp)
    requires Anchored(e)
    ensures Observed(e)
  {
    match e
    case Concat(l, _) => AnchoredObserved(l);
    case Alt(l, r) => AnchoredObserved(l);
    case Plus(b) => AnchoredObserved(b);
    case _ =>
  }
}
