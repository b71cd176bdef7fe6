/** rx/rxsimp.c: a tree with groups, anchors and back references is replaced by a regular expression
    that matches at least as much.  The automaton of that expression is the rough fit test. */
module RxSimp {
  import opened RxSyntax
  import opened RxAnalysis
  import opened RxNfa

  /** The subexps table of a pattern, with the order in which the groups are closed. */
  datatype Groups = Groups(node: map<nat, Rexp>, closed: map<nat, nat>, top: nat)

  /** Every back reference in `e` names a group closed before the `bound`-th closing. */
  predicate RefsBelow(e: Rexp, gs: Groups, bound: nat) {
    match e
    case Concat(l, r) => RefsBelow(l, gs, bound) && RefsBelow(r, gs, bound)
    case Alt(l, r) => RefsBelow(l, gs, bound) && RefsBelow(r, gs, bound)
    case Opt(b) => RefsBelow(b, gs, bound)
    case Star(b) => RefsBelow(b, gs, bound)
    case Plus(b) => RefsBelow(b, gs, bound)
    case Interval(b, _, _) => RefsBelow(b, gs, bound)
    case Parens(b, _) => RefsBelow(b, gs, bound)
    case Context(op) => op.BackRef? ==> op.k in gs.node && op.k in gs.closed && gs.closed[op.k] < bound
    case _ => true
  }

  ghost predicate Ranked(gs: Groups) {
    forall k :: k in gs.node ==>
      k in gs.closed && gs.closed[k] <= gs.top && RefsBelow(gs.node[k], gs, gs.closed[k]) && WellFormed(gs.node[k])
  }

  lemma {:induction false} RefsBelowMono(e: Rexp, gs: Groups, a: nat, b: nat)
    requires RefsBelow(e, gs, a) && a <= b
    ensures RefsBelow(e, gs, b)
  {
    match e
    case Concat(l, r) =>
      RefsBelowMono(l, gs, a, b);
      RefsBelowMono(r, gs, a, b);
    case Alt(l, r) =>
      RefsBelowMono(l, gs, a, b);
      RefsBelowMono(r, gs, a, b);
    case Opt(x) => RefsBelowMono(x, gs, a, b);
    case Star(x) => RefsBelowMono(x, gs, a, b);
    case Plus(x) => RefsBelowMono(x, gs, a, b);
    case Interval(x, _, _) => RefsBelowMono(x, gs, a, b);
    case Parens(x, _) => RefsBelowMono(x, gs, a, b);
    case _ =>
  }

  /** rx_simple_rexp.  A back reference is replaced by the tree of its group, so the recursion leaves
      the tree; it ends because that group was closed earlier. */
  function Simplify(e: Rexp, gs: Groups, ghost bound: nat): (s: Rexp)
    requires Ranked(gs) && RefsBelow(e, gs, bound) && WellFormed(e)
    ensures Plain(s)
    ensures !Observed(e) ==> s == e
    decreases bound, e
  {
    if !Observed(e) then
      UnobservedPlain(e);
      e
    else
      match e
      case Parens(b, _) => Simplify(b, gs, bound)
      case Context(BackRef(k)) => Simplify(gs.node[k], gs, gs.closed[k])
      case Context(_) => Null
      case Concat(l, r) => Concat(Simplify(l, gs, bound), Simplify(r, gs, bound))
      case Alt(l, r) => Alt(Simplify(l, gs, bound), Simplify(r, gs, bound))
      case Opt(b) => Opt(Simplify(b, gs, bound))
      case Star(b) => Star(Simplify(b, gs, bound))
      case Plus(b) => Plus(Simplify(b, gs, bound))
      case Interval(b, lo, hi) => Interval(Simplify(b, gs, bound), lo, hi)
  }

  lemma {:induction false} UnobservedPlain(e: Rexp)
    requires !Observed(e) && WellFormed(e)
    ensures Plain(e)
  {
    match e
    case Concat(l, r) =>
      UnobservedPlain(l);
      UnobservedPlain(r);
    case Alt(l, r) =>
      UnobservedPlain(l);
      UnobservedPlain(r);
    case Opt(x) => UnobservedPlain(x);
    case Star(x) => UnobservedPlain(x);
    case Plus(x) => UnobservedPlain(x);
    case _ =>
  }

  /** The memo of a node does not depend on where the recursion came from. */
  lemma {:induction false} SimplifySame(e: Rexp, gs: Groups, a: nat, b: nat)
    requires Ranked(gs) && RefsBelow(e, gs, a) && RefsBelow(e, gs, b) && WellFormed(e)
    ensures Simplify(e, gs, a) == Simplify(e, gs, b)
  {
    if Observed(e) {
      match e
      case Concat(l, r) =>
        SimplifySame(l, gs, a, b);
        SimplifySame(r, gs, a, b);
      case Alt(l, r) =>
        SimplifySame(l, gs, a, b);
        SimplifySame(r, gs, a, b);
      case Opt(x) => SimplifySame(x, gs, a, b);
      case Star(x) => SimplifySame(x, gs, a, b);
      case Plus(x) => SimplifySame(x, gs, a, b);
      case Interval(x, _, _) => SimplifySame(x, gs, a, b);
      case Parens(x, _) => SimplifySame(x, gs, a, b);
      case _ =>
    }
  }

  ghost predicate Resolved(e: Rexp, gs: Groups) {
    Ranked(gs) && RefsBelow(e, gs, gs.top) && WellFormed(e)
  }

  function Simple(e: Rexp, gs: Groups): (s: Rexp)
    requires Resolved(e, gs)
    ensures Plain(s)
  {
    Simplify(e, gs, gs.top)
  }

  /** The `simplified` fields of the nodes, which rx_simple_rexp fills in as it goes. */
  class Memo {
    var simplified: map<Rexp, Rexp>

    ghost predicate Valid(gs: Groups)
      reads this
    {
      Ranked(gs) &&
      forall e :: e in simplified ==> WellFormed(e) && RefsBelow(e, gs, gs.top) && simplified[e] == Simplify(e, gs, gs.top)
    }

    constructor ()
      ensures simplified == map[]
    {
      simplified := map[];
    }

    method SimpleRexp(e: Rexp, gs: Groups, ghost bound: nat) returns (answer: Rexp)
      requires Valid(gs) && RefsBelow(e, gs, bound) && WellFormed(e) && bound <= gs.top
      modifies this
      ensures Valid(gs)
      ensures answer == Simplify(e, gs, bound)
      ensures Observed(e) ==> e in simplified
      ensures old(simplified).Keys <= simplified.Keys
      decreases bound, e
    {
      RefsBelowMono(e, gs, bound, gs.top);
      SimplifySame(e, gs, bound, gs.top);
      if !Observed(e) {
        return e;
      }
      if e in simplified {
        return simplified[e];
      }
      match e {
        case Parens(b, _) => answer := SimpleRexp(b, gs, bound);
        case Context(BackRef(k)) => answer := SimpleRexp(gs.node[k], gs, gs.closed[k]);
        case Context(_) => answer := Null;
        case Concat(l, r) =>
          var x := SimpleRexp(l, gs, bound);
          var y := SimpleRexp(r, gs, bound);
          answer := Concat(x, y);
        case Alt(l, r) =>
          var x := SimpleRexp(l, gs, bound);
          var y := SimpleRexp(r, gs, bound);
          answer := Alt(x, y);
        case Opt(b) =>
          var x := SimpleRexp(b, gs, bound);
          answer := Opt(x);
        case Star(b) =>
          var x := SimpleRexp(b, gs, bound);
          answer := Star(x);
        case Plus(b) =>
          var x := SimpleRexp(b, gs, bound);
          answer := Plus(x);
        case Interval(b, lo, hi) =>
          var x := SimpleRexp(b, gs, bound);
          answer := Interval(x, lo, hi);
      }
      simplified := simplified[e := answer];
    }
  }

  // ----- Texts that differ in case only -----

  predicate Alike(a: Byte, b: Byte, fold: bool) {
    if fold then Fold(a) == Fold(b) else a == b
  }

  /** The tree does not tell letters apart by case; what compiling with REG_ICASE gives. */
  ghost predicate CaseBlind(e: Rexp) {
    match e
    case Cset(cs) => forall a: Byte, b: Byte :: Alike(a, b, true) && a in cs ==> b in cs
    case Str(s) => forall i, b: Byte :: 0 <= i < |s| && Alike(s[i], b, true) ==> b == s[i]
    case Concat(l, r) => CaseBlind(l) && CaseBlind(r)
    case Alt(l, r) => CaseBlind(l) && CaseBlind(r)
    case Opt(b) => CaseBlind(b)
    case Star(b) => CaseBlind(b)
    case Plus(b) => CaseBlind(b)
    case Interval(b, _, _) => CaseBlind(b)
    case Parens(b, _) => CaseBlind(b)
    case _ => true
  }

  /** The span of `w` at i and that of `w2` at i2 read the same for n characters. */
  ghost predicate Twin(w: Text, i: nat, w2: Text, i2: nat, n: nat, fold: bool) {
    i + n <= |w| && i2 + n <= |w2| && forall p :: i <= p < i + n ==> Alike(w[p], w2[p - i + i2], fold)
  }

  lemma TwinPart(w: Text, i: nat, w2: Text, i2: nat, n: nat, fold: bool, from: nat, m: nat)
    requires Twin(w, i, w2, i2, n, fold) && from + m <= n
    ensures Twin(w, i + from, w2, i2 + from, m, fold)
  {
  }

  lemma {:induction false} RoughTwin(e: Rexp, w: Text, i: nat, j: nat, w2: Text, i2: nat, fold: bool)
    requires i <= j <= |w| && Twin(w, i, w2, i2, j - i, fold) && (fold ==> CaseBlind(e))
    requires Rough(e, w, i, j)
    ensures Rough(e, w2, i2, i2 + (j - i))
    decreases e, 0
  {
    var j2 := i2 + (j - i);
    match e
    case Cset(cs) =>
      assert Alike(w[i], w2[i2], fold);
    case Str(s) =>
      forall k | 0 <= k < |s| ensures w2[i2..j2][k] == s[k] {
        assert Alike(w[i + k], w2[i2 + k], fold) && w[i..j][k] == w[i + k];
      }
    case Concat(x, y) =>
      var k: nat :| i <= k <= j && Rough(x, w, i, k) && Rough(y, w, k, j);
      TwinPart(w, i, w2, i2, j - i, fold, 0, k - i);
      TwinPart(w, i, w2, i2, j - i, fold, k - i, j - k);
      RoughTwin(x, w, i, k, w2, i2, fold);
      RoughTwin(y, w, k, j, w2, i2 + (k - i), fold);
    case Alt(x, y) =>
      if Rough(x, w, i, j) {
        RoughTwin(x, w, i, j, w2, i2, fold);
      } else {
        RoughTwin(y, w, i, j, w2, i2, fold);
      }
    case Opt(b) =>
      if Rough(b, w, i, j) {
        RoughTwin(b, w, i, j, w2, i2, fold);
      }
    case Star(b) =>
      var n: nat :| RoughIter(b, w, n, i, j);
      RoughTwinIter(b, w, n, i, j, w2, i2, fold);
    case Plus(b) =>
      var n: nat :| n >= 1 && RoughIter(b, w, n, i, j);
      RoughTwinIter(b, w, n, i, j, w2, i2, fold);
    case Interval(b, _, _) =>
      var n: nat :| RoughIter(b, w, n, i, j);
      RoughTwinIter(b, w, n, i, j, w2, i2, fold);
    case Parens(b, _) =>
      RoughTwin(b, w, i, j, w2, i2, fold);
    case _ =>
  }

  lemma {:induction false} RoughTwinIter(b: Rexp, w: Text, n: nat, i: nat, j: nat, w2: Text, i2: nat, fold: bool)
    requires i <= j <= |w| && Twin(w, i, w2, i2, j - i, fold) && (fold ==> CaseBlind(b))
    requires RoughIter(b, w, n, i, j)
    ensures RoughIter(b, w2, n, i2, i2 + (j - i))
    decreases b, n + 1
  {
    if n > 0 {
      var k: nat :| i <= k <= j && Rough(b, w, i, k) && RoughIter(b, w, n - 1, k, j);
      TwinPart(w, i, w2, i2, j - i, fold, 0, k - i);
      TwinPart(w, i, w2, i2, j - i, fold, k - i, j - k);
      RoughTwin(b, w, i, k, w2, i2, fold);
      RoughTwinIter(b, w, n - 1, k, j, w2, i2 + (k - i), fold);
    }
  }

  // ----- What a back reference takes for the same text -----

  predicate NoZero(t: Text) {
    forall k :: 0 <= k < |t| ==> t[k] != 0
  }

  ghost predicate Accepted(s: Rexp, t: Text) {
    Rough(s, t, 0, |t|)
  }

  /** Whether a tree accepts a span depends on its characters alone. */
  lemma AcceptedSpan(s: Rexp, w: Text, i: nat, j: nat)
    requires i <= j <= |w|
    ensures Rough(s, w, i, j) <==> Accepted(s, w[i..j])
  {
    var t := w[i..j];
    assert Twin(w, i, t, 0, j - i, false) && Twin(t, 0, w, i, j - i, false);
    if Rough(s, w, i, j) {
      RoughTwin(s, w, i, j, t, 0, false);
    }
    if Accepted(s, t) {
      RoughTwin(s, t, 0, |t|, w, i, false);
    }
  }

  predicate Compared(u: Text, v: Text, fold: bool) {
    |u| == |v| && SameText(u, v, fold)
  }

  /** A text that compares equal to an accepted one is accepted; texts with zero bytes count only
      where there are such. */
  ghost predicate SameFits(s: Rexp, fold: bool, zeros: bool) {
    forall u: Text, v: Text ::
      Compared(u, v, fold) && Accepted(s, v) && (zeros || (NoZero(u) && NoZero(v))) ==> Accepted(s, u)
  }

  lemma {:induction false} ComparedTwin(u: Text, v: Text, fold: bool)
    requires Compared(u, v, fold) && (NoZero(u) || NoZero(v))
    ensures Twin(v, 0, u, 0, |u|, fold)
    decreases |u|
  {
    if u != [] {
      assert NoZero(u) ==> u[0] != 0 && NoZero(u[1..]);
      assert NoZero(v) ==> v[0] != 0 && NoZero(v[1..]);
      ComparedTwin(u[1..], v[1..], fold);
      forall p | 0 <= p < |u| ensures Alike(v[p], u[p], fold) {
        if p > 0 {
          assert Alike(v[1..][p - 1], u[1..][p - 1], fold);
        }
      }
    }
  }

  /** Without zero bytes in the texts it is enough that a tree does not tell case apart when the
      comparison does not; */
  lemma BlindSameFits(s: Rexp, fold: bool)
    requires fold ==> CaseBlind(s)
    ensures SameFits(s, fold, false)
  {
    forall u: Text, v: Text | Compared(u, v, fold) && Accepted(s, v) && NoZero(u) && NoZero(v) ensures Accepted(s, u) {
      ComparedTwin(u, v, fold);
      RoughTwin(s, v, 0, |v|, u, 0, fold);
    }
  }

  /** and if no character of the tree is the zero byte, that is enough for all texts. */
  lemma NulFreeSameFits(s: Rexp, fold: bool)
    requires NulFree(s) && (fold ==> CaseBlind(s))
    ensures SameFits(s, fold, true)
  {
    forall u: Text, v: Text | Compared(u, v, fold) && Accepted(s, v) ensures Accepted(s, u) {
      forall k | 0 <= k < |v| ensures v[k] != 0 {
        RoughNulFree(s, v, 0, k, |v|);
      }
      ComparedTwin(u, v, fold);
      RoughTwin(s, v, 0, |v|, u, 0, fold);
    }
  }

  /** No character of the tree is the zero byte that ends a C string. */
  predicate NulFree(e: Rexp) {
    match e
    case Cset(cs) => 0 !in cs
    case Str(t) => 0 !in t
    case Concat(l, r) => NulFree(l) && NulFree(r)
    case Alt(l, r) => NulFree(l) && NulFree(r)
    case Opt(b) => NulFree(b)
    case Star(b) => NulFree(b)
    case Plus(b) => NulFree(b)
    case Interval(b, _, _) => NulFree(b)
    case Parens(b, _) => NulFree(b)
    case _ => true
  }

  lemma {:induction false} RoughNulFree(e: Rexp, w: Text, i: nat, k: nat, j: nat)
    requires i <= k < j <= |w| && NulFree(e) && Rough(e, w, i, j)
    ensures w[k] != 0
    decreases e, 0
  {
    match e
    case Str(t) =>
      assert w[i..j][k - i] == w[k];
    case Concat(x, y) =>
      var m: nat :| i <= m <= j && Rough(x, w, i, m) && Rough(y, w, m, j);
      if k < m {
        RoughNulFree(x, w, i, k, m);
      } else {
        RoughNulFree(y, w, m, k, j);
      }
    case Alt(x, y) =>
      if Rough(x, w, i, j) {
        RoughNulFree(x, w, i, k, j);
      } else {
        RoughNulFree(y, w, i, k, j);
      }
    case Opt(b) => RoughNulFree(b, w, i, k, j);
    case Star(b) =>
      var n: nat :| RoughIter(b, w, n, i, j);
      RoughNulFreeIter(b, w, n, i, k, j);
    case Plus(b) =>
      var n: nat :| n >= 1 && RoughIter(b, w, n, i, j);
      RoughNulFreeIter(b, w, n, i, k, j);
    case Interval(b, _, _) =>
      var n: nat :| RoughIter(b, w, n, i, j);
      RoughNulFreeIter(b, w, n, i, k, j);
    case Parens(b, _) => RoughNulFree(b, w, i, k, j);
    case _ =>
  }

  lemma {:induction false} RoughNulFreeIter(b: Rexp, w: Text, n: nat, i: nat, k: nat, j: nat)
    requires i <= k < j <= |w| && NulFree(b) && RoughIter(b, w, n, i, j)
    ensures w[k] != 0
    decreases b, n + 1
  {
    if n > 0 {
      var m: nat :| i <= m <= j && Rough(b, w, i, m) && RoughIter(b, w, n - 1, m, j);
      if k < m {
        RoughNulFree(b, w, i, k, m);
      } else {
        RoughNulFreeIter(b, w, n - 1, m, k, j);
      }
    }
  }

  // ----- The simplified tree matches at least as much -----

  /** The parens nodes of `e` are the ones in the table. */
  predicate Listed(e: Rexp, gs: Groups) {
    match e
    case Concat(l, r) => Listed(l, gs) && Listed(r, gs)
    case Alt(l, r) => Listed(l, gs) && Listed(r, gs)
    case Opt(b) => Listed(b, gs)
    case Star(b) => Listed(b, gs)
    case Plus(b) => Listed(b, gs)
    case Interval(b, _, _) => Listed(b, gs)
    case Parens(b, g) => Listed(b, gs) && (g != 0 ==> g in gs.node && gs.node[g] == e)
    case _ => true
  }

  /** Every group that `e` refers to accepts what compares equal to something it accepts. */
  ghost predicate Comparable(e: Rexp, gs: Groups, c: Ctx)
    requires Ranked(gs) && c.len <= |c.str|
  {
    match e
    case Concat(l, r) => Comparable(l, gs, c) && Comparable(r, gs, c)
    case Alt(l, r) => Comparable(l, gs, c) && Comparable(r, gs, c)
    case Opt(b) => Comparable(b, gs, c)
    case Star(b) => Comparable(b, gs, c)
    case Plus(b) => Comparable(b, gs, c)
    case Interval(b, _, _) => Comparable(b, gs, c)
    case Parens(b, g) => Comparable(b, gs, c)
    case Context(op) =>
      op.BackRef? && op.k in gs.node ==>
        SameFits(Simplify(gs.node[op.k], gs, gs.closed[op.k]), c.caseIndep, !NoZero(c.str[..c.len]))
    case _ => true
  }

  /** Every recorded group spans text that its own simplified tree accepts. */
  ghost predicate Recorded(r: Regs, gs: Groups, c: Ctx)
    requires Ranked(gs) && c.len <= |c.str|
  {
    forall k :: k in r && k in gs.node ==>
      r[k].0 <= r[k].1 <= c.len && Rough(Simplify(gs.node[k], gs, gs.closed[k]), c.str, r[k].0, r[k].1)
  }

  lemma {:induction false} SimplifyBlind(e: Rexp, gs: Groups, bound: nat)
    requires Ranked(gs) && RefsBelow(e, gs, bound) && WellFormed(e)
    requires CaseBlind(e) && forall k :: k in gs.node ==> CaseBlind(gs.node[k])
    ensures CaseBlind(Simplify(e, gs, bound))
    decreases bound, e
  {
    if Observed(e) {
      match e
      case Concat(l, r) =>
        SimplifyBlind(l, gs, bound);
        SimplifyBlind(r, gs, bound);
      case Alt(l, r) =>
        SimplifyBlind(l, gs, bound);
        SimplifyBlind(r, gs, bound);
      case Opt(x) => SimplifyBlind(x, gs, bound);
      case Star(x) => SimplifyBlind(x, gs, bound);
      case Plus(x) => SimplifyBlind(x, gs, bound);
      case Interval(x, _, _) => SimplifyBlind(x, gs, bound);
      case Parens(x, _) => SimplifyBlind(x, gs, bound);
      case Context(BackRef(k)) => SimplifyBlind(gs.node[k], gs, gs.closed[k]);
      case _ =>
    }
  }

  /** The rough fit test lets a back reference through. */
  ghost predicate BackRefKept(k: nat, gs: Groups, c: Ctx, i: nat, j: nat, r: Regs)
    requires Ranked(gs) && k in gs.node && i <= j <= c.len <= |c.str|
  {
    Recorded(r, gs, c) && BackRefAt(c, k, i, j, r) ==> Rough(Simplify(gs.node[k], gs, gs.closed[k]), c.str, i, j)
  }

  lemma BackRefFits(k: nat, gs: Groups, c: Ctx, i: nat, j: nat, r: Regs)
    requires Ranked(gs) && k in gs.node && i <= j <= c.len <= |c.str|
    requires SameFits(Simplify(gs.node[k], gs, gs.closed[k]), c.caseIndep, !NoZero(c.str[..c.len]))
    ensures BackRefKept(k, gs, c, i, j, r)
  {
    if Recorded(r, gs, c) && BackRefAt(c, k, i, j, r) {
      var s := Simplify(gs.node[k], gs, gs.closed[k]);
      var u, v := c.str[i..j], c.str[r[k].0..r[k].1];
      AcceptedSpan(s, c.str, r[k].0, r[k].1);
      AcceptedSpan(s, c.str, i, j);
      if NoZero(c.str[..c.len]) {
        assert forall p :: 0 <= p < |u| ==> u[p] == c.str[..c.len][i + p];
        assert forall p :: 0 <= p < |v| ==> v[p] == c.str[..c.len][r[k].0 + p];
      }
      assert Compared(u, v, c.caseIndep) && Accepted(s, v);
    }
  }

  /** What `BackRefKept` is asked of: comparisons with or without case, in texts with or without zero bytes */
  ghost predicate Asked(c: Ctx, fold: bool, zeros: bool, i: nat, j: nat) {
    i <= j <= c.len <= |c.str| && c.caseIndep == fold && (zeros || NoZero(c.str[..c.len]))
  }

  /** The rough fit test keeps every comparison with a group if and only if the group's language is
      closed under comparing equal. */
  lemma BackRefExact(k: nat, gs: Groups, fold: bool, zeros: bool)
    requires Ranked(gs) && k in gs.node
    ensures (forall c: Ctx, i: nat, j: nat, r: Regs :: Asked(c, fold, zeros, i, j) ==> BackRefKept(k, gs, c, i, j, r))
      <==> SameFits(Simplify(gs.node[k], gs, gs.closed[k]), fold, zeros)
  {
    var s := Simplify(gs.node[k], gs, gs.closed[k]);
    if SameFits(s, fold, zeros) {
      forall c: Ctx, i: nat, j: nat, r: Regs | Asked(c, fold, zeros, i, j) ensures BackRefKept(k, gs, c, i, j, r) {
        BackRefFits(k, gs, c, i, j, r);
      }
    }
    if forall c: Ctx, i: nat, j: nat, r: Regs :: Asked(c, fold, zeros, i, j) ==> BackRefKept(k, gs, c, i, j, r) {
      forall u: Text, v: Text | Compared(u, v, fold) && Accepted(s, v) && (zeros || (NoZero(u) && NoZero(v)))
        ensures Accepted(s, u)
      {
        BothInOneText(k, gs, fold, zeros, u, v);
      }
    }
  }

  /** Both texts, one after the other, with the group recorded on the second */
  lemma BothInOneText(k: nat, gs: Groups, fold: bool, zeros: bool, u: Text, v: Text)
    requires Ranked(gs) && k in gs.node && Compared(u, v, fold) && (zeros || (NoZero(u) && NoZero(v)))
    requires var s := Simplify(gs.node[k], gs, gs.closed[k]); Accepted(s, v)
    requires forall c: Ctx, i: nat, j: nat, r: Regs :: Asked(c, fold, zeros, i, j) ==> BackRefKept(k, gs, c, i, j, r)
    ensures Accepted(Simplify(gs.node[k], gs, gs.closed[k]), u)
  {
    var s := Simplify(gs.node[k], gs, gs.closed[k]);
    var t, a, n := u + v, |u|, |u| + |v|;
    var c := Ctx(t, n, false, false, false, fold);
    var r: Regs := map[k := (a, n)];
    assert t[0..a] == u && t[a..n] == v && t[..n] == t;
    AcceptedSpan(s, t, 0, a);
    AcceptedSpan(s, t, a, n);
    assert Asked(c, fold, zeros, 0, a);
    assert BackRefKept(k, gs, c, 0, a, r);
  }

  /** Enough for a whole tree: a text without zero bytes, and groups that do not tell case apart when
      the comparison does not. */
  lemma {:induction false} ComparableTexts(e: Rexp, gs: Groups, c: Ctx)
    requires Ranked(gs) && c.len <= |c.str| && NoZero(c.str[..c.len])
    requires c.caseIndep ==> forall k :: k in gs.node ==> CaseBlind(gs.node[k])
    ensures Comparable(e, gs, c)
  {
    match e
    case Concat(l, r) =>
      ComparableTexts(l, gs, c);
      ComparableTexts(r, gs, c);
    case Alt(l, r) =>
      ComparableTexts(l, gs, c);
      ComparableTexts(r, gs, c);
    case Opt(b) => ComparableTexts(b, gs, c);
    case Star(b) => ComparableTexts(b, gs, c);
    case Plus(b) => ComparableTexts(b, gs, c);
    case Interval(b, _, _) => ComparableTexts(b, gs, c);
    case Parens(b, _) => ComparableTexts(b, gs, c);
    case Context(op) =>
      if op.BackRef? && op.k in gs.node {
        if c.caseIndep {
          SimplifyBlind(gs.node[op.k], gs, gs.closed[op.k]);
        }
        BlindSameFits(Simplify(gs.node[op.k], gs, gs.closed[op.k]), c.caseIndep);
      }
    case _ =>
  }

  /** A shorter look at the same text compares no more. */
  lemma {:induction false} ComparableShorter(e: Rexp, gs: Groups, c: Ctx, c2: Ctx)
    requires Ranked(gs) && c2.len <= c.len <= |c.str| && c2.str == c.str && c2.caseIndep == c.caseIndep && Comparable(e, gs, c)
    ensures Comparable(e, gs, c2)
  {
    match e
    case Concat(l, r) =>
      ComparableShorter(l, gs, c, c2);
      ComparableShorter(r, gs, c, c2);
    case Alt(l, r) =>
      ComparableShorter(l, gs, c, c2);
      ComparableShorter(r, gs, c, c2);
    case Opt(b) => ComparableShorter(b, gs, c, c2);
    case Star(b) => ComparableShorter(b, gs, c, c2);
    case Plus(b) => ComparableShorter(b, gs, c, c2);
    case Interval(b, _, _) => ComparableShorter(b, gs, c, c2);
    case Parens(b, _) => ComparableShorter(b, gs, c, c2);
    case Context(op) =>
      assert forall k :: 0 <= k < c2.len ==> c2.str[..c2.len][k] == c.str[..c.len][k];
    case _ =>
  }

  lemma RecordGroup(b: Rexp, g: nat, gs: Groups, c: Ctx, i: nat, j: nat, r: Regs)
    requires Resolved(b, gs) && Listed(Parens(b, g), gs)
    requires i <= j <= c.len <= |c.str| && Recorded(r, gs, c) && Rough(Simplify(b, gs, gs.top), c.str, i, j)
    ensures Recorded(SetGroup(r, g, i, j), gs, c)
  {
    if g != 0 {
      SimplifySame(b, gs, gs.top, gs.closed[g]);
    }
  }

  /** The rough fit test never rejects a match: whatever `e` matches, with its groups, anchors,
      counts and back references, the simplified tree accepts; and every group recorded on the way
      spans text that its own simplified tree accepts. */
  lemma {:induction false} SimplifyKeepsMatches(e: Rexp, gs: Groups, c: Ctx, i: nat, j: nat, r: Regs, r2: Regs)
    requires Resolved(e, gs) && Listed(e, gs) && c.len <= |c.str| && Comparable(e, gs, c)
    requires i <= j <= c.len && Recorded(r, gs, c) && M(e, c, i, j, r, r2)
    ensures Rough(Simplify(e, gs, gs.top), c.str, i, j) && Recorded(r2, gs, c)
    decreases e, 0
  {
    if !Observed(e) {
      UnobservedSound(e, c, i, j, r, r2);
      return;
    }
    match e
    case Concat(x, y) =>
      var k: nat, r1 :| i <= k <= j && M(x, c, i, k, r, r1) && M(y, c, k, j, r1, r2);
      SimplifyKeepsMatches(x, gs, c, i, k, r, r1);
      SimplifyKeepsMatches(y, gs, c, k, j, r1, r2);
    case Alt(x, y) =>
      if M(x, c, i, j, r, r2) {
        SimplifyKeepsMatches(x, gs, c, i, j, r, r2);
      } else {
        SimplifyKeepsMatches(y, gs, c, i, j, r, r2);
      }
    case Opt(b) =>
      if M(b, c, i, j, r, r2) {
        SimplifyKeepsMatches(b, gs, c, i, j, r, r2);
      }
    case Star(b) =>
      var n: nat :| Iter(b, c, n, i, j, r, r2);
      SimplifyKeepsIterations(b, gs, c, n, i, j, r, r2);
    case Plus(b) =>
      var n: nat :| n >= 1 && Iter(b, c, n, i, j, r, r2);
      SimplifyKeepsIterations(b, gs, c, n, i, j, r, r2);
    case Interval(b, lo, hi) =>
      var n: nat :| lo <= n <= hi && Iter(b, c, n, i, j, r, r2);
      SimplifyKeepsIterations(b, gs, c, n, i, j, r, r2);
    case Parens(b, g) =>
      var r1 :| M(b, c, i, j, r, r1) && r2 == SetGroup(r1, g, i, j);
      SimplifyKeepsMatches(b, gs, c, i, j, r, r1);
      RecordGroup(b, g, gs, c, i, j, r1);
    case Context(BackRef(k)) =>
      BackRefFits(k, gs, c, i, j, r);
    case _ =>
  }

  lemma {:induction false} SimplifyKeepsIterations(b: Rexp, gs: Groups, c: Ctx, n: nat, i: nat, j: nat, r: Regs, r2: Regs)
    requires Resolved(b, gs) && Listed(b, gs) && c.len <= |c.str| && Comparable(b, gs, c)
    requires i <= j <= c.len && Recorded(r, gs, c) && Iter(b, c, n, i, j, r, r2)
    ensures RoughIter(Simplify(b, gs, gs.top), c.str, n, i, j) && Recorded(r2, gs, c)
    decreases b, n + 1
  {
    if n > 0 {
      var k: nat, r1 :| i <= k <= j && M(b, c, i, k, r, r1) && Iter(b, c, n - 1, k, j, r1, r2);
      SimplifyKeepsMatches(b, gs, c, i, k, r, r1);
      SimplifyKeepsIterations(b, gs, c, n - 1, k, j, r1, r2);
    }
  }

  // ----- The trees the parser makes -----

  /** Number of groups in a tree */
  function Opened(e: Rexp): nat {
    match e
    case Concat(l, r) => Opened(l) + Opened(r)
    case Alt(l, r) => Opened(l) + Opened(r)
    case Opt(b) => Opened(b)
    case Star(b) => Opened(b)
    case Plus(b) => Opened(b)
    case Interval(b, _, _) => Opened(b)
    case Parens(b, _) => 1 + Opened(b)
    case _ => 0
  }

  /** Groups are numbered as they are opened, after the first n. */
  predicate Numbered(e: Rexp, n: nat) {
    match e
    case Concat(l, r) => Numbered(l, n) && Numbered(r, n + Opened(l))
    case Alt(l, r) => Numbered(l, n) && Numbered(r, n + Opened(l))
    case Opt(b) => Numbered(b, n)
    case Star(b) => Numbered(b, n)
    case Plus(b) => Numbered(b, n)
    case Interval(b, _, _) => Numbered(b, n)
    case Parens(b, g) => g == n + 1 && Numbered(b, n + 1)
    case _ => true
  }

  /** The groups in the order in which they are closed */
  function Closings(e: Rexp): seq<nat> {
    match e
    case Concat(l, r) => Closings(l) + Closings(r)
    case Alt(l, r) => Closings(l) + Closings(r)
    case Opt(b) => Closings(b)
    case Star(b) => Closings(b)
    case Plus(b) => Closings(b)
    case Interval(b, _, _) => Closings(b)
    case Parens(b, g) => Closings(b) + [g]
    case _ => []
  }

  /** Reading left to right, a back reference names a group that has been closed. */
  predicate Scoped(e: Rexp, before: seq<nat>) {
    match e
    case Concat(l, r) => Scoped(l, before) && Scoped(r, before + Closings(l))
    case Alt(l, r) => Scoped(l, before) && Scoped(r, before + Closings(l))
    case Opt(b) => Scoped(b, before)
    case Star(b) => Scoped(b, before)
    case Plus(b) => Scoped(b, before)
    case Interval(b, _, _) => Scoped(b, before)
    case Parens(b, _) => Scoped(b, before)
    case Context(op) => op.BackRef? ==> op.k in before
    case _ => true
  }

  /** rx_posix_analyze_rexp's subexps */
  function Table(e: Rexp): map<nat, Rexp> {
    match e
    case Concat(l, r) => Table(l) + Table(r)
    case Alt(l, r) => Table(l) + Table(r)
    case Opt(b) => Table(b)
    case Star(b) => Table(b)
    case Plus(b) => Table(b)
    case Interval(b, _, _) => Table(b)
    case Parens(b, g) => Table(b)[g := e]
    case _ => map[]
  }

  predicate NoRepeat(s: seq<nat>) {
    forall i, j :: 0 <= i < j < |s| ==> s[i] != s[j]
  }

  lemma NoRepeatAppend(a: seq<nat>, b: seq<nat>)
    ensures NoRepeat(a + b) <==> NoRepeat(a) && NoRepeat(b) && forall g :: g in a ==> g !in b
  {
    var s := a + b;
    if NoRepeat(s) {
      forall g | g in a ensures g !in b {
        var i :| 0 <= i < |a| && a[i] == g;
        forall j | 0 <= j < |b| ensures b[j] != g {
          assert s[i] != s[|a| + j];
        }
      }
      forall i, j | 0 <= i < j < |a| ensures a[i] != a[j] {
        assert s[i] != s[j];
      }
      forall i, j | 0 <= i < j < |b| ensures b[i] != b[j] {
        assert s[|a| + i] != s[|a| + j];
      }
    }
    if NoRepeat(a) && NoRepeat(b) && forall g :: g in a ==> g !in b {
      forall i, j | 0 <= i < j < |s| ensures s[i] != s[j] {
        if i < |a| <= j {
          assert s[i] in a && s[j] == b[j - |a|];
        } else if j < |a| {
          assert a[i] != a[j];
        } else {
          assert b[i - |a|] != b[j - |a|];
        }
      }
    }
  }

  lemma {:induction false} NumberedDistinct(e: Rexp, n: nat)
    requires Numbered(e, n)
    ensures NoRepeat(Closings(e)) && forall g :: g in Closings(e) ==> n < g <= n + Opened(e)
  {
    match e
    case Concat(l, r) =>
      NumberedDistinct(l, n);
      NumberedDistinct(r, n + Opened(l));
      NoRepeatAppend(Closings(l), Closings(r));
    case Alt(l, r) =>
      NumberedDistinct(l, n);
      NumberedDistinct(r, n + Opened(l));
      NoRepeatAppend(Closings(l), Closings(r));
    case Opt(b) => NumberedDistinct(b, n);
    case Star(b) => NumberedDistinct(b, n);
    case Plus(b) => NumberedDistinct(b, n);
    case Interval(b, _, _) => NumberedDistinct(b, n);
    case Parens(b, g) =>
      NumberedDistinct(b, n + 1);
      NoRepeatAppend(Closings(b), [g]);
    case _ =>
  }

  lemma {:induction false} TableKeys(e: Rexp)
    ensures forall g :: g in Table(e) <==> g in Closings(e)
  {
    match e
    case Concat(l, r) =>
      TableKeys(l);
      TableKeys(r);
    case Alt(l, r) =>
      TableKeys(l);
      TableKeys(r);
    case Opt(b) => TableKeys(b);
    case Star(b) => TableKeys(b);
    case Plus(b) => TableKeys(b);
    case Interval(b, _, _) => TableKeys(b);
    case Parens(b, g) => TableKeys(b);
    case _ =>
  }

  function At(s: seq<nat>, g: nat): (i: nat)
    requires g in s
    ensures i < |s| && s[i] == g
  {
    if s[0] == g then 0 else 1 + At(s[1..], g)
  }

  function GroupsOf(e: Rexp): Groups {
    var order := Closings(e);
    Groups(Table(e), map g | g in order :: At(order, g), |order|)
  }

  ghost predicate Indexed(order: seq<nat>, gs: Groups) {
    forall i :: 0 <= i < |order| ==> order[i] in gs.node && order[i] in gs.closed && gs.closed[order[i]] == i
  }

  ghost predicate Agrees(t: map<nat, Rexp>, gs: Groups) {
    forall g :: g in t ==> g in gs.node && gs.node[g] == t[g]
  }

  /** `e` sits in a larger pattern whose closings are before + Closings(e) + after. */
  ghost predicate Placed(e: Rexp, gs: Groups, before: seq<nat>, after: seq<nat>) {
    && Scoped(e, before) && WellFormed(e)
    && Indexed(before + Closings(e) + after, gs)
    && Agrees(Table(e), gs)
    && NoRepeat(Closings(e))
  }

  /** What is to be shown of the part `e`: its references and those of its groups go back. */
  ghost predicate Settled(e: Rexp, gs: Groups, bound: nat) {
    && RefsBelow(e, gs, bound) && Listed(e, gs)
    && forall g :: g in Table(e) ==> g in gs.closed && RefsBelow(Table(e)[g], gs, gs.closed[g]) && WellFormed(Table(e)[g])
  }

  lemma AgreesParts(t: map<nat, Rexp>, u: map<nat, Rexp>, gs: Groups)
    requires Agrees(t + u, gs) && forall g :: g in t ==> g !in u
    ensures Agrees(t, gs) && Agrees(u, gs)
  {
    assert forall g :: g in t ==> g in t + u && (t + u)[g] == t[g];
  }

  lemma Reassociate(a: seq<nat>, b: seq<nat>, c: seq<nat>, d: seq<nat>)
    ensures a + (b + c) + d == a + b + (c + d) == (a + b) + c + d
  {
  }

  lemma TablesApart(l: Rexp, r: Rexp)
    requires forall g :: g in Closings(l) ==> g !in Closings(r)
    ensures forall g :: g in Table(l) ==> g !in Table(r)
  {
    TableKeys(l);
    TableKeys(r);
  }

  lemma PlacedParts(l: Rexp, r: Rexp, e: Rexp, gs: Groups, before: seq<nat>, after: seq<nat>)
    requires e == Concat(l, r) || e == Alt(l, r)
    requires Placed(e, gs, before, after) && 0 !in Closings(e)
    ensures Placed(l, gs, before, Closings(r) + after)
    ensures Placed(r, gs, before + Closings(l), after)
    ensures 0 !in Closings(l) && 0 !in Closings(r)
  {
    var cl, cr := Closings(l), Closings(r);
    Reassociate(before, cl, cr, after);
    NoRepeatAppend(cl, cr);
    TablesApart(l, r);
    AgreesParts(Table(l), Table(r), gs);
  }

  lemma SettledPair(l: Rexp, r: Rexp, e: Rexp, gs: Groups, b: nat)
    requires e == Concat(l, r) || e == Alt(l, r)
    requires Settled(l, gs, b) && Settled(r, gs, b)
    ensures Settled(e, gs, b)
  {
  }

  lemma PlacedParens(b: Rexp, g: nat, gs: Groups, before: seq<nat>, after: seq<nat>)
    requires Placed(Parens(b, g), gs, before, after) && 0 !in Closings(Parens(b, g))
    ensures Placed(b, gs, before, [g] + after) && 0 !in Closings(b)
    ensures g in gs.closed && gs.closed[g] == |before| + |Closings(b)|
    ensures g in gs.node && gs.node[g] == Parens(b, g)
  {
    TableKeys(b);
    var e := Parens(b, g);
    var cb := Closings(b);
    NoRepeatAppend(cb, [g]);
    assert before + Closings(e) + after == before + cb + ([g] + after);
    assert (before + Closings(e) + after)[|before| + |cb|] == g;
  }

  lemma {:induction false} PlacedSettled(e: Rexp, gs: Groups, before: seq<nat>, after: seq<nat>)
    requires Placed(e, gs, before, after) && 0 !in Closings(e)
    ensures Settled(e, gs, |before| + |Closings(e)|)
  {
    match e
    case Concat(l, r) =>
      PlacedParts(l, r, e, gs, before, after);
      PlacedSettled(l, gs, before, Closings(r) + after);
      PlacedSettled(r, gs, before + Closings(l), after);
      RefsBelowMono(l, gs, |before| + |Closings(l)|, |before| + |Closings(e)|);
      SettledPair(l, r, e, gs, |before| + |Closings(e)|);
    case Alt(l, r) =>
      PlacedParts(l, r, e, gs, before, after);
      PlacedSettled(l, gs, before, Closings(r) + after);
      PlacedSettled(r, gs, before + Closings(l), after);
      RefsBelowMono(l, gs, |before| + |Closings(l)|, |before| + |Closings(e)|);
      SettledPair(l, r, e, gs, |before| + |Closings(e)|);
    case Opt(b) => PlacedSettled(b, gs, before, after);
    case Star(b) => PlacedSettled(b, gs, before, after);
    case Plus(b) => PlacedSettled(b, gs, before, after);
    case Interval(b, _, _) => PlacedSettled(b, gs, before, after);
    case Parens(b, g) =>
      PlacedParens(b, g, gs, before, after);
      PlacedSettled(b, gs, before, [g] + after);
      RefsBelowMono(b, gs, gs.closed[g], gs.closed[g] + 1);
    case Context(op) =>
      if op.BackRef? {
        var order := before + Closings(e) + after;
        var i :| 0 <= i < |before| && before[i] == op.k;
        assert order[i] == op.k;
      }
    case _ =>
  }

  lemma WholePlaced(e: Rexp)
    requires WellFormed(e) && Scoped(e, []) && NoRepeat(Closings(e))
    ensures Placed(e, GroupsOf(e), [], []) == true
  {
    var order := Closings(e);
    WholeIndexed(e);
    assert [] + order + [] == order;
    assert Agrees(Table(e), GroupsOf(e));
  }

  lemma WholeIndexed(e: Rexp)
    requires NoRepeat(Closings(e))
    ensures Indexed(Closings(e), GroupsOf(e)) == true
  {
    var gs, order := GroupsOf(e), Closings(e);
    TableKeys(e);
    forall i | 0 <= i < |order| ensures order[i] in gs.node && order[i] in gs.closed && gs.closed[order[i]] == i {
      assert order[i] in order;
    }
  }

  /** For every tree the parser makes (groups numbered as they open, back references only to groups
      already closed) simplification ends, and the table lists its groups. */
  lemma ParsedIsResolved(e: Rexp)
    requires WellFormed(e) && Numbered(e, 0) && Scoped(e, [])
    ensures Resolved(e, GroupsOf(e)) && Listed(e, GroupsOf(e))
  {
    var gs := GroupsOf(e);
    NumberedDistinct(e, 0);
    WholePlaced(e);
    PlacedSettled(e, gs, [], []);
    TableKeys(e);
    forall k | k in gs.node ensures k in gs.closed && gs.closed[k] <= gs.top {
      assert k in Closings(e);
    }
  }
}
