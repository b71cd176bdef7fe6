/** Syntax trees of the Rx engine (rx/rxnode.h) and what it means for a tree to match a span.

    Two meanings are given.  `M` is the full one: anchors, intervals, groups that set registers and
    back references that read them.  `Rough` is the meaning of a tree as a plain regular expression,
    with an interval read as a star; it is what the automata of the engine can decide. */
module RxSyntax {
  type Byte = b: int | 0 <= b < 256
  type Text = seq<Byte>

  /** Spans of the groups that have matched; a group that is not a key is the source's -1. */
  type Regs = map<nat, (nat, nat)>

  const NEWLINE: Byte := 10

  datatype Op = Bol | Eol | BackRef(k: nat)

  /** `Null` is the null pointer, which the source uses for the empty expression. */
  datatype Rexp =
    | Null
    | Cset(cs: set<Byte>)
    | Str(s: Text)
    | Concat(l: Rexp, r: Rexp)
    | Alt(l: Rexp, r: Rexp)
    | Opt(body: Rexp)
    | Star(body: Rexp)
    | Plus(body: Rexp)
    | Interval(body: Rexp, lo: nat, hi: nat)
    | Parens(body: Rexp, group: nat)
    | Context(op: Op)

  /** What the parser guarantees: string nodes hold a character, interval bounds are ordered. */
  predicate WellFormed(e: Rexp) {
    match e
    case Null => true
    case Cset(_) => true
    case Str(s) => s != []
    case Concat(l, r) => WellFormed(l) && WellFormed(r)
    case Alt(l, r) => WellFormed(l) && WellFormed(r)
    case Opt(b) => WellFormed(b)
    case Star(b) => WellFormed(b)
    case Plus(b) => WellFormed(b)
    case Interval(b, lo, hi) => WellFormed(b) && lo <= hi
    case Parens(b, _) => WellFormed(b)
    case Context(_) => true
  }

  /** The string closure and the context rules a match is made under; `len` is where the
      closure's string ends. */
  datatype Ctx = Ctx(str: Text, len: nat, notBol: bool, notEol: bool, newline: bool, caseIndep: bool)

  predicate BolAt(c: Ctx, i: nat)
    requires i <= |c.str|
  {
    (i == 0 && !c.notBol) || (i > 0 && c.newline && c.str[i - 1] == NEWLINE)
  }

  predicate EolAt(c: Ctx, i: nat)
    requires i < |c.str| || i == c.len
  {
    (i == c.len && !c.notEol) || (i < c.len && c.newline && c.str[i] == NEWLINE)
  }

  /** tolower in the C locale */
  function Fold(b: Byte): Byte {
    if 65 <= b <= 90 then b + 32 else b
  }

  /** strncmp, or strncasecmp when `fold`, answering zero: the comparison ends at a zero byte. */
  predicate SameText(a: Text, b: Text, fold: bool)
    requires |a| == |b|
  {
    a == [] ||
    ((if fold then Fold(a[0]) == Fold(b[0]) else a[0] == b[0]) &&
     (a[0] == 0 || SameText(a[1..], b[1..], fold)))
  }

  predicate BackRefAt(c: Ctx, k: nat, i: nat, j: nat, r: Regs)
    requires i <= j <= |c.str|
  {
    k in r && r[k].0 <= r[k].1 <= |c.str| && r[k].1 - r[k].0 == j - i &&
    SameText(c.str[i..j], c.str[r[k].0..r[k].1], c.caseIndep)
  }

  predicate OpAt(c: Ctx, op: Op, i: nat, j: nat, r: Regs)
    requires i <= j <= c.len <= |c.str|
  {
    match op
    case Bol => i == j && BolAt(c, i)
    case Eol => i == j && EolAt(c, i)
    case BackRef(k) => BackRefAt(c, k, i, j, r)
  }

  function SetGroup(r: Regs, g: nat, i: nat, j: nat): Regs {
    if g != 0 then r[g := (i, j)] else r
  }

  /** `e` matches positions [i, j) of the string, taking the registers from `r` to `r2`. */
  ghost predicate M(e: Rexp, c: Ctx, i: nat, j: nat, r: Regs, r2: Regs)
    requires i <= j <= c.len <= |c.str|
    decreases e, 0
  {
    match e
    case Null => i == j && r == r2
    case Cset(cs) => j == i + 1 && c.str[i] in cs && r == r2
    case Str(s) => c.str[i..j] == s && r == r2
    case Concat(x, y) =>
      exists k: nat, r1 :: i <= k <= j && M(x, c, i, k, r, r1) && M(y, c, k, j, r1, r2)
    case Alt(x, y) => M(x, c, i, j, r, r2) || M(y, c, i, j, r, r2)
    case Opt(b) => M(b, c, i, j, r, r2) || (i == j && r == r2)
    case Star(b) => exists n: nat :: Iter(b, c, n, i, j, r, r2)
    case Plus(b) => exists n: nat :: n >= 1 && Iter(b, c, n, i, j, r, r2)
    case Interval(b, lo, hi) => exists n: nat :: lo <= n <= hi && Iter(b, c, n, i, j, r, r2)
    case Parens(b, g) => exists r1 :: M(b, c, i, j, r, r1) && r2 == SetGroup(r1, g, i, j)
    case Context(op) => OpAt(c, op, i, j, r) && r == r2
  }

  /** `n` matches of `b` in a row */
  ghost predicate Iter(b: Rexp, c: Ctx, n: nat, i: nat, j: nat, r: Regs, r2: Regs)
    requires i <= j <= c.len <= |c.str|
    decreases b, n + 1
  {
    if n == 0 then i == j && r == r2
    else exists k: nat, r1 :: i <= k <= j && M(b, c, i, k, r, r1) && Iter(b, c, n - 1, k, j, r1, r2)
  }

  /** The regular language of a tree; an interval counts as a star and a context operator
      matches nothing. */
  ghost predicate Rough(e: Rexp, w: Text, i: nat, j: nat)
    requires i <= j <= |w|
    decreases e, 0
  {
    match e
    case Null => i == j
    case Cset(cs) => j == i + 1 && w[i] in cs
    case Str(s) => w[i..j] == s
    case Concat(x, y) => exists k: nat :: i <= k <= j && Rough(x, w, i, k) && Rough(y, w, k, j)
    case Alt(x, y) => Rough(x, w, i, j) || Rough(y, w, i, j)
    case Opt(b) => Rough(b, w, i, j) || i == j
    case Star(b) => exists n: nat :: RoughIter(b, w, n, i, j)
    case Plus(b) => exists n: nat :: n >= 1 && RoughIter(b, w, n, i, j)
    case Interval(b, _, _) => exists n: nat :: RoughIter(b, w, n, i, j)
    case Parens(b, _) => Rough(b, w, i, j)
    case Context(_) => false
  }

  ghost predicate RoughIter(b: Rexp, w: Text, n: nat, i: nat, j: nat)
    requires i <= j <= |w|
    decreases b, n + 1
  {
    if n == 0 then i == j
    else exists k: nat :: i <= k <= j && Rough(b, w, i, k) && RoughIter(b, w, n - 1, k, j)
  }

  /** Iterations can be counted from either end and put in a row. */
  lemma {:induction false} RoughIterAppend(b: Rexp, w: Text, n: nat, m: nat, i: nat, k: nat, j: nat)
    requires i <= k <= j <= |w|
    requires RoughIter(b, w, n, i, k) && RoughIter(b, w, m, k, j)
    ensures RoughIter(b, w, n + m, i, j)
    decreases n
  {
    if n > 0 {
      var k1: nat :| i <= k1 <= k && Rough(b, w, i, k1) && RoughIter(b, w, n - 1, k1, k);
      RoughIterAppend(b, w, n - 1, m, k1, k, j);
    }
  }

  lemma {:induction false} RoughIterOne(b: Rexp, w: Text, i: nat, j: nat)
    requires i <= j <= |w| && Rough(b, w, i, j)
    ensures RoughIter(b, w, 1, i, j)
  {
    assert RoughIter(b, w, 0, j, j);
  }

  // ----- What the rules say, letter by letter -----

  /** The same character, or the two cases of an ASCII letter when `fold` */
  predicate SameLetter(x: Byte, y: Byte, fold: bool) {
    x == y || (fold && ((65 <= x <= 90 && y == x + 32) || (65 <= y <= 90 && x == y + 32)))
  }

  /** Texts compare equal when they agree at each place up to and including the first zero byte. */
  lemma {:induction false} SameTextMeans(a: Text, b: Text, fold: bool)
    requires |a| == |b|
    ensures SameText(a, b, fold) <==>
      forall k :: 0 <= k < |a| && (forall m :: 0 <= m < k ==> a[m] != 0) ==> SameLetter(a[k], b[k], fold)
  {
    if a != [] {
      SameTextMeans(a[1..], b[1..], fold);
      var here := forall k :: 0 <= k < |a| && (forall m :: 0 <= m < k ==> a[m] != 0) ==> SameLetter(a[k], b[k], fold);
      var there := forall k :: 0 <= k < |a[1..]| && (forall m :: 0 <= m < k ==> a[1..][m] != 0) ==> SameLetter(a[1..][k], b[1..][k], fold);
      if here {
        assert SameLetter(a[0], b[0], fold);
        if a[0] != 0 {
          forall k | 0 <= k < |a[1..]| && (forall m :: 0 <= m < k ==> a[1..][m] != 0) ensures SameLetter(a[1..][k], b[1..][k], fold) {
            forall m | 0 <= m < k + 1 ensures a[m] != 0 {
              assert m > 0 ==> a[m] == a[1..][m - 1];
            }
            assert SameLetter(a[k + 1], b[k + 1], fold);
          }
        }
      }
      if SameText(a, b, fold) {
        forall k | 0 <= k < |a| && (forall m :: 0 <= m < k ==> a[m] != 0) ensures SameLetter(a[k], b[k], fold) {
          if k > 0 {
            assert a[0] != 0;
            forall m | 0 <= m < k - 1 ensures a[1..][m] != 0 {
              assert a[m + 1] != 0;
            }
            assert SameLetter(a[1..][k - 1], b[1..][k - 1], fold);
          }
        }
      }
    }
  }

  /** '^' and '$' match the empty span at either end of the text, unless told not to, and beside a newline
      when newlines count. */
  lemma AnchorsMean(c: Ctx, i: nat, j: nat, r: Regs, r2: Regs)
    requires i <= j <= c.len <= |c.str|
    ensures M(Context(Bol), c, i, j, r, r2) <==>
      i == j && r2 == r && if i == 0 then !c.notBol else c.newline && c.str[i - 1] == 10
    ensures M(Context(Eol), c, i, j, r, r2) <==>
      i == j && r2 == r && if i == c.len then !c.notEol else c.newline && c.str[i] == 10
  {
  }
}
