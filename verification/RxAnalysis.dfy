/** The static analyses of rx/rxanal.c and what they promise about every match. */
module RxAnalysis {
  import opened RxSyntax

  const SATURATED: set<Byte> := set b: Byte | 0 <= b < 256

  /** The `len` field: the length of every match, or -1 when the analysis does not know one. */
  function Len(e: Rexp): int {
    match e
    case Null => 0
    case Cset(_) => 1
    case Str(s) => |s|
    case Concat(l, r) => if Len(l) >= 0 && Len(r) >= 0 then Len(l) + Len(r) else -1
    case Alt(l, r) => if Len(l) >= 0 && Len(r) >= 0 && Len(l) == Len(r) then Len(l) else -1
    case Opt(_) => -1
    case Star(_) => -1
    case Plus(_) => -1
    case Interval(_, _, _) => -1
    case Parens(b, _) => Len(b)
    case Context(op) => if op.BackRef? then -1 else 0
  }

  /** The `observed` field: the tree needs more than an automaton to be matched. */
  predicate Observed(e: Rexp) {
    match e
    case Null => false
    case Cset(_) => false
    case Str(_) => false
    case Concat(l, r) => Observed(l) || Observed(r)
    case Alt(l, r) => Observed(l) || Observed(r)
    case Opt(b) => Observed(b)
    case Star(b) => Observed(b)
    case Plus(b) => Observed(b)
    case Interval(_, _, _) => true
    case Parens(_, _) => true
    case Context(_) => true
  }

  /** The answer of rx_fill_in_fastmap: the tree may match the empty string. */
  predicate MayBeEmpty(e: Rexp) {
    match e
    case Null => true
    case Cset(_) => false
    case Str(s) => s == []
    case Concat(l, _) => MayBeEmpty(l)
    case Alt(l, r) => MayBeEmpty(l) || MayBeEmpty(r)
    case Opt(_) => true
    case Star(_) => true
    case Plus(b) => MayBeEmpty(b)
    case Interval(b, lo, _) => lo == 0 || MayBeEmpty(b)
    case Parens(b, _) => MayBeEmpty(b)
    case Context(_) => true
  }

  /** The characters rx_fill_in_fastmap enters into the map. */
  function Entered(e: Rexp): set<Byte> {
    match e
    case Null => SATURATED
    case Cset(cs) => cs
    case Str(s) => if s == [] then {} else {s[0]}
    case Concat(l, _) => Entered(l)
    case Alt(l, r) => Entered(l) + Entered(r)
    case Opt(_) => SATURATED
    case Star(_) => SATURATED
    case Plus(b) => Entered(b)
    case Interval(b, lo, _) => if lo == 0 then SATURATED else Entered(b)
    case Parens(b, _) => Entered(b)
    case Context(_) => SATURATED
  }

  predicate Anchored(e: Rexp) {
    match e
    case Null => false
    case Cset(_) => false
    case Str(_) => false
    case Concat(l, _) => Anchored(l)
    case Alt(l, r) => Anchored(l) && Anchored(r)
    case Opt(_) => false
    case Star(_) => false
    case Plus(b) => Anchored(b)
    case Interval(b, lo, _) => lo != 0 && Anchored(b)
    case Parens(b, _) => Anchored(b)
    case Context(op) => op.Bol?
  }

  method Saturate(fastmap: array<bool>)
    requires fastmap.Length == 256
    modifies fastmap
    ensures forall b: Byte :: fastmap[b]
  {
    for x := 0 to 256
      invariant forall b: Byte :: b < x ==> fastmap[b]
    {
      fastmap[x] := true;
    }
  }

  /** rx_fill_in_fastmap: the map only grows, by exactly the entered characters. */
  method FillInFastmap(fastmap: array<bool>, e: Rexp) returns (empty: bool)
    requires fastmap.Length == 256
    modifies fastmap
    ensures empty == MayBeEmpty(e)
    ensures forall b: Byte :: fastmap[b] == (old(fastmap[b]) || b in Entered(e))
    decreases e
  {
    match e
    case Null =>
      Saturate(fastmap);
      empty := true;
    case Cset(cs) =>
      for x := 0 to 256
        invariant forall b: Byte :: fastmap[b] == (old(fastmap[b]) || (b < x && b in cs))
      {
        if x in cs {
          fastmap[x] := true;
        }
      }
      empty := false;
    case Str(s) =>
      if s != [] {
        fastmap[s[0]] := true;
        empty := false;
      } else {
        empty := true;
      }
    case Concat(l, r) =>
      empty := FillInFastmap(fastmap, l);
    case Alt(l, r) =>
      var a := FillInFastmap(fastmap, l);
      var b := FillInFastmap(fastmap, r);
      empty := a || b;
    case Opt(_) =>
      Saturate(fastmap);
      empty := true;
    case Star(_) =>
      Saturate(fastmap);
      empty := true;
    case Plus(b) =>
      empty := FillInFastmap(fastmap, b);
    case Interval(b, lo, hi) =>
      if lo == 0 {
        Saturate(fastmap);
        empty := true;
      } else {
        empty := FillInFastmap(fastmap, b);
      }
    case Parens(b, g) =>
      empty := FillInFastmap(fastmap, b);
    case Context(op) =>
      Saturate(fastmap);
      empty := true;
  }

  /** A known length is the length of every match. */
  lemma {:induction false} LenSound(e: Rexp, c: Ctx, i: nat, j: nat, r: Regs, r2: Regs)
    requires i <= j <= c.len <= |c.str|
    requires M(e, c, i, j, r, r2) && Len(e) >= 0
    ensures j - i == Len(e)
    decreases e
  {
    match e
    case Concat(x, y) =>
      var k: nat, r1 :| i <= k <= j && M(x, c, i, k, r, r1) && M(y, c, k, j, r1, r2);
      LenSound(x, c, i, k, r, r1);
      LenSound(y, c, k, j, r1, r2);
    case Alt(x, y) =>
      if M(x, c, i, j, r, r2) {
        LenSound(x, c, i, j, r, r2);
      } else {
        LenSound(y, c, i, j, r, r2);
      }
    case Parens(b, g) =>
      var r1 :| M(b, c, i, j, r, r1) && r2 == SetGroup(r1, g, i, j);
      LenSound(b, c, i, j, r, r1);
    case _ =>
  }

  /** When the analysis answers that a tree cannot be empty, every match is non-empty and starts
      with an entered character. */
  lemma {:induction false} FastmapSound(e: Rexp, c: Ctx, i: nat, j: nat, r: Regs, r2: Regs)
    requires i <= j <= c.len <= |c.str|
    requires M(e, c, i, j, r, r2) && !MayBeEmpty(e)
    ensures i < j && c.str[i] in Entered(e)
    decreases e
  {
    match e
    case Str(s) =>
      assert c.str[i..j][0] == c.str[i];
    case Concat(x, y) =>
      var k: nat, r1 :| i <= k <= j && M(x, c, i, k, r, r1) && M(y, c, k, j, r1, r2);
      FastmapSound(x, c, i, k, r, r1);
    case Alt(x, y) =>
      if M(x, c, i, j, r, r2) {
        FastmapSound(x, c, i, j, r, r2);
      } else {
        FastmapSound(y, c, i, j, r, r2);
      }
    case Plus(b) =>
      var n: nat :| n >= 1 && Iter(b, c, n, i, j, r, r2);
      FirstIteration(b, c, n, i, j, r, r2);
      var k: nat, r1 :| i <= k <= j && M(b, c, i, k, r, r1);
      FastmapSound(b, c, i, k, r, r1);
    case Interval(b, lo, hi) =>
      var n: nat :| lo <= n <= hi && Iter(b, c, n, i, j, r, r2);
      FirstIteration(b, c, n, i, j, r, r2);
      var k: nat, r1 :| i <= k <= j && M(b, c, i, k, r, r1);
      FastmapSound(b, c, i, k, r, r1);
    case Parens(b, g) =>
      var r1 :| M(b, c, i, j, r, r1) && r2 == SetGroup(r1, g, i, j);
      FastmapSound(b, c, i, j, r, r1);
    case _ =>
  }

  lemma FirstIteration(b: Rexp, c: Ctx, n: nat, i: nat, j: nat, r: Regs, r2: Regs)
    requires i <= j <= c.len <= |c.str|
    requires n >= 1 && Iter(b, c, n, i, j, r, r2)
    ensures exists k: nat, r1 :: i <= k <= j && M(b, c, i, k, r, r1)
  {
  }

  /** Every match of an anchored tree starts where '^' holds. */
  lemma {:induction false} AnchoredSound(e: Rexp, c: Ctx, i: nat, j: nat, r: Regs, r2: Regs)
    requires i <= j <= c.len <= |c.str|
    requires M(e, c, i, j, r, r2) && Anchored(e)
    ensures BolAt(c, i)
    decreases e
  {
    match e
    case Concat(x, y) =>
      var k: nat, r1 :| i <= k <= j && M(x, c, i, k, r, r1) && M(y, c, k, j, r1, r2);
      AnchoredSound(x, c, i, k, r, r1);
    case Alt(x, y) =>
      if M(x, c, i, j, r, r2) {
        AnchoredSound(x, c, i, j, r, r2);
      } else {
        AnchoredSound(y, c, i, j, r, r2);
      }
    case Plus(b) =>
      var n: nat :| n >= 1 && Iter(b, c, n, i, j, r, r2);
      FirstIteration(b, c, n, i, j, r, r2);
      var k: nat, r1 :| i <= k <= j && M(b, c, i, k, r, r1);
      AnchoredSound(b, c, i, k, r, r1);
    case Interval(b, lo, hi) =>
      var n: nat :| lo <= n <= hi && Iter(b, c, n, i, j, r, r2);
      FirstIteration(b, c, n, i, j, r, r2);
      var k: nat, r1 :| i <= k <= j && M(b, c, i, k, r, r1);
      AnchoredSound(b, c, i, k, r, r1);
    case Parens(b, g) =>
      var r1 :| M(b, c, i, j, r, r1) && r2 == SetGroup(r1, g, i, j);
      AnchoredSound(b, c, i, j, r, r1);
    case _ =>
  }

  lemma {:induction false} UnobservedSound(e: Rexp, c: Ctx, i: nat, j: nat, r: Regs, r2: Regs)
    requires i <= j <= c.len <= |c.str|
    requires !Observed(e) && M(e, c, i, j, r, r2)
    ensures Rough(e, c.str, i, j) && r == r2
    decreases e, 0
  {
    match e
    case Concat(x, y) =>
      var k: nat, r1 :| i <= k <= j && M(x, c, i, k, r, r1) && M(y, c, k, j, r1, r2);
      UnobservedSound(x, c, i, k, r, r1);
      UnobservedSound(y, c, k, j, r1, r2);
    case Alt(x, y) =>
      if M(x, c, i, j, r, r2) {
        UnobservedSound(x, c, i, j, r, r2);
      } else {
        UnobservedSound(y, c, i, j, r, r2);
      }
    case Opt(b) =>
      if M(b, c, i, j, r, r2) {
        UnobservedSound(b, c, i, j, r, r2);
      }
    case Star(b) =>
      var n: nat :| Iter(b, c, n, i, j, r, r2);
      UnobservedIterSound(b, c, n, i, j, r, r2);
    case Plus(b) =>
      var n: nat :| n >= 1 && Iter(b, c, n, i, j, r, r2);
      UnobservedIterSound(b, c, n, i, j, r, r2);
    case _ =>
  }

  lemma {:induction false} UnobservedIterSound(b: Rexp, c: Ctx, n: nat, i: nat, j: nat, r: Regs, r2: Regs)
    requires i <= j <= c.len <= |c.str|
    requires !Observed(b) && Iter(b, c, n, i, j, r, r2)
    ensures RoughIter(b, c.str, n, i, j) && r == r2
    decreases b, n + 1
  {
    if n > 0 {
      var k: nat, r1 :| i <= k <= j && M(b, c, i, k, r, r1) && Iter(b, c, n - 1, k, j, r1, r2);
      UnobservedSound(b, c, i, k, r, r1);
      UnobservedIterSound(b, c, n - 1, k, j, r1, r2);
    }
  }

  lemma {:induction false} UnobservedComplete(e: Rexp, c: Ctx, i: nat, j: nat, r: Regs)
    requires i <= j <= c.len <= |c.str|
    requires !Observed(e) && Rough(e, c.str, i, j)
    ensures M(e, c, i, j, r, r)
    decreases e, 0
  {
    match e
    case Concat(x, y) =>
      var k: nat :| i <= k <= j && Rough(x, c.str, i, k) && Rough(y, c.str, k, j);
      UnobservedComplete(x, c, i, k, r);
      UnobservedComplete(y, c, k, j, r);
    case Alt(x, y) =>
      if Rough(x, c.str, i, j) {
        UnobservedComplete(x, c, i, j, r);
      } else {
        UnobservedComplete(y, c, i, j, r);
      }
    case Opt(b) =>
      if Rough(b, c.str, i, j) {
        UnobservedComplete(b, c, i, j, r);
      }
    case Star(b) =>
      var n: nat :| RoughIter(b, c.str, n, i, j);
      UnobservedIterComplete(b, c, n, i, j, r);
    case Plus(b) =>
      var n: nat :| n >= 1 && RoughIter(b, c.str, n, i, j);
      UnobservedIterComplete(b, c, n, i, j, r);
    case _ =>
  }

  lemma {:induction false} UnobservedIterComplete(b: Rexp, c: Ctx, n: nat, i: nat, j: nat, r: Regs)
    requires i <= j <= c.len <= |c.str|
    requires !Observed(b) && RoughIter(b, c.str, n, i, j)
    ensures Iter(b, c, n, i, j, r, r)
    decreases b, n + 1
  {
    if n > 0 {
      var k: nat :| i <= k <= j && Rough(b, c.str, i, k) && RoughIter(b, c.str, n - 1, k, j);
      UnobservedComplete(b, c, i, k, r);
      UnobservedIterComplete(b, c, n - 1, k, j, r);
    }
  }

  /** An unobserved tree is a regular expression: its matches are those of its regular language,
      and they leave the registers alone.  So one run of an automaton decides it. */
  lemma UnobservedIsRegular(e: Rexp, c: Ctx, i: nat, j: nat, r: Regs, r2: Regs)
    requires i <= j <= c.len <= |c.str|
    requires !Observed(e)
    ensures M(e, c, i, j, r, r2) <==> Rough(e, c.str, i, j) && r == r2
  {
    if M(e, c, i, j, r, r2) {
      UnobservedSound(e, c, i, j, r, r2);
    }
    if Rough(e, c.str, i, j) && r == r2 {
      UnobservedComplete(e, c, i, j, r);
    }
  }
}
