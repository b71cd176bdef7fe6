/** What the registers hold after a match, said of the order in which groups are closed: each register
    has the span of its group's last closing, and registers of groups that were not closed are as before.
    rx/rxspencer.c writes rm_so and rm_eo on every answer of a group's body, so later ones prevail. */
module RxGroups {
  import opened RxSyntax

  /** A group is closed with this span. */
  datatype Closing = Closing(group: nat, from: nat, to: nat)

  ghost predicate Closes(tr: seq<Closing>, g: nat) {
    exists k :: 0 <= k < |tr| && tr[k].group == g
  }

  predicate LastOf(tr: seq<Closing>, g: nat, k: nat) {
    k < |tr| && tr[k].group == g && forall m :: k < m < |tr| ==> tr[m].group != g
  }

  ghost predicate LeftBy(tr: seq<Closing>, g: nat, span: (nat, nat)) {
    exists k: nat :: LastOf(tr, g, k) && span == (tr[k].from, tr[k].to)
  }

  /** `r2` is what the closings `tr` make of `r`.  Group 0 has no register. */
  ghost predicate Leaves(tr: seq<Closing>, r: Regs, r2: Regs) {
    forall g: nat :: LeavesAt(tr, r, r2, g)
  }

  ghost predicate LeavesAt(tr: seq<Closing>, r: Regs, r2: Regs, g: nat) {
    if g != 0 && Closes(tr, g) then g in r2 && LeftBy(tr, g, r2[g])
    else (g in r2 <==> g in r) && (g in r ==> r2[g] == r[g])
  }

  /** `e` matches [i, j) from the registers `r`, and these groups are closed on the way, in this order. */
  ghost predicate Trace(e: Rexp, c: Ctx, i: nat, j: nat, r: Regs, tr: seq<Closing>)
    requires i <= j <= c.len <= |c.str|
    decreases e, 0
  {
    match e
    case Null => i == j && tr == []
    case Cset(cs) => j == i + 1 && c.str[i] in cs && tr == []
    case Str(s) => c.str[i..j] == s && tr == []
    case Concat(x, y) =>
      exists k: nat, t1, t2, r1 :: i <= k <= j && tr == t1 + t2 &&
        Trace(x, c, i, k, r, t1) && Leaves(t1, r, r1) && Trace(y, c, k, j, r1, t2)
    case Alt(x, y) => Trace(x, c, i, j, r, tr) || Trace(y, c, i, j, r, tr)
    case Opt(b) => Trace(b, c, i, j, r, tr) || (i == j && tr == [])
    case Star(b) => exists n: nat :: TraceIter(b, c, n, i, j, r, tr)
    case Plus(b) => exists n: nat :: n >= 1 && TraceIter(b, c, n, i, j, r, tr)
    case Interval(b, lo, hi) => exists n: nat :: lo <= n <= hi && TraceIter(b, c, n, i, j, r, tr)
    case Parens(b, g) => exists t1 :: Trace(b, c, i, j, r, t1) && tr == t1 + [Closing(g, i, j)]
    case Context(op) => OpAt(c, op, i, j, r) && tr == []
  }

  ghost predicate TraceIter(b: Rexp, c: Ctx, n: nat, i: nat, j: nat, r: Regs, tr: seq<Closing>)
    requires i <= j <= c.len <= |c.str|
    decreases b, n + 1
  {
    if n == 0 then i == j && tr == []
    else
      exists k: nat, t1, t2, r1 :: i <= k <= j && tr == t1 + t2 &&
        Trace(b, c, i, k, r, t1) && Leaves(t1, r, r1) && TraceIter(b, c, n - 1, k, j, r1, t2)
  }

  // ----- Closings one after the other -----

  lemma LastUnique(tr: seq<Closing>, g: nat, span: (nat, nat), span2: (nat, nat))
    requires LeftBy(tr, g, span) && LeftBy(tr, g, span2)
    ensures span == span2
  {
  }

  lemma {:induction false} LastExists(tr: seq<Closing>, g: nat) returns (k: nat)
    requires Closes(tr, g)
    ensures LastOf(tr, g, k)
  {
    var n := |tr| - 1;
    if tr[n].group == g {
      k := n;
    } else {
      var m :| 0 <= m < |tr| && tr[m].group == g;
      assert tr[..n][m] == tr[m];
      k := LastExists(tr[..n], g);
      assert tr[..n][k] == tr[k];
      forall m | k < m < |tr| ensures tr[m].group != g {
        if m < n {
          assert tr[..n][m] == tr[m];
        }
      }
    }
  }

  lemma LastAppend(t1: seq<Closing>, t2: seq<Closing>, g: nat, span: (nat, nat))
    ensures Closes(t1 + t2, g) <==> Closes(t1, g) || Closes(t2, g)
    ensures Closes(t2, g) ==> (LeftBy(t1 + t2, g, span) <==> LeftBy(t2, g, span))
    ensures !Closes(t2, g) ==> (LeftBy(t1 + t2, g, span) <==> LeftBy(t1, g, span))
  {
    var t := t1 + t2;
    assert forall k :: 0 <= k < |t1| ==> t[k] == t1[k];
    assert forall k :: 0 <= k < |t2| ==> t[|t1| + k] == t2[k];
    if Closes(t2, g) {
      var k := LastExists(t2, g);
      assert LastOf(t, g, |t1| + k);
    } else if Closes(t1, g) {
      var k := LastExists(t1, g);
      assert LastOf(t, g, k);
    }
  }

  /** What two runs of closings leave is what the second leaves of what the first left. */
  lemma LeavesAppend(t1: seq<Closing>, t2: seq<Closing>, r: Regs, r1: Regs, r2: Regs)
    requires Leaves(t1, r, r1)
    ensures Leaves(t1 + t2, r, r2) <==> Leaves(t2, r1, r2)
  {
    forall g: nat ensures Closes(t1 + t2, g) <==> Closes(t1, g) || Closes(t2, g) {
      LastAppend(t1, t2, g, (0, 0));
    }
    if Leaves(t1 + t2, r, r2) {
      forall g: nat ensures LeavesAt(t2, r1, r2, g) {
        assert LeavesAt(t1 + t2, r, r2, g) && LeavesAt(t1, r, r1, g);
        if g in r2 {
          LastAppend(t1, t2, g, r2[g]);
          if g != 0 && !Closes(t2, g) && Closes(t1, g) {
            LastUnique(t1, g, r2[g], r1[g]);
          }
        }
      }
    }
    if Leaves(t2, r1, r2) {
      forall g: nat ensures LeavesAt(t1 + t2, r, r2, g) {
        assert LeavesAt(t2, r1, r2, g) && LeavesAt(t1, r, r1, g);
        if g in r2 {
          LastAppend(t1, t2, g, r2[g]);
        }
      }
    }
  }

  lemma LeavesUnique(tr: seq<Closing>, r: Regs, r2: Regs, r3: Regs)
    requires Leaves(tr, r, r2) && Leaves(tr, r, r3)
    ensures r2 == r3
  {
    forall g: nat ensures (g in r2 <==> g in r3) && (g in r2 ==> r2[g] == r3[g]) {
      assert LeavesAt(tr, r, r2, g) && LeavesAt(tr, r, r3, g);
      if g != 0 && Closes(tr, g) {
        LastUnique(tr, g, r2[g], r3[g]);
      }
    }
  }

  /** One closing is what the matcher does to its registers. */
  lemma LeavesOne(g: nat, i: nat, j: nat, r: Regs)
    ensures Leaves([Closing(g, i, j)], r, SetGroup(r, g, i, j))
  {
    var tr := [Closing(g, i, j)];
    assert LastOf(tr, g, 0);
    assert forall h :: h != g ==> !Closes(tr, h);
    assert LeftBy(tr, g, (i, j));
  }

  lemma {:induction false} SomethingLeft(tr: seq<Closing>, r: Regs) returns (r2: Regs)
    ensures Leaves(tr, r, r2)
  {
    if tr == [] {
      r2 := r;
    } else {
      var n := |tr| - 1;
      var r1 := SomethingLeft(tr[..n], r);
      var x := tr[n];
      r2 := SetGroup(r1, x.group, x.from, x.to);
      LeavesOne(x.group, x.from, x.to, r1);
      LeavesAppend(tr[..n], [x], r, r1, r2);
      assert tr == tr[..n] + [x];
    }
  }

  // ----- The two meanings are the same -----

  /** Every match closes groups in some order, and its registers are what those closings leave. */
  lemma {:induction false} MatchTraced(e: Rexp, c: Ctx, i: nat, j: nat, r: Regs, r2: Regs) returns (tr: seq<Closing>)
    requires i <= j <= c.len <= |c.str| && M(e, c, i, j, r, r2)
    ensures Trace(e, c, i, j, r, tr) && Leaves(tr, r, r2)
    decreases e, 0
  {
    match e
    case Concat(x, y) =>
      var k: nat, r1 :| i <= k <= j && M(x, c, i, k, r, r1) && M(y, c, k, j, r1, r2);
      var t1 := MatchTraced(x, c, i, k, r, r1);
      var t2 := MatchTraced(y, c, k, j, r1, r2);
      LeavesAppend(t1, t2, r, r1, r2);
      tr := t1 + t2;
    case Alt(x, y) =>
      if M(x, c, i, j, r, r2) {
        tr := MatchTraced(x, c, i, j, r, r2);
      } else {
        tr := MatchTraced(y, c, i, j, r, r2);
      }
    case Opt(b) =>
      if M(b, c, i, j, r, r2) {
        tr := MatchTraced(b, c, i, j, r, r2);
      } else {
        tr := [];
      }
    case Star(b) =>
      var n: nat :| Iter(b, c, n, i, j, r, r2);
      tr := IterTraced(b, c, n, i, j, r, r2);
    case Plus(b) =>
      var n: nat :| n >= 1 && Iter(b, c, n, i, j, r, r2);
      tr := IterTraced(b, c, n, i, j, r, r2);
    case Interval(b, lo, hi) =>
      var n: nat :| lo <= n <= hi && Iter(b, c, n, i, j, r, r2);
      tr := IterTraced(b, c, n, i, j, r, r2);
    case Parens(b, g) =>
      var r1 :| M(b, c, i, j, r, r1) && r2 == SetGroup(r1, g, i, j);
      var t1 := MatchTraced(b, c, i, j, r, r1);
      LeavesOne(g, i, j, r1);
      LeavesAppend(t1, [Closing(g, i, j)], r, r1, r2);
      tr := t1 + [Closing(g, i, j)];
    case _ =>
      tr := [];
  }

  lemma {:induction false} IterTraced(b: Rexp, c: Ctx, n: nat, i: nat, j: nat, r: Regs, r2: Regs) returns (tr: seq<Closing>)
    requires i <= j <= c.len <= |c.str| && Iter(b, c, n, i, j, r, r2)
    ensures TraceIter(b, c, n, i, j, r, tr) && Leaves(tr, r, r2)
    decreases b, n + 1
  {
    tr := [];
    if n > 0 {
      var k: nat, r1 :| i <= k <= j && M(b, c, i, k, r, r1) && Iter(b, c, n - 1, k, j, r1, r2);
      var t1 := MatchTraced(b, c, i, k, r, r1);
      var t2 := IterTraced(b, c, n - 1, k, j, r1, r2);
      LeavesAppend(t1, t2, r, r1, r2);
      tr := t1 + t2;
    }
  }

  /** And every trace is one of a match. */
  lemma {:induction false} TraceMatches(e: Rexp, c: Ctx, i: nat, j: nat, r: Regs, tr: seq<Closing>, r2: Regs)
    requires i <= j <= c.len <= |c.str| && Trace(e, c, i, j, r, tr) && Leaves(tr, r, r2)
    ensures M(e, c, i, j, r, r2)
    decreases e, 0
  {
    match e
    case Concat(x, y) =>
      var k: nat, t1, t2, r1 :| i <= k <= j && tr == t1 + t2 &&
        Trace(x, c, i, k, r, t1) && Leaves(t1, r, r1) && Trace(y, c, k, j, r1, t2);
      LeavesAppend(t1, t2, r, r1, r2);
      TraceMatches(x, c, i, k, r, t1, r1);
      TraceMatches(y, c, k, j, r1, t2, r2);
    case Alt(x, y) =>
      if Trace(x, c, i, j, r, tr) {
        TraceMatches(x, c, i, j, r, tr, r2);
      } else {
        TraceMatches(y, c, i, j, r, tr, r2);
      }
    case Opt(b) =>
      if Trace(b, c, i, j, r, tr) {
        TraceMatches(b, c, i, j, r, tr, r2);
      } else {
        LeavesUnique([], r, r, r2);
      }
    case Star(b) =>
      var n: nat :| TraceIter(b, c, n, i, j, r, tr);
      TraceIterMatches(b, c, n, i, j, r, tr, r2);
    case Plus(b) =>
      var n: nat :| n >= 1 && TraceIter(b, c, n, i, j, r, tr);
      TraceIterMatches(b, c, n, i, j, r, tr, r2);
    case Interval(b, lo, hi) =>
      var n: nat :| lo <= n <= hi && TraceIter(b, c, n, i, j, r, tr);
      TraceIterMatches(b, c, n, i, j, r, tr, r2);
    case Parens(b, g) =>
      var t1 :| Trace(b, c, i, j, r, t1) && tr == t1 + [Closing(g, i, j)];
      var r1 := SomethingLeft(t1, r);
      LeavesAppend(t1, [Closing(g, i, j)], r, r1, r2);
      LeavesOne(g, i, j, r1);
      LeavesUnique([Closing(g, i, j)], r1, r2, SetGroup(r1, g, i, j));
      TraceMatches(b, c, i, j, r, t1, r1);
    case _ =>
      LeavesUnique([], r, r, r2);
  }

  lemma {:induction false} TraceIterMatches(b: Rexp, c: Ctx, n: nat, i: nat, j: nat, r: Regs, tr: seq<Closing>, r2: Regs)
    requires i <= j <= c.len <= |c.str| && TraceIter(b, c, n, i, j, r, tr) && Leaves(tr, r, r2)
    ensures Iter(b, c, n, i, j, r, r2)
    decreases b, n + 1
  {
    if n == 0 {
      LeavesUnique([], r, r, r2);
    } else {
      var k: nat, t1, t2, r1 :| i <= k <= j && tr == t1 + t2 &&
        Trace(b, c, i, k, r, t1) && Leaves(t1, r, r1) && TraceIter(b, c, n - 1, k, j, r1, t2);
      LeavesAppend(t1, t2, r, r1, r2);
      TraceMatches(b, c, i, k, r, t1, r1);
      TraceIterMatches(b, c, n - 1, k, j, r1, t2, r2);
    }
  }

  /** The registers after a match are exactly what the closings of its groups leave. */
  lemma RegistersAreLastClosings(e: Rexp, c: Ctx, i: nat, j: nat, r: Regs, r2: Regs)
    requires i <= j <= c.len <= |c.str|
    ensures M(e, c, i, j, r, r2) <==> exists tr :: Trace(e, c, i, j, r, tr) && Leaves(tr, r, r2)
  {
    if M(e, c, i, j, r, r2) {
      var tr := MatchTraced(e, c, i, j, r, r2);
    }
    if tr :| Trace(e, c, i, j, r, tr) && Leaves(tr, r, r2) {
      TraceMatches(e, c, i, j, r, tr, r2);
    }
  }

  // ----- One group -----

  /** A group records the span it matched, and other registers are as its body left them. */
  lemma GroupRecords(b: Rexp, g: nat, c: Ctx, i: nat, j: nat, r: Regs, r2: Regs)
    requires i <= j <= c.len <= |c.str| && M(Parens(b, g), c, i, j, r, r2)
    ensures g != 0 ==> g in r2 && r2[g] == (i, j)
    ensures exists r1 :: M(b, c, i, j, r, r1) && forall h :: h != g || g == 0 ==> (h in r2 <==> h in r1) && (h in r1 ==> r2[h] == r1[h])
  {
    var r1 :| M(b, c, i, j, r, r1) && r2 == SetGroup(r1, g, i, j);
  }

  /** A repeated group ends with the span of its last iteration, which its body matched. */
  lemma {:induction false} LastIterationStays(b: Rexp, g: nat, c: Ctx, n: nat, i: nat, j: nat, r: Regs, r2: Regs)
    requires i <= j <= c.len <= |c.str| && n > 0 && g != 0 && Iter(Parens(b, g), c, n, i, j, r, r2)
    ensures g in r2 && i <= r2[g].0 <= r2[g].1 == j
    ensures exists ra, rb :: M(b, c, r2[g].0, j, ra, rb)
    decreases n
  {
    var k: nat, r1 :| i <= k <= j && M(Parens(b, g), c, i, k, r, r1) && Iter(Parens(b, g), c, n - 1, k, j, r1, r2);
    if n == 1 {
      GroupRecords(b, g, c, i, k, r, r1);
    } else {
      LastIterationStays(b, g, c, n - 1, k, j, r1, r2);
    }
  }

  lemma StarredGroup(b: Rexp, g: nat, c: Ctx, i: nat, j: nat, r: Regs, r2: Regs)
    requires i < j <= c.len <= |c.str| && g != 0 && M(Star(Parens(b, g)), c, i, j, r, r2)
    ensures g in r2 && i <= r2[g].0 <= r2[g].1 == j
  {
    var n: nat :| Iter(Parens(b, g), c, n, i, j, r, r2);
    LastIterationStays(b, g, c, n, i, j, r, r2);
  }
}
