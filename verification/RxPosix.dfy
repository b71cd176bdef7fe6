/** rx/rxposix.c: the search for the leftmost, then longest match, with its shortcuts. */
module RxPosix {
  import opened Options
  import opened RxSyntax
  import opened RxAnalysis
  import opened RxNfa
  import opened RxEclose
  import opened RxSubset
  import opened RxRun
  import opened RxSimp
  import opened RxFit
  import opened RxAnswers
  import opened RxSpencer
  import opened RxGroups

  const MANY_CASES: nat := 30

  datatype Rules = Rules(notBol: bool, notEol: bool, caseIndep: bool)

  /** regex_t, as regncomp leaves it after parsing */
  datatype Regex = Regex(pattern: Rexp, gs: Groups, fastmap: seq<bool>, isNullable: bool, isAnchored: bool, newlineAnchor: bool)

  /** A subject of `n` characters at the start of readable memory, and how to look at it */
  datatype Subject = Subject(mem: Text, n: nat, rules: Rules)

  /** What the parser guarantees, and no starred body that can be empty. */
  ghost predicate Parsed(p: Rexp) {
    WellFormed(p) && Numbered(p, 0) && Scoped(p, []) && Progresses(p)
  }

  ghost predicate Compiled(preg: Regex) {
    && Parsed(preg.pattern) && preg.gs == GroupsOf(preg.pattern) && Resolved(preg.pattern, preg.gs)
    && |preg.fastmap| == 256 && (forall b: Byte :: preg.fastmap[b] == (b in Entered(preg.pattern)))
    && preg.isNullable == MayBeEmpty(preg.pattern) && preg.isAnchored == Anchored(preg.pattern)
  }

  /** The analyses of regncomp */
  method Analyze(p: Rexp, newlineAnchor: bool) returns (preg: Regex)
    requires Parsed(p)
    ensures Compiled(preg) && preg.pattern == p && preg.newlineAnchor == newlineAnchor
  {
    ParsedIsResolved(p);
    var fastmap := new bool[256](_ => false);
    var empty := FillInFastmap(fastmap, p);
    preg := Regex(p, GroupsOf(p), fastmap[..], empty, Anchored(p), newlineAnchor);
  }

  // ----- One span -----

  /** The rules as they hold for the whole subject */
  function Whole(preg: Regex, s: Subject): Ctx {
    Ctx(s.mem, s.n, s.rules.notBol, s.rules.notEol, preg.newlineAnchor, s.rules.caseIndep)
  }

  /** not_eol as rx_regmatch works it out for a span that ends at `e` */
  function LocalNotEol(preg: Regex, s: Subject, e: nat): bool
    requires e < |s.mem| || e == s.n
  {
    if s.rules.notEol then e == s.n || !preg.newlineAnchor || s.mem[e] != NEWLINE
    else e != s.n && (!preg.newlineAnchor || s.mem[e] != NEWLINE)
  }

  /** The closure and the rules that rx_regmatch sets up for a span that ends at `e` */
  function Local(preg: Regex, s: Subject, e: nat): Ctx
    requires e < |s.mem| || e == s.n
  {
    Ctx(s.mem, e, s.rules.notBol, LocalNotEol(preg, s, e), preg.newlineAnchor, s.rules.caseIndep)
  }

  /** Two contexts that say the same about every position up to `lim` */
  ghost predicate Agree(c: Ctx, c2: Ctx, lim: nat) {
    && lim <= c.len <= |c.str| && lim <= c2.len <= |c2.str| && c.str[..lim] == c2.str[..lim] && c.caseIndep == c2.caseIndep
    && forall i: nat :: i <= lim ==> (BolAt(c, i) <==> BolAt(c2, i)) && (EolAt(c, i) <==> EolAt(c2, i))
  }

  /** Registers look only at what the contexts agree about. */
  ghost predicate Looking(c: Ctx, c2: Ctx, lim: nat, r: Regs) {
    c.str == c2.str || forall k :: k in r ==> r[k].0 <= r[k].1 <= lim
  }

  lemma AgreeSpan(c: Ctx, c2: Ctx, lim: nat, i: nat, j: nat)
    requires Agree(c, c2, lim) && i <= j <= lim
    ensures c.str[i..j] == c2.str[i..j] && (i < j ==> c.str[i] == c2.str[i])
  {
    assert c.str[i..j] == c.str[..lim][i..j] && c2.str[i..j] == c2.str[..lim][i..j];
    assert i < j ==> c.str[i] == c.str[i..j][0] && c2.str[i] == c2.str[i..j][0];
  }

  lemma AgreeBackRef(c: Ctx, c2: Ctx, lim: nat, k: nat, i: nat, j: nat, r: Regs)
    requires Agree(c, c2, lim) && Looking(c, c2, lim, r) && i <= j <= lim && BackRefAt(c, k, i, j, r)
    ensures BackRefAt(c2, k, i, j, r)
  {
    if c.str != c2.str {
      AgreeSpan(c, c2, lim, i, j);
      AgreeSpan(c, c2, lim, r[k].0, r[k].1);
    }
  }

  lemma {:induction false} AgreeM(e: Rexp, c: Ctx, c2: Ctx, lim: nat, i: nat, j: nat, r: Regs, r2: Regs)
    requires Agree(c, c2, lim) == true && i <= j <= lim <= c.len <= |c.str| && M(e, c, i, j, r, r2) && Looking(c, c2, lim, r)
    ensures lim <= c2.len <= |c2.str| && M(e, c2, i, j, r, r2) && Looking(c, c2, lim, r2)
    decreases e, 0
  {
    match e
    case Concat(x, y) =>
      var k: nat, r1 :| i <= k <= j && M(x, c, i, k, r, r1) && M(y, c, k, j, r1, r2);
      AgreeM(x, c, c2, lim, i, k, r, r1);
      AgreeM(y, c, c2, lim, k, j, r1, r2);
    case Alt(x, y) =>
      if M(x, c, i, j, r, r2) {
        AgreeM(x, c, c2, lim, i, j, r, r2);
      } else {
        AgreeM(y, c, c2, lim, i, j, r, r2);
      }
    case Opt(b) =>
      if M(b, c, i, j, r, r2) {
        AgreeM(b, c, c2, lim, i, j, r, r2);
      }
    case Star(b) =>
      var n: nat :| Iter(b, c, n, i, j, r, r2);
      AgreeIter(b, c, c2, lim, n, i, j, r, r2);
    case Plus(b) =>
      var n: nat :| n >= 1 && Iter(b, c, n, i, j, r, r2);
      AgreeIter(b, c, c2, lim, n, i, j, r, r2);
    case Interval(b, lo, hi) =>
      var n: nat :| lo <= n <= hi && Iter(b, c, n, i, j, r, r2);
      AgreeIter(b, c, c2, lim, n, i, j, r, r2);
    case Parens(b, g) =>
      var r1 :| M(b, c, i, j, r, r1) && r2 == SetGroup(r1, g, i, j);
      AgreeM(b, c, c2, lim, i, j, r, r1);
    case Context(BackRef(k)) =>
      AgreeBackRef(c, c2, lim, k, i, j, r);
    case _ =>
      AgreeSpan(c, c2, lim, i, j);
  }

  lemma {:induction false} AgreeIter(b: Rexp, c: Ctx, c2: Ctx, lim: nat, n: nat, i: nat, j: nat, r: Regs, r2: Regs)
    requires Agree(c, c2, lim) == true && i <= j <= lim <= c.len <= |c.str| && Iter(b, c, n, i, j, r, r2) && Looking(c, c2, lim, r)
    ensures lim <= c2.len <= |c2.str| && Iter(b, c2, n, i, j, r, r2) && Looking(c, c2, lim, r2)
    decreases b, n + 1
  {
    if n > 0 {
      var k: nat, r1 :| i <= k <= j && M(b, c, i, k, r, r1) && Iter(b, c, n - 1, k, j, r1, r2);
      AgreeM(b, c, c2, lim, i, k, r, r1);
      AgreeIter(b, c, c2, lim, n - 1, k, j, r1, r2);
    }
  }

  /** For a span inside the subject the local rules are the rules of the whole. */
  lemma LocalIsWhole(preg: Regex, s: Subject, e: nat, i: nat, j: nat, r: Regs, r2: Regs)
    requires i <= j <= e <= s.n <= |s.mem|
    ensures M(preg.pattern, Local(preg, s, e), i, j, r, r2) <==> M(preg.pattern, Whole(preg, s), i, j, r, r2)
  {
    var c, c2 := Local(preg, s, e), Whole(preg, s);
    assert Agree(c, c2, e) && Agree(c2, c, e);
    if M(preg.pattern, c, i, j, r, r2) {
      AgreeM(preg.pattern, c, c2, e, i, j, r, r2);
    }
    if M(preg.pattern, c2, i, j, r, r2) {
      AgreeM(preg.pattern, c2, c, e, i, j, r, r2);
    }
  }

  /** A subject in readable memory; a fixed-length pattern may be tried past the end of the subject, so
      that much memory has to be readable. */
  ghost predicate Readable(preg: Regex, s: Subject) {
    Compiled(preg) && s.n <= |s.mem| && (Len(preg.pattern) >= 0 ==> s.n + Len(preg.pattern) < |s.mem|)
  }

  /** The groups referred to are closed under comparing equal: then no match is lost. */
  ghost predicate Keeping(preg: Regex, s: Subject) {
    Readable(preg, s) && Comparable(preg.pattern, preg.gs, Whole(preg, s))
  }

  /** The subset test inspects every character: then answers are matches, too. */
  ghost predicate Fine(preg: Regex, s: Subject) {
    Keeping(preg, s) && forall k :: 0 <= k < |s.mem| ==> s.mem[k] < INSPECTED
  }

  /** The ends that rx_regmatch tries for a start at `x` */
  predicate InRange(preg: Regex, s: Subject, x: nat, e: nat) {
    if Len(preg.pattern) >= 0 then e == x + Len(preg.pattern) else x <= e <= s.n
  }

  /** The matcher answers for the span, with these registers. */
  ghost predicate HitWith(preg: Regex, s: Subject, x: nat, e: nat, r: Regs) {
    Readable(preg, s) && x <= e <= |s.mem| && (e < |s.mem| || e == s.n) &&
    r in Sols(preg.pattern, 0, Env(Local(preg, s, e), preg.gs), x, e, map[])
  }

  /** The registers are those of the matcher's first answer. */
  ghost predicate FirstHit(preg: Regex, s: Subject, x: nat, e: nat, r: Regs) {
    HitWith(preg, s, x, e, r) && r == Sols(preg.pattern, 0, Env(Local(preg, s, e), preg.gs), x, e, map[])[0]
  }

  ghost predicate Hit(preg: Regex, s: Subject, x: nat, e: nat) {
    exists r :: HitWith(preg, s, x, e, r)
  }

  /** A tree of known length has no back references. */
  lemma {:induction false} KnownComparable(e: Rexp, gs: Groups, c: Ctx)
    requires Ranked(gs) && c.len <= |c.str| && Len(e) >= 0
    ensures Comparable(e, gs, c)
  {
    match e
    case Concat(l, r) =>
      KnownComparable(l, gs, c);
      KnownComparable(r, gs, c);
    case Alt(l, r) =>
      KnownComparable(l, gs, c);
      KnownComparable(r, gs, c);
    case Parens(b, _) => KnownComparable(b, gs, c);
    case _ =>
  }

  lemma {:induction false} NumberedNested(e: Rexp, n: nat)
    requires Numbered(e, n)
    ensures Nested(e)
  {
    match e
    case Concat(l, r) =>
      NumberedNested(l, n);
      NumberedNested(r, n + Opened(l));
    case Alt(l, r) =>
      NumberedNested(l, n);
      NumberedNested(r, n + Opened(l));
    case Opt(b) => NumberedNested(b, n);
    case Star(b) => NumberedNested(b, n);
    case Plus(b) => NumberedNested(b, n);
    case Interval(b, _, _) => NumberedNested(b, n);
    case Parens(b, g) =>
      NumberedNested(b, n + 1);
      NumberedDistinct(b, n + 1);
    case _ =>
  }

  lemma SpanPrepared(preg: Regex, s: Subject, x: nat, e: nat)
    requires Keeping(preg, s) && x <= e && (e <= s.n || (x <= s.n && InRange(preg, s, x, e)))
    ensures var env := Env(Local(preg, s, e), preg.gs); Prepared(preg.pattern, env, map[]) && Span(env, x, e)
  {
    ParsedIsResolved(preg.pattern);
    if e <= s.n {
      ComparableShorter(preg.pattern, preg.gs, Whole(preg, s), Local(preg, s, e));
    } else {
      KnownComparable(preg.pattern, preg.gs, Local(preg, s, e));
    }
  }

  /** A match is answered, and on inspected characters every answer is a match. */
  lemma HitsAreMatches(preg: Regex, s: Subject, x: nat, e: nat, r: Regs)
    requires Keeping(preg, s) && x <= e && (e <= s.n || (x <= s.n && InRange(preg, s, x, e)))
    ensures M(preg.pattern, Local(preg, s, e), x, e, map[], r) ==> HitWith(preg, s, x, e, r)
    ensures Fine(preg, s) ==> (HitWith(preg, s, x, e, r) <==> M(preg.pattern, Local(preg, s, e), x, e, map[], r))
  {
    SpanPrepared(preg, s, x, e);
    AnswersAreMatches(preg.pattern, Env(Local(preg, s, e), preg.gs), x, e, map[], r);
  }

  /** One pass of rx_regmatch's loop */
  method TrySpan(preg: Regex, s: Subject, x: nat, e: nat, regs: RegFile) returns (ans: bool)
    requires Readable(preg, s) && x <= s.n && InRange(preg, s, x, e) && regs.r == map[]
    modifies regs
    ensures ans <==> Hit(preg, s, x, e)
    ensures if ans then FirstHit(preg, s, x, e, regs.r) else regs.r == map[]
  {
    NumberedNested(preg.pattern, 0);
    var env := Env(Local(preg, s, e), preg.gs);
    var solutions := new Solutions(preg.pattern, 0, env, x, e, regs);
    ans := solutions.Next();
    if ans {
      assert HitWith(preg, s, x, e, regs.r);
    }
  }

  /** pmatch: the registers of a match, and its span in register 0 */
  ghost predicate Reported(preg: Regex, s: Subject, x: nat, e: nat, pmatch: Regs) {
    exists r :: FirstHit(preg, s, x, e, r) && pmatch == r[0 := (x, e)]
  }

  /** rx_regmatch: the longest end in range, or none and the registers untouched */
  method RegMatch(preg: Regex, s: Subject, x: nat, regs: RegFile) returns (res: Option<nat>)
    requires Readable(preg, s) && x <= s.n && regs.r == map[]
    modifies regs
    ensures res.None? ==> regs.r == map[] && forall e: nat :: InRange(preg, s, x, e) ==> !Hit(preg, s, x, e)
    ensures res.Some? ==> InRange(preg, s, x, res.value) && Reported(preg, s, x, res.value, regs.r)
    ensures res.Some? ==> forall e: nat :: InRange(preg, s, x, e) && e > res.value ==> !Hit(preg, s, x, e)
  {
    var lower, upper := x, s.n;
    if Len(preg.pattern) >= 0 {
      lower, upper := x + Len(preg.pattern), x + Len(preg.pattern);
    }
    var end := upper;
    while end >= lower
      invariant lower - 1 <= end <= upper && regs.r == map[]
      invariant forall e: nat :: InRange(preg, s, x, e) && e > end ==> !Hit(preg, s, x, e)
    {
      var ans := TrySpan(preg, s, x, end, regs);
      if ans {
        regs.r := regs.r[0 := (x, end)];
        return Some(end);
      }
      end := end - 1;
    }
    return None;
  }

  // ----- The dead-prefix test on long subjects -----

  ghost predicate DeadAfter(b: Built, burst: Text, a: nat) {
    var S0 := Closure(b.g, b.start);
    && a < |burst| && CodeRun(b.g, S0, burst[..a + 1]) == {} && NoFinal(b.g, b.end, S0, burst, a)
    && (if a == 0 then b.end !in S0 else CodeRun(b.g, S0, burst[..a]) != {})
  }

  /** The automaton has no state left after some prefix, and was in no final state after any of its
      characters; the state before the first character only counts when that one already fails. */
  ghost predicate Dead(b: Built, burst: Text) {
    exists a: nat :: DeadAfter(b, burst, a)
  }

  lemma EmptyStays(g: Graph, S: set<nat>, w: Text, k: nat, m: nat)
    requires k <= m <= |w| && CodeRun(g, S, w[..k]) == {}
    ensures CodeRun(g, S, w[..m]) == {}
  {
    CodeRunSplit(g, S, w[..m], k);
    assert w[..m][..k] == w[..k];
    CodeRunEmpty(g, w[..m][k..]);
  }

  lemma DropExact(b: Built, burst: Text, amt: nat, S: set<nat>, tag: bool)
    requires Advanced(b.g, b.end, Closure(b.g, b.start), burst, amt, S, tag)
    ensures !tag && amt < |burst| <==> Dead(b, burst)
  {
    var S0 := Closure(b.g, b.start);
    if !tag && amt < |burst| {
      assert burst[..0] == [];
      assert NoFinal(b.g, b.end, S0, burst, amt);
      assert DeadAfter(b, burst, amt);
    }
    if Dead(b, burst) {
      var a: nat :| DeadAfter(b, burst, a);
      assert burst[..0] == [];
      if amt < a {
        EmptyStays(b.g, S0, burst, amt + 1, a);
      } else if amt > a {
        EmptyStays(b.g, S0, burst, a + 1, amt);
      }
    }
  }

  /** The automaton of the whole pattern */
  function Auto(preg: Regex): Built
    requires Resolved(preg.pattern, preg.gs)
  {
    Compile(Simple(preg.pattern, preg.gs))
  }

  method DropTest(machine: System, ghost b: Built, burst: Text) returns (drop: bool)
    requires machine.Ok() && machine.cache.g == b.g && machine.cache.fin == b.end && machine.start == b.start
    modifies machine, machine.cache`c, machine.cache.rx, machine.cache.rx.mark
    ensures machine.Ok() && drop == Dead(b, burst)
  {
    machine.StartSuperstate();
    var amt := machine.AdvanceToFinal(burst);
    drop := !machine.finalTag && amt < |burst|;
    DropExact(b, burst, amt, machine.Now(), machine.finalTag);
  }

  // ----- The search -----

  predicate Long(s: Subject) {
    s.n > MANY_CASES
  }

  /** The map of first characters lets `x` through. */
  predicate Admitted(preg: Regex, s: Subject, x: nat)
    requires s.n <= |s.mem| && |preg.fastmap| == 256
  {
    preg.isNullable || (x < s.n && preg.fastmap[s.mem[x]])
  }

  /** The dead-prefix test rejects `x`. */
  ghost predicate Dropped(preg: Regex, s: Subject, x: nat)
    requires Readable(preg, s) && x <= s.n
  {
    Long(s) && Dead(Auto(preg), s.mem[x..s.n])
  }

  ghost predicate Found(preg: Regex, s: Subject, x: nat)
    requires Readable(preg, s) && x <= s.n
  {
    Admitted(preg, s, x) && !Dropped(preg, s, x) && exists e: nat :: InRange(preg, s, x, e) && Hit(preg, s, x, e)
  }

  /** What rx_regexec answers: the first start that is admitted, not dropped and has a hit in range,
      with its longest end */
  ghost predicate Outcome(preg: Regex, s: Subject, res: Option<(nat, nat)>)
    requires Readable(preg, s)
  {
    match res
    case None => forall x: nat :: x <= s.n ==> !Found(preg, s, x)
    case Some((x, e)) =>
      x <= s.n && LongestAt(preg, s, x, e) && forall x2: nat :: x2 < x ==> !Found(preg, s, x2)
  }

  /** `e` is the longest end in range for a start that is found. */
  ghost predicate LongestAt(preg: Regex, s: Subject, x: nat, e: nat)
    requires Readable(preg, s) && x <= s.n
  {
    && Found(preg, s, x) && InRange(preg, s, x, e) && Hit(preg, s, x, e)
    && forall e2: nat :: InRange(preg, s, x, e2) && e2 > e ==> !Hit(preg, s, x, e2)
  }

  /** A hit of an anchored pattern starts where '^' holds. */
  lemma AnchoredHit(preg: Regex, s: Subject, x: nat)
    requires Readable(preg, s) && preg.isAnchored && x <= s.n && Found(preg, s, x)
    ensures (x == 0 && !s.rules.notBol) || (x > 0 && preg.newlineAnchor && s.mem[x - 1] == NEWLINE)
  {
    var e: nat :| InRange(preg, s, x, e) && Hit(preg, s, x, e);
    var r :| HitWith(preg, s, x, e, r);
    SolsAnchored(preg.pattern, 0, Env(Local(preg, s, e), preg.gs), x, e, map[], r);
  }

  /** The newline hop: no start up to and including the next newline can be anchored. */
  method Hop(preg: Regex, s: Subject, x: nat) returns (y: nat)
    requires Readable(preg, s) && preg.isAnchored && x <= s.n
    ensures x <= y <= s.n
    ensures forall z: nat :: x < z <= y ==> !Found(preg, s, z)
    ensures y < s.n ==> s.mem[y] == NEWLINE
  {
    y := x;
    while y < s.n && s.mem[y] != NEWLINE
      invariant x <= y <= s.n
      invariant forall z: nat :: x < z <= y ==> !Found(preg, s, z)
    {
      y := y + 1;
      if Found(preg, s, y) {
        AnchoredHit(preg, s, y);
      }
    }
  }

  /** One start of rx_regexec's loop */
  method TryStart(preg: Regex, s: Subject, x: nat, machine: System, regs: RegFile) returns (res: Option<nat>)
    requires Readable(preg, s) && x <= s.n && regs.r == map[] && machine.Ok() && Runs(machine, Auto(preg))
    modifies regs, machine, machine.cache`c, machine.cache.rx, machine.cache.rx.mark
    ensures machine.Ok()
    ensures res.None? ==> regs.r == map[] && !Found(preg, s, x)
    ensures res.Some? ==> LongestAt(preg, s, x, res.value) && Reported(preg, s, x, res.value, regs.r)
  {
    if !Admitted(preg, s, x) {
      return None;
    }
    if Long(s) {
      var drop := DropTest(machine, Auto(preg), s.mem[x..s.n]);
      if drop {
        return None;
      }
    }
    res := RegMatch(preg, s, x, regs);
  }

  ghost predicate Runs(machine: System, b: Built) {
    machine.cache.g == b.g && machine.cache.fin == b.end && machine.start == b.start
  }

  /** rx_regexec with start 0, which is how regnexec calls it */
  method RegExec(preg: Regex, s: Subject, regs: RegFile) returns (res: Option<(nat, nat)>)
    requires Readable(preg, s) && regs.r == map[]
    modifies regs
    ensures Outcome(preg, s, res)
    ensures res.None? ==> regs.r == map[]
    ensures res.Some? ==> Reported(preg, s, res.value.0, res.value.1, regs.r)
  {
    CompileClosed(Simple(preg.pattern, preg.gs));
    var machine := new System(Auto(preg));
    var x := 0;
    while x <= s.n
      invariant x <= s.n + 1 && regs.r == map[]
      invariant machine.Ok() == true && Runs(machine, Auto(preg))
      invariant fresh(machine) && fresh(machine.cache) && fresh(machine.cache.rx) && fresh(machine.cache.rx.mark)
      invariant NoneBelow(preg, s, x) == true
    {
      var m := TryStart(preg, s, x, machine, regs);
      if m.Some? {
        return Some((x, m.value));
      }
      var y := x;
      if preg.isAnchored {
        if !preg.newlineAnchor {
          OnlyAtStart(preg, s);
          return None;
        }
        y := Hop(preg, s, x);
      }
      NoneBetween(preg, s, x, y);
      x := y + 1;
    }
    return None;
  }

  ghost predicate NoneBelow(preg: Regex, s: Subject, x: nat)
    requires Readable(preg, s) && x <= s.n + 1
  {
    forall z: nat :: z < x ==> !Found(preg, s, z)
  }

  lemma NoneBetween(preg: Regex, s: Subject, x: nat, y: nat)
    requires Readable(preg, s) && x <= y <= s.n && NoneBelow(preg, s, x) == true && !Found(preg, s, x) == true
    requires forall z: nat :: x < z <= y ==> !Found(preg, s, z)
    ensures NoneBelow(preg, s, y + 1) == true
  {
  }

  lemma OnlyAtStart(preg: Regex, s: Subject)
    requires Readable(preg, s) && preg.isAnchored && !preg.newlineAnchor && !Found(preg, s, 0) == true
    ensures forall z: nat :: z <= s.n ==> !Found(preg, s, z)
  {
    forall z: nat | z <= s.n ensures !Found(preg, s, z) {
      if Found(preg, s, z) {
        AnchoredHit(preg, s, z);
      }
    }
  }

  // ----- The rule the search is meant to follow -----

  ghost predicate MatchWith(preg: Regex, s: Subject, x: nat, e: nat, r: Regs) {
    x <= e <= s.n <= |s.mem| && M(preg.pattern, Whole(preg, s), x, e, map[], r)
  }

  /** The pattern matches the span of the subject. */
  ghost predicate Matches(preg: Regex, s: Subject, x: nat, e: nat) {
    exists r :: MatchWith(preg, s, x, e, r)
  }

  ghost predicate Starts(preg: Regex, s: Subject, x: nat) {
    exists e: nat :: Matches(preg, s, x, e)
  }

  /** No match starts before `x`. */
  ghost predicate NothingBefore(preg: Regex, s: Subject, x: nat) {
    forall z: nat :: z < x ==> !Starts(preg, s, z)
  }

  /** Leftmost, then longest: what trying every start and every end would give. */
  ghost predicate Leftmost(preg: Regex, s: Subject, res: Option<(nat, nat)>) {
    match res
    case None => forall x: nat :: !Starts(preg, s, x)
    case Some((x, e)) =>
      Matches(preg, s, x, e) && NothingBefore(preg, s, x) && forall e2: nat :: e2 > e ==> !Matches(preg, s, x, e2)
  }

  lemma MatchIsHit(preg: Regex, s: Subject, x: nat, e: nat)
    requires Keeping(preg, s) && Matches(preg, s, x, e)
    ensures x <= e <= s.n && Hit(preg, s, x, e) && InRange(preg, s, x, e)
  {
    var r :| MatchWith(preg, s, x, e, r);
    LocalIsWhole(preg, s, e, x, e, map[], r);
    HitsAreMatches(preg, s, x, e, r);
    assert HitWith(preg, s, x, e, r);
    if Len(preg.pattern) >= 0 {
      LenSound(preg.pattern, Whole(preg, s), x, e, map[], r);
    }
  }

  /** On inspected characters a hit inside the subject is a match. */
  lemma HitIsMatch(preg: Regex, s: Subject, x: nat, e: nat)
    requires Fine(preg, s) && e <= s.n && Hit(preg, s, x, e)
    ensures Matches(preg, s, x, e)
  {
    var r :| HitWith(preg, s, x, e, r);
    HitsAreMatches(preg, s, x, e, r);
    LocalIsWhole(preg, s, e, x, e, map[], r);
    assert MatchWith(preg, s, x, e, r);
  }

  /** The map of first characters never rejects the start of a match. */
  lemma MatchAdmitted(preg: Regex, s: Subject, x: nat, e: nat)
    requires Readable(preg, s) && Matches(preg, s, x, e)
    ensures Admitted(preg, s, x)
  {
    var r :| MatchWith(preg, s, x, e, r);
    if !preg.isNullable {
      FastmapSound(preg.pattern, Whole(preg, s), x, e, map[], r);
    }
  }

  /** The dead-prefix test never loses a match that is not empty. */
  lemma DroppedOnlyEmpty(preg: Regex, s: Subject, x: nat, e: nat)
    requires Keeping(preg, s) && Matches(preg, s, x, e) && x <= s.n && Dropped(preg, s, x)
    ensures e == x
  {
    var r :| MatchWith(preg, s, x, e, r);
    var c := Whole(preg, s);
    ParsedIsResolved(preg.pattern);
    SimplifyKeepsMatches(preg.pattern, preg.gs, c, x, e, map[], r);
    FitNeverLoses(Simple(preg.pattern, preg.gs), s.mem, x, e);
    var b, burst := Auto(preg), s.mem[x..s.n];
    var a: nat :| DeadAfter(b, burst, a);
    var k := e - x;
    assert burst[..k] == s.mem[x..e];
    if k > a {
      EmptyStays(b.g, Closure(b.g, b.start), burst, a + 1, k);
    }
  }

  /** A start of a match is found, unless the dead-prefix test drops it. */
  lemma StartFound(preg: Regex, s: Subject, x: nat)
    requires Keeping(preg, s) && Starts(preg, s, x)
    ensures x <= s.n && (Found(preg, s, x) <==> !Dropped(preg, s, x))
  {
    var e: nat :| Matches(preg, s, x, e);
    MatchIsHit(preg, s, x, e);
    MatchAdmitted(preg, s, x, e);
  }

  /** On every text, whatever its characters: a match is not passed by unless its start is dropped. */
  lemma NoMatchPassedBy(preg: Regex, s: Subject, res: Option<(nat, nat)>, x: nat)
    requires Keeping(preg, s) && Outcome(preg, s, res) && Starts(preg, s, x)
    ensures x <= s.n && (!Dropped(preg, s, x) ==> res.Some? && res.value.0 <= x)
  {
    StartFound(preg, s, x);
  }

  /** The memory holds a match of the pattern as rx_regmatch looks at a span that ends at `e`. */
  ghost predicate MatchThere(preg: Regex, s: Subject, x: nat, e: nat, r: Regs) {
    x <= e < |s.mem| && M(preg.pattern, Local(preg, s, e), x, e, map[], r)
  }

  /** Taken as if the subject went on, the memory from `x` holds a match of a fixed-length pattern that
      ends past the end of the subject. */
  ghost predicate Overrun(preg: Regex, s: Subject, x: nat) {
    && Len(preg.pattern) >= 0 && x + Len(preg.pattern) > s.n && (x < s.n || MayBeEmpty(preg.pattern))
    && SomeMatch(preg, s, x, x + Len(preg.pattern))
  }

  ghost predicate SomeMatch(preg: Regex, s: Subject, x: nat, e: nat) {
    exists r :: MatchThere(preg, s, x, e, r)
  }

  lemma FoundKinds(preg: Regex, s: Subject, x: nat)
    requires Fine(preg, s) && x <= s.n && Found(preg, s, x)
    ensures Starts(preg, s, x) || Overrun(preg, s, x)
  {
    var e: nat :| InRange(preg, s, x, e) && Hit(preg, s, x, e);
    if e <= s.n {
      HitIsMatch(preg, s, x, e);
    } else {
      var r :| HitWith(preg, s, x, e, r);
      HitsAreMatches(preg, s, x, e, r);
      assert MatchThere(preg, s, x, e, r);
    }
  }

  /** An automaton that accepts past the end of the subject is not dead before it. */
  lemma OverrunStays(preg: Regex, s: Subject, x: nat, e: nat, r: Regs)
    requires Keeping(preg, s) && x <= s.n < e && InRange(preg, s, x, e) && MatchThere(preg, s, x, e, r)
    ensures !Dropped(preg, s, x)
  {
    SpanPrepared(preg, s, x, e);
    SimplifyKeepsMatches(preg.pattern, preg.gs, Local(preg, s, e), x, e, map[], r);
    FitNeverLoses(Simple(preg.pattern, preg.gs), s.mem, x, e);
    var b, burst := Auto(preg), s.mem[x..s.n];
    if Dead(b, burst) {
      var a: nat :| DeadAfter(b, burst, a);
      var w := s.mem[x..e];
      assert a < |burst| && w[..s.n - x] == burst && w[..e - x] == w;
      assert w[..a + 1] == w[..s.n - x][..a + 1];
      EmptyStays(b.g, Closure(b.g, b.start), w, a + 1, e - x);
    }
  }

  /** An overrun gets through all the filters. */
  lemma OverrunFound(preg: Regex, s: Subject, x: nat)
    requires Keeping(preg, s) && x <= s.n && Overrun(preg, s, x)
    ensures Found(preg, s, x)
  {
    var e := x + Len(preg.pattern);
    var r :| MatchThere(preg, s, x, e, r);
    HitsAreMatches(preg, s, x, e, r);
    assert InRange(preg, s, x, e) && Hit(preg, s, x, e);
    OverrunStays(preg, s, x, e, r);
    if !preg.isNullable {
      FastmapSound(preg.pattern, Local(preg, s, e), x, e, map[], r);
    }
  }

  /** When the search keeps to the rule.  The start of the leftmost match must survive the
      dead-prefix test, which can only fail when that match is empty, the subject is long and the
      automaton dies after at least one character; and where there is no match, the memory past the
      end of the subject must not complete one. */
  ghost predicate Faithful(preg: Regex, s: Subject)
    requires Readable(preg, s)
  {
    && (forall x: nat :: x <= s.n && Starts(preg, s, x) && NothingBefore(preg, s, x) ==> !Dropped(preg, s, x))
    && ((forall x: nat :: !Starts(preg, s, x)) ==> forall x: nat :: x <= s.n ==> !Overrun(preg, s, x))
  }

  /** A fixed-length match at an earlier start fits in the subject if a later one does. */
  lemma OverrunIsLast(preg: Regex, s: Subject, x: nat, z: nat)
    requires Fine(preg, s) && x <= s.n && Overrun(preg, s, x) && Starts(preg, s, z)
    ensures z < x
  {
    var e: nat :| Matches(preg, s, z, e);
    MatchIsHit(preg, s, z, e);
  }

  lemma SearchRight(preg: Regex, s: Subject, res: Option<(nat, nat)>)
    requires Fine(preg, s) && Outcome(preg, s, res) && Faithful(preg, s)
    ensures Leftmost(preg, s, res)
  {
    match res
    case None =>
      forall x: nat ensures !Starts(preg, s, x) {
        NoStartMissed(preg, s, res, x);
      }
    case Some((x, e)) =>
      FoundKinds(preg, s, x);
      if Overrun(preg, s, x) && !Starts(preg, s, x) {
        forall z: nat ensures !Starts(preg, s, z) {
          if Starts(preg, s, z) {
            OverrunIsLast(preg, s, x, z);
            NoStartMissed(preg, s, res, z);
          }
        }
        assert false;
      } else {
        LongestIsLongest(preg, s, x, e);
        forall z: nat | z < x ensures !Starts(preg, s, z) {
          NoStartMissed(preg, s, res, z);
        }
      }
  }

  lemma LongestIsLongest(preg: Regex, s: Subject, x: nat, e: nat)
    requires Fine(preg, s) && x <= s.n && LongestAt(preg, s, x, e) && Starts(preg, s, x)
    ensures Matches(preg, s, x, e) && forall e2: nat :: e2 > e ==> !Matches(preg, s, x, e2)
  {
    var e1: nat :| Matches(preg, s, x, e1);
    MatchIsHit(preg, s, x, e1);
    HitIsMatch(preg, s, x, e);
    forall e2: nat | e2 > e ensures !Matches(preg, s, x, e2) {
      if Matches(preg, s, x, e2) {
        MatchIsHit(preg, s, x, e2);
      }
    }
  }

  /** The first start of a match below the answer would have been found. */
  lemma {:induction false} NoStartMissed(preg: Regex, s: Subject, res: Option<(nat, nat)>, x: nat)
    requires Fine(preg, s) && Outcome(preg, s, res) && Faithful(preg, s)
    requires res.Some? ==> x < res.value.0
    ensures !Starts(preg, s, x)
    decreases x
  {
    forall z: nat | z < x ensures !Starts(preg, s, z) {
      NoStartMissed(preg, s, res, z);
    }
    if Starts(preg, s, x) {
      StartFound(preg, s, x);
      assert NothingBefore(preg, s, x);
    }
  }

  lemma LeftmostStarts(preg: Regex, s: Subject, res: Option<(nat, nat)>)
    requires Leftmost(preg, s, res)
    ensures res.Some? ==> Starts(preg, s, res.value.0)
  {
  }

  lemma SearchWrong(preg: Regex, s: Subject, res: Option<(nat, nat)>)
    requires Fine(preg, s) && Outcome(preg, s, res) && Leftmost(preg, s, res)
    ensures Faithful(preg, s)
  {
    LeftmostStarts(preg, s, res);
    forall x: nat | x <= s.n && Starts(preg, s, x) && NothingBefore(preg, s, x) ensures !Dropped(preg, s, x) {
      StartFound(preg, s, x);
      assert res.Some? && res.value.0 == x;
    }
    forall x: nat | x <= s.n && res.None? ensures !Overrun(preg, s, x) {
      if Overrun(preg, s, x) {
        OverrunFound(preg, s, x);
      }
    }
  }

  /** For every pattern and subject: the search with all its shortcuts gives the leftmost, then
      longest match if and only if the search is faithful to it. */
  lemma SearchExact(preg: Regex, s: Subject, res: Option<(nat, nat)>)
    requires Fine(preg, s) && Outcome(preg, s, res)
    ensures Leftmost(preg, s, res) <==> Faithful(preg, s)
  {
    if Faithful(preg, s) {
      SearchRight(preg, s, res);
    }
    if Leftmost(preg, s, res) {
      SearchWrong(preg, s, res);
    }
  }

  // ----- Where it always keeps to the rule -----

  lemma {:induction false} NulStops(e: Rexp, c: Ctx, i: nat, k: nat, j: nat, r: Regs, r2: Regs)
    requires i <= k < j <= c.len <= |c.str|
    requires NulFree(e) && Len(e) >= 0 && M(e, c, i, j, r, r2)
    ensures c.str[k] != 0
    decreases e
  {
    match e
    case Str(t) =>
      assert c.str[i..j][k - i] == c.str[k];
    case Concat(x, y) =>
      var m: nat, r1 :| i <= m <= j && M(x, c, i, m, r, r1) && M(y, c, m, j, r1, r2);
      if k < m {
        NulStops(x, c, i, k, m, r, r1);
      } else {
        NulStops(y, c, m, k, j, r1, r2);
      }
    case Alt(x, y) =>
      if M(x, c, i, j, r, r2) {
        NulStops(x, c, i, k, j, r, r2);
      } else {
        NulStops(y, c, i, k, j, r, r2);
      }
    case Parens(b, g) =>
      var r1 :| M(b, c, i, j, r, r1) && r2 == SetGroup(r1, g, i, j);
      NulStops(b, c, i, k, j, r, r1);
    case _ =>
  }

  lemma NotNullable(preg: Regex, s: Subject, x: nat)
    requires Fine(preg, s) && Matches(preg, s, x, x)
    ensures Nullable(preg.pattern)
  {
    var r :| MatchWith(preg, s, x, x, r);
    var env := Env(Whole(preg, s), preg.gs);
    ParsedIsResolved(preg.pattern);
    AnswersAreMatches(preg.pattern, env, x, x, map[], r);
  }

  /** On C strings, for patterns without zero bytes, the search is leftmost-longest whenever the
      subject is short or the pattern cannot be empty. */
  lemma SearchOnStrings(preg: Regex, s: Subject, res: Option<(nat, nat)>)
    requires Fine(preg, s) && Outcome(preg, s, res)
    requires s.n < |s.mem| && s.mem[s.n] == 0 && (Len(preg.pattern) >= 0 ==> NulFree(preg.pattern))
    requires s.n <= 30 || !Nullable(preg.pattern)
    ensures Leftmost(preg, s, res)
  {
    forall x: nat | x <= s.n && Starts(preg, s, x) && Dropped(preg, s, x) ensures false {
      var e: nat :| Matches(preg, s, x, e);
      DroppedOnlyEmpty(preg, s, x, e);
      NotNullable(preg, s, x);
    }
    forall x: nat | x <= s.n && Overrun(preg, s, x) ensures false {
      var e := x + Len(preg.pattern);
      var r :| MatchThere(preg, s, x, e, r);
      NulStops(preg.pattern, Local(preg, s, e), x, s.n, e, map[], r);
    }
    SearchExact(preg, s, res);
  }

  // ----- What is reported in pmatch -----

  /** Registers from 1 up hold the last closing of their groups, and nothing for groups not closed. */
  ghost predicate LastClosings(tr: seq<Closing>, pmatch: Regs) {
    forall g: nat :: g != 0 ==> (g in pmatch <==> Closes(tr, g)) && (g in pmatch ==> LeftBy(tr, g, pmatch[g]))
  }

  /** Register 0 has the span of the match, and the others the last closings of their groups in it. */
  lemma ReportedRegisters(preg: Regex, s: Subject, x: nat, e: nat, pmatch: Regs)
    requires Fine(preg, s) && x <= s.n && InRange(preg, s, x, e) && Reported(preg, s, x, e, pmatch)
    ensures 0 in pmatch && pmatch[0] == (x, e)
    ensures exists tr :: Trace(preg.pattern, Local(preg, s, e), x, e, map[], tr) && LastClosings(tr, pmatch)
  {
    var r :| FirstHit(preg, s, x, e, r) && pmatch == r[0 := (x, e)];
    HitsAreMatches(preg, s, x, e, r);
    var tr := MatchTraced(preg.pattern, Local(preg, s, e), x, e, map[], r);
    forall g: nat | g != 0 ensures (g in pmatch <==> Closes(tr, g)) && (g in pmatch ==> LeftBy(tr, g, pmatch[g])) {
      assert LeavesAt(tr, map[], r, g);
    }
    assert LastClosings(tr, pmatch);
  }

  /** For a pattern that repeats a group, the last iteration is reported. */
  lemma ReportedLastIteration(preg: Regex, s: Subject, x: nat, e: nat, pmatch: Regs, b: Rexp, g: nat)
    requires Fine(preg, s) && x <= s.n && InRange(preg, s, x, e) && Reported(preg, s, x, e, pmatch)
    requires preg.pattern == Star(Parens(b, g)) && g != 0 && x < e
    ensures g in pmatch && x <= pmatch[g].0 <= pmatch[g].1 == e
  {
    var r :| FirstHit(preg, s, x, e, r) && pmatch == r[0 := (x, e)];
    HitsAreMatches(preg, s, x, e, r);
    StarredGroup(b, g, Local(preg, s, e), x, e, map[], r);
  }

  // ----- What lies past the end of a string -----

  /** The same subject, in memory that may go on in other ways */
  ghost predicate SameSubject(s: Subject, s2: Subject) {
    s.n == s2.n <= |s.mem| && s.n <= |s2.mem| && s.rules == s2.rules && s.mem[..s.n] == s2.mem[..s.n]
  }

  lemma SameMatches(preg: Regex, s: Subject, s2: Subject, x: nat, e: nat)
    requires SameSubject(s, s2) && Matches(preg, s, x, e)
    ensures Matches(preg, s2, x, e)
  {
    var r :| MatchWith(preg, s, x, e, r);
    var c, c2 := Whole(preg, s), Whole(preg, s2);
    forall i: nat | i < s.n ensures c.str[i] == c2.str[i] {
      assert s.mem[..s.n][i] == s2.mem[..s.n][i];
    }
    AgreeM(preg.pattern, c, c2, s.n, x, e, map[], r);
    assert MatchWith(preg, s2, x, e, r);
  }

  lemma SameLeftmost(preg: Regex, s: Subject, s2: Subject, res: Option<(nat, nat)>)
    requires SameSubject(s, s2) && Leftmost(preg, s, res)
    ensures Leftmost(preg, s2, res)
  {
    forall x: nat, e: nat ensures Matches(preg, s, x, e) <==> Matches(preg, s2, x, e) {
      if Matches(preg, s, x, e) {
        SameMatches(preg, s, s2, x, e);
      }
      if Matches(preg, s2, x, e) {
        SameMatches(preg, s2, s, x, e);
      }
    }
    assert forall x: nat :: Starts(preg, s, x) <==> Starts(preg, s2, x);
  }

  /** There is one leftmost, then longest match at most. */
  lemma LeftmostUnique(preg: Regex, s: Subject, res: Option<(nat, nat)>, res2: Option<(nat, nat)>)
    requires Leftmost(preg, s, res) && Leftmost(preg, s, res2)
    ensures res == res2
  {
    if res.Some? {
      assert Starts(preg, s, res.value.0);
    }
    if res2.Some? {
      assert Starts(preg, s, res2.value.0);
    }
  }

  /** On strings the answer does not depend on what memory holds after the zero byte, although a
      fixed-length pattern is tried there. */
  lemma StringDecides(preg: Regex, s: Subject, s2: Subject, res: Option<(nat, nat)>, res2: Option<(nat, nat)>)
    requires Fine(preg, s) && Outcome(preg, s, res) && Fine(preg, s2) && Outcome(preg, s2, res2) && SameSubject(s, s2)
    requires s.n < |s.mem| && s.mem[s.n] == 0 && s2.n < |s2.mem| && s2.mem[s2.n] == 0
    requires (Len(preg.pattern) >= 0 ==> NulFree(preg.pattern)) && (s.n <= 30 || !Nullable(preg.pattern))
    ensures res == res2
  {
    SearchOnStrings(preg, s, res);
    SearchOnStrings(preg, s2, res2);
    SameLeftmost(preg, s2, s, res2);
    LeftmostUnique(preg, s, res, res2);
  }
}
