/** rx/rxspencer.c: rx_next_solution, which gives one answer a call and resumes from its step,
    split_guess and interval_x fields.  It is proved to give exactly the list `Sols`, in order, to
    leave each answer in the registers, and to put the registers back when it has no more. */
module RxSpencer {
  import opened Options
  import opened RxSyntax
  import opened RxAnalysis
  import opened RxNfa
  import opened RxSimp
  import opened RxFit
  import opened RxAnswers

  // ----- Registers a tree does not own -----

  ghost predicate SameAt(r: Regs, r2: Regs, g: nat) {
    (g in r <==> g in r2) && (g in r ==> r[g] == r2[g])
  }

  /** Groups that are not in `e` are as they were. */
  ghost predicate Outside(e: Rexp, r: Regs, r2: Regs) {
    forall g: nat :: g !in Closings(e) ==> SameAt(r, r2, g)
  }

  ghost predicate AllOutside(e: Rexp, r: Regs, ls: seq<Regs>) {
    forall k :: 0 <= k < |ls| ==> Outside(e, r, ls[k])
  }

  lemma OutsideTrans(e: Rexp, a: Regs, b: Regs, c: Regs)
    requires Outside(e, a, b) && Outside(e, b, c)
    ensures Outside(e, a, c)
  {
    forall g: nat | g !in Closings(e) ensures SameAt(a, c, g) {
      assert SameAt(a, b, g) && SameAt(b, c, g);
    }
  }

  lemma OutsideMono(b: Rexp, e: Rexp, r: Regs, r2: Regs)
    requires Outside(b, r, r2) && forall g :: g in Closings(b) ==> g in Closings(e)
    ensures Outside(e, r, r2)
  {
  }

  lemma {:induction false} SolsOutside(e: Rexp, x: nat, env: Env, i: nat, j: nat, r: Regs, r2: Regs)
    requires Ready(e, env) && Span(env, i, j) && r2 in Sols(e, x, env, i, j, r)
    ensures Outside(e, r, r2)
    decreases e, Rest(e, x), j - i, 1
  {
    if Splittable(e) {
      if (e.Interval? ==> x < e.hi) && r2 in Splits(e, x, env, i, j, j, r) {
        var k, l := SplitsFrom(e, x, env, i, j, j, r, r2);
        ContinuesOutside(e, x, env, i, k, j, r, l, r2);
      }
    } else if Observed(e) {
      match e
      case Parens(b, g) =>
        if Observed(b) {
          var ls := Sols(b, 0, env, i, j, r);
          var n :| 0 <= n < |ls| && r2 == SetGroup(ls[n], g, i, j);
          SolsOutside(b, 0, env, i, j, r, ls[n]);
          OutsideMono(b, e, r, ls[n]);
        }
      case Alt(a, b) =>
        if r2 in Sols(a, 0, env, i, j, r) {
          SolsOutside(a, 0, env, i, j, r, r2);
          OutsideMono(a, e, r, r2);
        } else {
          SolsOutside(b, 0, env, i, j, r, r2);
          OutsideMono(b, e, r, r2);
        }
      case Opt(b) =>
        if r2 in Sols(b, 0, env, i, j, r) {
          SolsOutside(b, 0, env, i, j, r, r2);
          OutsideMono(b, e, r, r2);
        }
      case Context(_) =>
    }
  }

  lemma {:induction false} ContinuesOutside(e: Rexp, x: nat, env: Env, i: nat, k: nat, j: nat, r: Regs, l: Regs, r2: Regs)
    requires Continues(e, x, env, i, k, j, r, l, r2)
    ensures Outside(e, r, r2)
    decreases e, Rest(e, x), j - i, 0
  {
    SolsOutside(First(e), 0, env, i, k, r, l);
    OutsideMono(First(e), e, r, l);
    if e.Concat? {
      SolsOutside(e.r, 0, env, k, j, l, r2);
      OutsideMono(e.r, e, l, r2);
    } else if e.Interval? {
      SolsOutside(e, x + 1, env, k, j, l, r2);
    } else if r2 in Sols(e, 0, env, k, j, l) {
      SolsOutside(e, 0, env, k, j, l, r2);
    }
    OutsideTrans(e, r, l, r2);
  }

  lemma SolsAllOutside(e: Rexp, x: nat, env: Env, i: nat, j: nat, r: Regs)
    requires Ready(e, env) && Span(env, i, j)
    ensures AllOutside(e, r, Sols(e, x, env, i, j, r))
  {
    var s := Sols(e, x, env, i, j, r);
    forall k | 0 <= k < |s| ensures Outside(e, r, s[k]) {
      SolsOutside(e, x, env, i, j, r, s[k]);
    }
  }

  /** A group does not contain itself. */
  predicate Nested(e: Rexp) {
    match e
    case Concat(l, r) => Nested(l) && Nested(r)
    case Alt(l, r) => Nested(l) && Nested(r)
    case Opt(b) => Nested(b)
    case Star(b) => Nested(b)
    case Plus(b) => Nested(b)
    case Interval(b, _, _) => Nested(b)
    case Parens(b, g) => Nested(b) && g !in Closings(b)
    case _ => true
  }

  /** saved_rm_so and saved_rm_eo go back into the group's register. */
  function Restore(r: Regs, g: nat, saved: Option<(nat, nat)>): Regs {
    if g == 0 then r
    else if saved.Some? then r[g := saved.value] else r - {g}
  }

  function Saved(r: Regs, g: nat): Option<(nat, nat)> {
    if g in r then Some(r[g]) else None
  }

  lemma RestoreUndoes(r: Regs, base: Regs, g: nat, i: nat, j: nat)
    requires g != 0 ==> SameAt(base, r, g)
    ensures Restore(SetGroup(r, g, i, j), g, Saved(base, g)) == r
  {
  }

  // ----- What each step still has to answer -----

  /** A solutions record seen from outside: what it was made for, the registers it left behind and
      the answers it has not given yet */
  datatype View = View(e: Rexp, x: nat, i: nat, j: nat, base: Regs, cur: Regs, todo: seq<Regs>)

  ghost predicate Sound(env: Env, v: View) {
    && Ready(v.e, env) && Nested(v.e) && Span(env, v.i, v.j)
    && Outside(v.e, v.base, v.cur) && AllOutside(v.e, v.base, v.todo)
  }

  ghost predicate Searching(env: Env, me: View)
    requires Sound(env, me)
  {
    Observed(me.e) && !Rejected(me.e, env, me.i, me.j)
  }

  /** `left` looks for the first part, up to `k`. */
  ghost predicate LeftFor(env: Env, me: View, k: nat, lv: View) {
    && Sound(env, me) && Splittable(me.e) && (me.e.Interval? ==> me.x < me.e.hi) && me.i <= k <= me.j
    && lv.e == First(me.e) && lv.x == 0 && lv.i == me.i && lv.j == k && lv.base == me.base && Sound(env, lv)
    && ((me.e.Star? || me.e.Plus?) && lv.todo != [] ==> me.i < k)
  }

  ghost predicate RightFor(env: Env, me: View, k: nat, lv: View, rv: View) {
    && LeftFor(env, me, k, lv) && Sound(env, rv)
    && rv.e == (if me.e.Concat? then me.e.r else me.e)
    && rv.x == (if me.e.Interval? then me.x + 1 else 0)
    && rv.i == k && rv.j == me.j && rv.base == lv.cur
    && (me.e.Star? || me.e.Plus? ==> me.i < k)
  }

  /** The answers that follow once the present `left` answer is used up */
  ghost function Later(env: Env, me: View, k: nat, lv: View): seq<Regs>
    requires LeftFor(env, me, k, lv)
  {
    Lefts(me.e, me.x, env, me.i, k, me.j, lv.todo) + Lower(env, me, k)
  }

  /** The answers with a split below `k` */
  ghost function Lower(env: Env, me: View, k: nat): seq<Regs>
    requires Sound(env, me) && Splittable(me.e) && (me.e.Interval? ==> me.x < me.e.hi) && me.i <= k <= me.j
  {
    (if k > me.i then Splits(me.e, me.x, env, me.i, k - 1, me.j, me.base) else []) +
    (if me.e.Star? && me.i == me.j then [me.base] else [])
  }

  function LastStep(e: Rexp): int {
    if e.Interval? then 5 else 4
  }

  /** What the fields of a record mean, for each value of `step` that a call can find. */
  ghost predicate Inv(env: Env, me: View, step: int, split: int, l: Option<View>, r: Option<View>) {
    Sound(env, me) &&
    if step == 0 then
      l == r == None && me.todo == Sols(me.e, me.x, env, me.i, me.j, me.base) && me.cur == me.base
    else if step == -1 || (step == 1 && me.e.Null?) then
      l == r == None && me.todo == [] && me.cur == me.base
    else
      Searching(env, me) &&
      if Splittable(me.e) then SplitInv(env, me, step, split, l, r) else WholeInv(env, me, step, l, r)
  }

  ghost predicate WholeInv(env: Env, me: View, step: int, l: Option<View>, r: Option<View>)
    requires Sound(env, me)
  {
    match me.e
    case Parens(b, g) =>
      if step == -2 then
        l == r == None && !Observed(b) && me.todo == [] && (me.cur == SetGroup(me.base, g, me.i, me.j) || me.cur == me.base)
      else
        step == 2 && r == None && PartFor(env, me, b, l) && Observed(b) &&
        me.cur == SetGroup(l.value.cur, g, me.i, me.j) && me.todo == Marked(l.value.todo, g, me.i, me.j)
    case Opt(b) =>
      step == 2 && r == None && PartFor(env, me, b, l) && me.cur == l.value.cur &&
      me.todo == l.value.todo + if me.i == me.j then [me.base] else []
    case Alt(a, b) =>
      if step == 2 then
        r == None && PartFor(env, me, a, l) && me.cur == l.value.cur &&
        me.todo == l.value.todo + Sols(b, 0, env, me.i, me.j, me.base)
      else
        step == 4 && l == None && PartFor(env, me, b, r) && me.cur == r.value.cur && me.todo == r.value.todo
    case _ => false
  }

  /** A record for the part `b` on the same span */
  ghost predicate PartFor(env: Env, me: View, b: Rexp, p: Option<View>) {
    p.Some? && Sound(env, p.value) && p.value.e == b && p.value.x == 0 && p.value.i == me.i && p.value.j == me.j &&
    p.value.base == me.base
  }

  ghost predicate SplitInv(env: Env, me: View, step: int, split: int, l: Option<View>, r: Option<View>)
    requires Sound(env, me) && Splittable(me.e)
  {
    if step == 2 then
      me.e.Interval? && l == r == None && me.x < me.e.hi && split == me.j && me.cur == me.base &&
      me.todo == Splits(me.e, me.x, env, me.i, me.j, me.j, me.base)
    else
      split >= 0 && l.Some? && LeftFor(env, me, split, l.value) &&
      if step == 3 then
        (me.e.Star? || me.e.Plus?) && r == None && me.i < split == me.j && me.cur == l.value.cur &&
        me.todo == Sols(me.e, 0, env, split, me.j, me.cur) + Later(env, me, split, l.value)
      else
        step == LastStep(me.e) && r.Some? && RightFor(env, me, split, l.value, r.value) &&
        me.cur == r.value.cur && me.todo == r.value.todo + Later(env, me, split, l.value)
  }

  /** One call: the next answer is given, or there is none and the registers are as at the start. */
  ghost predicate Stepped(v: View, v2: View, ans: bool) {
    if v.todo == [] then !ans && v2 == v.(cur := v.base)
    else ans && v2 == v.(cur := v.todo[0], todo := v.todo[1..])
  }

  lemma {:induction false} SteppedSound(env: Env, v: View, v2: View, ans: bool)
    requires Sound(env, v) && Stepped(v, v2, ans)
    ensures Sound(env, v2)
  {
  }

  /** A record just past its rough fit test */
  ghost predicate Fresh(env: Env, me: View) {
    Sound(env, me) && Searching(env, me) && me.todo == Sols(me.e, me.x, env, me.i, me.j, me.base) && me.cur == me.base
  }

  // ----- Groups, options and alternatives -----

  lemma {:induction false} DoneInv(env: Env, me: View, split: int, ans: bool)
    requires Sound(env, me) && me.todo == (if ans then [me.base] else [])
    ensures Inv(env, me.(cur := me.base, todo := []), -1, split, None, None)
    ensures Stepped(me, me.(cur := me.base, todo := []), ans)
  {
  }

  lemma {:induction false} ParensPlain(env: Env, me: View, split: int)
    requires Fresh(env, me) && me.e.Parens? && !Observed(me.e.body)
    ensures var r := SetGroup(me.base, me.e.group, me.i, me.j);
      me.todo == [r] && Inv(env, me.(cur := r, todo := []), -2, split, None, None) == true
  {
    var r := SetGroup(me.base, me.e.group, me.i, me.j);
    assert me.todo == [r];
    SteppedSound(env, me, me.(cur := r, todo := []), true);
  }

  lemma {:induction false} ParensYes(env: Env, me: View, split: int, lv: View, lv2: View)
    requires Sound(env, me) && Searching(env, me) && me.e.Parens? && Observed(me.e.body)
    requires PartFor(env, me, me.e.body, Some(lv)) && me.todo == Marked(lv.todo, me.e.group, me.i, me.j)
    requires Stepped(lv, lv2, true)
    ensures me.todo != []
    ensures var me2 := me.(cur := SetGroup(lv2.cur, me.e.group, me.i, me.j), todo := me.todo[1..]);
      Stepped(me, me2, true) && Inv(env, me2, 2, split, Some(lv2), None) == true
  {
    SteppedSound(env, lv, lv2, true);
    SteppedSound(env, me, me.(cur := SetGroup(lv2.cur, me.e.group, me.i, me.j), todo := me.todo[1..]), true);
  }

  lemma {:induction false} OptYes(env: Env, me: View, split: int, lv: View, lv2: View)
    requires Sound(env, me) && Searching(env, me) && me.e.Opt?
    requires PartFor(env, me, me.e.body, Some(lv)) && me.todo == lv.todo + if me.i == me.j then [me.base] else []
    requires Stepped(lv, lv2, true)
    ensures me.todo != []
    ensures var me2 := me.(cur := lv2.cur, todo := me.todo[1..]);
      Stepped(me, me2, true) && Inv(env, me2, 2, split, Some(lv2), None) == true
  {
    SteppedSound(env, lv, lv2, true);
    SteppedSound(env, me, me.(cur := lv2.cur, todo := me.todo[1..]), true);
  }

  lemma TailOfAppend(a: seq<Regs>, b: seq<Regs>)
    requires a != []
    ensures (a + b)[0] == a[0] && (a + b)[1..] == a[1..] + b
  {
  }

  lemma {:induction false} AltLeftYes(env: Env, me: View, split: int, lv: View, lv2: View)
    requires Sound(env, me) && Searching(env, me) && me.e.Alt?
    requires PartFor(env, me, me.e.l, Some(lv)) && me.todo == lv.todo + Sols(me.e.r, 0, env, me.i, me.j, me.base)
    requires Stepped(lv, lv2, true)
    ensures me.todo != []
    ensures var me2 := me.(cur := lv2.cur, todo := me.todo[1..]);
      Stepped(me, me2, true) && Inv(env, me2, 2, split, Some(lv2), None) == true
  {
    SteppedSound(env, lv, lv2, true);
    TailOfAppend(lv.todo, Sols(me.e.r, 0, env, me.i, me.j, me.base));
    var me2 := me.(cur := lv2.cur, todo := me.todo[1..]);
    SteppedSound(env, me, me2, true);
    assert WholeInv(env, me2, 2, Some(lv2), None) == true;
  }

  lemma {:induction false} AltRightYes(env: Env, me: View, split: int, rv: View, rv2: View)
    requires Sound(env, me) && Searching(env, me) && me.e.Alt?
    requires PartFor(env, me, me.e.r, Some(rv)) && me.todo == rv.todo
    requires Stepped(rv, rv2, true)
    ensures me.todo != []
    ensures var me2 := me.(cur := rv2.cur, todo := me.todo[1..]);
      Stepped(me, me2, true) && Inv(env, me2, 4, split, None, Some(rv2)) == true
  {
    SteppedSound(env, rv, rv2, true);
    SteppedSound(env, me, me.(cur := rv2.cur, todo := me.todo[1..]), true);
  }

  // ----- Splits -----

  /** The record for the rest, after `left` answered `l` with the split at `k` */
  function SecondOf(e: Rexp): Rexp
    requires Splittable(e)
  {
    if e.Concat? then e.r else e
  }

  function SecondX(e: Rexp, x: nat): nat {
    if e.Interval? then x + 1 else 0
  }

  lemma {:induction false} LeftsCons(e: Rexp, x: nat, env: Env, i: nat, k: nat, j: nat, ls: seq<Regs>)
    requires Ready(e, env) && Span(env, i, j) && i <= k <= j
    requires Splittable(e) && (e.Interval? ==> x < e.hi)
    requires (e.Star? || e.Plus?) ==> i < k
    requires ls != []
    ensures Lefts(e, x, env, i, k, j, ls) == After(e, x, env, i, k, j, ls[0]) + Lefts(e, x, env, i, k, j, ls[1..])
  {
  }

  /** The first call for a split: all of the answers are later ones. */
  lemma {:induction false} SplitStart(env: Env, me: View, k: nat)
    requires Sound(env, me) && Splittable(me.e) && (me.e.Interval? ==> me.x < me.e.hi) && me.i <= k <= me.j
    ensures var lv := View(First(me.e), 0, me.i, k, me.base, me.base, Sols(First(me.e), 0, env, me.i, k, me.base));
      LeftFor(env, me, k, lv) &&
      Later(env, me, k, lv) == Splits(me.e, me.x, env, me.i, k, me.j, me.base) +
        (if me.e.Star? && me.i == me.j then [me.base] else [])
  {
    SolsAllOutside(First(me.e), 0, env, me.i, k, me.base);
  }

  /** `left` has no more answers: the next lower split, or the end. */
  lemma {:induction false} LeftOut(env: Env, me: View, k: nat, lv: View, lv2: View)
    requires LeftFor(env, me, k, lv) && Stepped(lv, lv2, false)
    ensures Later(env, me, k, lv) == Lower(env, me, k) && lv2.cur == me.base
  {
  }

  /** `left` answers: what follows goes on from that answer, and then come the later ones. */
  lemma {:induction false} LeftIn(env: Env, me: View, k: nat, lv: View, lv2: View)
    requires LeftFor(env, me, k, lv) && Stepped(lv, lv2, true)
    ensures LeftFor(env, me, k, lv2) && (me.e.Star? || me.e.Plus? ==> me.i < k)
    ensures Later(env, me, k, lv) == After(me.e, me.x, env, me.i, k, me.j, lv2.cur) + Later(env, me, k, lv2)
  {
    LeftsCons(me.e, me.x, env, me.i, k, me.j, lv.todo);
  }

  lemma {:induction false} RightStart(env: Env, me: View, k: nat, lv: View)
    requires LeftFor(env, me, k, lv) && (me.e.Star? || me.e.Plus? ==> me.i < k)
    ensures var e2, x2 := SecondOf(me.e), SecondX(me.e, me.x);
      Ready(e2, env) && Nested(e2) &&
      RightFor(env, me, k, lv, View(e2, x2, k, me.j, lv.cur, lv.cur, Sols(e2, x2, env, k, me.j, lv.cur)))
  {
    SolsAllOutside(SecondOf(me.e), SecondX(me.e, me.x), env, k, me.j, lv.cur);
  }

  lemma {:induction false} RightIn(env: Env, me: View, k: nat, lv: View, rv: View, rv2: View)
    requires RightFor(env, me, k, lv, rv) && Stepped(rv, rv2, true) && me.todo == rv.todo + Later(env, me, k, lv)
    ensures RightFor(env, me, k, lv, rv2)
    ensures me.todo != [] && me.todo[0] == rv2.cur && me.todo[1..] == rv2.todo + Later(env, me, k, lv)
  {
  }

  lemma {:induction false} LaterSame(env: Env, me: View, me2: View, k: nat, lv: View)
    requires LeftFor(env, me, k, lv) && Sound(env, me2) && me2 == me.(cur := me2.cur, todo := me2.todo)
    ensures LeftFor(env, me2, k, lv) == true && Later(env, me2, k, lv) == Later(env, me, k, lv)
  {
  }

  // The four places of the search

  ghost predicate Guessing(env: Env, me: View, k: int) {
    && Sound(env, me) && Searching(env, me) && Splittable(me.e) && (me.e.Interval? ==> me.x < me.e.hi)
    && me.i <= k <= me.j
  }

  /** At try_next_left_match: all answers come from further `left` answers. */
  ghost predicate Look(env: Env, me: View, k: int, lv: View) {
    Guessing(env, me, k) && LeftFor(env, me, k, lv) && me.todo == Later(env, me, k, lv)
  }

  /** `left` has answered, and the rest of the span is to be matched. */
  ghost predicate Hold(env: Env, me: View, k: int, lv: View) {
    && Guessing(env, me, k) && LeftFor(env, me, k, lv) && (me.e.Star? || me.e.Plus? ==> me.i < k)
    && me.todo == After(me.e, me.x, env, me.i, k, me.j, lv.cur) + Later(env, me, k, lv)
  }

  /** `right` goes through the answers for the rest of the span. */
  ghost predicate Try(env: Env, me: View, k: int, lv: View, rv: View) {
    Guessing(env, me, k) && RightFor(env, me, k, lv, rv) && me.todo == rv.todo + Later(env, me, k, lv)
  }

  /** `left` has no more answers. */
  ghost predicate Low(env: Env, me: View, k: int) {
    Guessing(env, me, k) && me.todo == Lower(env, me, k)
  }

  lemma {:induction false} LookIn(env: Env, me: View, k: int, lv: View, lv2: View)
    requires Look(env, me, k, lv) == true && Stepped(lv, lv2, true)
    ensures Hold(env, me, k, lv2) == true
  {
    LeftIn(env, me, k, lv, lv2);
  }

  lemma {:induction false} LookOut(env: Env, me: View, k: int, lv: View, lv2: View)
    requires Look(env, me, k, lv) == true && Stepped(lv, lv2, false)
    ensures Low(env, me, k) == true && lv2.cur == me.base
  {
    LeftOut(env, me, k, lv, lv2);
  }

  lemma {:induction false} LowNext(env: Env, me: View, k: int)
    requires Low(env, me, k) == true && k > me.i
    ensures Ready(First(me.e), env) && Nested(First(me.e)) && Span(env, me.i, k - 1)
    ensures Look(env, me, k - 1,
                 View(First(me.e), 0, me.i, k - 1, me.base, me.base, Sols(First(me.e), 0, env, me.i, k - 1, me.base))) == true
  {
    SplitStart(env, me, k - 1);
  }

  lemma {:induction false} LowEnd(env: Env, me: View, k: int)
    requires Low(env, me, k) == true && k <= me.i
    ensures me.todo == if me.e.Star? && me.i == me.j then [me.base] else []
  {
  }

  /** A repetition that has answered with `left` alone */
  lemma {:induction false} HoldYes(env: Env, me: View, lv: View)
    requires Hold(env, me, me.j, lv) == true && (me.e.Star? || me.e.Plus?)
    ensures me.todo != [] && me.todo[0] == lv.cur
    ensures var me2 := me.(cur := lv.cur, todo := me.todo[1..]);
      Stepped(me, me2, true) && Inv(env, me2, 3, me.j, Some(lv), None) == true
  {
    assert me.todo[1..] == Sols(me.e, 0, env, me.j, me.j, lv.cur) + Later(env, me, me.j, lv);
    var me2 := me.(cur := lv.cur, todo := me.todo[1..]);
    SteppedSound(env, me, me2, true);
    LaterSame(env, me, me2, me.j, lv);
    assert SplitInv(env, me2, 3, me.j, Some(lv), None) == true;
  }

  lemma {:induction false} HoldTry(env: Env, me: View, k: int, lv: View)
    requires Hold(env, me, k, lv) == true && !((me.e.Star? || me.e.Plus?) && k == me.j)
    ensures var e2, x2 := SecondOf(me.e), SecondX(me.e, me.x);
      Ready(e2, env) && Nested(e2) && Span(env, k, me.j) &&
      Try(env, me, k, lv, View(e2, x2, k, me.j, lv.cur, lv.cur, Sols(e2, x2, env, k, me.j, lv.cur))) == true
  {
    RightStart(env, me, k, lv);
    AfterIsSecond(env, me, k, lv);
  }

  lemma {:induction false} AfterIsSecond(env: Env, me: View, k: int, lv: View)
    requires Hold(env, me, k, lv) == true && !((me.e.Star? || me.e.Plus?) && k == me.j)
    ensures Ready(SecondOf(me.e), env) && Span(env, k, me.j)
    ensures After(me.e, me.x, env, me.i, k, me.j, lv.cur) == Sols(SecondOf(me.e), SecondX(me.e, me.x), env, k, me.j, lv.cur)
  {
  }

  /** An answer found by `right` */
  lemma {:induction false} TryYes(env: Env, me: View, k: int, lv: View, rv: View, rv2: View)
    requires Try(env, me, k, lv, rv) == true && Stepped(rv, rv2, true)
    ensures me.todo != [] && me.todo[0] == rv2.cur
    ensures var me2 := me.(cur := rv2.cur, todo := me.todo[1..]);
      Stepped(me, me2, true) && Inv(env, me2, LastStep(me.e), k, Some(lv), Some(rv2)) == true
  {
    RightIn(env, me, k, lv, rv, rv2);
    var me2 := me.(cur := rv2.cur, todo := me.todo[1..]);
    SteppedSound(env, me, me2, true);
    LaterSame(env, me, me2, k, lv);
    assert RightFor(env, me2, k, lv, rv2) == true;
    assert SplitInv(env, me2, LastStep(me.e), k, Some(lv), Some(rv2)) == true;
  }

  lemma {:induction false} TryNo(env: Env, me: View, k: int, lv: View, rv: View, rv2: View)
    requires Try(env, me, k, lv, rv) == true && Stepped(rv, rv2, false)
    ensures Look(env, me, k, lv) == true && rv2.cur == lv.cur
  {
  }

  /** A smaller tree, fewer iterations or a shorter span */
  ghost predicate Less(rv: View, me: View) {
    rv.e < me.e ||
    (rv.e == me.e &&
     (Rest(me.e, rv.x) < Rest(me.e, me.x) || (Rest(me.e, rv.x) == Rest(me.e, me.x) && 0 <= rv.j - rv.i < me.j - me.i)))
  }

  lemma {:induction false} TrySmaller(env: Env, me: View, k: int, lv: View, rv: View)
    requires Try(env, me, k, lv, rv) == true
    ensures Less(rv, me)
  {
  }

  // Where a call resumes

  ghost function LeftView(env: Env, me: View): View
    requires Sound(env, me) && Splittable(me.e)
  {
    View(First(me.e), 0, me.i, me.j, me.base, me.base, Sols(First(me.e), 0, env, me.i, me.j, me.base))
  }

  lemma {:induction false} FirstLook(env: Env, me: View)
    requires Guessing(env, me, me.j) && me.cur == me.base
    requires me.todo == Splits(me.e, me.x, env, me.i, me.j, me.j, me.base) + if me.e.Star? && me.i == me.j then [me.base] else []
    ensures Ready(First(me.e), env) && Nested(First(me.e)) && Span(env, me.i, me.j)
    ensures Look(env, me, me.j, LeftView(env, me)) == true
  {
    SplitStart(env, me, me.j);
  }

  lemma {:induction false} FreshLook(env: Env, me: View)
    requires Fresh(env, me) && Splittable(me.e) && !me.e.Interval?
    ensures Ready(First(me.e), env) && Nested(First(me.e)) && Span(env, me.i, me.j)
    ensures Look(env, me, me.j, LeftView(env, me)) == true
  {
    FirstLook(env, me);
  }

  lemma {:induction false} IntervalLook(env: Env, me: View)
    requires Sound(env, me) && Searching(env, me) && me.e.Interval? && me.x < me.e.hi && me.cur == me.base
    requires me.todo == Splits(me.e, me.x, env, me.i, me.j, me.j, me.base)
    ensures Ready(First(me.e), env) && Nested(First(me.e)) && Span(env, me.i, me.j)
    ensures Look(env, me, me.j, LeftView(env, me)) == true
  {
    FirstLook(env, me);
  }

  /** The first tests on an interval */
  lemma {:induction false} IntervalFirst(env: Env, me: View)
    requires Fresh(env, me) && me.e.Interval?
    ensures me.e.hi < me.x ==> me.todo == []
    ensures me.e.hi == me.x ==> me.todo == if me.i == me.j then [me.base] else []
    ensures me.x < me.e.hi && !(me.e.lo <= me.x && me.i == me.j) ==> me.todo == Splits(me.e, me.x, env, me.i, me.j, me.j, me.base)
  {
  }

  lemma {:induction false} IntervalEmpty(env: Env, me: View)
    requires Fresh(env, me) && me.e.Interval? && me.e.lo <= me.x < me.e.hi && me.i == me.j
    ensures me.todo != [] && me.todo[0] == me.base
    ensures Inv(env, me.(cur := me.base, todo := me.todo[1..]), 2, me.j, None, None) == true
  {
    assert me.todo == [me.base] + Splits(me.e, me.x, env, me.i, me.j, me.j, me.base);
    SteppedSound(env, me, me.(cur := me.base, todo := me.todo[1..]), true);
  }

  lemma {:induction false} ResumeAtThree(env: Env, me: View, split: int, lv: View)
    requires Inv(env, me, 3, split, Some(lv), None) == true && Splittable(me.e)
    ensures me.cur == lv.cur && SecondOf(me.e) == me.e && SecondX(me.e, me.x) == 0
    ensures Ready(me.e, env) && Nested(me.e) && Span(env, split, me.j)
    ensures Try(env, me, split, lv, View(me.e, 0, split, me.j, lv.cur, lv.cur, Sols(me.e, 0, env, split, me.j, lv.cur))) == true
  {
    RightStart(env, me, split, lv);
  }

  lemma {:induction false} ResumeAtLast(env: Env, me: View, split: int, l: Option<View>, r: Option<View>)
    requires Inv(env, me, LastStep(me.e), split, l, r) == true && Splittable(me.e)
    ensures l.Some? && r.Some? && me.cur == r.value.cur && Try(env, me, split, l.value, r.value) == true
  {
  }

  /** What the first tests of a call find, at step 0 */
  lemma {:induction false} FirstTests(env: Env, me: View, split: int)
    requires Inv(env, me, 0, split, None, None) == true
    ensures Sound(env, me) && me.cur == me.base
    ensures Len(me.e) >= 0 && Len(me.e) != me.j - me.i ==> me.todo == []
    ensures !Observed(me.e) && !(Len(me.e) >= 0 && Len(me.e) != me.j - me.i) ==>
      me.todo == if Decided(me.e, env, me.i, me.j) then [me.base] else []
    ensures Observed(me.e) && !(Len(me.e) >= 0 && Len(me.e) != me.j - me.i) ==>
      if Fits(Simple(me.e, env.gs), env.c.str, me.i, me.j) then Fresh(env, me) else me.todo == []
  {
  }

  /** At any later step a length that does not fit has long been found out. */
  lemma {:induction false} LenKnown(env: Env, me: View, step: int, split: int, l: Option<View>, r: Option<View>)
    requires Inv(env, me, step, split, l, r) == true && Len(me.e) >= 0 && Len(me.e) != me.j - me.i
    ensures me.todo == [] && me.cur == me.base
  {
  }

  lemma {:induction false} Spent(env: Env, me: View, step: int, split: int, l: Option<View>, r: Option<View>)
    requires Inv(env, me, step, split, l, r) == true && (step == -1 || (step != 0 && !Observed(me.e)))
    ensures me.todo == [] && me.cur == me.base
  {
  }

  lemma Shift(out: seq<Regs>, before: seq<Regs>, after: seq<Regs>)
    requires out != [] && before != [] && out[|out| - 1] == before[0] && after == before[1..]
    ensures out + after == out[..|out| - 1] + before
  {
  }

  // ----- The records -----

  /** The registers, which all records of a match write to */
  class RegFile {
    var r: Regs

    constructor (r: Regs)
      ensures this.r == r
    {
      this.r := r;
    }
  }

  lemma RestoreSame(r: Regs, g: nat)
    ensures Restore(r, g, Saved(r, g)) == r
  {
  }

  /** struct rx_solutions */
  class Solutions {
    const exp: Rexp
    const x: nat
    const env: Env
    const start: nat
    const end: nat
    const regs: RegFile
    var step: int
    var splitGuess: int
    var saved: Option<(nat, nat)>
    var left: Solutions?
    var right: Solutions?
    /** The registers it started from, those it left at its last answer, and the answers to come */
    ghost const base: Regs
    ghost var cur: Regs
    ghost var todo: seq<Regs>
    ghost var Repr: set<object>

    ghost function Seen(): View
      reads this
    {
      View(exp, x, start, end, base, cur, todo)
    }

    ghost predicate Owns(kid: Solutions?)
      reads this, Repr
    {
      kid != null ==>
        && kid in Repr && kid.Repr <= Repr && this !in kid.Repr
        && kid.env == env && kid.regs == regs
    }

    ghost predicate Shape()
      reads this, Repr
    {
      && this in Repr && regs !in Repr && Owns(left) && Owns(right)
      && (left != null && right != null ==> left.Repr !! right.Repr)
    }

    ghost function LeftSeen(): Option<View>
      reads this, left
    {
      if left == null then None else Some(left.Seen())
    }

    ghost function RightSeen(): Option<View>
      reads this, right
    {
      if right == null then None else Some(right.Seen())
    }

    ghost predicate SavedOk()
      reads this
    {
      exp.Parens? && (step == 2 || step == -2) ==> saved == Saved(base, exp.group)
    }

    /** The comparison with true keeps the cases of `Inv` from being checked one by one. */
    ghost predicate Valid()
      reads this, Repr
      decreases Repr
    {
      && Shape() && SavedOk()
      && Inv(env, Seen(), step, splitGuess, LeftSeen(), RightSeen()) == true
      && (left != null ==> left.Valid()) && (right != null ==> right.Valid())
    }

    ghost predicate Kids()
      reads this, Repr
    {
      Shape() && (left != null ==> left.Valid()) && (right != null ==> right.Valid())
    }

    /** Past the rough fit test: just past it, or resumed after an answer */
    ghost predicate Going()
      reads this, Repr
    {
      Observed(exp) && step > 0 && if step == 1 then Kids() && left == right == null && Fresh(env, Seen()) else Valid()
    }

    /** rx_make_solutions */
    constructor (exp: Rexp, x: nat, env: Env, start: nat, end: nat, regs: RegFile)
      requires Ready(exp, env) && Nested(exp) && Span(env, start, end)
      ensures Valid() && fresh(Repr) && this.env == env && this.regs == regs
      ensures Seen() == View(exp, x, start, end, regs.r, regs.r, Sols(exp, x, env, start, end, regs.r))
    {
      this.exp, this.x, this.env, this.start, this.end, this.regs := exp, x, env, start, end, regs;
      step, splitGuess, saved, left, right := 0, 0, None, null, null;
      base, cur := regs.r, regs.r;
      todo := Sols(exp, x, env, start, end, regs.r);
      Repr := {this};
      new;
      SolsAllOutside(exp, x, env, start, end, base);
    }

    method MakeLeft(e: Rexp, k: nat)
      requires Kids() && right == null
      requires Ready(e, env) && Nested(e) && Span(env, start, k)
      modifies this`left, this`Repr
      ensures Kids() && left != null && fresh(left.Repr) && fresh(Repr - old(Repr))
      ensures left.Seen() == View(e, 0, start, k, regs.r, regs.r, Sols(e, 0, env, start, k, regs.r))
    {
      var kid := new Solutions(e, 0, env, start, k, regs);
      left := kid;
      Repr := Repr + kid.Repr;
    }

    method MakeRight(e: Rexp, y: nat, k: nat)
      requires Kids() && right == null
      requires Ready(e, env) && Nested(e) && Span(env, k, end)
      modifies this`right, this`Repr
      ensures Kids() && right != null && fresh(right.Repr) && fresh(Repr - old(Repr)) && LeftSeen() == old(LeftSeen())
      ensures right.Seen() == View(e, y, k, end, regs.r, regs.r, Sols(e, y, env, k, end, regs.r))
    {
      var kid := new Solutions(e, y, env, k, end, regs);
      assert Kids() == true;
      right := kid;
      Repr := Repr + kid.Repr;
    }

    method CallLeft() returns (ans: bool)
      requires Kids() && left != null && regs.r == left.cur
      requires left.exp < exp
      modifies this`Repr, left.Repr, regs
      ensures Kids() && left != null && fresh(Repr - old(Repr)) && RightSeen() == old(RightSeen())
      ensures Stepped(old(left.Seen()), left.Seen(), ans) && regs.r == left.cur
      decreases exp, Rest(exp, x), end - start, 0, 0
    {
      ans := left.Next();
      Repr := Repr + left.Repr;
    }

    method CallRight() returns (ans: bool)
      requires Kids() && right != null && regs.r == right.cur && Less(right.Seen(), Seen()) == true
      modifies this`Repr, right.Repr, regs
      ensures Kids() && right != null && fresh(Repr - old(Repr)) && LeftSeen() == old(LeftSeen())
      ensures Stepped(old(right.Seen()), right.Seen(), ans) && regs.r == right.cur
      decreases exp, Rest(exp, x), end - start, 0, 0
    {
      ans := right.Next();
      Repr := Repr + right.Repr;
    }

    /** step = -1: nothing is left, or only the answer that the registers already hold. */
    method Finish(ans: bool)
      requires Shape() && Sound(env, Seen()) && todo == (if ans then [base] else []) && regs.r == base
      modifies this
      ensures Valid() && Repr == old(Repr) && Stepped(old(Seen()), Seen(), ans) && regs.r == cur
    {
      DoneInv(env, Seen(), splitGuess, ans);
      step := -1;
      left, right := null, null;
      cur, todo := base, [];
    }

    /** The registers hold the next answer. */
    ghost method Give()
      requires Kids() && SavedOk() && todo != [] && regs.r == todo[0]
      requires Inv(env, Seen().(cur := regs.r, todo := todo[1..]), step, splitGuess, LeftSeen(), RightSeen()) == true
      modifies this`cur, this`todo
      ensures Valid() && Stepped(old(Seen()), Seen(), true) && regs.r == cur
    {
      cur, todo := regs.r, todo[1..];
      assert Seen() == old(Seen()).(cur := regs.r, todo := old(todo)[1..]);
      assert LeftSeen() == old(LeftSeen()) && RightSeen() == old(RightSeen());
      assert Kids() && SavedOk();
    }

    method NextParens() returns (ans: bool)
      requires Going() && regs.r == cur && exp.Parens?
      modifies Repr, regs
      ensures Valid() && fresh(Repr - old(Repr))
      ensures Stepped(old(Seen()), Seen(), ans) && regs.r == cur
      decreases exp, Rest(exp, x), end - start, 2
    {
      if step == 1 {
        ans := FirstParens();
      } else {
        RestoreUndoes(left.cur, base, exp.group, start, end);
        regs.r := Restore(regs.r, exp.group, saved);
        ans := ParensAgain();
      }
    }

    /** case 1 of a group; a body without registers needs no search of its own. */
    method FirstParens() returns (ans: bool)
      requires Kids() && left == right == null && Fresh(env, Seen()) && regs.r == cur && exp.Parens?
      modifies Repr, regs
      ensures Valid() && fresh(Repr - old(Repr))
      ensures Stepped(old(Seen()), Seen(), ans) && regs.r == cur
      decreases exp, Rest(exp, x), end - start, 1
    {
      var b, g := exp.body, exp.group;
      saved := Saved(regs.r, g);
      if !Observed(b) {
        ParensPlain(env, Seen(), splitGuess);
        regs.r := SetGroup(regs.r, g, start, end);
        step := -2;
        Give();
        return true;
      }
      MakeLeft(b, end);
      step := 2;
      RestoreSame(base, g);
      regs.r := Restore(regs.r, g, saved);
      ans := ParensAgain();
    }

    /** case 2 of a group, with its old span back in the register */
    method ParensAgain() returns (ans: bool)
      requires Kids() && exp.Parens? && Observed(exp.body) && Sound(env, Seen()) && Searching(env, Seen())
      requires saved == Saved(base, exp.group) && left != null && right == null && step == 2
      requires PartFor(env, Seen(), exp.body, LeftSeen()) && todo == Marked(left.todo, exp.group, start, end) && regs.r == left.cur
      modifies Repr, regs
      ensures Valid() && fresh(Repr - old(Repr))
      ensures Stepped(old(Seen()), Seen(), ans) && regs.r == cur
      decreases exp, Rest(exp, x), end - start, 0, 1
    {
      ghost var me, lv := Seen(), left.Seen();
      ans := CallLeft();
      if ans {
        ParensYes(env, me, splitGuess, lv, left.Seen());
        regs.r := SetGroup(regs.r, exp.group, start, end);
        Give();
      } else {
        regs.r := Restore(regs.r, exp.group, saved);
        RestoreSame(base, exp.group);
        Finish(false);
      }
    }

    method NextOpt() returns (ans: bool)
      requires Going() && regs.r == cur && exp.Opt?
      modifies Repr, regs
      ensures Valid() && fresh(Repr - old(Repr))
      ensures Stepped(old(Seen()), Seen(), ans) && regs.r == cur
      decreases exp, Rest(exp, x), end - start, 1
    {
      if step == 1 {
        ans := OptFirst();
      } else {
        ans := OptAgain();
      }
    }

    method OptFirst() returns (ans: bool)
      requires Going() && regs.r == cur && exp.Opt? && step == 1
      modifies Repr, regs
      ensures Valid() && fresh(Repr - old(Repr))
      ensures Stepped(old(Seen()), Seen(), ans) && regs.r == cur
      decreases exp, Rest(exp, x), end - start, 0, 2
    {
      MakeLeft(exp.body, end);
      step := 2;
      ans := OptAgain();
    }

    method OptAgain() returns (ans: bool)
      requires Kids() && exp.Opt? && Sound(env, Seen()) && Searching(env, Seen())
      requires left != null && right == null && step == 2 && PartFor(env, Seen(), exp.body, LeftSeen()) && regs.r == left.cur
      requires todo == left.todo + if start == end then [base] else []
      modifies Repr, regs
      ensures Valid() && fresh(Repr - old(Repr))
      ensures Stepped(old(Seen()), Seen(), ans) && regs.r == cur
      decreases exp, Rest(exp, x), end - start, 0, 1
    {
      ghost var me, lv := Seen(), left.Seen();
      ans := CallLeft();
      if ans {
        OptYes(env, me, splitGuess, lv, left.Seen());
        Give();
      } else {
        ans := start == end;
        Finish(ans);
      }
    }

    method NextAlt() returns (ans: bool)
      requires Going() && regs.r == cur && exp.Alt?
      modifies Repr, regs
      ensures Valid() && fresh(Repr - old(Repr))
      ensures Stepped(old(Seen()), Seen(), ans) && regs.r == cur
      decreases exp, Rest(exp, x), end - start, 3
    {
      if step == 4 {
        ans := AltRight();
      } else {
        if step == 1 {
          MakeLeft(exp.l, end);
          step := 2;
        }
        ans := AltLeft();
      }
    }

    method AltLeft() returns (ans: bool)
      requires Kids() && exp.Alt? && Sound(env, Seen()) && Searching(env, Seen())
      requires left != null && right == null && step == 2 && PartFor(env, Seen(), exp.l, LeftSeen()) && regs.r == left.cur
      requires todo == left.todo + Sols(exp.r, 0, env, start, end, base)
      modifies Repr, regs
      ensures Valid() && fresh(Repr - old(Repr))
      ensures Stepped(old(Seen()), Seen(), ans) && regs.r == cur
      decreases exp, Rest(exp, x), end - start, 2
    {
      ghost var me, lv := Seen(), left.Seen();
      ans := CallLeft();
      if ans {
        AltLeftYes(env, me, splitGuess, lv, left.Seen());
        Give();
      } else {
        left := null;
        ans := AltSwitch();
      }
    }

    method AltSwitch() returns (ans: bool)
      requires Kids() && exp.Alt? && Sound(env, Seen()) && Searching(env, Seen())
      requires left == right == null && todo == Sols(exp.r, 0, env, start, end, base) && regs.r == base
      modifies Repr, regs
      ensures Valid() && fresh(Repr - old(Repr))
      ensures Stepped(old(Seen()), Seen(), ans) && regs.r == cur
      decreases exp, Rest(exp, x), end - start, 1
    {
      MakeRight(exp.r, 0, start);
      step := 4;
      ans := AltRight();
    }

    method AltRight() returns (ans: bool)
      requires Kids() && exp.Alt? && Sound(env, Seen()) && Searching(env, Seen())
      requires left == null && right != null && step == 4 && PartFor(env, Seen(), exp.r, RightSeen()) && regs.r == right.cur
      requires todo == right.todo
      modifies Repr, regs
      ensures Valid() && fresh(Repr - old(Repr))
      ensures Stepped(old(Seen()), Seen(), ans) && regs.r == cur
      decreases exp, Rest(exp, x), end - start, 0, 1
    {
      ghost var me, rv := Seen(), right.Seen();
      ans := CallRight();
      if ans {
        AltRightYes(env, me, splitGuess, rv, right.Seen());
        Give();
      } else {
        Finish(false);
      }
    }

    // The splits of a concatenation, a star, a plus or an interval

    ghost predicate Looking()
      reads this, Repr
    {
      Kids() && left != null && right == null && Look(env, Seen(), splitGuess, left.Seen()) == true
    }

    method RightAnswers(ghost rv: View)
      requires Kids() && left != null && right != null && Try(env, Seen(), splitGuess, left.Seen(), rv) == true
      requires Stepped(rv, right.Seen(), true) && regs.r == right.cur && !exp.Parens?
      modifies this`step, this`cur, this`todo
      ensures Valid() && Stepped(old(Seen()), Seen(), true) == true && regs.r == cur
    {
      step := LastStep(exp);
      TryYes(env, Seen(), splitGuess, left.Seen(), rv, right.Seen());
      Give();
    }

    method DropRight(ghost rv: View)
      requires Kids() && left != null && right != null && Try(env, Seen(), splitGuess, left.Seen(), rv) == true
      requires Stepped(rv, right.Seen(), false) && regs.r == right.cur
      modifies this`right
      ensures Looking() && regs.r == left.cur
    {
      TryNo(env, Seen(), splitGuess, left.Seen(), rv, right.Seen());
      right := null;
    }

    method TryRight() returns (found: bool)
      requires Kids() && left != null && right != null && Try(env, Seen(), splitGuess, left.Seen(), right.Seen()) == true
      requires regs.r == right.cur && !exp.Parens?
      modifies Repr, regs
      ensures fresh(Repr - old(Repr))
      ensures found ==> Valid() && Stepped(old(Seen()), Seen(), true) == true && regs.r == cur
      ensures !found ==> Looking() && regs.r == left.cur && Seen() == old(Seen())
      ensures !found ==> splitGuess == old(splitGuess) && left.Seen() == old(left.Seen())
      decreases exp, Rest(exp, x), end - start, 0, 1
    {
      ghost var rv := right.Seen();
      TrySmaller(env, Seen(), splitGuess, left.Seen(), rv);
      found := CallRight();
      if found {
        RightAnswers(rv);
      } else {
        DropRight(rv);
      }
    }

    method TryRest() returns (found: bool)
      requires Kids() && left != null && right == null && Hold(env, Seen(), splitGuess, left.Seen()) == true
      requires regs.r == left.cur && !exp.Parens?
      modifies Repr, regs
      ensures fresh(Repr - old(Repr))
      ensures found ==> Valid() && Stepped(old(Seen()), Seen(), true) && regs.r == cur
      ensures !found ==> Looking() && regs.r == left.cur && Seen() == old(Seen())
      ensures !found ==> splitGuess == old(splitGuess) && left.Seen() == old(left.Seen())
      decreases exp, Rest(exp, x), end - start, 1
    {
      if (exp.Star? || exp.Plus?) && splitGuess == end {
        step := 3;
        HoldYes(env, Seen(), left.Seen());
        Give();
        return true;
      }
      HoldTry(env, Seen(), splitGuess, left.Seen());
      MakeRight(SecondOf(exp), SecondX(exp, x), splitGuess);
      found := TryRight();
    }

    /** The next lower guess; false when there is none. */
    method NextGuess() returns (more: bool)
      requires Kids() && right == null && regs.r == base && Low(env, Seen(), splitGuess) == true
      modifies this`left, this`splitGuess, this`Repr
      ensures fresh(Repr - old(Repr)) && Seen() == old(Seen())
      ensures more ==> Looking() && regs.r == left.cur && splitGuess == old(splitGuess) - 1
      ensures !more ==> Shape() && todo == (if exp.Star? && start == end then [base] else [])
    {
      splitGuess := splitGuess - 1;
      more := splitGuess >= start;
      if more {
        LowNext(env, Seen(), splitGuess + 1);
        MakeLeft(First(exp), splitGuess);
      } else {
        LowEnd(env, Seen(), splitGuess + 1);
      }
    }

    /** One turn of the loop: a `left` answer is tried, or the guess goes down. */
    method SearchOnce() returns (done: bool, ans: bool)
      requires Looking() && regs.r == left.cur && !exp.Parens?
      modifies Repr, regs
      ensures fresh(Repr - old(Repr))
      ensures done ==> Valid() && Stepped(old(Seen()), Seen(), ans) && regs.r == cur
      ensures !done ==> Looking() && regs.r == left.cur && Seen() == old(Seen())
      ensures !done ==> splitGuess < old(splitGuess) || (splitGuess == old(splitGuess) && |left.todo| < old(|left.todo|))
      decreases exp, Rest(exp, x), end - start, 2
    {
      ghost var lv := left.Seen();
      ans := CallLeft();
      if ans {
        LookIn(env, Seen(), splitGuess, lv, left.Seen());
        done := TryRest();
      } else {
        LookOut(env, Seen(), splitGuess, lv, left.Seen());
        done, ans := Descend();
      }
    }

    method Descend() returns (done: bool, ans: bool)
      requires Kids() && right == null && regs.r == base && Low(env, Seen(), splitGuess) == true
      modifies this
      ensures fresh(Repr - old(Repr))
      ensures done ==> Valid() && Stepped(old(Seen()), Seen(), ans) && regs.r == cur
      ensures !done ==> Looking() && regs.r == left.cur && Seen() == old(Seen()) && splitGuess < old(splitGuess)
    {
      var more := NextGuess();
      done, ans := !more, exp.Star? && start == end;
      if done {
        Finish(ans);
      }
    }

    /** The loop over guesses and `left` answers */
    method Search() returns (ans: bool)
      requires Looking() && regs.r == left.cur && !exp.Parens?
      modifies Repr, regs
      ensures Valid() && fresh(Repr - old(Repr))
      ensures Stepped(old(Seen()), Seen(), ans) && regs.r == cur
      decreases exp, Rest(exp, x), end - start, 3
    {
      var done := false;
      ans := false;
      while !done
        invariant fresh(Repr - old(Repr)) && regs !in Repr
        invariant done ==> Valid() && Stepped(old(Seen()), Seen(), ans) && regs.r == cur
        invariant !done ==> Looking() && regs.r == left.cur && Seen() == old(Seen())
        decreases !done, splitGuess, if left == null then 0 else |left.todo|
      {
        done, ans := SearchOnce();
      }
    }

    /** The search goes on where the last answer was found. */
    method Resume() returns (ans: bool)
      requires Kids() && left != null && right != null && Try(env, Seen(), splitGuess, left.Seen(), right.Seen()) == true
      requires regs.r == right.cur && !exp.Parens?
      modifies Repr, regs
      ensures Valid() && fresh(Repr - old(Repr))
      ensures Stepped(old(Seen()), Seen(), ans) && regs.r == cur
      decreases exp, Rest(exp, x), end - start, 4
    {
      ans := TryRight();
      if !ans {
        ans := Search();
      }
    }

    /** The search starts with the guess at the end of the span. */
    method Begin() returns (ans: bool)
      requires Kids() && left == right == null && regs.r == base && Sound(env, Seen()) && Splittable(exp)
      requires Ready(First(exp), env) && Nested(First(exp)) && Span(env, start, end)
      requires Look(env, Seen(), end, LeftView(env, Seen())) == true
      modifies Repr, regs
      ensures Valid() && fresh(Repr - old(Repr))
      ensures Stepped(old(Seen()), Seen(), ans) && regs.r == cur
      decreases exp, Rest(exp, x), end - start, 4
    {
      splitGuess := end;
      MakeLeft(First(exp), end);
      ans := Search();
    }

    method FirstInterval() returns (ans: bool)
      requires Kids() && left == right == null && Fresh(env, Seen()) && regs.r == cur && exp.Interval?
      modifies Repr, regs
      ensures Valid() && fresh(Repr - old(Repr))
      ensures Stepped(old(Seen()), Seen(), ans) && regs.r == cur
      decreases exp, Rest(exp, x), end - start, 5
    {
      IntervalFirst(env, Seen());
      if exp.hi < x {
        ans := false;
        Finish(ans);
      } else if exp.hi == x {
        ans := start == end;
        Finish(ans);
      } else if exp.lo <= x && start == end {
        IntervalEmpty(env, Seen());
        splitGuess := end;
        step := 2;
        Give();
        ans := true;
      } else {
        IntervalLook(env, Seen());
        ans := Begin();
      }
    }

    method NextSplit() returns (ans: bool)
      requires Going() && regs.r == cur && Splittable(exp)
      modifies Repr, regs
      ensures Valid() && fresh(Repr - old(Repr))
      ensures Stepped(old(Seen()), Seen(), ans) && regs.r == cur
      decreases exp, Rest(exp, x), end - start, 6
    {
      if step == 1 && exp.Interval? {
        ans := FirstInterval();
      } else if step == 1 {
        FreshLook(env, Seen());
        ans := Begin();
      } else if step == 2 {
        IntervalLook(env, Seen());
        ans := Begin();
      } else if step == 3 {
        ResumeAtThree(env, Seen(), splitGuess, left.Seen());
        MakeRight(exp, 0, splitGuess);
        ans := Resume();
      } else {
        ResumeAtLast(env, Seen(), splitGuess, LeftSeen(), RightSeen());
        ans := Resume();
      }
    }

    /** rx_solution_fit_str_p */
    method FitStr(key: Text) returns (ans: bool)
      requires Span(env, start, end) && |key| == end - start
      ensures ans == (env.c.str[start..end] == key)
    {
      for n := 0 to |key|
        invariant env.c.str[start..start + n] == key[..n]
      {
        if env.c.str[start + n] != key[n] {
          assert env.c.str[start..end][n] == env.c.str[start + n];
          return false;
        }
      }
      return true;
    }

    /** The tests of the first call; an observed tree that passes them is searched. */
    method FirstCall() returns (ans: bool)
      requires Valid() && regs.r == cur && step == 0 && !exp.Null? && (Len(exp) >= 0 ==> Len(exp) == end - start)
      modifies Repr, regs
      ensures Valid() && fresh(Repr - old(Repr))
      ensures Stepped(old(Seen()), Seen(), ans) && regs.r == cur
      decreases exp, Rest(exp, x), end - start, 8
    {
      FirstTests(env, Seen(), splitGuess);
      if exp.Str? {
        ans := FitStr(exp.s);
        Finish(ans);
      } else if !Observed(exp) {
        UnobservedPlain(exp);
        ans := FitTest(exp, env.c.str, start, end);
        Finish(ans);
      } else {
        ans := FitTest(Simple(exp, env.gs), env.c.str, start, end);
        if ans {
          step := 1;
          ans := Resolve();
        } else {
          Finish(false);
        }
      }
    }

    /** At the label resolve_fit */
    method Resolve() returns (ans: bool)
      requires Going() && regs.r == cur
      modifies Repr, regs
      ensures Valid() && fresh(Repr - old(Repr))
      ensures Stepped(old(Seen()), Seen(), ans) && regs.r == cur
      decreases exp, Rest(exp, x), end - start, 7
    {
      if exp.Parens? {
        ans := NextParens();
      } else if exp.Opt? {
        ans := NextOpt();
      } else if exp.Alt? {
        ans := NextAlt();
      } else if exp.Context? {
        ans := OpAt(env.c, exp.op, start, end, regs.r);
        Finish(ans);
      } else {
        ans := NextSplit();
      }
    }

    /** rx_next_solution */
    method Next() returns (ans: bool)
      requires Valid() && regs.r == cur
      modifies Repr, regs
      ensures Valid() && fresh(Repr - old(Repr))
      ensures Stepped(old(Seen()), Seen(), ans) && regs.r == cur
      decreases exp, Rest(exp, x), end - start, 9
    {
      if exp.Null? {
        ans := NextNull();
      } else if Len(exp) >= 0 && Len(exp) != end - start {
        LenKnown(env, Seen(), step, splitGuess, LeftSeen(), RightSeen());
        ans := false;
      } else if step == 0 {
        ans := FirstCall();
      } else if step == -1 || !Observed(exp) {
        Spent(env, Seen(), step, splitGuess, LeftSeen(), RightSeen());
        ans := false;
      } else if step == -2 {
        ans := UndoParens();
      } else {
        ans := Resolve();
      }
    }

    method NextNull() returns (ans: bool)
      requires Valid() && regs.r == cur && exp.Null?
      modifies this
      ensures Valid() && Repr == old(Repr)
      ensures Stepped(old(Seen()), Seen(), ans) && regs.r == cur
    {
      if step != 0 {
        return false;
      }
      FirstTests(env, Seen(), splitGuess);
      ans := start == end;
      Finish(ans);
      step := 1;
    }

    /** case -2: the group gets its old span back. */
    method UndoParens() returns (ans: bool)
      requires Valid() && regs.r == cur && step == -2
      modifies this, regs
      ensures Valid() && Repr == old(Repr)
      ensures Stepped(old(Seen()), Seen(), ans) && regs.r == cur
    {
      RestoreUndoes(base, base, exp.group, start, end);
      RestoreSame(base, exp.group);
      regs.r := Restore(regs.r, exp.group, saved);
      cur := base;
      ans := false;
    }

    /** All the answers that are left: there is an end to them, and then the registers are as they
        were at the start. */
    method Drain() returns (out: seq<Regs>)
      requires Valid() && regs.r == cur
      modifies Repr, regs
      ensures Valid() && fresh(Repr - old(Repr))
      ensures out == old(todo) && todo == [] && regs.r == base
    {
      out := [];
      ghost var all := todo;
      var more := true;
      while more
        invariant Valid() == true && fresh(Repr - old(Repr)) && regs.r == cur
        invariant out + todo == all
        invariant !more ==> todo == [] && cur == base
        decreases more, |todo|
      {
        ghost var before := todo;
        more := Next();
        if more {
          out := out + [regs.r];
          Shift(out, before, todo);
        }
      }
    }
  }
}
