/** The runners of rx/rxanal.c: a classical system holds a lock on its current superstate and
    follows the transitions of the cache. */
module RxRun {
  import opened Options
  import opened RxSyntax
  import opened RxNfa
  import opened RxEclose
  import opened RxSubset
  import opened RxCache
  import opened RxSuper

  datatype Answer = Yes | No | Bogus

  lemma {:induction false} CodeRunEmpty(g: Graph, w: Text)
    ensures CodeRun(g, {}, w) == {}
    decreases |w|
  {
    if w != [] {
      CodeRunEmpty(g, w[1..]);
    }
  }

  lemma {:induction false} CodeRunSplit(g: Graph, S: set<nat>, w: Text, k: nat)
    requires k <= |w|
    ensures CodeRun(g, S, w) == CodeRun(g, CodeRun(g, S, w[..k]), w[k..])
    decreases k
  {
    if k == 0 {
      assert w[k..] == w;
    } else {
      assert w[..k][0] == w[0] && w[..k][1..] == w[1..][..k - 1] && w[1..][k - 1..] == w[k..];
      CodeRunSplit(g, CodeStep(g, S, w[0]), w[1..], k - 1);
    }
  }

  lemma CodeRunSnoc(g: Graph, S: set<nat>, w: Text, k: nat)
    requires k < |w|
    ensures CodeRun(g, S, w[..k + 1]) == CodeStep(g, CodeRun(g, S, w[..k]), w[k])
  {
    var u := w[..k + 1];
    CodeRunSplit(g, S, u, k);
    assert u[..k] == w[..k] && u[k..] == [w[k]];
    var T := CodeRun(g, S, w[..k]);
    assert CodeRun(g, T, [w[k]]) == CodeRun(g, CodeStep(g, T, w[k]), [w[k]][1..]);
    assert [w[k]][1..] == [];
  }

  /** The cache without the lock that a system holds on its own state */
  function Released(c: Cache, state: Option<nat>): Cache {
    match state
    case None => c
    case Some(s) => if s in c.locks && c.locks[s] > 0 then c.(locks := c.locks[s := c.locks[s] - 1]) else c
  }

  /** rx_classical_system */
  class System {
    const cache: SuperCache
    const start: nat
    var state: Option<nat>
    var finalTag: bool

    ghost predicate Ok()
      reads this, cache, cache.rx, cache.rx.mark
    {
      cache.Ok() && start < |cache.g| && (state.Some? ==> Locked(cache.c, state.value))
    }

    /** What the current superstate stands for */
    ghost function Now(): set<nat>
      reads this, cache
      requires state.Some? && state.value in cache.c.core.supers
    {
      States(cache.c.core, state.value)
    }

    constructor (b: Built)
      requires Closed(b.g) && b.start < |b.g|
      ensures cache.g == b.g && start == b.start && cache.fin == b.end
      ensures Ok() && state == None
      ensures fresh(cache) && fresh(cache.rx) && fresh(cache.rx.mark)
    {
      cache := new SuperCache(b.g, b.end);
      start := b.start;
      state := None;
      finalTag := false;
    }

    method Unlock()
      requires Ok() && state.Some?
      modifies this`state, cache`c
      ensures Ok() && state == None && cache.c == Released(old(cache.c), old(state))
    {
      var s := state.value;
      cache.c := cache.c.(locks := cache.c.locks[s := cache.c.locks[s] - 1]);
      state := None;
    }

    method Lock(s: nat)
      requires Ok() && state == None && s in cache.c.core.supers && !cache.c.core.supers[s].semifree
      modifies this`state, cache`c
      ensures Ok() && state == Some(s) && Released(cache.c, state) == old(cache.c) && cache.c.core == old(cache.c.core)
    {
      cache.c := cache.c.(locks := cache.c.locks[s := cache.c.locks[s] + 1]);
      state := Some(s);
      assert cache.c.locks[s := cache.c.locks[s] - 1] == old(cache.c.locks);
    }

    /** rx_start_superstate: the system is at the closure of the start state. */
    method StartSuperstate()
      requires Ok()
      modifies this, cache`c, cache.rx, cache.rx.mark
      ensures Ok() && state.Some? && Now() == Closure(cache.g, start)
      ensures KeepsStates(Released(old(cache.c), old(state)), Released(cache.c, state))
    {
      if state.Some? {
        Unlock();
      }
      var contents := cache.rx.PossibleFutures(start);
      ClosureWithin(cache.g, contents, start);
      var s := cache.Superstate(contents);
      Lock(s);
    }

    /** The inner loop of the runners: misses are handled until the frame says where to go. */
    method Cross(s: nat, chr: Byte) returns (r: Option<(nat, bool)>)
      requires cache.Ok() && s in cache.c.core.supers && !cache.c.core.supers[s].semifree
      modifies cache`c, cache.rx, cache.rx.mark
      ensures cache.Ok() && KeepsStates(old(cache.c), cache.c)
      ensures r.None? ==> old(CodeStep(cache.g, States(cache.c.core, s), chr)) == {}
      ensures r.Some? ==>
        var (t, final) := r.value;
        t in cache.c.core.supers && !cache.c.core.supers[t].semifree &&
        States(cache.c.core, t) == old(CodeStep(cache.g, States(cache.c.core, s), chr)) != {} &&
        final == IsFinal(cache.fin, cache.c.core.supers[t].contents)
    {
      var f := cache.c.core.supers[s].table[chr];
      while f.Miss?
        invariant cache.Ok() && KeepsStates(old(cache.c), cache.c)
        invariant Stays(old(cache.c.core), cache.c.core, s)
        invariant FrameOk(cache.g, cache.fin, cache.c.core, s, chr, f)
        decreases if f.Miss? then (if f.df.None? then 2 else 1) else 0
      {
        f := cache.HandleCacheMiss(s, chr, f.df);
      }
      match f
      case NextChar(t, final) =>
        NextCharStep(cache.g, cache.fin, cache.c.core, s, chr, f);
        r := Some((t, final));
      case Backtrack =>
        r := None;
    }

    /** rx_fit_p: yes exactly when the engine's run over the burst reaches the final state. */
    method FitP(burst: Text) returns (ans: Answer)
      requires Ok()
      modifies this, cache`c, cache.rx, cache.rx.mark
      ensures Ok()
      ensures old(state) == None ==> ans == Bogus
      ensures old(state).Some? ==>
        ans == if cache.fin in CodeRun(cache.g, old(Now()), burst) then Yes else No
      ensures state.Some? ==> old(state).Some? && Now() == CodeRun(cache.g, old(Now()), burst)
      ensures KeepsStates(Released(old(cache.c), old(state)), Released(cache.c, state))
    {
      if state == None {
        return Bogus;
      }
      ghost var S0 := Now();
      var s := state.value;
      if burst == [] {
        finalTag := IsFinal(cache.fin, cache.c.core.supers[s].contents);
        return if finalTag then Yes else No;
      }
      Unlock();
      ghost var c0 := cache.c;
      var final := false;
      for i := 0 to |burst|
        invariant Ok() && state == None && KeepsStates(c0, cache.c)
        invariant s in cache.c.core.supers && !cache.c.core.supers[s].semifree
        invariant CodeRun(cache.g, S0, burst) == CodeRun(cache.g, States(cache.c.core, s), burst[i..])
        invariant i > 0 ==> final == IsFinal(cache.fin, cache.c.core.supers[s].contents)
      {
        var r := Cross(s, burst[i]);
        assert burst[i..][0] == burst[i] && burst[i..][1..] == burst[i + 1..];
        match r
        case None =>
          CodeRunEmpty(cache.g, burst[i + 1..]);
          return No;
        case Some((t, final')) =>
          s := t;
          final := final';
      }
      assert burst[|burst|..] == [];
      Lock(s);
      if final {
        finalTag := final;
        return Yes;
      }
      return No;
    }

    /** One turn of rx_advance_to_final's loop: the lock moves to the next superstate, or stays when
        there is none. */
    method StepOn(chr: Byte) returns (moved: bool, final: bool)
      requires Ok() && state.Some?
      modifies this`state, cache`c, cache.rx, cache.rx.mark
      ensures Ok() && state.Some? && (final <==> cache.fin in Now())
      ensures moved ==> Now() == CodeStep(cache.g, old(Now()), chr) != {}
      ensures !moved ==> Now() == old(Now()) && CodeStep(cache.g, old(Now()), chr) == {}
    {
      var r := Cross(state.value, chr);
      moved := r.Some?;
      if moved {
        Unlock();
        Lock(r.value.0);
      }
      final := IsFinal(cache.fin, cache.c.core.supers[state.value].contents);
    }

    /** The loop of rx_advance_to_final */
    method AdvanceLoop(burst: Text, ghost S0: set<nat>) returns (amt: nat, final: bool)
      requires Ok() && state.Some? && Now() == S0
      modifies this`state, cache`c, cache.rx, cache.rx.mark
      ensures Ok() && state.Some?
      ensures Advanced(cache.g, cache.fin, S0, burst, amt, Now(), final) == true
    {
      amt := 0;
      final := IsFinal(cache.fin, cache.c.core.supers[state.value].contents);
      AdvancedStart(cache.g, cache.fin, S0, burst, final);
      while amt < |burst|
        invariant Ok() && state.Some?
        invariant Advancing(cache.g, cache.fin, S0, burst, amt, Now(), final) == true
      {
        ghost var S := Now();
        var moved, final' := StepOn(burst[amt]);
        AdvancedStep(cache.g, cache.fin, S0, burst, amt, S, Now(), final, final', moved);
        final := final';
        if !moved {
          return;
        }
        amt := amt + 1;
        if final {
          return;
        }
      }
      AdvancedAll(cache.g, cache.fin, S0, burst, Now(), final);
    }

    /** rx_advance_to_final: runs until the state after some character is final, or no state is
        left, or the burst is used up.  Whether the first state is final is not looked at before
        the first character is crossed. */
    method AdvanceToFinal(burst: Text) returns (amt: nat)
      requires Ok()
      modifies this, cache`c, cache.rx, cache.rx.mark
      ensures Ok()
      ensures old(state) == None ==> amt == 0 && state == None
      ensures old(state).Some? ==> state.Some? && Advanced(cache.g, cache.fin, old(Now()), burst, amt, Now(), finalTag)
    {
      if state == None {
        return 0;
      }
      var final;
      amt, final := AdvanceLoop(burst, Now());
      finalTag := final;
    }
  }

  /** At the head of the loop: `S` after `amt` characters, none of the states after a character final */
  ghost predicate Advancing(g: Graph, fin: nat, S0: set<nat>, burst: Text, amt: nat, S: set<nat>, final: bool) {
    && amt <= |burst|
    && S == CodeRun(g, S0, burst[..amt]) && (final <==> fin in S) && (amt > 0 ==> S != {})
    && NoFinal(g, fin, S0, burst, amt)
  }

  lemma AdvancedStart(g: Graph, fin: nat, S0: set<nat>, burst: Text, final: bool)
    requires final <==> fin in S0
    ensures Advancing(g, fin, S0, burst, 0, S0, final) == true
  {
    assert burst[..0] == [];
  }

  lemma AdvancedStep(g: Graph, fin: nat, S0: set<nat>, burst: Text, amt: nat, S: set<nat>, S2: set<nat>, final: bool, final2: bool, moved: bool)
    requires Advancing(g, fin, S0, burst, amt, S, final) == true && amt < |burst|
    requires final2 <==> fin in S2
    requires if moved then S2 == CodeStep(g, S, burst[amt]) != {} else S2 == S && CodeStep(g, S, burst[amt]) == {}
    ensures !moved ==> Advanced(g, fin, S0, burst, amt, S2, final2) == true
    ensures moved ==> if final2 then Advanced(g, fin, S0, burst, amt + 1, S2, final2) == true
                      else Advancing(g, fin, S0, burst, amt + 1, S2, final2) == true
  {
    CodeRunSnoc(g, S0, burst, amt);
  }

  lemma AdvancedAll(g: Graph, fin: nat, S0: set<nat>, burst: Text, S: set<nat>, final: bool)
    requires Advancing(g, fin, S0, burst, |burst|, S, final) == true
    ensures Advanced(g, fin, S0, burst, |burst|, S, final) == true
  {
  }

  ghost predicate NoFinal(g: Graph, fin: nat, S0: set<nat>, burst: Text, n: nat)
    requires n <= |burst|
  {
    forall k :: 0 < k <= n ==> fin !in CodeRun(g, S0, burst[..k])
  }

  /** Where rx_advance_to_final stops: `S` after `amt` characters, with nothing final strictly
      before, and nothing reachable after unless a final state stopped it. */
  ghost predicate Advanced(g: Graph, fin: nat, S0: set<nat>, burst: Text, amt: nat, S: set<nat>, tag: bool) {
    && amt <= |burst|
    && S == CodeRun(g, S0, burst[..amt]) && (tag <==> fin in S) && (amt > 0 ==> S != {})
    && (amt > 0 ==> NoFinal(g, fin, S0, burst, amt - 1))
    && (amt < |burst| && (amt == 0 || !tag) ==> CodeRun(g, S0, burst[..amt + 1]) == {})
  }

  lemma ClosureWithin(g: Graph, contents: seq<nat>, q: nat)
    requires Elems(contents) == Closure(g, q)
    ensures Within(g, contents)
  {
    forall i | 0 <= i < |contents| ensures contents[i] < |g| {
      assert contents[i] in Elems(contents);
    }
  }

  lemma EnabledMoves(g: Graph, S: set<nat>, b: Byte)
    requires Closed(g) && Enabled(g, S, b)
    ensures CodeStep(g, S, b) != {}
  {
    var q: nat, k: nat :| CsetEdge(g, S, q, k) && b in g[q][k].cs;
    ClassOnEdge(g, S, b, q, k);
    var d := g[q][k].dest;
    ClosureClosed(g, d);
    assert DestHas(g, S, Class(g, S, b), d);
    assert d in CodeStep(g, S, b);
  }

  lemma NextCharStep(g: Graph, fin: nat, c: Core, s: nat, b: Byte, f: Frame)
    requires Closed(g) && CoreOk(g, fin, c) && s in c.supers && f.NextChar? && FrameOk(g, fin, c, s, b, f)
    ensures States(c, f.dest) == CodeStep(g, States(c, s), b) != {}
  {
    var d :| Leads(c, d, s, b, f.dest);
    NextCharIsStep(g, fin, c, s, b, d, f.dest);
    assert FutureOk(g, fin, c, d);
    EnabledMoves(g, States(c, s), b);
  }
}
