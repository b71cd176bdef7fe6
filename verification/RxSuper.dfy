/** The lazily built, evictable superstate automaton of rx/rxsuper.c.

    Every method keeps the invariant of RxCache, so whatever sequence of misses, semi-frees,
    refreshes and evictions has gone before, crossing a transition is a `CodeStep`. */
module RxSuper {
  import opened Options
  import opened RxSyntax
  import opened RxNfa
  import opened RxEclose
  import opened RxSubset
  import opened RxSuperEdge
  import opened RxCache
  import opened RxCacheOps

  // ----- The queues -----

  lemma {:induction false} NoDupSize(q: seq<nat>)
    requires NoDup(q)
    ensures |Elems(q)| == |q|
  {
    if q != [] {
      var r := q[..|q| - 1];
      NoDupSize(r);
      assert q == r + [q[|q| - 1]];
      assert Elems(q) == Elems(r) + {q[|q| - 1]};
      assert q[|q| - 1] !in Elems(r);
    }
  }

  /** The counters count what is in the cache: all superstates, and those whose flag is set. */
  lemma CountsAgree(c: Cache)
    requires QueuesOk(c)
    ensures c.superstates == |c.core.supers|
    ensures c.semifree == |set s | s in c.core.supers && c.core.supers[s].semifree|
  {
    NoDupSize(c.lru);
    NoDupSize(c.semi);
    assert c.core.supers.Keys == Elems(c.lru) + Elems(c.semi);
    assert Elems(c.lru) !! Elems(c.semi);
    assert Elems(c.semi) == set s | s in c.core.supers && c.core.supers[s].semifree;
  }

  function Rotate(q: seq<nat>): seq<nat>
    requires q != []
  {
    q[1..] + [q[0]]
  }

  lemma RotateElems(q: seq<nat>)
    requires NoDup(q) && q != []
    ensures NoDup(Rotate(q)) && |Rotate(q)| == |q| && forall s :: s in Rotate(q) <==> s in q
  {
  }

  /** The last `n` of a queue are locked. */
  ghost predicate Tail(q: seq<nat>, locks: map<nat, nat>, n: nat) {
    n <= |q| && forall i :: |q| - n <= i < |q| ==> q[i] in locks && locks[q[i]] > 0
  }

  /** The queue has been turned: the same superstates, each once. */
  ghost predicate Turned(q: seq<nat>, r: seq<nat>) {
    |r| == |q| && NoDup(r) && forall s :: s in r <==> s in q
  }

  lemma TurnOn(q: seq<nat>, r: seq<nat>, locks: map<nat, nat>, n: nat)
    requires Turned(q, r) && Tail(r, locks, n) && n < |r| && r[0] in locks && locks[r[0]] > 0
    ensures Turned(q, Rotate(r)) && Tail(Rotate(r), locks, n + 1)
  {
    RotateElems(r);
  }

  lemma TurnedQueues(c: Cache, q: seq<nat>)
    requires QueuesOk(c) && Turned(c.lru, q)
    ensures QueuesOk(c.(lru := q))
  {
  }

  /** A superstate in use moves to the most favoured end of its queue. */
  function Touch(q: seq<nat>, s: nat): seq<nat>
    requires s in q
  {
    if q[0] == s then Rotate(q)
    else if s != q[|q| - 1] then RemoveAt(q, IndexOf(q, s)) + [s]
    else q
  }

  lemma TouchElems(q: seq<nat>, s: nat)
    requires NoDup(q) && s in q
    ensures NoDup(Touch(q, s)) && forall x :: x in Touch(q, s) <==> x in q
  {
    if q[0] == s {
      RotateElems(q);
    } else if s != q[|q| - 1] {
      assert Unlink(q, s) == RemoveAt(q, IndexOf(q, s));
      UnlinkElems(q, s);
      AppendElems(Unlink(q, s), s);
    }
  }

  /** The head of the queue goes to the end of the semi-free ring. */
  lemma SleepQueues(c: Cache, core2: Core)
    requires QueuesOk(c) == true && c.lru != [] && c.locks[c.lru[0]] == 0 && SleepTo(c.core, core2, c.lru[0])
    ensures QueuesOk(PutToSleep(c, core2)) == true
  {
    var s := c.lru[0];
    SleepShape(c.core, core2, s);
    AppendElems(c.semi, s);
    assert forall x :: x in c.lru <==> x == s || x in c.lru[1..];
  }

  lemma WakeQueues(fin: nat, c: Cache, core2: Core, s: nat)
    requires QueuesOk(c) && WakeTo(fin, c.core, core2, s)
    ensures s in c.semi && QueuesOk(Cache(core2, c.lru + [s], Unlink(c.semi, s), c.locks, c.superstates, c.semifree - 1))
  {
    WakeShape(fin, c.core, core2, s);
    UnlinkElems(c.semi, s);
    AppendElems(c.lru, s);
  }

  function FreeHead(c: Cache): Cache
    requires c.semi != [] && c.semi[0] in c.core.supers
  {
    Cache(Freed(c.core, c.semi[0]), c.lru, c.semi[1..], c.locks - {c.semi[0]}, c.superstates - 1, c.semifree - 1)
  }

  lemma FreeHeadQueues(c: Cache)
    requires QueuesOk(c) && c.semi != []
    ensures QueuesOk(FreeHead(c)) && |FreeHead(c).core.supers| < |c.core.supers|
  {
    var it := c.semi[0];
    assert forall x :: x in c.semi <==> x == it || x in c.semi[1..];
    CountsAgree(c);
    CountsAgree(FreeHead(c));
  }

  function Create(c: Cache, contents: seq<nat>): Cache {
    Cache(Created(c.core, contents), c.lru + [c.core.next], c.semi, c.locks[c.core.next := 0], c.superstates + 1, c.semifree)
  }

  lemma CreateQueues(c: Cache, contents: seq<nat>)
    requires QueuesOk(c) && c.core.next !in c.core.supers
    ensures QueuesOk(Create(c, contents))
  {
    AppendElems(c.lru, c.core.next);
  }

  /** Changes to the core that leave every semi-free flag as it was do not concern the queues. */
  ghost predicate SameFlags(c: Core, c2: Core) {
    c2.supers.Keys == c.supers.Keys &&
    forall s :: s in c.supers ==> c2.supers[s].semifree == c.supers[s].semifree && c2.supers[s].contents == c.supers[s].contents
  }

  lemma SameFlagsQueues(c: Cache, core2: Core)
    requires QueuesOk(c) && SameFlags(c.core, core2)
    ensures QueuesOk(c.(core := core2))
  {
  }

  // ----- What a lock protects -----

  predicate Locked(c: Cache, s: nat) {
    s in c.core.supers && s in c.locks && c.locks[s] > 0
  }

  /** No operation frees a locked superstate, changes what it holds, or drops its edges. */
  ghost predicate KeepsLocked(c: Cache, c2: Cache) {
    KeepsStates(c, c2) && KeepsEdges(c, c2)
  }

  ghost predicate KeepsStates(c: Cache, c2: Cache) {
    forall s :: Locked(c, s) ==>
      Locked(c2, s) && c2.locks[s] == c.locks[s] && c2.core.supers[s].contents == c.core.supers[s].contents
  }

  ghost predicate KeepsEdges(c: Cache, c2: Cache) {
    forall d :: d in c.core.futures && Locked(c, c.core.futures[d].present) ==> KeepsEdge(c.core, c2.core, d)
  }

  ghost predicate KeepsEdge(c: Core, c2: Core, d: nat)
    requires d in c.futures
  {
    && d in c2.futures && c2.futures[d].present == c.futures[d].present && c2.futures[d].cset == c.futures[d].cset
    && (c.futures[d].future.None? ==> c2.futures[d].future.None?)
  }

  lemma KeepsTrans(c: Cache, c1: Cache, c2: Cache)
    requires KeepsLocked(c, c1) && KeepsLocked(c1, c2)
    ensures KeepsLocked(c, c2)
  {
    forall d | d in c.core.futures && Locked(c, c.core.futures[d].present) ensures KeepsEdge(c.core, c2.core, d) {
      assert KeepsEdge(c.core, c1.core, d);
      assert KeepsEdge(c1.core, c2.core, d);
    }
  }

  lemma ShapeKeepsLocked(c: Cache, c2: Cache)
    requires SameShape(c.core, c2.core) && c2.locks == c.locks
    ensures KeepsLocked(c, c2)
  {
  }

  lemma FreeHeadKeeps(c: Cache)
    requires QueuesOk(c) && EdgesOk(c.core) && c.semi != []
    ensures KeepsLocked(c, FreeHead(c))
  {
    forall d | d in c.core.futures && Locked(c, c.core.futures[d].present)
      ensures KeepsEdge(c.core, FreeHead(c).core, d)
    {
      assert d !in c.core.supers[c.semi[0]].edges;
    }
  }

  lemma FreeStep(g: Graph, fin: nat, c0: Cache, c: Cache)
    requires QueuesOk(c) == true && CoreOk(g, fin, c.core) == true
    requires KeepsLocked(c0, c) == true && SameShape(c0.core, c.core) == true && c.semi != []
    ensures c.semi[0] in c.core.supers
    ensures var c2 := FreeHead(c);
      && QueuesOk(c2) == true && CoreOk(g, fin, c2.core) == true && KeepsLocked(c0, c2) == true
      && OnlyFrees(c0.core, c2.core) == true && |c2.core.supers| < |c0.core.supers|
  {
    FreedOk(g, fin, c.core, c.semi[0]);
    FreeHeadQueues(c);
    FreeHeadKeeps(c);
    KeepsTrans(c0, c, FreeHead(c));
    FreeHeadLess(c0.core, c);
  }

  lemma FreeHeadLess(c0: Core, c: Cache)
    requires SameShape(c0, c.core) && c.semi != [] && c.semi[0] in c.core.supers && |FreeHead(c).core.supers| < |c.core.supers|
    ensures OnlyFrees(c0, FreeHead(c).core) == true && |FreeHead(c).core.supers| < |c0.supers|
  {
    assert |c.core.supers| == |c.core.supers.Keys| && |c0.supers| == |c0.supers.Keys|;
  }

  lemma CreateKeeps(c: Cache, contents: seq<nat>)
    requires c.core.next !in c.core.supers
    ensures KeepsLocked(c, Create(c, contents))
  {
  }

  ghost predicate OnlyFrees(c: Core, c2: Core) {
    c2.next == c.next && forall s :: s in c2.supers ==> s in c.supers && c2.supers[s].contents == c.supers[s].contents
  }

  /** The superstate is still there, holds the same states and is not semi-free. */
  ghost predicate Stays(c: Core, c2: Core, s: nat) {
    s in c.supers && s in c2.supers && c2.supers[s].contents == c.supers[s].contents && !c2.supers[s].semifree
  }

  predicate Idle(c: Cache, s: nat) {
    s in c.lru && s in c.locks && c.locks[s] == 0
  }

  /** One unlocked superstate, if there is any, has joined the end of the semi-free ring. */
  ghost predicate Semifreed(c: Cache, c2: Cache) {
    if exists s :: Idle(c, s) then exists s :: Idle(c, s) && c2.semi == c.semi + [s] && Turned(c.lru, c2.lru + [s])
    else c2.semi == c.semi && Turned(c.lru, c2.lru)
  }

  function PutToSleep(c: Cache, core2: Core): Cache
    requires c.lru != []
  {
    Cache(core2, c.lru[1..], c.semi + [c.lru[0]], c.locks, c.superstates, c.semifree + 1)
  }

  /** The head of the queue, which is not locked, becomes semi-free. */
  lemma SleepValid(g: Graph, fin: nat, c: Cache, core2: Core)
    requires QueuesOk(c) == true && CoreOk(g, fin, c.core) == true
    requires c.lru != [] && c.lru[0] in c.locks && c.locks[c.lru[0]] == 0 && SleepTo(c.core, core2, c.lru[0]) == true
    ensures QueuesOk(PutToSleep(c, core2)) == true && CoreOk(g, fin, core2) == true && SameShape(c.core, core2) == true
  {
    SleepOk(g, fin, c.core, core2, c.lru[0]);
    SleepShape(c.core, core2, c.lru[0]);
    SleepQueues(c, core2);
  }

  lemma SleepSemifreed(c0: Cache, c: Cache, core2: Core)
    requires c == c0.(lru := c.lru) && Turned(c0.lru, c.lru) == true
    requires c.lru != [] && c.lru[0] in c.locks && c.locks[c.lru[0]] == 0
    ensures Semifreed(c0, PutToSleep(c, core2)) == true
  {
    HeadToEnd(c0.lru, c.lru);
    assert Idle(c0, c.lru[0]);
  }

  lemma HeadToEnd(q: seq<nat>, r: seq<nat>)
    requires Turned(q, r) && r != []
    ensures Turned(q, r[1..] + [r[0]]) == true
  {
    RotateElems(r);
  }

  lemma NoneIdle(c: Cache, q: seq<nat>)
    requires Turned(c.lru, q) && Tail(q, c.locks, |q|)
    ensures !exists s :: Idle(c, s)
  {
    forall s | s in c.lru ensures s in c.locks && c.locks[s] > 0 {
      var i :| 0 <= i < |q| && q[i] == s;
    }
  }

  lemma RefsPresent(g: Graph, fin: nat, c: Core, t: nat)
    requires CoreOk(g, fin, c) && t in c.supers
    ensures forall d :: d in c.supers[t].refs ==> HasPresent(c, d)
  {
    forall d | d in c.supers[t].refs ensures HasPresent(c, d) {
      assert FutureOk(g, fin, c, d);
    }
  }

  /** The superstate cache of one automaton */
  class SuperCache {
    const g: Graph
    const fin: nat
    const rx: Rx
    var c: Cache

    ghost predicate Ok()
      reads this, rx, rx.mark
    {
      rx.Valid() && rx.g == g && Valid(g, fin, c)
    }

    constructor (g: Graph, fin: nat)
      requires Closed(g)
      ensures this.g == g && this.fin == fin && Ok() && fresh(rx) && fresh(rx.mark) && c.locks == map[]
    {
      this.g := g;
      this.fin := fin;
      rx := new Rx(g);
      c := Cache(Core(map[], map[], map[], 0), [], [], map[], 0, 0);
    }

    /** The scan of semifree_superstate: past locked superstates, for at most one turn of the
        queue. */
    method Scan() returns (found: bool, q: seq<nat>)
      requires QueuesOk(c)
      ensures Turned(c.lru, q)
      ensures if found then q != [] && q[0] in c.locks && c.locks[q[0]] == 0 else Tail(q, c.locks, |q|)
    {
      q := c.lru;
      var disqualified := c.semifree;
      found := disqualified != c.superstates;
      while found && c.locks[q[0]] > 0
        invariant c.semifree <= disqualified <= c.superstates && found == (disqualified != c.superstates)
        invariant Turned(c.lru, q) && Tail(q, c.locks, disqualified - c.semifree)
        decreases c.superstates - disqualified
      {
        TurnOn(c.lru, q, c.locks, disqualified - c.semifree);
        q := Rotate(q);
        disqualified := disqualified + 1;
        found := disqualified != c.superstates;
      }
    }

    method SkipLocked() returns (found: bool)
      requires Valid(g, fin, c)
      modifies this`c
      ensures Valid(g, fin, c) && c == old(c).(lru := c.lru) && Turned(old(c).lru, c.lru)
      ensures found ==> c.lru != [] && c.locks[c.lru[0]] == 0
      ensures !found ==> Tail(c.lru, c.locks, |c.lru|)
    {
      var q;
      found, q := Scan();
      TurnedQueues(c, q);
      c := c.(lru := q);
    }

    /** semifree_superstate */
    method SemifreeSuperstate()
      requires Valid(g, fin, c)
      modifies this`c
      ensures Valid(g, fin, c) && KeepsLocked(old(c), c) && SameShape(old(c.core), c.core)
      ensures c.superstates == old(c.superstates) && Semifreed(old(c), c) == true
    {
      var found := SkipLocked();
      if found {
        var s := c.lru[0];
        RefsPresent(g, fin, c.core, s);
        var core2 := SetFrames(Asleep(c.core, s), c.core.supers[s].refs, None);
        SleepValid(g, fin, c, core2);
        SleepSemifreed(old(c), c, core2);
        c := PutToSleep(c, core2);
      } else {
        NoneIdle(old(c), c.lru);
      }
      ShapeKeepsLocked(old(c), c);
    }

    /** refresh_semifree_superstate */
    method RefreshSemifree(s: nat)
      requires Valid(g, fin, c) && s in c.core.supers && c.core.supers[s].semifree
      modifies this`c
      ensures Valid(g, fin, c) && KeepsLocked(old(c), c) && SameShape(old(c.core), c.core)
      ensures forall x :: x in c.core.supers ==> c.core.supers[x].semifree == (x != s && old(c.core).supers[x].semifree)
    {
      RefsPresent(g, fin, c.core, s);
      var core2 := SetFrames(Awake(c.core, s), c.core.supers[s].refs, Some((s, IsFinal(fin, c.core.supers[s].contents))));
      WakeOk(g, fin, c.core, core2, s);
      WakeShape(fin, c.core, core2, s);
      WakeQueues(fin, c, core2, s);
      c := Cache(core2, c.lru + [s], Unlink(c.semi, s), c.locks, c.superstates, c.semifree - 1);
      ShapeKeepsLocked(old(c), c);
    }

    /** rx_refresh_this_superstate */
    method RefreshThis(s: nat)
      requires Valid(g, fin, c) && s in c.core.supers
      modifies this`c
      ensures Valid(g, fin, c) && KeepsLocked(old(c), c) && SameShape(old(c.core), c.core)
      ensures !c.core.supers[s].semifree
    {
      if c.core.supers[s].semifree {
        RefreshSemifree(s);
      } else {
        TouchElems(c.lru, s);
        c := c.(lru := Touch(c.lru, s));
        ShapeKeepsLocked(old(c), c);
      }
    }

    /** rx_really_free_superstate: frees one semi-free superstate, if there is one. */
    method ReallyFree() returns (freed: bool)
      requires Valid(g, fin, c)
      modifies this`c
      ensures Valid(g, fin, c) && KeepsLocked(old(c), c) && OnlyFrees(old(c.core), c.core)
      ensures freed ==> |c.core.supers| < old(|c.core.supers|)
      ensures freed ==> c.superstates == old(c.superstates) - 1
    {
      if c.superstates == 0 {
        return false;
      }
      SemifreeThrice();
      if c.semi == [] {
        return false;
      }
      FreeStep(g, fin, old(c), c);
      c := FreeHead(c);
      freed := true;
    }

    method SemifreeThrice()
      requires Valid(g, fin, c)
      modifies this`c
      ensures Valid(g, fin, c) && KeepsLocked(old(c), c) && SameShape(old(c.core), c.core)
      ensures c.superstates == old(c.superstates)
    {
      SemifreeSuperstate();
      ghost var c1 := c;
      SemifreeSuperstate();
      KeepsTrans(old(c), c1, c);
      c1 := c;
      SemifreeSuperstate();
      KeepsTrans(old(c), c1, c);
    }

    /** rx_cache_malloc_or_get: evicts as long as the byte count, which is not modelled, says so. */
    method MakeRoom()
      requires Valid(g, fin, c)
      modifies this`c
      ensures Valid(g, fin, c) && KeepsLocked(old(c), c) && OnlyFrees(old(c.core), c.core)
    {
      while *
        invariant Valid(g, fin, c) && KeepsLocked(old(c), c) && OnlyFrees(old(c.core), c.core)
        decreases |c.core.supers|
      {
        ghost var c1 := c;
        var freed := ReallyFree();
        KeepsTrans(old(c), c1, c);
        if !freed {
          break;
        }
      }
    }

    /** rx_superstate: the one superstate with these contents, refreshed or made. */
    method Superstate(contents: seq<nat>) returns (s: nat)
      requires Valid(g, fin, c) && Sorted(contents) && Within(g, contents)
      modifies this`c
      ensures Valid(g, fin, c) && KeepsLocked(old(c), c)
      ensures s in c.core.supers && c.core.supers[s].contents == contents && !c.core.supers[s].semifree
    {
      if contents in c.core.index {
        s := c.core.index[contents];
        RefreshThis(s);
      } else {
        MakeRoom();
        assert contents !in c.core.index;
        CreatedOk(g, fin, c.core, contents);
        CreateQueues(c, contents);
        CreateKeeps(c, contents);
        KeepsTrans(old(c), c, Create(c, contents));
        s := c.core.next;
        c := Create(c, contents);
      }
    }

    /** The search of rx_handle_cache_miss for an edge that already covers a character */
    method FindEdge(s: nat, chr: Byte) returns (found: Option<nat>)
      requires Valid(g, fin, c) && s in c.core.supers
      ensures found.Some? ==> OnEdge(c.core, found.value, s, chr)
    {
      var edges := c.core.supers[s].edges;
      for i := 0 to |edges| {
        assert edges[i] in c.core.supers[s].edges;
        if chr in c.core.futures[edges[i]].cset {
          return Some(edges[i]);
        }
      }
      return None;
    }

    /** A miss on a transition that was never filled in: use an edge that covers the character, or
        compute one. */
    method FillTransition(s: nat, chr: Byte) returns (f: Frame)
      requires Valid(g, fin, c) && s in c.core.supers && !c.core.supers[s].semifree
      modifies this`c
      ensures Valid(g, fin, c) && KeepsStates(old(c), c)
      ensures Stays(old(c.core), c.core, s) && FrameOk(g, fin, c.core, s, chr, f) && f != Miss(None)
    {
      var edge := FindEdge(s, chr);
      var x := c.core;
      var cset;
      if edge.Some? {
        f := x.futures[edge.value].frame;
        cset := x.futures[edge.value].cset;
        EdgeFrameOk(g, fin, x, s, edge.value);
      } else {
        var enabled;
        cset, enabled := ComputeSuperEdge(g, x.supers[s].contents, chr);
        if enabled {
          NewEdge(g, fin, x, s, chr);
          f := Miss(Some(x.next));
          x := WithEdge(x, s, cset);
        } else {
          NoEdgeFrames(g, fin, x, s, chr);
          f := Backtrack;
        }
      }
      InstallKeeps(g, fin, x, s, f, WordOf(cset, chr), chr);
      x := InstalledAt(x, s, f, WordOf(cset, chr));
      SameFlagsQueues(c, x);
      c := c.(core := x);
    }

    /** The destination superstate of an edge; its source is locked, so it survives the evictions
        that making room may take. */
    method DestinationOf(s: nat, d: nat) returns (t: nat)
      requires Ok() && Locked(c, s)
      requires d in c.core.futures && c.core.futures[d].present == s && c.core.futures[d].future.None?
      modifies this`c, rx, rx.mark
      ensures Ok() && KeepsLocked(old(c), c) && Solvable(g, fin, c.core, d, t)
    {
      var contents := c.core.supers[s].contents;
      var dest := SolveContents(rx, contents, c.core.futures[d].cset);
      DestWithin(g, dest, Elems(contents), c.core.futures[d].cset);
      t := Superstate(dest);
      assert KeepsEdge(old(c.core), c.core, d);
    }

    /** The case of rx_handle_cache_miss where an existing edge has no destination superstate. */
    method SolveDestination(s: nat, chr: Byte, d: nat) returns (f: Frame)
      requires Ok() && s in c.core.supers && !c.core.supers[s].semifree && OnEdge(c.core, d, s, chr)
      requires c.core.futures[d].future.None?
      modifies this`c, rx, rx.mark
      ensures Ok() && KeepsStates(old(c), c)
      ensures Stays(old(c.core), c.core, s) && FrameOk(g, fin, c.core, s, chr, f) && f.NextChar?
    {
      c := c.(locks := c.locks[s := c.locks[s] + 1]);
      ghost var c1 := c;
      var t := DestinationOf(s, d);
      FinishSolve(g, fin, old(c), c1, c, s, chr, d, t);
      f := NextChar(t, IsFinal(fin, c.core.supers[t].contents));
      c := Finish(fin, c, s, chr, d, t);
    }

    /** The case of rx_handle_cache_miss where the destination is there but semi-free, or has been
        refreshed since the table was written. */
    method Revive(s: nat, chr: Byte, d: nat, t: nat) returns (f: Frame)
      requires Valid(g, fin, c) && s in c.core.supers && !c.core.supers[s].semifree && Leads(c.core, d, s, chr, t)
      modifies this`c
      ensures Valid(g, fin, c) && KeepsStates(old(c), c)
      ensures Stays(old(c.core), c.core, s) && FrameOk(g, fin, c.core, s, chr, f) && f.NextChar?
    {
      assert FutureOk(g, fin, c.core, d);
      if c.core.supers[t].semifree {
        RefreshSemifree(t);
      }
      EdgeFrameOk(g, fin, c.core, s, d);
      assert FutureOk(g, fin, c.core, d);
      f := c.core.futures[d].frame;
    }

    /** rx_handle_cache_miss: the frame to go on with is right for this superstate and character,
        and a miss is never answered by a miss of the same kind. */
    method HandleCacheMiss(s: nat, chr: Byte, data: Option<nat>) returns (f: Frame)
      requires Ok() && s in c.core.supers && !c.core.supers[s].semifree
      requires FrameOk(g, fin, c.core, s, chr, Miss(data))
      modifies this`c, rx, rx.mark
      ensures Ok() && KeepsStates(old(c), c)
      ensures Stays(old(c.core), c.core, s) && FrameOk(g, fin, c.core, s, chr, f)
      ensures f.Miss? ==> data.None? && f.df.Some?
    {
      match data
      case None =>
        f := FillTransition(s, chr);
      case Some(d) =>
        match c.core.futures[d].future
        case Some(t) =>
          f := Revive(s, chr, d, t);
        case None =>
          f := SolveDestination(s, chr, d);
    }
  }

  // ----- Lemmas about single steps -----

  /** The frame of an edge is right for every character of the edge. */
  lemma EdgeFrameOk(g: Graph, fin: nat, c: Core, s: nat, d: nat)
    requires CoreOk(g, fin, c) && s in c.supers && d in c.futures && c.futures[d].present == s
    ensures forall b: Byte :: b in c.futures[d].cset ==> FrameOk(g, fin, c, s, b, c.futures[d].frame)
    ensures c.futures[d].frame != Miss(None)
  {
    assert FutureOk(g, fin, c, d);
    var f := c.futures[d];
    forall b: Byte | b in f.cset ensures FrameOk(g, fin, c, s, b, f.frame) {
      if f.frame.NextChar? {
        assert Leads(c, d, s, b, f.frame.dest);
      }
    }
  }

  lemma InstallKeeps(g: Graph, fin: nat, c: Core, s: nat, f: Frame, cset: set<Byte>, chr: Byte)
    requires CoreOk(g, fin, c) && s in c.supers && FrameOk(g, fin, c, s, chr, f)
    requires forall b: Byte :: b in cset ==> FrameOk(g, fin, c, s, b, f)
    ensures var c2 := InstalledAt(c, s, f, cset);
      CoreOk(g, fin, c2) && FrameOk(g, fin, c2, s, chr, f) && SameFlags(c, c2)
  {
    InstalledOk(g, fin, c, s, f, cset);
    var c2 := InstalledAt(c, s, f, cset);
    if f.NextChar? {
      var d :| Leads(c, d, s, chr, f.dest);
      assert Leads(c2, d, s, chr, f.dest);
    }
  }

  lemma NoEdgeFrames(g: Graph, fin: nat, c: Core, s: nat, chr: Byte)
    requires s in c.supers && !Enabled(g, States(c, s), chr)
    ensures forall b: Byte :: b in Class(g, States(c, s), chr) ==> FrameOk(g, fin, c, s, b, Backtrack)
  {
    forall b: Byte | b in Class(g, States(c, s), chr) ensures !Enabled(g, States(c, s), b) {
      ClassOfMember(g, States(c, s), chr, b);
    }
  }

  lemma ClassIsClassEdge(g: Graph, S: set<nat>, chr: Byte)
    requires Enabled(g, S, chr)
    ensures ClassEdge(g, S, Class(g, S, chr)) && chr in Class(g, S, chr)
  {
    assert SameEdges(g, S, chr, chr);
    assert chr in Class(g, S, chr);
    forall b | b in Class(g, S, chr) ensures Enabled(g, S, b) && Class(g, S, b) == Class(g, S, chr) {
      ClassOfMember(g, S, chr, b);
    }
  }

  lemma NewEdge(g: Graph, fin: nat, c: Core, s: nat, chr: Byte)
    requires CoreOk(g, fin, c) && s in c.supers && Enabled(g, States(c, s), chr)
    ensures var cset := Class(g, States(c, s), chr);
      var c2 := WithEdge(c, s, cset);
      CoreOk(g, fin, c2) && SameFlags(c, c2) && chr in cset &&
      (forall b: Byte :: b in cset ==> FrameOk(g, fin, c2, s, b, Miss(Some(c.next))))
  {
    ClassIsClassEdge(g, States(c, s), chr);
    WithEdgeOk(g, fin, c, s, Class(g, States(c, s), chr));
  }

  lemma DestWithin(g: Graph, dest: seq<nat>, S: set<nat>, cset: set<Byte>)
    requires Elems(dest) == Dest(g, S, cset)
    ensures Within(g, dest)
  {
    forall i | 0 <= i < |dest| ensures dest[i] < |g| {
      assert dest[i] in Elems(dest);
    }
  }

  lemma EdgeKept(c: Cache, c2: Cache, s: nat, chr: Byte, d: nat)
    requires KeepsLocked(c, c2) && Locked(c, s) && OnEdge(c.core, d, s, chr)
    ensures OnEdge(c2.core, d, s, chr) && s in c2.core.supers
  {
    assert KeepsEdge(c.core, c2.core, d);
  }

  /** The ring gets its destination, and the source's table the frame for it. */
  function Connected(fin: nat, c: Core, s: nat, chr: Byte, d: nat, t: nat): Core
    requires d in c.futures && t in c.supers && s in c.supers && |c.supers[s].table| == 256
  {
    var final := IsFinal(fin, c.supers[t].contents);
    InstalledAt(Solved(c, d, t, final), s, NextChar(t, final), WordOf(c.futures[d].cset, chr))
  }

  function Finish(fin: nat, c: Cache, s: nat, chr: Byte, d: nat, t: nat): Cache
    requires d in c.core.futures && t in c.core.supers && s in c.core.supers && |c.core.supers[s].table| == 256
    requires Locked(c, s)
  {
    c.(core := Connected(fin, c.core, s, chr, d, t), locks := c.locks[s := c.locks[s] - 1])
  }

  lemma FinishSolve(g: Graph, fin: nat, c0: Cache, c1: Cache, c: Cache, s: nat, chr: Byte, d: nat, t: nat)
    requires s in c0.core.supers && s in c0.locks && c1 == c0.(locks := c0.locks[s := c0.locks[s] + 1])
    requires OnEdge(c1.core, d, s, chr)
    requires KeepsLocked(c1, c) && Valid(g, fin, c) && Solvable(g, fin, c.core, d, t)
    ensures s in c.core.supers && |c.core.supers[s].table| == 256 && Locked(c, s)
    ensures var c2 := Finish(fin, c, s, chr, d, t);
      Valid(g, fin, c2) && KeepsStates(c0, c2) && Stays(c0.core, c2.core, s) &&
      FrameOk(g, fin, c2.core, s, chr, NextChar(t, IsFinal(fin, c.core.supers[t].contents)))
  {
    assert Locked(c1, s);
    EdgeKept(c1, c, s, chr, d);
    ConnectedOk(g, fin, c.core, s, chr, d, t);
    FinishQueues(fin, c, s, chr, d, t);
    FinishKeeps(fin, c0, c1, c, s, chr, d, t);
  }

  lemma FinishQueues(fin: nat, c: Cache, s: nat, chr: Byte, d: nat, t: nat)
    requires QueuesOk(c) && Locked(c, s)
    requires d in c.core.futures && t in c.core.supers && |c.core.supers[s].table| == 256
    requires SameFlags(c.core, Connected(fin, c.core, s, chr, d, t))
    ensures QueuesOk(Finish(fin, c, s, chr, d, t))
  {
    SameFlagsQueues(c, Connected(fin, c.core, s, chr, d, t));
  }

  lemma FinishKeeps(fin: nat, c0: Cache, c1: Cache, c: Cache, s: nat, chr: Byte, d: nat, t: nat)
    requires s in c0.core.supers && s in c0.locks && c1 == c0.(locks := c0.locks[s := c0.locks[s] + 1])
    requires KeepsStates(c1, c) && Locked(c1, s) && !c.core.supers[s].semifree
    requires d in c.core.futures && t in c.core.supers && |c.core.supers[s].table| == 256
    requires SameFlags(c.core, Connected(fin, c.core, s, chr, d, t))
    ensures var c2 := Finish(fin, c, s, chr, d, t); KeepsStates(c0, c2) && Stays(c0.core, c2.core, s)
  {
    assert forall x :: Locked(c0, x) ==> Locked(c1, x);
  }

  lemma SolvedLeads(c: Core, d: nat, t: nat, final: bool, s: nat, chr: Byte)
    requires d in c.futures && t in c.supers && d in c.futures[d].ring && OnEdge(c, d, s, chr)
    ensures var c2 := Solved(c, d, t, final);
      OnEdge(c2, d, s, chr) && c2.futures[d].frame == NextChar(t, final) && SameFlags(c, c2) && c2.futures[d].cset == c.futures[d].cset
  {
  }

  lemma ConnectedOk(g: Graph, fin: nat, c: Core, s: nat, chr: Byte, d: nat, t: nat)
    requires CoreOk(g, fin, c) && Solvable(g, fin, c, d, t) && OnEdge(c, d, s, chr)
    ensures s in c.supers && |c.supers[s].table| == 256
    ensures var c2 := Connected(fin, c, s, chr, d, t);
      CoreOk(g, fin, c2) && SameFlags(c, c2) &&
      FrameOk(g, fin, c2, s, chr, NextChar(t, IsFinal(fin, c.supers[t].contents)))
  {
    var final := IsFinal(fin, c.supers[t].contents);
    var c1 := Solved(c, d, t, final);
    assert RingOk(g, c, d);
    SolvedLeads(c, d, t, final, s, chr);
    SolvedOk(g, fin, c, d, t);
    EdgeFrameOk(g, fin, c1, s, d);
    InstallKeeps(g, fin, c1, s, NextChar(t, final), WordOf(c.futures[d].cset, chr), chr);
  }
}
