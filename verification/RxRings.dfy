/** The circular lists of rx/rxsuper.c in memory: what its assignments to next and prev pointers do to
    the sequence a ring stands for, read from the record its head pointer names.  RxSuper and RxCacheOps
    work on those sequences. */
module RxRings {
  import opened RxCache
  import opened RxCacheOps
  import opened RxSuper

  /** The next and prev fields of all records, which are known by their addresses */
  datatype Ptrs = Ptrs(next: map<nat, nat>, prev: map<nat, nat>)

  function After(s: seq<nat>, i: nat): nat
    requires i < |s|
  {
    if i + 1 < |s| then s[i + 1] else s[0]
  }

  function Before(s: seq<nat>, i: nat): nat
    requires i < |s|
  {
    if i > 0 then s[i - 1] else s[|s| - 1]
  }

  ghost predicate LinkedAt(s: seq<nat>, p: Ptrs, i: nat)
    requires i < |s|
  {
    s[i] in p.next && s[i] in p.prev && p.next[s[i]] == After(s, i) && p.prev[s[i]] == Before(s, i)
  }

  /** Following the pointers from the head goes once around `s`. */
  ghost predicate Ring(s: seq<nat>, p: Ptrs) {
    NoDup(s) && forall i: nat :: i < |s| ==> LinkedAt(s, p, i)
  }

  function SetNext(p: Ptrs, x: nat, v: nat): Ptrs {
    p.(next := p.next[x := v])
  }

  function SetPrev(p: Ptrs, x: nat, v: nat): Ptrs {
    p.(prev := p.prev[x := v])
  }

  /** Moving the head pointer on turns the sequence. */
  lemma TurnRing(s: seq<nat>, p: Ptrs)
    requires Ring(s, p) && s != []
    ensures Ring(Rotate(s), p) && s[0] in p.next && p.next[s[0]] == Rotate(s)[0]
  {
    var t := Rotate(s);
    RotateElems(s);
    assert LinkedAt(s, p, 0);
    forall i: nat | i < |t| ensures LinkedAt(t, p, i) {
      assert LinkedAt(s, p, if i + 1 < |s| then i + 1 else 0);
    }
  }

  /** A record goes before the head, or is the only one. */
  function Enqueued(p: Ptrs, head: nat, empty: bool, x: nat): Ptrs
    requires empty || head in p.prev
  {
    if empty then SetPrev(SetNext(p, x, x), x, x)
    else
      var last := p.prev[head];
      SetPrev(SetNext(SetPrev(SetNext(p, x, head), x, last), last, x), head, x)
  }

  lemma EnqueueRing(s: seq<nat>, p: Ptrs, x: nat)
    requires Ring(s, p) && x !in s
    ensures s != [] ==> s[0] in p.prev
    ensures Ring(s + [x], Enqueued(p, if s == [] then x else s[0], s == [], x))
  {
    var t := s + [x];
    AppendElems(s, x);
    if s != [] {
      assert LinkedAt(s, p, 0);
      var q := Enqueued(p, s[0], false, x);
      forall i: nat | i < |t| ensures LinkedAt(t, q, i) {
        if i < |s| {
          assert LinkedAt(s, p, i);
        }
      }
    }
  }

  /** it->next->prev = it->prev; it->prev->next = it->next */
  function Dequeued(p: Ptrs, x: nat): Ptrs
    requires x in p.next && x in p.prev
  {
    SetNext(SetPrev(p, p.next[x], p.prev[x]), p.prev[x], p.next[x])
  }

  lemma DequeueRing(s: seq<nat>, p: Ptrs, k: nat)
    requires Ring(s, p) && k < |s|
    ensures LinkedAt(s, p, k) && Ring(RemoveAt(s, k), Dequeued(p, s[k]))
  {
    assert LinkedAt(s, p, k);
    var t, q := RemoveAt(s, k), Dequeued(p, s[k]);
    assert forall i :: 0 <= i < |t| ==> t[i] == if i < k then s[i] else s[i + 1];
    forall i: nat | i < |t| ensures LinkedAt(t, q, i) {
      assert LinkedAt(s, p, if i < k then i else i + 1);
    }
  }

  /** Leaving the semi-free ring; if the head leaves, the one before it becomes the head. */
  lemma UnlinkRing(s: seq<nat>, p: Ptrs, x: nat)
    requires Ring(s, p) && x in s
    ensures x in p.next && x in p.prev && Ring(Unlink(s, x), Dequeued(p, x))
    ensures |s| > 1 ==> Unlink(s, x)[0] == if x == s[0] then p.prev[x] else s[0]
  {
    var k := IndexOf(s, x);
    DequeueRing(s, p, k);
    if k == 0 && |s| > 1 {
      assert RemoveAt(s, 0) == s[1..];
      BackRing(RemoveAt(s, 0), Dequeued(p, x));
      assert [s[1..][|s| - 2]] + s[1..][..|s| - 2] == Unlink(s, x);
    }
  }

  /** Moving the head pointer back */
  lemma BackRing(s: seq<nat>, p: Ptrs)
    requires Ring(s, p) && s != []
    ensures Ring([s[|s| - 1]] + s[..|s| - 1], p)
  {
    var n := |s| - 1;
    var t := [s[n]] + s[..n];
    forall i, j | 0 <= i < j < |t| ensures t[i] != t[j] {
      assert i == 0 ==> s[j - 1] != s[n];
    }
    forall i: nat | i < |t| ensures LinkedAt(t, p, i) {
      assert LinkedAt(s, p, if i == 0 then n else i - 1);
    }
  }

  /** rx_refresh_this_superstate on a superstate that is awake: the head is moved on, a superstate in
      the middle is unlinked and put before the head, and the last one stays. */
  function Touched(p: Ptrs, head: nat, x: nat): Ptrs
    requires x in p.next && x in p.prev && head in p.prev && head in Dequeued(p, x).prev
  {
    if x == head || x == p.prev[head] then p else Enqueued(Dequeued(p, x), head, false, x)
  }

  lemma TouchRing(s: seq<nat>, p: Ptrs, x: nat)
    requires Ring(s, p) && x in s
    ensures x in p.next && x in p.prev && s[0] in p.prev && s[0] in Dequeued(p, x).prev
    ensures Ring(Touch(s, x), Touched(p, s[0], x))
  {
    var k := IndexOf(s, x);
    assert LinkedAt(s, p, 0) && LinkedAt(s, p, k);
    if k == 0 {
      TurnRing(s, p);
    } else if x != s[|s| - 1] {
      var t := RemoveAt(s, k);
      DequeueRing(s, p, k);
      assert t[0] == s[0];
      EnqueueRing(t, Dequeued(p, x), x);
    }
  }

  /** solve_destination's splice: the ring of `d` is opened after `d`, that of `r` after `r`, and the
      ends are crossed. */
  function Spliced(p: Ptrs, r: nat, d: nat): Ptrs
    requires r in p.next && d in p.next
  {
    var a, b := p.next[r], p.next[d];
    SetPrev(SetNext(SetPrev(SetNext(p, r, b), b, r), d, a), a, d)
  }

  function Joined(s: seq<nat>, t: seq<nat>): seq<nat>
    requires s != [] && t != []
  {
    [s[0]] + t[1..] + [t[0]] + s[1..]
  }

  lemma JoinedAt(s: seq<nat>, t: seq<nat>, i: nat)
    requires s != [] && t != [] && i < |s| + |t|
    ensures |Joined(s, t)| == |s| + |t|
    ensures Joined(s, t)[i] == if i == 0 then s[0] else if i < |t| then t[i] else if i == |t| then t[0] else s[i - |t|]
  {
  }

  lemma JoinedElems(s: seq<nat>, t: seq<nat>)
    requires NoDup(s) && NoDup(t) && s != [] && t != [] && forall x :: x in s ==> x !in t
    ensures NoDup(Joined(s, t)) && forall x :: x in Joined(s, t) <==> x in s || x in t
  {
    var u := Joined(s, t);
    forall i: nat, j: nat | i < j < |u| ensures u[i] != u[j] {
      JoinedAt(s, t, i);
      JoinedAt(s, t, j);
      assert s[0] in s && t[0] in t;
      assert 0 < i < |t| ==> t[i] in t;
      assert j > |t| ==> s[j - |t|] in s;
    }
    assert s == [s[0]] + s[1..] && t == [t[0]] + t[1..];
  }

  /** The two rings become one that holds the futures of both. */
  lemma SpliceRing(s: seq<nat>, t: seq<nat>, p: Ptrs)
    requires Ring(s, p) && Ring(t, p) && s != [] && t != [] && forall x :: x in s ==> x !in t
    ensures s[0] in p.next && t[0] in p.next && Ring(Joined(s, t), Spliced(p, s[0], t[0]))
    ensures forall x :: x in Joined(s, t) <==> x in s || x in t
  {
    assert LinkedAt(s, p, 0) && LinkedAt(t, p, 0);
    JoinedElems(s, t);
    var u, q := Joined(s, t), Spliced(p, s[0], t[0]);
    forall i: nat | i < |u| ensures LinkedAt(u, q, i) {
      SplicedAt(s, t, p, i);
    }
  }

  lemma SplicedAt(s: seq<nat>, t: seq<nat>, p: Ptrs, i: nat)
    requires Ring(s, p) && Ring(t, p) && s != [] && t != [] && (forall x :: x in s ==> x !in t) && i < |Joined(s, t)|
    requires s[0] in p.next && t[0] in p.next
    ensures LinkedAt(Joined(s, t), Spliced(p, s[0], t[0]), i)
  {
    var n := |s| + |t|;
    assert LinkedAt(s, p, 0) && LinkedAt(t, p, 0);
    assert s[0] in s && t[0] in t;
    JoinedAt(s, t, i);
    JoinedAt(s, t, if i + 1 < n then i + 1 else 0);
    JoinedAt(s, t, if i > 0 then i - 1 else n - 1);
    if 0 < i < |t| {
      assert LinkedAt(t, p, i) && t[i] in t;
    } else if i > |t| {
      assert LinkedAt(s, p, i - |t|) && s[i - |t|] in s;
    }
  }

  /** A ring none of whose records an operation writes to is as it was. */
  lemma RingElsewhere(s: seq<nat>, p: Ptrs, q: Ptrs)
    requires Ring(s, p) && forall x :: x in s && x in p.next && x in p.prev ==>
      x in q.next && x in q.prev && q.next[x] == p.next[x] && q.prev[x] == p.prev[x]
    ensures Ring(s, q)
  {
    forall i: nat | i < |s| ensures LinkedAt(s, q, i) {
      assert LinkedAt(s, p, i) && s[i] in s;
    }
  }
}
