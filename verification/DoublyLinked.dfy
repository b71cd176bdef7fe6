/** Lists linked through the prev and next fields of their records: what unlinking and linking do to
    the sequence that a list stands for. */
module DoublyLinked {
  import opened Options

  /** The prev and next fields of all records, which are known by their addresses */
  datatype Links = Links(prev: map<nat, Option<nat>>, next: map<nat, Option<nat>>)

  function At(s: seq<nat>, i: int): Option<nat> {
    if 0 <= i < |s| then Some(s[i]) else None
  }

  predicate NoDup(s: seq<nat>) {
    forall i, j :: 0 <= i < j < |s| ==> s[i] != s[j]
  }

  predicate Linked(s: seq<nat>, k: Links, i: int)
    requires 0 <= i < |s|
  {
    s[i] in k.prev && s[i] in k.next && k.prev[s[i]] == At(s, i - 1) && k.next[s[i]] == At(s, i + 1)
  }

  predicate Chained(s: seq<nat>, k: Links) {
    NoDup(s) && forall i :: 0 <= i < |s| ==> Linked(s, k, i)
  }

  function Without(s: seq<nat>, i: nat): seq<nat>
    requires i < |s|
  {
    s[..i] + s[i + 1..]
  }

  function With(s: seq<nat>, i: nat, x: nat): seq<nat>
    requires i <= |s|
  {
    s[..i] + [x] + s[i..]
  }

  /** The neighbours of `x` are joined. */
  function Unlink(k: Links, x: nat): Links
    requires x in k.prev && x in k.next
  {
    var p, n := k.prev[x], k.next[x];
    Links(if n.Some? then k.prev[n.value := p] else k.prev, if p.Some? then k.next[p.value := n] else k.next)
  }

  /** `x` goes between `at` and the one before it. */
  function LinkBefore(k: Links, x: nat, at: nat): Links
    requires at in k.prev
  {
    var p := k.prev[at];
    Links(k.prev[x := p][at := Some(x)], (if p.Some? then k.next[p.value := Some(x)] else k.next)[x := Some(at)])
  }

  /** `x` goes after `at`, or is the only one. */
  function LinkAfter(k: Links, x: nat, at: Option<nat>): Links
    requires at.Some? ==> at.value in k.next
  {
    var n := if at.Some? then k.next[at.value] else None;
    Links((if n.Some? then k.prev[n.value := Some(x)] else k.prev)[x := at],
          (if at.Some? then k.next[at.value := Some(x)] else k.next)[x := n])
  }

  lemma UnlinkChained(s: seq<nat>, k: Links, i: nat)
    requires Chained(s, k) && i < |s|
    ensures Linked(s, k, i) && Chained(Without(s, i), Unlink(k, s[i]))
  {
    assert Linked(s, k, i);
    var t, k2 := Without(s, i), Unlink(k, s[i]);
    forall j | 0 <= j < |t| ensures Linked(t, k2, j) {
      assert Linked(s, k, if j < i then j else j + 1);
    }
  }

  lemma LinkBeforeChained(s: seq<nat>, k: Links, i: nat, x: nat)
    requires Chained(s, k) && i < |s| && x !in s
    ensures Linked(s, k, i) && Chained(With(s, i, x), LinkBefore(k, x, s[i]))
  {
    assert Linked(s, k, i);
    var t, k2 := With(s, i, x), LinkBefore(k, x, s[i]);
    forall j | 0 <= j < |t| ensures Linked(t, k2, j) {
      if j < i {
        assert Linked(s, k, j);
      } else if j > i {
        assert Linked(s, k, j - 1);
      }
    }
  }

  lemma LinkAfterChained(s: seq<nat>, k: Links, i: int, x: nat)
    requires Chained(s, k) && -1 <= i < |s| && x !in s && (i == -1 ==> s == [])
    ensures i >= 0 ==> Linked(s, k, i)
    ensures Chained(With(s, i + 1, x), LinkAfter(k, x, At(s, i)))
  {
    assert i >= 0 ==> Linked(s, k, i);
    var t, k2 := With(s, i + 1, x), LinkAfter(k, x, At(s, i));
    forall j | 0 <= j < |t| ensures Linked(t, k2, j) {
      if j <= i {
        assert Linked(s, k, j);
      } else if j > i + 1 {
        assert Linked(s, k, j - 1);
      }
    }
  }

  // ----- Several lists through the same fields -----

  /** `x` goes to the head of a list. */
  function LinkFirst(k: Links, x: nat, head: Option<nat>): Links {
    Links((if head.Some? then k.prev[head.value := Some(x)] else k.prev)[x := None], k.next[x := head])
  }

  lemma LinkFirstChained(s: seq<nat>, k: Links, x: nat)
    requires Chained(s, k) && x !in s
    ensures Chained([x] + s, LinkFirst(k, x, At(s, 0)))
  {
    var t, k2 := [x] + s, LinkFirst(k, x, At(s, 0));
    forall j | 0 <= j < |t| ensures Linked(t, k2, j) {
      if j > 0 {
        assert Linked(s, k, j - 1);
      }
    }
  }

  predicate Apart(s: seq<nat>, t: seq<nat>) {
    forall i :: 0 <= i < |s| ==> s[i] !in t
  }

  /** Taking a record out of one list leaves another list as it was. */
  lemma UnlinkElsewhere(s: seq<nat>, t: seq<nat>, k: Links, i: nat)
    requires Chained(s, k) && Chained(t, k) && i < |s| && Apart(s, t)
    ensures Linked(s, k, i) && Chained(t, Unlink(k, s[i]))
  {
    assert Linked(s, k, i);
    forall j | 0 <= j < |t| ensures Linked(t, Unlink(k, s[i]), j) {
      assert Linked(t, k, j);
    }
  }
}
