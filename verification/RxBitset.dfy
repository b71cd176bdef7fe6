/** rx/rxbitset.c: sets of characters as arrays of 32-bit words. */
module RxBitset {
  import opened RxSyntax
  import opened RxSubset

  const BITS: nat := 32

  /** RX_subset, bit by bit */
  type Word = w: seq<bool> | |w| == BITS witness seq(BITS, _ => false)

  function Or(a: Word, b: Word): Word {
    seq(BITS, k requires 0 <= k < BITS => a[k] || b[k])
  }

  function And(a: Word, b: Word): Word {
    seq(BITS, k requires 0 <= k < BITS => a[k] && b[k])
  }

  function Not(a: Word): Word {
    seq(BITS, k requires 0 <= k < BITS => !a[k])
  }

  /** The characters of a set: character c is bit c % 32 of word c / 32. */
  ghost function Members(ws: seq<Word>): set<Byte> {
    set c: Byte | 0 <= c < 256 && c / BITS < |ws| && ws[c / BITS][c % BITS]
  }

  method Union(a: array<Word>, b: array<Word>)
    requires a.Length == b.Length
    modifies a
    ensures Members(a[..]) == Members(old(a[..])) + Members(old(b[..]))
  {
    for x := a.Length downto 0
      invariant forall i :: 0 <= i < x ==> a[i] == old(a[i]) && b[i] == old(b[i])
      invariant forall i :: x <= i < a.Length ==> a[i] == Or(old(a[i]), old(b[i]))
    {
      a[x] := Or(a[x], b[x]);
    }
  }

  method Intersection(a: array<Word>, b: array<Word>)
    requires a.Length == b.Length
    modifies a
    ensures Members(a[..]) == Members(old(a[..])) * Members(old(b[..]))
  {
    for x := a.Length downto 0
      invariant forall i :: 0 <= i < x ==> a[i] == old(a[i]) && b[i] == old(b[i])
      invariant forall i :: x <= i < a.Length ==> a[i] == And(old(a[i]), old(b[i]))
    {
      a[x] := And(a[x], b[x]);
    }
  }

  method Difference(a: array<Word>, b: array<Word>)
    requires a.Length == b.Length
    modifies a
    ensures Members(a[..]) == Members(old(a[..])) - Members(old(b[..]))
  {
    for x := a.Length downto 0
      invariant forall i :: 0 <= i < x ==> a[i] == old(a[i]) && b[i] == old(b[i])
      invariant forall i :: x <= i < a.Length ==> a[i] == And(old(a[i]), Not(old(b[i])))
    {
      a[x] := And(a[x], Not(b[x]));
    }
  }

  /** rx_bitset_is_equal puts the complement of a[0] into b[0] as a sentinel, so that the scan stops
      there at the latest, and puts b[0] back. */
  method IsEqual(a: array<Word>, b: array<Word>) returns (equal: bool)
    requires a.Length == b.Length && a != b
    modifies b
    ensures b[..] == old(b[..])
    ensures equal <==> a[..] == b[..]
  {
    if a.Length == 0 {
      return true;
    }
    var s := b[0];
    b[0] := Not(a[0]);
    assert Not(a[0])[0] != a[0][0];
    var x := a.Length - 1;
    while a[x] == b[x]
      invariant 0 <= x < a.Length && b[0] == Not(a[0]) && (forall i :: 0 < i < a.Length ==> b[i] == old(b[i]))
      invariant forall i :: x < i < a.Length ==> a[i] == b[i]
      decreases x
    {
      x := x - 1;
    }
    b[0] := s;
    equal := x == 0 && s == a[0];
    assert equal ==> forall i :: 0 <= i < a.Length ==> a[i] == b[i];
    assert !equal ==> a[x] != b[x];
  }

  /** rx_bitset_is_subset: the index is taken down before the first word is looked at, so the last
      word never is. */
  method IsSubset(a: array<Word>, b: array<Word>) returns (ans: bool)
    requires a.Length == b.Length && a.Length > 0
    ensures ans <==> AllButLast(a[..], b[..])
  {
    var x := a.Length - 1;
    while x > 0
      invariant 0 <= x <= a.Length - 1
      invariant forall i :: x <= i < a.Length - 1 ==> And(a[i], b[i]) == a[i]
    {
      x := x - 1;
      if And(a[x], b[x]) != a[x] {
        return false;
      }
    }
    return true;
  }

  predicate AllButLast(a: seq<Word>, b: seq<Word>)
    requires |a| == |b|
  {
    forall i :: 0 <= i < |a| - 1 ==> And(a[i], b[i]) == a[i]
  }

  /** For sets of 256 characters that test is `SubsetTest`, which leaves out the last 32. */
  lemma SubsetTestOfWords(a: seq<Word>, b: seq<Word>)
    requires |a| == |b| == 8
    ensures AllButLast(a, b) <==> SubsetTest(Members(a), Members(b))
  {
    if AllButLast(a, b) {
      forall c | c in Members(a) && c < INSPECTED ensures c in Members(b) {
        assert And(a[c / BITS], b[c / BITS])[c % BITS];
      }
    } else {
      var i :| 0 <= i < 7 && And(a[i], b[i]) != a[i];
      var k :| 0 <= k < BITS && And(a[i], b[i])[k] != a[i][k];
      var c: Byte := BITS * i + k;
      assert c / BITS == i && c % BITS == k;
      assert c in Members(a) && c !in Members(b);
    }
  }
}
