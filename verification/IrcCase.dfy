/** irccasecmp of src/tools.c, with the character table of the P10 protocol. */
module IrcCase {
  /** A C string: bytes without the zero that ends it */
  type Char = b: int | 1 <= b < 256 witness 1
  type Str = seq<Char>

  function Lower(b: Char): Char {
    if 65 <= b <= 94 then b + 32
    else if 0xc0 <= b <= 0xd6 || 0xd8 <= b <= 0xde then b + 32
    else b
  }

  /** A table entry is a signed char. */
  function Signed(b: Char): int {
    if b < 128 then b else b - 256
  }

  /** What the comparison sees of a string at a position: zero past its end */
  function Folded(s: Str): seq<int> {
    seq(|s|, i requires 0 <= i < |s| => Signed(Lower(s[i])))
  }

  function Head(s: Str): int {
    if s == [] then 0 else Signed(Lower(s[0]))
  }

  function Compare(a: Str, b: Str): int
    decreases |a|
  {
    if a != [] && Head(a) == Head(b) then Compare(a[1..], if b == [] then [] else b[1..]) else Head(a) - Head(b)
  }

  lemma HeadZero(s: Str)
    ensures Head(s) == 0 <==> s == []
  {
  }

  lemma {:induction false} CompareAnti(a: Str, b: Str)
    ensures Compare(a, b) == -Compare(b, a)
    decreases |a|
  {
    HeadZero(a);
    HeadZero(b);
    if a != [] && Head(a) == Head(b) {
      CompareAnti(a[1..], b[1..]);
    }
  }

  /** Zero means that the strings differ in case only. */
  lemma {:induction false} CompareZero(a: Str, b: Str)
    ensures Compare(a, b) == 0 <==> Folded(a) == Folded(b)
    decreases |a|
  {
    HeadZero(a);
    HeadZero(b);
    if a == [] || b == [] {
      assert |Folded(a)| == |a| && |Folded(b)| == |b|;
    } else if Head(a) == Head(b) {
      CompareZero(a[1..], b[1..]);
      assert Folded(a) == [Head(a)] + Folded(a[1..]);
      assert Folded(b) == [Head(b)] + Folded(b[1..]);
      assert Folded(a)[1..] == Folded(a[1..]) && Folded(b)[1..] == Folded(b[1..]);
    } else {
      assert Folded(a)[0] == Head(a) && Folded(b)[0] == Head(b);
    }
  }

  /** A capital and its small letter.  In the P10 table the brackets, the backslash and the caret have
      small forms, and so do the letters of Latin-1, but not its multiplication sign. */
  predicate CasePair(big: Char, small: Char) {
    small == big + 32 && (65 <= big <= 94 || 0xc0 <= big <= 0xd6 || 0xd8 <= big <= 0xde)
  }

  /** The strings differ in the case of letters at most. */
  predicate SameLetters(a: Str, b: Str) {
    |a| == |b| && forall i :: 0 <= i < |a| ==> a[i] == b[i] || CasePair(a[i], b[i]) || CasePair(b[i], a[i])
  }

  lemma LowerMeans(x: Char, y: Char)
    requires Signed(Lower(x)) == Signed(Lower(y))
    ensures x == y || CasePair(x, y) || CasePair(y, x)
  {
  }

  lemma FoldedMeans(a: Str, b: Str)
    ensures Folded(a) == Folded(b) <==> SameLetters(a, b)
  {
    if Folded(a) == Folded(b) {
      assert |Folded(a)| == |a| && |Folded(b)| == |b|;
      forall i | 0 <= i < |a| ensures a[i] == b[i] || CasePair(a[i], b[i]) || CasePair(b[i], a[i]) {
        assert Folded(a)[i] == Folded(b)[i];
        LowerMeans(a[i], b[i]);
      }
    }
  }

  /** Zero means that the strings are the same but for case. */
  lemma CompareMeans(a: Str, b: Str)
    ensures Compare(a, b) == 0 <==> SameLetters(a, b)
  {
    CompareZero(a, b);
    FoldedMeans(a, b);
  }

  /** The comparison is a total order on folded strings. */
  lemma {:induction false} CompareTrans(a: Str, b: Str, c: Str)
    requires Compare(a, b) <= 0 && Compare(b, c) <= 0
    ensures Compare(a, c) <= 0
    ensures Compare(a, b) < 0 || Compare(b, c) < 0 ==> Compare(a, c) < 0
    decreases |a|
  {
    HeadZero(a);
    HeadZero(b);
    HeadZero(c);
    if a != [] && Head(a) == Head(b) == Head(c) {
      CompareTrans(a[1..], b[1..], c[1..]);
    }
  }
}
