/** src/getopt.c: the in-place exchange of two blocks of arguments, and the permutation of the
    argument vector that repeated calls of getopt leave behind. */
module Getopt {
  type Arg = string

  // ----- Exchange -----

  /** Where the element at `p` was before the blocks [b, m) and [m, t) changed places */
  function Before(b: nat, m: nat, t: nat, p: nat): (q: nat)
    requires b <= m <= t
    ensures b <= p < t ==> b <= q < t
    ensures p < b || t <= p ==> q == p
  {
    if p < b || t <= p then p else if p < b + (t - m) then p - b + m else p - (t - m)
  }

  /** `s` with the blocks [b, m) and [m, t) in the other order */
  function Rotated(s: seq<Arg>, b: nat, m: nat, t: nat): (r: seq<Arg>)
    requires b <= m <= t <= |s|
    ensures |r| == |s|
  {
    seq(|s|, p requires 0 <= p < |s| => s[Before(b, m, t, p)])
  }

  lemma RotatedBlocks(s: seq<Arg>, b: nat, m: nat, t: nat)
    requires b <= m <= t <= |s|
    ensures Rotated(s, b, m, t) == s[..b] + s[m..t] + s[b..m] + s[t..]
  {
  }

  /** Where the element at `p` was before the blocks of length n at i and at j were swapped */
  function Across(i: nat, j: nat, n: nat, p: nat): (q: nat)
    requires i + n <= j
    ensures q < j + n || q == p
  {
    if i <= p < i + n then p - i + j else if j <= p < j + n then p - j + i else p
  }

  function Swapped(s: seq<Arg>, i: nat, j: nat, n: nat): (r: seq<Arg>)
    requires i + n <= j && j + n <= |s|
    ensures |r| == |s|
  {
    seq(|s|, p requires 0 <= p < |s| => s[Across(i, j, n, p)])
  }

  method SwapBlocks(argv: array<Arg>, i: nat, j: nat, n: nat)
    requires i + n <= j && j + n <= argv.Length
    modifies argv
    ensures argv[..] == Swapped(old(argv[..]), i, j, n)
  {
    ghost var s := argv[..];
    for k := 0 to n
      invariant forall p :: i <= p < i + k ==> argv[p] == s[p - i + j]
      invariant forall p :: j <= p < j + k ==> argv[p] == s[p - j + i]
      invariant forall p :: 0 <= p < argv.Length && !(i <= p < i + k) && !(j <= p < j + k) ==> argv[p] == s[p]
    {
      var tem := argv[i + k];
      argv[i + k] := argv[j + k];
      argv[j + k] := tem;
    }
    assert forall p :: 0 <= p < argv.Length ==> argv[..][p] == Swapped(s, i, j, n)[p];
  }

  /** Swapping the short lower block with the far end of the upper one leaves a smaller rotation. */
  lemma ShortBottom(s: seq<Arg>, b: nat, m: nat, t: nat)
    requires b < m < t <= |s| && t - m > m - b
    ensures var len := m - b;
      Rotated(Swapped(s, b, t - len, len), b, m, t - len) == Rotated(s, b, m, t)
  {
    var len := m - b;
    assert forall p: nat :: Across(b, t - len, len, Before(b, m, t - len, p)) == Before(b, m, t, p);
  }

  lemma ShortTop(s: seq<Arg>, b: nat, m: nat, t: nat)
    requires b < m < t <= |s| && t - m <= m - b
    ensures var len := t - m;
      Rotated(Swapped(s, b, m, len), b + len, m, t) == Rotated(s, b, m, t)
  {
    var len := t - m;
    assert forall p: nat :: Across(b, m, len, Before(b + len, m, t, p)) == Before(b, m, t, p);
  }

  lemma NothingToRotate(s: seq<Arg>, b: nat, m: nat, t: nat)
    requires b <= m <= t <= |s| && (b == m || m == t)
    ensures Rotated(s, b, m, t) == s
  {
  }

  ghost predicate Turns(s: seq<Arg>, b: nat, m: nat, t: nat, goal: seq<Arg>) {
    b <= m <= t <= |s| && Rotated(s, b, m, t) == goal
  }

  lemma LowerTurns(s: seq<Arg>, b: nat, m: nat, t: nat, goal: seq<Arg>)
    requires Turns(s, b, m, t, goal) == true && b < m < t <= |s| && t - m > m - b
    ensures Turns(Swapped(s, b, t - (m - b), m - b), b, m, t - (m - b), goal) == true
  {
    ShortBottom(s, b, m, t);
  }

  lemma UpperTurns(s: seq<Arg>, b: nat, m: nat, t: nat, goal: seq<Arg>)
    requires Turns(s, b, m, t, goal) == true && b < m < t <= |s| && t - m <= m - b
    ensures Turns(Swapped(s, b, m, t - m), b + (t - m), m, t, goal) == true
  {
    ShortTop(s, b, m, t);
  }

  lemma TurnsDone(s: seq<Arg>, b: nat, m: nat, t: nat, goal: seq<Arg>)
    requires Turns(s, b, m, t, goal) == true && (b >= m || m >= t)
    ensures s == goal
  {
    NothingToRotate(s, b, m, t);
  }

  /** One swap of exchange, after which `goal` is a smaller rotation away */
  method Step(argv: array<Arg>, i: nat, j: nat, n: nat, ghost b: nat, ghost m: nat, ghost t: nat, ghost goal: seq<Arg>)
    requires i + n <= j && j + n <= argv.Length && Turns(Swapped(argv[..], i, j, n), b, m, t, goal) == true
    modifies argv
    ensures Turns(argv[..], b, m, t, goal) == true
  {
    SwapBlocks(argv, i, j, n);
  }

  method LowerStep(argv: array<Arg>, b: nat, m: nat, t: nat, ghost goal: seq<Arg>)
    requires Turns(argv[..], b, m, t, goal) == true && b < m < t <= argv.Length && t - m > m - b
    modifies argv
    ensures Turns(argv[..], b, m, t - (m - b), goal) == true
  {
    LowerTurns(argv[..], b, m, t, goal);
    Step(argv, b, t - (m - b), m - b, b, m, t - (m - b), goal);
  }

  method UpperStep(argv: array<Arg>, b: nat, m: nat, t: nat, ghost goal: seq<Arg>)
    requires Turns(argv[..], b, m, t, goal) == true && b < m < t <= argv.Length && t - m <= m - b
    modifies argv
    ensures Turns(argv[..], b + (t - m), m, t, goal) == true
  {
    UpperTurns(argv[..], b, m, t, goal);
    Step(argv, b, m, t - m, b + (t - m), m, t, goal);
  }

  /** The loop of exchange */
  method Rotate(argv: array<Arg>, first: nat, last: nat, optind: nat)
    requires first <= last <= optind <= argv.Length
    modifies argv
    ensures argv[..] == Rotated(old(argv[..]), first, last, optind)
  {
    var bottom: nat, middle: nat, top: nat := first, last, optind;
    ghost var goal := Rotated(argv[..], first, last, optind);
    while top > middle && middle > bottom
      invariant bottom <= middle <= top <= argv.Length && Turns(argv[..], bottom, middle, top, goal) == true
      decreases top - bottom
    {
      if top - middle > middle - bottom {
        LowerStep(argv, bottom, middle, top, goal);
        top := top - (middle - bottom);
      } else {
        UpperStep(argv, bottom, middle, top, goal);
        bottom := bottom + (top - middle);
      }
    }
    TurnsDone(argv[..], bottom, middle, top, goal);
  }

  /** exchange, on the blocks [first, last) and [last, optind) */
  method Exchange(argv: array<Arg>, first: nat, last: nat, optind: nat)
    requires first <= last <= optind <= argv.Length
    modifies argv
    ensures var s := old(argv[..]); argv[..] == s[..first] + s[last..optind] + s[first..last] + s[optind..]
  {
    RotatedBlocks(argv[..], first, last, optind);
    Rotate(argv, first, last, optind);
  }

  // ----- The permutation -----

  /** The elements of `s` whose mark is `want`, in order */
  function Select(s: seq<Arg>, marks: seq<bool>, want: bool): seq<Arg>
    requires |s| == |marks|
  {
    if s == [] then [] else
      Select(s[..|s| - 1], marks[..|s| - 1], want) + if marks[|s| - 1] == want then [s[|s| - 1]] else []
  }

  lemma SelectSnoc(s: seq<Arg>, marks: seq<bool>, a: Arg, mark: bool, want: bool)
    requires |s| == |marks|
    ensures Select(s + [a], marks + [mark], want) == Select(s, marks, want) + if mark == want then [a] else []
  {
    assert (s + [a])[..|s|] == s && (marks + [mark])[..|s|] == marks;
  }

  lemma {:induction false} SelectSplits(s: seq<Arg>, marks: seq<bool>)
    requires |s| == |marks|
    ensures |Select(s, marks, true)| + |Select(s, marks, false)| == |s|
    ensures multiset(Select(s, marks, true)) + multiset(Select(s, marks, false)) == multiset(s)
  {
    if s != [] {
      var n := |s| - 1;
      SelectSplits(s[..n], marks[..n]);
      SplitsMore(Select(s[..n], marks[..n], true), Select(s[..n], marks[..n], false), s[..n], s[n]);
      assert s == s[..n] + [s[n]];
    }
  }

  lemma SplitsMore(a: seq<Arg>, b: seq<Arg>, s: seq<Arg>, x: Arg)
    requires multiset(a) + multiset(b) == multiset(s)
    ensures multiset(a + [x]) + multiset(b + []) == multiset(s + [x]) && multiset(a + []) + multiset(b + [x]) == multiset(s + [x])
  {
    assert b + [] == b && a + [] == a;
  }

  /** NONOPTION_P */
  predicate NonOption(a: Arg) {
    |a| == 0 || a[0] != '-' || |a| == 1
  }

  const DASHES: Arg := "--"

  /** Which arguments are taken, read from left to right: a non-option is left aside; an option is taken,
      and so is the element after it when that is its argument; `--` where an option could be is taken
      and ends the scan, and everything after it is left aside. */
  function Marks(s: seq<Arg>, takesArgument: Arg -> bool): (marks: seq<bool>)
    ensures |marks| == |s|
  {
    if s == [] then []
    else if NonOption(s[0]) then [false] + Marks(s[1..], takesArgument)
    else if s[0] == DASHES then [true] + Aside(|s| - 1)
    else if takesArgument(s[0]) && |s| > 1 then [true, true] + Marks(s[2..], takesArgument)
    else [true] + Marks(s[1..], takesArgument)
  }

  /** The element before is taken, and could be an option that takes this one. */
  predicate MayBeArgument(s: seq<Arg>, takesArgument: Arg -> bool, i: nat)
    requires i < |s|
  {
    i > 0 && Marks(s, takesArgument)[i - 1] && TakesNext(s[i - 1], takesArgument)
  }

  /** What is taken is an option, which has a character after its '-', or the argument of one; what is
      left aside without a `--` before it is empty, a lone '-' or does not begin with one.  An option
      that takes an argument gets the next element, and after `--` nothing is taken. */
  lemma {:induction false} MarksMean(s: seq<Arg>, takesArgument: Arg -> bool, i: nat)
    requires i < |s|
    ensures Marks(s, takesArgument)[i] ==>
      (|s[i]| >= 2 && s[i][0] == '-') || MayBeArgument(s, takesArgument, i)
    ensures !Marks(s, takesArgument)[i] ==>
      s[i] == "" || s[i] == "-" || s[i][0] != '-' || exists d :: 0 <= d < i && Marks(s, takesArgument)[d] && s[d] == "--"
    ensures Marks(s, takesArgument)[i] && TakesNext(s[i], takesArgument) && i + 1 < |s| && !MayBeArgument(s, takesArgument, i) ==>
      Marks(s, takesArgument)[i + 1]
    ensures Marks(s, takesArgument)[i] && s[i] == "--" && !MayBeArgument(s, takesArgument, i) ==>
      forall k :: i < k < |s| ==> !Marks(s, takesArgument)[k]
  {
    var marks := Marks(s, takesArgument);
    var skip := if NonOption(s[0]) || s[0] == DASHES || !takesArgument(s[0]) || |s| == 1 then 1 else 2;
    if s[0] == DASHES {
      assert marks[0] && s[0] == "--" && |s[0]| == 2 && s[0][0] == '-';
      assert marks == [true] + Aside(|s| - 1) && forall k :: 0 < k < |s| ==> !marks[k];
    } else if i >= skip {
      var rest := s[skip..];
      MarksMean(rest, takesArgument, i - skip);
      assert forall k :: skip <= k < |s| ==> marks[k] == Marks(rest, takesArgument)[k - skip] && s[k] == rest[k - skip];
      if d :| 0 <= d < i - skip && Marks(rest, takesArgument)[d] && rest[d] == "--" {
        assert marks[d + skip] && s[d + skip] == "--";
      }
    }
  }

  predicate TakesNext(a: Arg, takesArgument: Arg -> bool) {
    |a| >= 2 && a[0] == '-' && a != "--" && takesArgument(a)
  }

  function Aside(n: nat): seq<bool> {
    seq(n, _ => false)
  }

  /** The marks of a whole argument vector, whose first element is the program name */
  function AllMarks(orig: seq<Arg>, takesArgument: Arg -> bool): (marks: seq<bool>)
    requires orig != []
    ensures |marks| == |orig|
  {
    [true] + Marks(orig[1..], takesArgument)
  }

  /** The scan has come as far as `marks`, and the next element may be an option. */
  ghost predicate Scanning(orig: seq<Arg>, marks: seq<bool>, takesArgument: Arg -> bool) {
    && orig != [] && |marks| <= |orig|
    && AllMarks(orig, takesArgument) == marks + Marks(orig[|marks|..], takesArgument)
  }

  /** The scan has come as far as `marks`, after a `--`. */
  ghost predicate PastDashes(orig: seq<Arg>, marks: seq<bool>, takesArgument: Arg -> bool) {
    && orig != [] && |marks| <= |orig|
    && AllMarks(orig, takesArgument) == marks + Aside(|orig| - |marks|)
  }

  lemma LeaveMarks(orig: seq<Arg>, marks: seq<bool>, takesArgument: Arg -> bool)
    requires |marks| < |orig|
    ensures Scanning(orig, marks, takesArgument) && NonOption(orig[|marks|]) ==> Scanning(orig, marks + [false], takesArgument)
    ensures PastDashes(orig, marks, takesArgument) ==> PastDashes(orig, marks + [false], takesArgument)
  {
    var rest := orig[|marks|..];
    assert rest[0] == orig[|marks|] && rest[1..] == orig[|marks| + 1..];
    assert Aside(|rest|) == [false] + Aside(|rest| - 1);
    assert forall tail: seq<bool> :: (marks + [false]) + tail == marks + ([false] + tail);
  }

  lemma TakeMarks(orig: seq<Arg>, marks: seq<bool>, takesArgument: Arg -> bool)
    requires Scanning(orig, marks, takesArgument) && |marks| < |orig| && !NonOption(orig[|marks|])
    ensures var a, left := orig[|marks|], |orig| - |marks|;
      if a == DASHES then PastDashes(orig, marks + [true], takesArgument)
      else if takesArgument(a) && left > 1 then Scanning(orig, marks + [true] + [true], takesArgument)
      else Scanning(orig, marks + [true], takesArgument)
  {
    var rest := orig[|marks|..];
    assert rest[0] == orig[|marks|] && rest[1..] == orig[|marks| + 1..];
    assert |rest| > 1 ==> rest[2..] == orig[|marks| + 2..];
    assert forall tail: seq<bool> :: (marks + [true]) + tail == marks + ([true] + tail);
    assert forall tail: seq<bool> :: (marks + [true] + [true]) + tail == marks + ([true, true] + tail);
  }

  /** Between two calls: [0, first) holds what was taken before, [first, last) what was left aside,
      [last, optind) what was taken since, and the rest has not been touched. */
  ghost predicate Sorting(argv: seq<Arg>, first: nat, last: nat, optind: nat, orig: seq<Arg>, marks: seq<bool>) {
    && |argv| == |orig| && first <= last <= optind == |marks| <= |argv|
    && argv[..first] + argv[last..optind] == Select(orig[..optind], marks, true)
    && argv[first..last] == Select(orig[..optind], marks, false)
    && argv[optind..] == orig[optind..]
  }

  lemma Take(argv: seq<Arg>, first: nat, last: nat, optind: nat, orig: seq<Arg>, marks: seq<bool>)
    requires Sorting(argv, first, last, optind, orig, marks) && optind < |argv|
    ensures Sorting(argv, first, last, optind + 1, orig, marks + [true])
    ensures argv[optind] == orig[optind]
  {
    assert argv[optind] == argv[optind..][0] == orig[optind..][0] == orig[optind];
    assert orig[..optind + 1] == orig[..optind] + [orig[optind]];
    SelectSnoc(orig[..optind], marks, orig[optind], true, true);
    SelectSnoc(orig[..optind], marks, orig[optind], true, false);
    assert argv[last..optind + 1] == argv[last..optind] + [argv[optind]];
    assert argv[optind + 1..] == argv[optind..][1..] && orig[optind + 1..] == orig[optind..][1..];
  }

  lemma Leave(argv: seq<Arg>, first: nat, optind: nat, orig: seq<Arg>, marks: seq<bool>)
    requires Sorting(argv, first, optind, optind, orig, marks) && optind < |argv|
    ensures Sorting(argv, first, optind + 1, optind + 1, orig, marks + [false])
    ensures argv[optind] == orig[optind]
  {
    assert argv[optind] == argv[optind..][0] == orig[optind..][0] == orig[optind];
    assert orig[..optind + 1] == orig[..optind] + [orig[optind]];
    SelectSnoc(orig[..optind], marks, orig[optind], false, true);
    SelectSnoc(orig[..optind], marks, orig[optind], false, false);
    assert argv[first..optind + 1] == argv[first..optind] + [argv[optind]];
    assert argv[optind..optind] == [] && argv[optind + 1..optind + 1] == [];
    assert argv[optind + 1..] == argv[optind..][1..] && orig[optind + 1..] == orig[optind..][1..];
  }

  /** After an exchange the options come first. */
  lemma Exchanged(argv: seq<Arg>, first: nat, last: nat, optind: nat, orig: seq<Arg>, marks: seq<bool>)
    requires Sorting(argv, first, last, optind, orig, marks)
    ensures var r := argv[..first] + argv[last..optind] + argv[first..last] + argv[optind..];
      Sorting(r, first + (optind - last), optind, optind, orig, marks)
  {
    var r := argv[..first] + argv[last..optind] + argv[first..last] + argv[optind..];
    var f2 := first + (optind - last);
    assert r[..f2] == argv[..first] + argv[last..optind];
    assert r[optind..optind] == [];
    assert r[f2..optind] == argv[first..last];
    assert r[optind..] == argv[optind..];
  }

  lemma NothingAside(argv: seq<Arg>, first: nat, optind: nat, orig: seq<Arg>, marks: seq<bool>)
    requires Sorting(argv, first, first, optind, orig, marks)
    ensures Sorting(argv, optind, optind, optind, orig, marks)
  {
    assert argv[..first] + argv[first..optind] == argv[..optind];
    assert argv[first..first] == [] && argv[optind..optind] == [];
  }

  /** The scan is over: the argument vector is a stable partition of the original one by its marks, and
      optind is at the first argument that was left aside. */
  ghost predicate Partitioned(argv: seq<Arg>, optind: nat, orig: seq<Arg>, takesArgument: Arg -> bool) {
    orig != [] && var marks := AllMarks(orig, takesArgument);
    && argv == Select(orig, marks, true) + Select(orig, marks, false)
    && optind == |Select(orig, marks, true)|
  }

  lemma ScanEnds(argv: seq<Arg>, first: nat, orig: seq<Arg>, marks: seq<bool>, takesArgument: Arg -> bool)
    requires Sorting(argv, first, |argv|, |argv|, orig, marks)
    requires Scanning(orig, marks, takesArgument) || PastDashes(orig, marks, takesArgument)
    ensures Partitioned(argv, first, orig, takesArgument)
  {
    assert orig[..|argv|] == orig && orig[|argv|..] == [];
    assert AllMarks(orig, takesArgument) == marks + [] == marks;
    assert argv[..first] + argv[first..] == argv && argv[|argv|..|argv|] == [];
    assert argv[first..|argv|] == argv[first..];
  }

  class Scanner {
    const argv: array<Arg>
    var first: nat
    var last: nat
    var optind: nat
    ghost const orig: seq<Arg>
    ghost const takesArgument: Arg -> bool
    ghost var marks: seq<bool>

    ghost predicate Kept()
      reads this, argv
    {
      Sorting(argv[..], first, last, optind, orig, marks) == true && optind >= 1
    }

    /** Between two calls: what was taken and left aside so far is right. */
    ghost predicate Valid()
      reads this, argv
    {
      Kept() && Scanning(orig, marks, takesArgument) == true
    }

    constructor (argv: array<Arg>, takesArgument: Arg -> bool)
      requires argv.Length >= 1
      ensures Valid() && this.argv == argv && orig == argv[..] && optind == 1 && first == last == 1
      ensures this.takesArgument == takesArgument
    {
      this.argv, this.takesArgument := argv, takesArgument;
      first, last, optind := 1, 1, 1;
      orig := argv[..];
      marks := [true];
      new;
      assert Sorting(argv[..], 0, 0, 0, orig, []);
      Take(argv[..], 0, 0, 0, orig, []);
      assert [] + [true] == marks;
      NothingAside(argv[..], 0, 1, orig, marks);
    }

    /** exchange, with its update of the records */
    method DoExchange()
      requires Kept()
      modifies this`first, this`last, argv
      ensures Kept() && last == optind && first == old(first) + (optind - old(last))
    {
      Exchanged(argv[..], first, last, optind, orig, marks);
      Exchange(argv, first, last, optind);
      first := first + (optind - last);
      last := optind;
    }

    /** The skipping loop */
    method SkipNonOptions()
      requires Valid() && last == optind
      modifies this
      ensures Valid() && last == optind >= old(optind) && first == old(first)
      ensures optind == argv.Length || !NonOption(argv[optind])
    {
      while optind < argv.Length && NonOption(argv[optind])
        invariant Valid() && last == optind >= old(optind) && first == old(first)
        decreases argv.Length - optind
      {
        LeaveOne();
      }
    }

    /** After `--` everything is left aside. */
    method LeaveRest()
      requires Kept() && last == optind && PastDashes(orig, marks, takesArgument) == true
      modifies this
      ensures Kept() && last == optind == argv.Length && first == old(first) && PastDashes(orig, marks, takesArgument) == true
    {
      while optind < argv.Length
        invariant Kept() && last == optind && first == old(first) && PastDashes(orig, marks, takesArgument) == true
        decreases argv.Length - optind
      {
        LeaveOne();
      }
    }

    /** One more element is left aside. */
    method LeaveOne()
      requires Kept() && last == optind < argv.Length
      modifies this
      ensures Kept() && last == optind == old(optind) + 1 && first == old(first)
      ensures old(Valid()) && NonOption(argv[old(optind)]) ==> Valid()
      ensures PastDashes(orig, old(marks), takesArgument) == true ==> PastDashes(orig, marks, takesArgument) == true
    {
      Leave(argv[..], first, optind, orig, marks);
      LeaveMarks(orig, marks, takesArgument);
      marks := marks + [false];
      optind := optind + 1;
      last := optind;
    }

    /** The `--` element is taken like an option, and exchanged with what was left aside. */
    method TakeDashes()
      requires Valid() && last == optind < argv.Length && argv[optind] == DASHES
      modifies this, argv
      ensures Kept() && last == optind == argv.Length && PastDashes(orig, marks, takesArgument) == true
    {
      Take(argv[..], first, last, optind, orig, marks);
      TakeMarks(orig, marks, takesArgument);
      TakeOne();
      if first != last {
        DoExchange();
      } else {
        NothingAside(argv[..], first, optind, orig, marks);
        first, last := optind, optind;
      }
      LeaveRest();
    }

    /** The PERMUTE part of _getopt_internal: true when there is an option to decode at optind; when
        there is none the scan is over. */
    method Advance() returns (option: bool)
      requires Valid()
      modifies this, argv
      ensures option ==> Valid() && last == optind < argv.Length && !NonOption(argv[optind]) && argv[optind] != DASHES
      ensures option ==> optind >= old(optind)
      ensures !option ==> Partitioned(argv[..], optind, orig, takesArgument)
    {
      if first != last && last != optind {
        DoExchange();
      } else if last != optind {
        NothingAside(argv[..], first, optind, orig, marks);
        first, last := optind, optind;
      }
      SkipNonOptions();
      if optind != argv.Length && argv[optind] == DASHES {
        TakeDashes();
      }
      if optind == argv.Length {
        ScanEnds(argv[..], first, orig, marks, takesArgument);
        if first != last {
          optind := first;
        }
        return false;
      }
      return true;
    }

    /** Decoding takes the option, and the element after it when that is its argument. */
    method Decode(withArgument: bool)
      requires Valid() && last == optind < argv.Length && !NonOption(argv[optind]) && argv[optind] != DASHES
      requires withArgument == takesArgument(argv[optind])
      modifies this`optind, this`marks
      ensures Valid() && optind > old(optind)
    {
      Take(argv[..], first, last, optind, orig, marks);
      TakeMarks(orig, marks, takesArgument);
      TakeOne();
      if withArgument && optind < argv.Length {
        TakeOne();
      }
    }

    /** One more element is taken. */
    method TakeOne()
      requires Kept() && optind < argv.Length
      modifies this`optind, this`marks
      ensures Kept() && optind == old(optind) + 1 && marks == old(marks) + [true]
    {
      Take(argv[..], first, last, optind, orig, marks);
      marks := marks + [true];
      optind := optind + 1;
    }
  }

  /** Calling getopt until it has no more options, whichever options take an argument */
  method ScanAll(argv: array<Arg>, takesArgument: Arg -> bool) returns (optind: nat)
    requires argv.Length >= 1
    modifies argv
    ensures Partitioned(argv[..], optind, old(argv[..]), takesArgument)
  {
    var scanner := new Scanner(argv, takesArgument);
    var option := scanner.Advance();
    while option
      invariant scanner.argv == argv && scanner.orig == old(argv[..]) && fresh(scanner) && scanner.takesArgument == takesArgument
      invariant option ==> scanner.Valid() && scanner.last == scanner.optind < argv.Length
      invariant option ==> !NonOption(argv[scanner.optind]) && argv[scanner.optind] != DASHES
      invariant !option ==> Partitioned(argv[..], scanner.optind, scanner.orig, takesArgument)
      decreases option, argv.Length - scanner.optind
    {
      scanner.Decode(takesArgument(argv[scanner.optind]));
      option := scanner.Advance();
    }
    optind := scanner.optind;
  }
}
