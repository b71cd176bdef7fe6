/** src/alloc-slab.c: slabs of equal items, one to a page, with the slab's header at the end of its
    page.  The slabs of a set are on a doubly linked list; `child` is where the next item comes from. */
module AllocSlab {
  import opened Options
  import opened DoublyLinked

  // ----- Pages -----

  /** x | (page - 1), for a page size that is a power of two */
  function LastInPage(x: nat, page: nat): nat
    requires page > 0
  {
    x - x % page + page - 1
  }

  /** slab_round_up: (size + page - 1) & ~(page - 1) */
  function RoundUp(size: nat, page: nat): nat
    requires page > 0
  {
    (size + page - 1) - (size + page - 1) % page
  }

  lemma RoundUpLeast(size: nat, page: nat)
    requires page > 0
    ensures RoundUp(size, page) % page == 0 && size <= RoundUp(size, page) < size + page
  {
    var y := size + page - 1;
    assert y - y % page == page * (y / page);
    MultipleMod(y / page, page);
  }

  lemma NotSmall(page: nat, d: int)
    requires page > 0
    ensures d >= 1 ==> page * d >= page
    ensures d <= -1 ==> page * d <= 0 - page
  {
    if d >= 1 {
      assert page * d == page * (d - 1) + page && page * (d - 1) >= 0;
    } else if d <= -1 {
      assert page * d == 0 - page * (-d - 1) - page && page * (-d - 1) >= 0;
    }
  }

  /** Quotient and remainder are the only ones there are. */
  lemma DivMod(page: nat, k: nat, off: nat)
    requires off < page
    ensures (page * k + off) % page == off
  {
    var x := page * k + off;
    var q, r := x / page, x % page;
    assert x == page * q + r;
    assert page * (q - k) == page * q - page * k;
    NotSmall(page, q - k);
    assert q == k;
  }

  lemma MultipleMod(k: nat, page: nat)
    requires page > 0
    ensures (page * k) % page == 0
  {
    DivMod(page, k, 0);
  }

  /** How a set of slabs is laid out */
  datatype Layout = Layout(page: nat, header: nat, step: nat, items: nat)

  ghost predicate LayoutOk(y: Layout) {
    y.step > 0 && y.header > 0 && y.items >= 2 && y.items * y.step + y.header <= y.page
  }

  function SlotAt(y: Layout, base: nat, i: nat): nat {
    base + i * y.step
  }

  /** The addresses of the items of the slab at `base` */
  function Slots(y: Layout, base: nat): set<nat> {
    set i | 0 <= i < y.items :: SlotAt(y, base, i)
  }

  /** slab_unalloc's way from an item to the header of its slab */
  function HeaderOf(y: Layout, ptr: nat): int
    requires y.page > 0
  {
    LastInPage(ptr, y.page) + 1 - y.header
  }

  lemma Within(step: nat, i: nat, n: nat)
    requires step > 0 && i < n
    ensures i * step + step <= n * step
  {
    if n - i >= 2 {
      NotSmall(step, n - i - 1);
    }
    assert n * step == i * step + step + step * (n - i - 1);
  }

  lemma SlotInPage(y: Layout, base: nat, i: nat)
    requires LayoutOk(y) && i < y.items
    ensures base <= SlotAt(y, base, i) && SlotAt(y, base, i) + y.step <= base + y.page - y.header
  {
    Within(y.step, i, y.items);
  }

  /** Page masking of any item's address gives the header of the slab it was cut from. */
  lemma MaskingFindsSlab(y: Layout, base: nat, ptr: nat)
    requires LayoutOk(y) && base % y.page == 0 && ptr in Slots(y, base)
    ensures ptr - ptr % y.page == base && HeaderOf(y, ptr) == base + y.page - y.header
  {
    var i :| 0 <= i < y.items && ptr == SlotAt(y, base, i);
    SlotInPage(y, base, i);
    PageOf(base, ptr - base, y.page);
  }

  lemma PageOf(base: nat, off: nat, page: nat)
    requires page > 0 && base % page == 0 && off < page
    ensures (base + off) % page == off
  {
    assert base == page * (base / page);
    DivMod(page, base / page, off);
  }

  lemma SlotsDiffer(y: Layout, base: nat, i: nat, j: nat)
    requires LayoutOk(y) && i < j
    ensures SlotAt(y, base, i) < SlotAt(y, base, j)
  {
    NotSmall(y.step, j - i);
    assert y.step * (j - i) == j * y.step - i * y.step;
  }

  /** Items of one slab do not overlap. */
  lemma SlotsSpaced(y: Layout, base: nat, i: nat, j: nat)
    requires LayoutOk(y) && i < j
    ensures SlotAt(y, base, i) + y.step <= SlotAt(y, base, j)
  {
    Within(y.step, i, j);
  }

  /** Neither do items of any two slabs. */
  lemma SlotsOfPages(y: Layout, a: nat, b: nat, p: nat, q: nat)
    requires LayoutOk(y) && a % y.page == 0 && b % y.page == 0 && p in Slots(y, a) && q in Slots(y, b) && p != q
    ensures p + y.step <= q || q + y.step <= p
  {
    var i :| 0 <= i < y.items && p == SlotAt(y, a, i);
    var j :| 0 <= j < y.items && q == SlotAt(y, b, j);
    SlotInPage(y, a, i);
    SlotInPage(y, b, j);
    if a == b {
      if i < j {
        SlotsSpaced(y, a, i, j);
      } else {
        SlotsSpaced(y, a, j, i);
      }
    } else {
      PagesApart(y.page, a, b);
    }
  }

  lemma PagesApart(page: nat, a: nat, b: nat)
    requires page > 0 && a % page == 0 && b % page == 0 && a != b
    ensures a + page <= b || b + page <= a
  {
    var k, l := a / page, b / page;
    assert a == page * k && b == page * l;
    assert page * (l - k) == b - a;
    NotSmall(page, l - k);
  }

  // ----- Slabs -----

  /** `free` is the free list from its head. */
  datatype Slab = Slab(free: seq<nat>, used: nat)

  type Slabs = map<nat, Slab>

  ghost predicate SlabOk(y: Layout, base: nat, slab: Slab) {
    && y.page > 0 && base % y.page == 0 && slab.used + |slab.free| == y.items && NoDup(slab.free)
    && forall i :: 0 <= i < |slab.free| ==> slab.free[i] in Slots(y, base)
  }

  predicate Full(y: Layout, m: Slabs, b: nat) {
    b in m && m[b].used == y.items
  }

  /** Every slab before the child is full; of those after it at most the last one is; and the child
      is full only if it is the last. */
  ghost predicate Ordered(y: Layout, s: seq<nat>, m: Slabs, c: int) {
    && -1 <= c < |s| && (c == -1 ==> s == [])
    && (forall i :: 0 <= i < c ==> Full(y, m, s[i]))
    && (forall i :: c < i < |s| - 1 ==> !Full(y, m, s[i]))
    && (c >= 0 && Full(y, m, s[c]) ==> c == |s| - 1)
  }

  /** Ordered, and not even the last slab after the child is full */
  ghost predicate Strict(y: Layout, s: seq<nat>, m: Slabs, c: int) {
    Ordered(y, s, m, c) && forall i :: c < i < |s| ==> !Full(y, m, s[i])
  }

  ghost predicate SlabsOk(y: Layout, s: seq<nat>, m: Slabs) {
    NoDup(s) && forall i :: 0 <= i < |s| ==> s[i] in m && SlabOk(y, s[i], m[s[i]])
  }

  /** No slab on the list is empty. */
  ghost predicate Busy(s: seq<nat>, m: Slabs) {
    forall i :: 0 <= i < |s| ==> s[i] in m && m[s[i]].used > 0
  }

  function Used(s: seq<nat>, m: Slabs): int {
    if s == [] then 0 else Used(s[..|s| - 1], m) + if s[|s| - 1] in m then m[s[|s| - 1]].used else 0
  }

  /** The items handed out and not yet given back */
  ghost function Live(y: Layout, s: seq<nat>, m: Slabs): set<nat> {
    set i, p | 0 <= i < |s| && s[i] in m && p in Slots(y, s[i]) && p !in m[s[i]].free :: p
  }

  lemma {:induction false} UsedUpdate(s: seq<nat>, m: Slabs, i: nat, slab: Slab)
    requires NoDup(s) && i < |s| && s[i] in m
    ensures Used(s, m[s[i] := slab]) == Used(s, m) - m[s[i]].used + slab.used
  {
    var n := |s| - 1;
    if i == n {
      UsedElsewhere(s[..n], m, s[n], slab);
    } else {
      UsedUpdate(s[..n], m, i, slab);
    }
  }

  lemma {:induction false} UsedElsewhere(s: seq<nat>, m: Slabs, b: nat, slab: Slab)
    requires b !in s
    ensures Used(s, m[b := slab]) == Used(s, m)
  {
    if s != [] {
      UsedElsewhere(s[..|s| - 1], m, b, slab);
    }
  }

  lemma {:induction false} UsedWith(s: seq<nat>, m: Slabs, i: nat, b: nat)
    requires i <= |s| && b in m
    ensures Used(With(s, i, b), m) == Used(s, m) + m[b].used
  {
    var t, n := With(s, i, b), |s| - 1;
    if i == |s| {
      assert t[..|t| - 1] == s;
    } else {
      UsedWith(s[..n], m, i, b);
      assert t[..|t| - 1] == With(s[..n], i, b) && t[|t| - 1] == s[n];
    }
  }

  lemma UsedWithout(s: seq<nat>, m: Slabs, i: nat)
    requires i < |s| && s[i] in m
    ensures Used(Without(s, i), m) == Used(s, m) - m[s[i]].used
  {
    UsedWith(Without(s, i), m, i, s[i]);
    assert With(Without(s, i), i, s[i]) == s;
  }

  // ----- How the order is kept: taking, opening, giving back to a slab that is not full, and dropping
  // keep the strict order, too, so relinking is the one place where it can be lost -----

  lemma TakeOrdered(y: Layout, s: seq<nat>, m: Slabs, c: nat, slab: Slab)
    requires LayoutOk(y) && NoDup(s) && Ordered(y, s, m, c) && c < |s| && slab.used <= y.items
    ensures var m2, c2 := m[s[c] := slab], if slab.used == y.items && c < |s| - 1 then c + 1 else c;
      Ordered(y, s, m2, c2) && (Strict(y, s, m, c) ==> Strict(y, s, m2, c2))
  {
  }

  /** A new slab is made only when the child is full, hence the last. */
  lemma NewOrdered(y: Layout, s: seq<nat>, m: Slabs, c: int, b: nat, slab: Slab)
    requires LayoutOk(y) && Ordered(y, s, m, c) && b !in s && slab.used < y.items && (c >= 0 ==> Full(y, m, s[c]))
    ensures c == |s| - 1 && Ordered(y, With(s, c + 1, b), m[b := slab], c + 1) && Strict(y, With(s, c + 1, b), m[b := slab], c + 1)
  {
  }

  /** Where a full slab goes when one of its items comes back: just before the child */
  function Relinked(s: seq<nat>, c: nat, i: nat): seq<nat>
    requires c < |s| && i < |s| && i != c
  {
    With(Without(s, i), if i < c then c - 1 else c, s[i])
  }

  /** What is at each place of the list after relinking */
  lemma RelinkedAt(s: seq<nat>, c: nat, i: nat, k: nat)
    requires c < |s| && i < |s| && i != c && k < |s|
    ensures |Relinked(s, c, i)| == |s|
    ensures Relinked(s, c, i)[k] ==
      if i < c then (if k < i || k >= c then s[k] else if k == c - 1 then s[i] else s[k + 1])
      else (if k < c || k > i then s[k] else if k == c then s[i] else s[k - 1])
  {
  }

  lemma RelinkNoDup(s: seq<nat>, c: nat, i: nat)
    requires NoDup(s) && c < |s| && i < |s| && i != c
    ensures |Relinked(s, c, i)| == |s| && NoDup(Relinked(s, c, i)) && Relinked(s, c, i)[if i < c then c - 1 else c] == s[i]
  {
    var t := Relinked(s, c, i);
    forall j, k | 0 <= j < k < |t| ensures t[j] != t[k] {
      RelinkedAt(s, c, i, j);
      RelinkedAt(s, c, i, k);
    }
    RelinkedAt(s, c, i, if i < c then c - 1 else c);
  }

  lemma RelinkOrdered(y: Layout, s: seq<nat>, m: Slabs, c: nat, i: nat, slab: Slab)
    requires NoDup(s) && Ordered(y, s, m, c) && c < |s| && i < |s| && i != c && Full(y, m, s[i]) && slab.used < y.items
    ensures Ordered(y, Relinked(s, c, i), m[s[i] := slab], if i < c then c - 1 else c)
  {
    var t, m2, c2 := Relinked(s, c, i), m[s[i] := slab], if i < c then c - 1 else c;
    RelinkNoDup(s, c, i);
    assert i < c || i == |s| - 1;
    forall k: nat | k < c2 ensures Full(y, m2, t[k]) {
      RelinkedAt(s, c, i, k);
    }
    forall k: nat | c2 < k < |t| - 1 ensures !Full(y, m2, t[k]) {
      RelinkedAt(s, c, i, k);
    }
  }

  /** The stricter order survives a relinking exactly when the child is not full. */
  lemma RelinkStrict(y: Layout, s: seq<nat>, m: Slabs, c: nat, i: nat, slab: Slab)
    requires NoDup(s) && Strict(y, s, m, c) && c < |s| && i < |s| && i != c && Full(y, m, s[i]) && slab.used < y.items
    ensures Strict(y, Relinked(s, c, i), m[s[i] := slab], if i < c then c - 1 else c) <==> !Full(y, m, s[c])
  {
    RelinkOrdered(y, s, m, c, i, slab);
    var t, m2 := Relinked(s, c, i), m[s[i] := slab];
    assert i < c;
    RelinkedAt(s, c, i, c);
    if !Full(y, m, s[c]) {
      forall k: nat | c - 1 < k < |t| ensures !Full(y, m2, t[k]) {
        RelinkedAt(s, c, i, k);
      }
    }
  }

  /** Two full slabs, the second one the child: an item of the first comes back, and a full slab is
      left after the child. */
  lemma FullAfterChild()
    ensures var y, s, m := Layout(4096, 48, 2000, 2), [0, 4096], map[0 := Slab([], 2), 4096 := Slab([], 2)];
      var m2 := m[0 := Slab([0], 1)];
      Strict(y, s, m, 1) && Ordered(y, Relinked(s, 1, 0), m2, 0) && !Strict(y, Relinked(s, 1, 0), m2, 0)
  {
    var y, s, m := Layout(4096, 48, 2000, 2), [0, 4096], map[0 := Slab([], 2), 4096 := Slab([], 2)];
    assert Full(y, m, s[0]) && Full(y, m, s[1]);
    RelinkStrict(y, s, m, 1, 0, Slab([0], 1));
    RelinkOrdered(y, s, m, 1, 0, Slab([0], 1));
  }

  lemma GiveOrdered(y: Layout, s: seq<nat>, m: Slabs, c: nat, i: nat, slab: Slab)
    requires NoDup(s) && Ordered(y, s, m, c) && c < |s| && i < |s| && (i == c || !Full(y, m, s[i])) && slab.used < y.items
    ensures Ordered(y, s, m[s[i] := slab], c) && (Strict(y, s, m, c) ==> Strict(y, s, m[s[i] := slab], c))
  {
    assert i >= c;
  }

  function ChildAfterDrop(s: seq<nat>, c: nat, i: nat): int {
    if i == c && i == |s| - 1 then c - 1 else c
  }

  lemma DropOrdered(y: Layout, s: seq<nat>, m: Slabs, c: nat, i: nat)
    requires NoDup(s) && Ordered(y, s, m, c) && c < |s| && i < |s| && !Full(y, m, s[i])
    ensures Ordered(y, Without(s, i), m, ChildAfterDrop(s, c, i))
    ensures Strict(y, s, m, c) ==> Strict(y, Without(s, i), m, ChildAfterDrop(s, c, i))
  {
    assert i >= c;
    var t := Without(s, i);
    assert forall k :: 0 <= k < |t| ==> t[k] == if k < i then s[k] else s[k + 1];
  }

  // ----- Free and live items -----

  ghost function Elems(s: seq<nat>): set<nat> {
    set i | 0 <= i < |s| :: s[i]
  }

  lemma {:induction false} ElemsSize(s: seq<nat>)
    requires NoDup(s)
    ensures |Elems(s)| == |s|
  {
    if s != [] {
      var n := |s| - 1;
      ElemsSize(s[..n]);
      assert Elems(s) == Elems(s[..n]) + {s[n]};
      assert s[n] !in Elems(s[..n]);
    }
  }

  function AllSlots(y: Layout, base: nat): seq<nat> {
    seq(y.items, i requires 0 <= i < y.items => SlotAt(y, base, i))
  }

  lemma AllSlotsDiffer(y: Layout, base: nat)
    requires LayoutOk(y)
    ensures NoDup(AllSlots(y, base)) && Elems(AllSlots(y, base)) == Slots(y, base) && |Slots(y, base)| == y.items
  {
    var a := AllSlots(y, base);
    forall i, j | 0 <= i < j < |a| ensures a[i] != a[j] {
      SlotsDiffer(y, base, i, j);
    }
    forall p ensures p in Elems(a) <==> p in Slots(y, base) {
      if p in Elems(a) {
        var i :| 0 <= i < |a| && a[i] == p;
      }
      if p in Slots(y, base) {
        var i :| 0 <= i < y.items && SlotAt(y, base, i) == p;
        assert a[i] == p;
      }
    }
    ElemsSize(a);
  }

  /** The slots of a slab are its free ones and `used` live ones. */
  lemma LivePerSlab(y: Layout, base: nat, slab: Slab)
    requires LayoutOk(y) && SlabOk(y, base, slab)
    ensures Elems(slab.free) <= Slots(y, base) && |Slots(y, base) - Elems(slab.free)| == slab.used
  {
    AllSlotsDiffer(y, base);
    ElemsSize(slab.free);
    assert Elems(slab.free) + (Slots(y, base) - Elems(slab.free)) == Slots(y, base);
  }

  lemma LiveIs(y: Layout, s: seq<nat>, m: Slabs, p: nat)
    ensures p in Live(y, s, m) <==> exists i :: 0 <= i < |s| && s[i] in m && p in Slots(y, s[i]) && p !in m[s[i]].free
  {
  }

  /** Only one slab can hold an address. */
  lemma LiveAt(y: Layout, s: seq<nat>, m: Slabs, p: nat, i: nat)
    requires LayoutOk(y) && SlabsOk(y, s, m) == true && i < |s| && p in Slots(y, s[i])
    ensures p in Live(y, s, m) <==> p !in m[s[i]].free
  {
    LiveIs(y, s, m, p);
    forall j | 0 <= j < |s| && p in Slots(y, s[j]) ensures j == i {
      assert SlabOk(y, s[i], m[s[i]]) && SlabOk(y, s[j], m[s[j]]);
      MaskingFindsSlab(y, s[i], p);
      MaskingFindsSlab(y, s[j], p);
    }
  }

  /** Items that have been handed out lie before the headers of their slabs and do not overlap. */
  lemma LiveApart(y: Layout, s: seq<nat>, m: Slabs, p: nat, q: nat)
    requires LayoutOk(y) && SlabsOk(y, s, m) == true && p in Live(y, s, m) && q in Live(y, s, m)
    ensures p != q ==> p + y.step <= q || q + y.step <= p
    ensures p + y.step <= HeaderOf(y, p)
  {
    LiveIs(y, s, m, p);
    LiveIs(y, s, m, q);
    var i :| 0 <= i < |s| && s[i] in m && p in Slots(y, s[i]) && p !in m[s[i]].free;
    var j :| 0 <= j < |s| && s[j] in m && q in Slots(y, s[j]) && q !in m[s[j]].free;
    assert SlabOk(y, s[i], m[s[i]]) && SlabOk(y, s[j], m[s[j]]);
    if p != q {
      SlotsOfPages(y, s[i], s[j], p, q);
    }
    MaskingFindsSlab(y, s[i], p);
    var k :| 0 <= k < y.items && p == SlotAt(y, s[i], k);
    SlotInPage(y, s[i], k);
  }

  /** Changing one slab's free list changes only what that slab has handed out. */
  lemma LiveUpdate(y: Layout, s: seq<nat>, m: Slabs, i: nat, slab: Slab, p: nat)
    requires LayoutOk(y) && SlabsOk(y, s, m) == true && i < |s| && SlabOk(y, s[i], slab) == true
    ensures p in Live(y, s, m[s[i] := slab]) <==> if p in Slots(y, s[i]) then p !in slab.free else p in Live(y, s, m)
  {
    var m2 := m[s[i] := slab];
    assert SlabsOk(y, s, m2);
    if p in Slots(y, s[i]) {
      LiveAt(y, s, m2, p, i);
    } else {
      LiveIs(y, s, m, p);
      LiveIs(y, s, m2, p);
    }
  }

  lemma TakeLive(y: Layout, s: seq<nat>, m: Slabs, i: nat)
    requires LayoutOk(y) && SlabsOk(y, s, m) == true && i < |s| && m[s[i]].free != []
    ensures var slab := m[s[i]];
      var slab2 := Slab(slab.free[1..], slab.used + 1);
      SlabOk(y, s[i], slab2) && slab.free[0] !in Live(y, s, m) && slab.free[0] in Slots(y, s[i]) &&
      Live(y, s, m[s[i] := slab2]) == Live(y, s, m) + {slab.free[0]}
  {
    var slab := m[s[i]];
    var slab2 := Slab(slab.free[1..], slab.used + 1);
    assert SlabOk(y, s[i], slab) == true;
    TakeOk(y, s[i], slab);
    forall p ensures p in Live(y, s, m[s[i] := slab2]) <==> p in Live(y, s, m) || p == slab.free[0] {
      LiveUpdate(y, s, m, i, slab2, p);
      if p in Slots(y, s[i]) {
        LiveAt(y, s, m, p, i);
      }
    }
    LiveAt(y, s, m, slab.free[0], i);
  }

  lemma TakeOk(y: Layout, base: nat, slab: Slab)
    requires SlabOk(y, base, slab) && slab.free != []
    ensures SlabOk(y, base, Slab(slab.free[1..], slab.used + 1)) == true
    ensures forall p :: p in slab.free <==> p == slab.free[0] || p in slab.free[1..]
    ensures slab.free[0] !in slab.free[1..]
  {
  }

  lemma GiveOk(y: Layout, base: nat, slab: Slab, ptr: nat)
    requires SlabOk(y, base, slab) && ptr in Slots(y, base) && ptr !in slab.free && slab.used > 0
    ensures SlabOk(y, base, Slab([ptr] + slab.free, slab.used - 1)) == true
  {
  }

  lemma GiveLive(y: Layout, s: seq<nat>, m: Slabs, i: nat, ptr: nat)
    requires LayoutOk(y) && SlabsOk(y, s, m) == true && i < |s| && ptr in Slots(y, s[i]) && ptr !in m[s[i]].free && m[s[i]].used > 0
    ensures var slab := m[s[i]];
      var slab2 := Slab([ptr] + slab.free, slab.used - 1);
      SlabOk(y, s[i], slab2) && Live(y, s, m[s[i] := slab2]) == Live(y, s, m) - {ptr}
  {
    var slab := m[s[i]];
    var slab2 := Slab([ptr] + slab.free, slab.used - 1);
    assert SlabOk(y, s[i], slab) == true;
    GiveOk(y, s[i], slab, ptr);
    forall p ensures p in Live(y, s, m[s[i] := slab2]) <==> p in Live(y, s, m) && p != ptr {
      LiveUpdate(y, s, m, i, slab2, p);
      assert p in slab2.free <==> p == ptr || p in slab.free;
      if p in Slots(y, s[i]) {
        LiveAt(y, s, m, p, i);
      }
    }
  }

  /** The order of the list does not matter to what is live. */
  lemma LiveSame(y: Layout, s: seq<nat>, t: seq<nat>, m: Slabs)
    requires Elems(s) == Elems(t)
    ensures Live(y, s, m) == Live(y, t, m)
  {
    forall p ensures p in Live(y, s, m) <==> p in Live(y, t, m) {
      LiveIs(y, s, m, p);
      LiveIs(y, t, m, p);
      if i :| 0 <= i < |s| && s[i] in m && p in Slots(y, s[i]) && p !in m[s[i]].free {
        assert s[i] in Elems(t);
      }
      if i :| 0 <= i < |t| && t[i] in m && p in Slots(y, t[i]) && p !in m[t[i]].free {
        assert t[i] in Elems(s);
      }
    }
  }

  /** A slab with nothing handed out does not matter to what is live. */
  lemma LiveWith(y: Layout, s: seq<nat>, m: Slabs, i: nat, b: nat)
    requires LayoutOk(y) && i <= |s| && b in m && SlabOk(y, b, m[b]) && m[b].used == 0
    ensures Live(y, With(s, i, b), m) == Live(y, s, m)
  {
    var t := With(s, i, b);
    AllSlotsDiffer(y, b);
    LivePerSlab(y, b, m[b]);
    assert Slots(y, b) - Elems(m[b].free) == {};
    forall p ensures p in Live(y, t, m) <==> p in Live(y, s, m) {
      LiveIs(y, s, m, p);
      LiveIs(y, t, m, p);
      if j :| 0 <= j < |t| && t[j] in m && p in Slots(y, t[j]) && p !in m[t[j]].free {
        assert p in Elems(m[t[j]].free) <==> p in m[t[j]].free;
        assert t[j] != b;
        assert s[if j < i then j else j - 1] == t[j];
      }
      if j :| 0 <= j < |s| && s[j] in m && p in Slots(y, s[j]) && p !in m[s[j]].free {
        assert t[if j < i then j else j + 1] == s[j];
      }
    }
  }

  // ----- The slab set -----

  /** struct slabset, with the slabs on its list */
  datatype SetState = SetState(slabs: Slabs, links: Links, child: Option<nat>, nslabs: int, nallocs: int)

  /** The invariant, for the list `s` with the child at `c` */
  ghost predicate Good(y: Layout, z: SetState, s: seq<nat>, c: int) {
    && LayoutOk(y) && SlabsOk(y, s, z.slabs) && Chained(s, z.links) && Ordered(y, s, z.slabs, c)
    && z.child == At(s, c) && z.nslabs == |s| && z.nallocs == Used(s, z.slabs)
  }

  lemma FullIsOut(y: Layout, z: SetState, s: seq<nat>, c: int, i: nat)
    requires Good(y, z, s, c) == true && i < |s|
    ensures s[i] in z.slabs && (Full(y, z.slabs, s[i]) <==> z.slabs[s[i]].free == [])
  {
    assert SlabOk(y, s[i], z.slabs[s[i]]);
  }

  function Taken(y: Layout, z: SetState): SetState
    requires z.child.Some? && z.child.value in z.slabs && z.slabs[z.child.value].free != [] && z.child.value in z.links.next
  {
    var b := z.child.value;
    var slab := Slab(z.slabs[b].free[1..], z.slabs[b].used + 1);
    var next := z.links.next[b];
    z.(slabs := z.slabs[b := slab], nallocs := z.nallocs + 1,
       child := if slab.used == y.items && next.Some? then next else z.child)
  }

  lemma TakenGood(y: Layout, z: SetState, s: seq<nat>, c: nat)
    requires Good(y, z, s, c) == true && c < |s| && z.slabs[s[c]].free != []
    ensures z.child == Some(s[c]) && s[c] in z.links.next
    ensures var z2 := Taken(y, z);
      Good(y, z2, s, if z2.slabs[s[c]].used == y.items && c < |s| - 1 then c + 1 else c) == true
    ensures Live(y, s, Taken(y, z).slabs) == Live(y, s, z.slabs) + {z.slabs[s[c]].free[0]}
    ensures z.slabs[s[c]].free[0] !in Live(y, s, z.slabs) && z.slabs[s[c]].free[0] in Slots(y, s[c])
  {
    var slab := z.slabs[s[c]];
    var slab2 := Slab(slab.free[1..], slab.used + 1);
    assert SlabOk(y, s[c], slab) && Linked(s, z.links, c);
    TakeLive(y, s, z.slabs, c);
    TakeOrdered(y, s, z.slabs, c, slab2);
    UsedUpdate(s, z.slabs, c, slab2);
  }

  function Opened(z: SetState, b: nat, free: seq<nat>): SetState
    requires z.child.Some? ==> z.child.value in z.links.next
  {
    SetState(z.slabs[b := Slab(free, 0)], LinkAfter(z.links, b, z.child), Some(b), z.nslabs + 1, z.nallocs)
  }

  lemma OpenedGood(y: Layout, z: SetState, s: seq<nat>, c: int, b: nat)
    requires Good(y, z, s, c) == true && b !in s && b % y.page == 0 && (c >= 0 ==> Full(y, z.slabs, s[c]))
    ensures z.child.Some? ==> z.child.value in z.links.next
    ensures Good(y, Opened(z, b, AllSlots(y, b)), With(s, c + 1, b), c + 1) == true
    ensures Live(y, With(s, c + 1, b), Opened(z, b, AllSlots(y, b)).slabs) == Live(y, s, z.slabs)
  {
    if c >= 0 {
      assert Linked(s, z.links, c);
    }
    var slab := Slab(AllSlots(y, b), 0);
    var m2, t := z.slabs[b := slab], With(s, c + 1, b);
    AllSlotsDiffer(y, b);
    forall i | 0 <= i < |slab.free| ensures slab.free[i] in Slots(y, b) {
      assert slab.free[i] in Elems(slab.free);
    }
    assert SlabOk(y, b, slab);
    NewOrdered(y, s, z.slabs, c, b, slab);
    LinkAfterChained(s, z.links, c, b);
    UsedElsewhere(s, z.slabs, b, slab);
    UsedWith(s, m2, c + 1, b);
    LiveWith(y, s, m2, c + 1, b);
    LiveOther(y, s, z.slabs, b, slab);
    OpenedSlabs(y, s, z.slabs, c, b, slab);
  }

  lemma OpenedSlabs(y: Layout, s: seq<nat>, m: Slabs, c: int, b: nat, slab: Slab)
    requires SlabsOk(y, s, m) && b !in s && -1 <= c < |s| && SlabOk(y, b, slab)
    ensures SlabsOk(y, With(s, c + 1, b), m[b := slab])
  {
    var t := With(s, c + 1, b);
    assert forall i :: 0 <= i < |t| ==> t[i] == if i <= c then s[i] else if i == c + 1 then b else s[i - 1];
  }

  lemma LiveOther(y: Layout, s: seq<nat>, m: Slabs, b: nat, slab: Slab)
    requires b !in s
    ensures Live(y, s, m[b := slab]) == Live(y, s, m)
  {
    forall p ensures p in Live(y, s, m[b := slab]) <==> p in Live(y, s, m) {
      LiveIs(y, s, m, p);
      LiveIs(y, s, m[b := slab], p);
    }
  }

  /** The item goes to the head of its slab's free list. */
  function Given(z: SetState, b: nat, ptr: nat): SetState
    requires b in z.slabs && z.slabs[b].used > 0
  {
    z.(slabs := z.slabs[b := Slab([ptr] + z.slabs[b].free, z.slabs[b].used - 1)], nallocs := z.nallocs - 1)
  }

  ghost predicate Gives(y: Layout, z: SetState, s: seq<nat>, c: int, i: int, ptr: nat) {
    && Good(y, z, s, c) && 0 <= i < |s| && c >= 0
    && ptr in Slots(y, s[i]) && ptr !in z.slabs[s[i]].free && z.slabs[s[i]].used > 0
  }

  lemma GivenParts(y: Layout, z: SetState, s: seq<nat>, c: nat, i: nat, ptr: nat)
    requires Gives(y, z, s, c, i, ptr) == true
    ensures var z2 := Given(z, s[i], ptr);
      SlabsOk(y, s, z2.slabs) && z2.nallocs == Used(s, z2.slabs) && Live(y, s, z2.slabs) == Live(y, s, z.slabs) - {ptr} &&
      z2.slabs[s[i]].used < y.items
  {
    GiveLive(y, s, z.slabs, i, ptr);
    UsedUpdate(s, z.slabs, i, Given(z, s[i], ptr).slabs[s[i]]);
    assert SlabOk(y, s[i], z.slabs[s[i]]);
  }

  /** Neither full elsewhere than at the child, nor empty now: the list stays. */
  lemma GivenGood(y: Layout, z: SetState, s: seq<nat>, c: nat, i: nat, ptr: nat)
    requires Gives(y, z, s, c, i, ptr) == true && (i == c || !Full(y, z.slabs, s[i]))
    ensures Good(y, Given(z, s[i], ptr), s, c) == true && Live(y, s, Given(z, s[i], ptr).slabs) == Live(y, s, z.slabs) - {ptr}
  {
    GivenParts(y, z, s, c, i, ptr);
    GiveOrdered(y, s, z.slabs, c, i, Given(z, s[i], ptr).slabs[s[i]]);
  }

  /** The slab becomes the first child. */
  function Moved(z: SetState, b: nat): SetState
    requires z.child.Some? && z.child.value != b && b in z.links.prev && b in z.links.next && z.child.value in Unlink(z.links, b).prev
  {
    z.(links := LinkBefore(Unlink(z.links, b), b, z.child.value), child := Some(b))
  }

  lemma MovedLinks(s: seq<nat>, k: Links, c: nat, i: nat)
    requires Chained(s, k) && c < |s| && i < |s| && i != c
    ensures s[i] in k.prev && s[i] in k.next && s[c] in Unlink(k, s[i]).prev
    ensures Chained(Relinked(s, c, i), LinkBefore(Unlink(k, s[i]), s[i], s[c]))
  {
    UnlinkChained(s, k, i);
    var t := Without(s, i);
    var c2 := if i < c then c - 1 else c;
    assert t[c2] == s[c];
    assert s[i] !in t;
    LinkBeforeChained(t, Unlink(k, s[i]), c2, s[i]);
  }

  lemma RelinkedElems(s: seq<nat>, c: nat, i: nat)
    requires NoDup(s) && c < |s| && i < |s| && i != c
    ensures Elems(Relinked(s, c, i)) == Elems(s)
  {
    var t := Relinked(s, c, i);
    assert t == With(Without(s, i), if i < c then c - 1 else c, s[i]);
    forall x ensures x in Elems(t) <==> x in Elems(s) {
      assert x in t <==> x in Without(s, i) || x == s[i];
      assert x in s <==> x in Without(s, i) || x == s[i];
    }
  }

  lemma MovedGood(y: Layout, z: SetState, s: seq<nat>, c: nat, i: nat, ptr: nat)
    requires Gives(y, z, s, c, i, ptr) == true && i != c && Full(y, z.slabs, s[i])
    ensures z.child == Some(s[c]) && s[c] != s[i] && s[i] in z.links.prev && s[i] in z.links.next && s[c] in Unlink(z.links, s[i]).prev
    ensures var t, c2 := Relinked(s, c, i), if i < c then c - 1 else c;
      var z2 := Moved(Given(z, s[i], ptr), s[i]);
      Good(y, z2, t, c2) == true && Live(y, t, z2.slabs) == Live(y, s, z.slabs) - {ptr}
  {
    var t, c2 := Relinked(s, c, i), if i < c then c - 1 else c;
    var z1 := Given(z, s[i], ptr);
    GivenParts(y, z, s, c, i, ptr);
    MovedLinks(s, z.links, c, i);
    RelinkNoDup(s, c, i);
    RelinkOrdered(y, s, z.slabs, c, i, z1.slabs[s[i]]);
    RelinkedElems(s, c, i);
    LiveSame(y, s, t, z1.slabs);
    SlabsReordered(y, s, t, z1.slabs);
    UsedWithout(s, z1.slabs, i);
    UsedWith(Without(s, i), z1.slabs, c2, s[i]);
  }

  lemma SlabsReordered(y: Layout, s: seq<nat>, t: seq<nat>, m: Slabs)
    requires SlabsOk(y, s, m) && NoDup(t) && Elems(t) <= Elems(s)
    ensures SlabsOk(y, t, m)
  {
    forall i | 0 <= i < |t| ensures t[i] in m && SlabOk(y, t[i], m[t[i]]) {
      assert t[i] in Elems(t);
    }
  }

  /** The slab leaves the list; if it was the child, the next one takes its place, or the one before. */
  function Dropped(z: SetState, b: nat): SetState
    requires b in z.links.prev && b in z.links.next
  {
    z.(links := Unlink(z.links, b), nslabs := z.nslabs - 1,
       child := if z.child != Some(b) then z.child else if z.links.next[b].Some? then z.links.next[b] else z.links.prev[b])
  }

  lemma DroppedChild(s: seq<nat>, k: Links, c: nat, i: nat)
    requires NoDup(s) && c < |s| && i < |s| && Linked(s, k, i)
    ensures At(Without(s, i), ChildAfterDrop(s, c, i)) ==
      if i != c && c > i then At(s, c + 1) else if i != c then Some(s[c]) else if k.next[s[i]].Some? then k.next[s[i]] else k.prev[s[i]]
  {
    var t := Without(s, i);
    assert forall j :: 0 <= j < |t| ==> t[j] == if j < i then s[j] else s[j + 1];
  }

  lemma DroppedElems(s: seq<nat>, i: nat)
    requires NoDup(s) && i < |s|
    ensures NoDup(Without(s, i)) && Elems(Without(s, i)) <= Elems(s) && s[i] !in Without(s, i)
  {
    var t := Without(s, i);
    assert forall j :: 0 <= j < |t| ==> t[j] == if j < i then s[j] else s[j + 1];
  }

  lemma DroppedGood(y: Layout, z: SetState, s: seq<nat>, c: nat, i: nat)
    requires Good(y, z, s, c) == true && c < |s| && i < |s| && z.slabs[s[i]].used == 0
    ensures s[i] in z.links.prev && s[i] in z.links.next && i >= c
    ensures var t := Without(s, i);
      Good(y, Dropped(z, s[i]), t, ChildAfterDrop(s, c, i)) == true && Live(y, t, z.slabs) == Live(y, s, z.slabs)
  {
    var t := Without(s, i);
    assert Linked(s, z.links, i);
    UnlinkChained(s, z.links, i);
    assert SlabOk(y, s[i], z.slabs[s[i]]);
    assert !Full(y, z.slabs, s[i]);
    DropOrdered(y, s, z.slabs, c, i);
    DroppedChild(s, z.links, c, i);
    DroppedElems(s, i);
    SlabsReordered(y, s, t, z.slabs);
    UsedWithout(s, z.slabs, i);
    assert With(t, i, s[i]) == s;
    LiveWith(y, t, z.slabs, i, s[i]);
  }

  // ----- Allocating and giving back -----

  /** Pages that are neither on the list nor fresh wait in `reserve`; pages from `mapped` on are
      fresh. */
  ghost predicate PagesOk(y: Layout, s: seq<nat>, reserve: seq<nat>, mapped: nat) {
    && y.page > 0 && mapped % y.page == 0 && NoDup(reserve)
    && (forall i :: 0 <= i < |s| ==> s[i] < mapped)
    && (forall i :: 0 <= i < |reserve| ==> reserve[i] < mapped && reserve[i] % y.page == 0 && reserve[i] !in s)
  }

  ghost predicate BusyBut(s: seq<nat>, m: Slabs, c: int) {
    forall i :: 0 <= i < |s| && i != c ==> s[i] in m && m[s[i]].used > 0
  }

  lemma AllBusy(s: seq<nat>, m: Slabs, c: int)
    requires Busy(s, m) == true
    ensures BusyBut(s, m, c) == true
  {
  }

  lemma ChildIs(y: Layout, z: SetState, s: seq<nat>, c: int)
    requires Good(y, z, s, c) == true
    ensures if c == -1 then z.child == None && s == [] else 0 <= c < |s| && z.child == Some(s[c]) && s[c] in z.slabs
    ensures c >= 0 ==> (Full(y, z.slabs, s[c]) <==> z.slabs[s[c]].free == [])
  {
    if c >= 0 {
      FullIsOut(y, z, s, c, c);
    }
  }

  lemma ItemsFit(room: nat, step: nat)
    requires step > 0 && 2 * step <= room
    ensures room / step >= 2 && (room / step) * step <= room
  {
    var q := room / step;
    assert room == step * q + room % step;
    NotSmall(step, 2 - q);
    assert step * (2 - q) == 2 * step - step * q;
  }

  lemma NextPage(b: nat, page: nat)
    requires page > 0 && b % page == 0
    ensures (b + page) % page == 0
  {
    var k := b / page;
    assert b == page * k;
    assert b + page == page * (k + 1);
    MultipleMod(k + 1, page);
  }

  lemma OpenedBusy(s: seq<nat>, m: Slabs, c: int, b: nat, slab: Slab)
    requires Busy(s, m) == true && b !in s && -1 <= c < |s|
    ensures BusyBut(With(s, c + 1, b), m[b := slab], c + 1) == true
  {
    var t := With(s, c + 1, b);
    assert forall i :: 0 <= i < |t| ==> t[i] == if i <= c then s[i] else if i == c + 1 then b else s[i - 1];
  }

  lemma OpenedPages(y: Layout, s: seq<nat>, reserve: seq<nat>, mapped: nat, c: int, b: nat)
    requires PagesOk(y, s, reserve, mapped) == true && b < mapped && b !in reserve && -1 <= c < |s|
    ensures PagesOk(y, With(s, c + 1, b), reserve, mapped) == true
  {
    var t := With(s, c + 1, b);
    assert forall i :: 0 <= i < |t| ==> t[i] == if i <= c then s[i] else if i == c + 1 then b else s[i - 1];
    assert forall x :: x in t ==> x in s || x == b;
  }

  lemma TakenBusy(s: seq<nat>, m: Slabs, c: nat, slab: Slab)
    requires BusyBut(s, m, c) == true && c < |s| && slab.used > 0
    ensures Busy(s, m[s[c] := slab]) == true
  {
  }

  lemma GivenBusy(s: seq<nat>, m: Slabs, i: nat, slab: Slab)
    requires Busy(s, m) == true && i < |s| && slab.used > 0
    ensures Busy(s, m[s[i] := slab]) == true
  {
  }

  lemma DroppedBusy(s: seq<nat>, m: Slabs, i: nat, slab: Slab)
    requires NoDup(s) && Busy(s, m) == true && i < |s|
    ensures Busy(Without(s, i), m[s[i] := slab]) == true
  {
    var t := Without(s, i);
    assert forall j :: 0 <= j < |t| ==> t[j] == if j < i then s[j] else s[j + 1];
  }

  lemma DroppedPages(y: Layout, s: seq<nat>, reserve: seq<nat>, mapped: nat, i: nat, m: Slabs)
    requires PagesOk(y, s, reserve, mapped) == true && SlabsOk(y, s, m) && i < |s|
    ensures PagesOk(y, Without(s, i), reserve + [s[i]], mapped) == true
  {
    assert SlabOk(y, s[i], m[s[i]]);
    DroppedElems(s, i);
    var t, r := Without(s, i), reserve + [s[i]];
    assert forall x :: x in t ==> x in s;
    assert forall j :: 0 <= j < |reserve| ==> reserve[j] != s[i];
  }

  lemma MovedBusy(s: seq<nat>, m: Slabs, c: nat, i: nat, slab: Slab)
    requires NoDup(s) && Busy(s, m) == true && c < |s| && i < |s| && i != c && slab.used > 0
    ensures Busy(Relinked(s, c, i), m[s[i] := slab]) == true
  {
    var t := Relinked(s, c, i);
    forall k: nat | k < |t| ensures t[k] in m[s[i] := slab] && m[s[i] := slab][t[k]].used > 0 {
      RelinkedAt(s, c, i, k);
    }
  }

  lemma MovedPages(y: Layout, s: seq<nat>, reserve: seq<nat>, mapped: nat, c: nat, i: nat)
    requires PagesOk(y, s, reserve, mapped) == true && NoDup(s) && c < |s| && i < |s| && i != c
    ensures PagesOk(y, Relinked(s, c, i), reserve, mapped) == true
  {
    var t := Relinked(s, c, i);
    forall k: nat | k < |t| ensures t[k] in s {
      RelinkedAt(s, c, i, k);
    }
  }

  /** The slab that masking leads to, and its place on the list */
  lemma SlabOfLive(y: Layout, z: SetState, s: seq<nat>, c: int, ptr: nat) returns (i: int)
    requires Good(y, z, s, c) == true && Busy(s, z.slabs) == true && ptr in Live(y, s, z.slabs)
    ensures Gives(y, z, s, c, i, ptr) == true && HeaderOf(y, ptr) + y.header - y.page == s[i]
  {
    LiveIs(y, s, z.slabs, ptr);
    i :| 0 <= i < |s| && s[i] in z.slabs && ptr in Slots(y, s[i]) && ptr !in z.slabs[s[i]].free;
    assert SlabOk(y, s[i], z.slabs[s[i]]);
    MaskingFindsSlab(y, s[i], ptr);
  }

  class SlabSet {
    const y: Layout
    var z: SetState
    var reserve: seq<nat>
    var mapped: nat
    ghost var list: seq<nat>
    ghost var c: int

    ghost predicate Valid()
      reads this
    {
      Good(y, z, list, c) == true && Busy(list, z.slabs) == true && PagesOk(y, list, reserve, mapped) == true
    }

    /** The items handed out */
    ghost function Out(): set<nat>
      reads this
    {
      Live(y, list, z.slabs)
    }

    /** slabset_create */
    constructor (page: nat, header: nat, size: nat, grain: nat)
      requires grain > 0 && header > 0 && page > header
      requires var step := RoundUp(if size < 2 * grain then 2 * grain else size, grain);
        2 * step + header <= page
      ensures y == Layout(page, header, RoundUp(if size < 2 * grain then 2 * grain else size, grain), y.items)
      ensures y.items == (page - header) / y.step && size <= y.step && y.step % grain == 0
      ensures Valid() && Out() == {}
    {
      var step := RoundUp(if size < 2 * grain then 2 * grain else size, grain);
      RoundUpLeast(if size < 2 * grain then 2 * grain else size, grain);
      ItemsFit(page - header, step);
      y := Layout(page, header, step, (page - header) / step);
      z := SetState(map[], Links(map[], map[]), None, 0, 0);
      reserve := [];
      mapped := 0;
      list := [];
      c := -1;
    }

    /** The child has a free item; it may be a new slab. */
    ghost predicate CanTake()
      reads this
    {
      && Good(y, z, list, c) == true && BusyBut(list, z.slabs, c) == true && PagesOk(y, list, reserve, mapped) == true
      && 0 <= c < |list| && list[c] in z.slabs && z.slabs[list[c]].free != []
    }

    method PageToUse() returns (b: nat)
      requires Valid()
      modifies this`reserve, this`mapped
      ensures y.page > 0 && b % y.page == 0 && b !in list && PagesOk(y, list, reserve, mapped) == true
      ensures b < mapped && b !in reserve
    {
      if reserve != [] {
        b := reserve[0];
        reserve := reserve[1..];
      } else {
        b := mapped;
        mapped := mapped + y.page;
        PageOf(b, 0, y.page);
        NextPage(b, y.page);
      }
    }

    /** The first half of slab_alloc: a new slab after the child, which becomes the child */
    method NewSlab()
      requires Valid() && (c >= 0 ==> Full(y, z.slabs, list[c]))
      modifies this
      ensures CanTake() && Out() == old(Out()) && z.nallocs == old(z.nallocs)
    {
      var b := PageToUse();
      OpenedGood(y, z, list, c, b);
      OpenedBusy(list, z.slabs, c, b, Slab(AllSlots(y, b), 0));
      OpenedPages(y, list, reserve, mapped, c, b);
      z := Opened(z, b, AllSlots(y, b));
      list := With(list, c + 1, b);
      c := c + 1;
    }

    /** slab_alloc: an address that is not out, and is now; the item overlaps no other and no header. */
    method Alloc() returns (ptr: nat)
      requires Valid()
      modifies this
      ensures Valid() && ptr !in old(Out()) && Out() == old(Out()) + {ptr}
      ensures z.nallocs == old(z.nallocs) + 1
      ensures exists i :: 0 <= i < |list| && ptr in Slots(y, list[i])
      ensures forall q :: q in old(Out()) ==> ptr + y.step <= q || q + y.step <= ptr
      ensures ptr + y.step <= HeaderOf(y, ptr)
    {
      ghost var out := Out();
      ChildIs(y, z, list, c);
      if z.child == None || z.slabs[z.child.value].free == [] {
        NewSlab();
      } else {
        AllBusy(list, z.slabs, c);
      }
      ptr := TakeItem();
      forall q | q in out ensures ptr + y.step <= q || q + y.step <= ptr {
        LiveApart(y, list, z.slabs, ptr, q);
      }
      LiveApart(y, list, z.slabs, ptr, ptr);
    }

    method TakeItem() returns (ptr: nat)
      requires CanTake()
      modifies this`z, this`c
      ensures Valid() && ptr !in old(Out()) && Out() == old(Out()) + {ptr} && z.nallocs == old(z.nallocs) + 1
      ensures exists i :: 0 <= i < |list| && ptr in Slots(y, list[i])
    {
      TakenGood(y, z, list, c);
      ptr := z.slabs[z.child.value].free[0];
      assert ptr in Slots(y, list[c]);
      TakenBusy(list, z.slabs, c, Taken(y, z).slabs[list[c]]);
      z := Taken(y, z);
      c := if z.slabs[list[c]].used == y.items && c < |list| - 1 then c + 1 else c;
    }

    /** slab_unalloc finds the slab by masking the address. */
    method Unalloc(ptr: nat)
      requires Valid() && ptr in Out()
      modifies this
      ensures Valid() && Out() == old(Out()) - {ptr} && z.nallocs == old(z.nallocs) - 1
    {
      var b := HeaderOf(y, ptr) + y.header - y.page;
      ghost var i := SlabOfLive(y, z, list, c, ptr);
      if z.slabs[b].used == y.items && z.child != Some(b) {
        GiveToFull(b, i, ptr);
      } else {
        GiveToOther(b, i, ptr);
      }
    }

    method GiveToFull(b: nat, ghost i: int, ptr: nat)
      requires Valid() && Gives(y, z, list, c, i, ptr) == true && b == list[i] && Full(y, z.slabs, b) && i != c
      modifies this
      ensures Valid() && Out() == old(Out()) - {ptr} && z.nallocs == old(z.nallocs) - 1
    {
      MovedGood(y, z, list, c, i, ptr);
      MovedBusy(list, z.slabs, c, i, Given(z, b, ptr).slabs[b]);
      MovedPages(y, list, reserve, mapped, c, i);
      z := Moved(Given(z, b, ptr), b);
      list, c := Relinked(list, c, i), if i < c then c - 1 else c;
    }

    method GiveToOther(b: nat, ghost i: int, ptr: nat)
      requires Valid() && Gives(y, z, list, c, i, ptr) == true && b == list[i] && (i == c || !Full(y, z.slabs, b))
      modifies this
      ensures Valid() && Out() == old(Out()) - {ptr} && z.nallocs == old(z.nallocs) - 1
    {
      GivenGood(y, z, list, c, i, ptr);
      var z1 := Given(z, b, ptr);
      if z1.slabs[b].used == 0 {
        DroppedGood(y, z1, list, c, i);
        DroppedBusy(list, z.slabs, i, z1.slabs[b]);
        DroppedPages(y, list, reserve, mapped, i, z.slabs);
        z := Dropped(z1, b);
        c := ChildAfterDrop(list, c, i);
        list := Without(list, i);
        reserve := reserve + [b];
      } else {
        GivenBusy(list, z.slabs, i, z1.slabs[b]);
        z := z1;
      }
    }
  }
}
