/** Supersets (rx/rxsuper.c): hash-consed, reference counted lists of states, so that equal state
    sets are one superset. */
module RxSuperset {
  import opened RxEclose

  /** The list built by rx_superstate_eclosure_union */
  function Merge(s: seq<nat>, ecl: seq<nat>): seq<nat>
    decreases |s| + |ecl|
  {
    if ecl == [] then s
    else if s == [] then [ecl[0]] + Merge(s, ecl[1..])
    else if s[0] == ecl[0] then Merge(s, ecl[1..])
    else if s[0] < ecl[0] then [s[0]] + Merge(s[1..], ecl)
    else [ecl[0]] + Merge(s, ecl[1..])
  }

  /** The union of two sorted sets, sorted. */
  lemma {:induction false} MergeIsUnion(s: seq<nat>, ecl: seq<nat>)
    requires Sorted(s) && Sorted(ecl)
    ensures Sorted(Merge(s, ecl)) && Elems(Merge(s, ecl)) == Elems(s) + Elems(ecl)
    decreases |s| + |ecl|
  {
    if ecl != [] {
      SortedTail(ecl);
      if s == [] {
        MergeIsUnion(s, ecl[1..]);
        MergeCons(ecl[0], s, ecl[1..]);
      } else {
        SortedTail(s);
        if s[0] == ecl[0] {
          MergeIsUnion(s, ecl[1..]);
        } else if s[0] < ecl[0] {
          MergeIsUnion(s[1..], ecl);
          MergeCons(s[0], s[1..], ecl);
        } else {
          MergeIsUnion(s, ecl[1..]);
          MergeCons(ecl[0], s, ecl[1..]);
        }
      }
    }
  }

  lemma MergeCons(x: nat, s: seq<nat>, ecl: seq<nat>)
    requires Sorted(Merge(s, ecl)) && Elems(Merge(s, ecl)) == Elems(s) + Elems(ecl)
    requires (forall y :: y in s ==> x < y) && (forall y :: y in ecl ==> x < y)
    ensures Sorted([x] + Merge(s, ecl)) && Elems([x] + Merge(s, ecl)) == {x} + Elems(s) + Elems(ecl)
  {
    forall y | y in Merge(s, ecl) ensures x < y {
      assert y in Elems(Merge(s, ecl));
    }
    SortedCons(x, Merge(s, ecl));
  }

  datatype Cell = Cell(car: nat, cdr: nat)

  predicate Live(cells: map<nat, Cell>, id: nat) {
    id == 0 || id in cells
  }

  /** Cells point to older live cells; address 0 is the empty superset. */
  predicate Linked(cells: map<nat, Cell>) {
    forall id :: id in cells ==> 0 < id && cells[id].cdr < id && Live(cells, cells[id].cdr)
  }

  /** The states a superset holds */
  ghost function List(cells: map<nat, Cell>, id: nat): seq<nat>
    requires Linked(cells) && Live(cells, id)
    decreases id
  {
    if id == 0 then [] else [cells[id].car] + List(cells, cells[id].cdr)
  }

  lemma {:induction false} ListFrame(c1: map<nat, Cell>, c2: map<nat, Cell>, id: nat)
    requires Linked(c1) && Linked(c2) && Live(c1, id) && Live(c2, id)
    requires forall x :: x in c1 && x in c2 ==> c1[x] == c2[x]
    ensures List(c1, id) == List(c2, id)
    decreases id
  {
    if id != 0 {
      ListFrame(c1, c2, c1[id].cdr);
    }
  }

  ghost function Users(cells: map<nat, Cell>, id: nat): set<nat> {
    set x | x in cells && cells[x].cdr == id
  }

  /** The table indexes exactly the live cells by their parts. */
  ghost predicate Indexed(cells: map<nat, Cell>, table: map<Cell, nat>) {
    && (forall id :: id in cells ==> cells[id] in table && table[cells[id]] == id)
    && (forall k :: k in table ==> table[k] in cells && cells[table[k]] == k)
  }

  /** Equal lists are the same superset. */
  lemma {:induction false} Canonical(cells: map<nat, Cell>, table: map<Cell, nat>, a: nat, b: nat)
    requires Linked(cells) && Indexed(cells, table) && Live(cells, a) && Live(cells, b)
    requires List(cells, a) == List(cells, b)
    ensures a == b
    decreases a
  {
    if a != 0 && b != 0 {
      assert List(cells, a)[1..] == List(cells, cells[a].cdr) && List(cells, b)[1..] == List(cells, cells[b].cdr);
      assert List(cells, a)[0] == cells[a].car && List(cells, b)[0] == cells[b].car;
      Canonical(cells, table, cells[a].cdr, cells[b].cdr);
    }
  }

  /** Equal sets of states are the same superset. */
  lemma SetsAreCanonical(cells: map<nat, Cell>, table: map<Cell, nat>, a: nat, b: nat)
    requires Linked(cells) && Indexed(cells, table) && Live(cells, a) && Live(cells, b)
    requires Sorted(List(cells, a)) && Sorted(List(cells, b))
    ensures Elems(List(cells, a)) == Elems(List(cells, b)) <==> a == b
  {
    if Elems(List(cells, a)) == Elems(List(cells, b)) {
      SortedUnique(List(cells, a), List(cells, b));
      Canonical(cells, table, a, b);
    }
  }

  lemma AddUser(cells: map<nat, Cell>, id: nat, cell: Cell)
    requires id !in cells
    ensures Users(cells[id := cell], cell.cdr) == Users(cells, cell.cdr) + {id}
    ensures forall x: nat :: x != cell.cdr ==> Users(cells[id := cell], x) == Users(cells, x)
  {
  }

  lemma DropUser(cells: map<nat, Cell>, id: nat)
    requires id in cells
    ensures Users(cells - {id}, cells[id].cdr) == Users(cells, cells[id].cdr) - {id}
    ensures id in Users(cells, cells[id].cdr)
    ensures forall x: nat :: x != cells[id].cdr ==> Users(cells - {id}, x) == Users(cells, x)
  {
  }

  ghost predicate Counted(cells: map<nat, Cell>, refs: map<nat, int>) {
    refs.Keys == cells.Keys && forall id :: id in cells ==> refs[id] >= |Users(cells, id)|
  }

  lemma NewCellIndexed(cells: map<nat, Cell>, table: map<Cell, nat>, id: nat, cell: Cell)
    requires Linked(cells) && Indexed(cells, table) && id !in cells && cell !in table
    requires cell.cdr < id && Live(cells, cell.cdr)
    ensures Linked(cells[id := cell]) && Indexed(cells[id := cell], table[cell := id])
  {
  }

  lemma NewCellCounted(cells: map<nat, Cell>, refs: map<nat, int>, id: nat, cell: Cell)
    requires Linked(cells) && id !in cells && id != 0 && refs.Keys == cells.Keys
    requires forall x :: x in cells ==> refs[x] >= |Users(cells, x)| + if x == cell.cdr then 1 else 0
    requires cell.cdr != id
    ensures Counted(cells[id := cell], refs[id := 0])
  {
    AddUser(cells, id, cell);
    assert Users(cells, id) == {};
  }

  lemma GoneCell(cells: map<nat, Cell>, refs: map<nat, int>, table: map<Cell, nat>, id: nat)
    requires Linked(cells) && Indexed(cells, table) && Counted(cells, refs)
    requires id in cells && Users(cells, id) == {}
    ensures var c2, r2 := cells - {id}, refs - {id};
      Linked(c2) && Indexed(c2, table - {cells[id]}) && Counted(c2, r2) &&
      (cells[id].cdr != 0 ==> r2[cells[id].cdr] > |Users(c2, cells[id].cdr)|)
  {
    DropUser(cells, id);
    var c2 := cells - {id};
    forall x | x in c2 ensures Live(c2, c2[x].cdr) {
      assert c2[x].cdr == id ==> x in Users(cells, id);
    }
  }

  /** The superset table.  Cell addresses are numbers given out in increasing order. */
  datatype Table = Table(cells: map<nat, Cell>, refs: map<nat, int>, index: map<Cell, nat>, next: nat) {
    /** A cell is referenced at least as often as other cells point to it. */
    ghost predicate Valid() {
      && next > 0
      && (forall id :: id in cells ==> id < next)
      && Linked(cells)
      && Indexed(cells, index)
      && Counted(cells, refs)
    }

    /** rx_protect_superset; the count of the empty superset is not used */
    function Protect(id: nat): Table
      requires id == 0 || id in refs
    {
      if id == 0 then this else this.(refs := refs[id := refs[id] + 1])
    }

    /** superset_allocator */
    function AddCell(cell: Cell): Table
      requires cell.cdr == 0 || cell.cdr in refs
    {
      Table(cells[next := cell], Protect(cell.cdr).refs[next := 0], index[cell := next], next + 1)
    }

    function DropCell(id: nat): Table
      requires id in cells
    {
      Table(cells - {id}, refs - {id}, index - {cells[id]}, next)
    }
  }

  lemma ProtectValid(t: Table, id: nat)
    requires t.Valid() && Live(t.cells, id)
    ensures t.Protect(id).Valid()
  {
  }

  lemma HitChangesNothing(t: Table, cell: Cell)
    requires t.Valid() && cell in t.index
    ensures t.cells[t.index[cell] := cell] == t.cells && t.index[cell] != 0
  {
  }

  lemma AddCellValid(t: Table, cell: Cell)
    requires t.Valid() && Live(t.cells, cell.cdr) && cell !in t.index
    ensures t.AddCell(cell).Valid() && Grown(t.cells, t.AddCell(cell).cells)
  {
    NewCellIndexed(t.cells, t.index, t.next, cell);
    NewCellCounted(t.cells, t.Protect(cell.cdr).refs, t.next, cell);
  }

  lemma DropCellValid(t: Table, id: nat)
    requires t.Valid() && id in t.cells && Users(t.cells, id) == {}
    ensures t.DropCell(id).Valid()
    ensures var cdr := t.cells[id].cdr;
      cdr != 0 ==> t.DropCell(id).refs[cdr] > |Users(t.DropCell(id).cells, cdr)|
  {
    GoneCell(t.cells, t.refs, t.index, id);
  }

  /** Every cell of `c1` is in `c2` as it was. */
  ghost predicate Grown(c1: map<nat, Cell>, c2: map<nat, Cell>) {
    forall x :: x in c1 ==> x in c2 && c1[x] == c2[x]
  }

  /** So every superset live on both sides of a call holds the same states. */
  lemma GrownKeepsLists(c1: map<nat, Cell>, c2: map<nat, Cell>, id: nat)
    requires Linked(c1) && Linked(c2) && Grown(c1, c2) && Live(c1, id)
    ensures Live(c2, id) && List(c1, id) == List(c2, id)
  {
    ListFrame(c1, c2, id);
  }

  /** Only the count of `id` has gone up, and a new cell starts at zero. */
  ghost predicate Raised(r: map<nat, int>, r2: map<nat, int>, id: nat, more: nat) {
    forall x :: x in r2 ==> r2[x] == (if x in r then r[x] else 0) + (if x == id then more else 0)
  }

  lemma ConsCounts(t: Table, cell: Cell)
    requires t.Valid() && Live(t.cells, cell.cdr)
    ensures var t1 := t.Protect(cell.cdr);
      if cell in t1.index then Raised(t.refs, t1.Protect(cell.cdr).refs, cell.cdr, 2) == true
      else Raised(t.refs, t1.AddCell(cell).Protect(cell.cdr).refs, cell.cdr, 3) == true
  {
  }

  /** The cells that go when a hold on `id` is given up: those held by nobody else, down the list */
  ghost function Gone(cells: map<nat, Cell>, refs: map<nat, int>, id: nat): set<nat>
    requires Linked(cells) && Live(cells, id) && refs.Keys == cells.Keys
    decreases id
  {
    if id == 0 || refs[id] != 1 then {} else {id} + Gone(cells, refs, cells[id].cdr)
  }

  /** The first superset down the list that stays, and loses one holder */
  ghost function Staying(cells: map<nat, Cell>, refs: map<nat, int>, id: nat): nat
    requires Linked(cells) && Live(cells, id) && refs.Keys == cells.Keys
    decreases id
  {
    if id == 0 || refs[id] != 1 then id else Staying(cells, refs, cells[id].cdr)
  }

  lemma {:induction false} GoneFrame(cells: map<nat, Cell>, refs: map<nat, int>, big: nat, id: nat)
    requires Linked(cells) && Linked(cells - {big}) && Live(cells, id) && refs.Keys == cells.Keys && id < big
    ensures Live(cells - {big}, id) && (refs - {big}).Keys == (cells - {big}).Keys
    ensures Gone(cells - {big}, refs - {big}, id) == Gone(cells, refs, id)
    ensures Staying(cells - {big}, refs - {big}, id) == Staying(cells, refs, id)
    decreases id
  {
    assert (refs - {big}).Keys == (cells - {big}).Keys;
    if id != 0 && refs[id] == 1 {
      GoneFrame(cells, refs, big, cells[id].cdr);
    }
  }

  /** The counts after the cells in `gone` went and `stays` lost a holder */
  ghost predicate Released(r: map<nat, int>, r2: map<nat, int>, gone: set<nat>, stays: nat) {
    r2.Keys == r.Keys - gone && forall x :: x in r2 ==> r2[x] == r[x] - (if x == stays then 1 else 0)
  }

  lemma ReleasedMore(r: map<nat, int>, r2: map<nat, int>, id: nat, gone: set<nat>, stays: nat)
    requires id in r && Released(r - {id}, r2, gone, stays) == true
    ensures Released(r, r2, {id} + gone, stays) == true
  {
    assert r2.Keys == r.Keys - ({id} + gone);
  }

  lemma GoneStep(t: Table, id: nat)
    requires t.Valid() == true && id in t.cells && t.refs[id] == 1 && t.DropCell(id).Valid() == true
    ensures var t1, cdr := t.DropCell(id), t.cells[id].cdr;
      && Linked(t.cells) && t.refs.Keys == t.cells.Keys && Linked(t1.cells) && t1.refs.Keys == t1.cells.Keys && Live(t1.cells, cdr)
      && Gone(t.cells, t.refs, id) == {id} + Gone(t1.cells, t1.refs, cdr)
      && Staying(t.cells, t.refs, id) == Staying(t1.cells, t1.refs, cdr)
  {
    GoneFrame(t.cells, t.refs, id, t.cells[id].cdr);
  }

  /** Somebody besides other cells holds the superset. */
  ghost predicate Held(t: Table, id: nat) {
    id == 0 || (id in t.refs && t.refs[id] > |Users(t.cells, id)|)
  }

  lemma LastHold(t: Table, id: nat)
    requires t.Valid() == true && id in t.cells && Held(t, id) && t.refs[id] == 1
    ensures Users(t.cells, id) == {} && Grown(t.DropCell(id).cells, t.cells) == true
    ensures t.DropCell(id).Valid() == true && Live(t.DropCell(id).cells, t.cells[id].cdr) && Held(t.DropCell(id), t.cells[id].cdr) == true
  {
    DropCellValid(t, id);
  }

  lemma GrownTrans(c1: map<nat, Cell>, c2: map<nat, Cell>, c3: map<nat, Cell>)
    requires Grown(c1, c2) == true && Grown(c2, c3) == true
    ensures Grown(c1, c3) == true
  {
  }

  lemma OneLess(t: Table, id: nat)
    requires t.Valid() == true && id in t.cells && Held(t, id)
    ensures t.(refs := t.refs[id := t.refs[id] - 1]).Valid() == true
  {
    CountedLess(t.cells, t.refs, id);
  }

  lemma CountedLess(cells: map<nat, Cell>, r: map<nat, int>, id: nat)
    requires Counted(cells, r) && id in cells && r[id] > |Users(cells, id)|
    ensures Counted(cells, r[id := r[id] - 1]) == true
  {
  }

  lemma GoneNone(t: Table, id: nat)
    requires t.Valid() == true && id in t.cells && t.refs[id] != 1
    ensures Linked(t.cells) && t.refs.Keys == t.cells.Keys && Gone(t.cells, t.refs, id) == {} && Staying(t.cells, t.refs, id) == id
  {
  }

  lemma ReleasedOne(r: map<nat, int>, id: nat)
    requires id in r
    ensures Released(r, r[id := r[id] - 1], {}, id) == true
  {
    assert r[id := r[id] - 1].Keys == r.Keys - {};
  }

  /** A superset that somebody holds, as a superstate holds its contents, is not freed when another one
      is released. */
  lemma {:induction false} HeldOutlives(t: Table, id: nat, x: nat)
    requires t.Valid() && Live(t.cells, id) && x in t.cells && Held(t, x) && x != id
    ensures x !in Gone(t.cells, t.refs, id)
    decreases id
  {
    if id != 0 && t.refs[id] == 1 {
      var cdr := t.cells[id].cdr;
      if cdr == x {
        assert id in Users(t.cells, x);
        assert |Users(t.cells, x)| > 0;
      } else {
        HeldOutlives(t, cdr, x);
      }
    }
  }

  /** release_superset_low: a cell that is no longer referenced goes, and with it its hold on its
      tail.  Whatever stays is as it was, so nothing points to a cell that has gone. */
  method ReleaseLow(t: Table, id: nat) returns (t2: Table)
    requires t.Valid() == true && Live(t.cells, id) && Held(t, id) == true
    ensures t2.Valid() == true && Grown(t2.cells, t.cells) == true && Linked(t.cells) && t.refs.Keys == t.cells.Keys
    ensures Released(t.refs, t2.refs, Gone(t.cells, t.refs, id), Staying(t.cells, t.refs, id)) == true
    decreases id
  {
    if id == 0 {
      return t;
    }
    if t.refs[id] == 1 {
      var cdr := t.cells[id].cdr;
      LastHold(t, id);
      GoneStep(t, id);
      var t1 := t.DropCell(id);
      t2 := ReleaseLow(t1, cdr);
      ReleasedMore(t.refs, t2.refs, id, Gone(t1.cells, t1.refs, cdr), Staying(t1.cells, t1.refs, cdr));
      GrownTrans(t2.cells, t1.cells, t.cells);
    } else {
      OneLess(t, id);
      GoneNone(t, id);
      ReleasedOne(t.refs, id);
      t2 := t.(refs := t.refs[id := t.refs[id] - 1]);
    }
  }

  class SupersetTable {
    var t: Table

    constructor ()
      ensures t.Valid() && t.cells == map[]
    {
      t := Table(map[], map[], map[], 1);
    }

    /** rx_superset_cons: the one superset with these parts, made if need be.  The count of the
        tail goes up twice whether or not a cell is made, and once more when it is. */
    method Cons(car: nat, cdr: nat) returns (id: nat)
      requires t.Valid() && Live(t.cells, cdr)
      modifies this
      ensures t.Valid() && id != 0 && t.cells == old(t.cells)[id := Cell(car, cdr)]
      ensures id in old(t.cells) ==> old(t.cells)[id] == Cell(car, cdr)
      ensures Raised(old(t.refs), t.refs, cdr, if id in old(t.cells) then 2 else 3) == true
    {
      ghost var t0 := t;
      var cell := Cell(car, cdr);
      var t1 := t.Protect(cdr);
      ProtectValid(t, cdr);
      if cell in t1.index {
        id := t1.index[cell];
        HitChangesNothing(t1, cell);
      } else {
        id := t1.next;
        AddCellValid(t1, cell);
        t1 := t1.AddCell(cell);
      }
      ProtectValid(t1, cdr);
      ConsCounts(t0, cell);
      t := t1.Protect(cdr);
    }

    /** rx_superstate_eclosure_union */
    method Union(set0: nat, ecl: seq<nat>) returns (id: nat)
      requires t.Valid() && Live(t.cells, set0)
      modifies this
      ensures t.Valid() && Live(t.cells, id) && Grown(old(t.cells), t.cells)
      ensures List(t.cells, id) == Merge(old(List(t.cells, set0)), ecl)
      decreases |List(t.cells, set0)| + |ecl|, 0
    {
      if ecl == [] {
        return set0;
      }
      if set0 == 0 {
        id := Prepend(ecl[0], set0, ecl[1..]);
      } else if t.cells[set0].car == ecl[0] {
        id := Union(set0, ecl[1..]);
      } else if t.cells[set0].car < ecl[0] {
        assert List(t.cells, set0)[1..] == List(t.cells, t.cells[set0].cdr);
        id := Prepend(t.cells[set0].car, t.cells[set0].cdr, ecl);
      } else {
        id := Prepend(ecl[0], set0, ecl[1..]);
      }
    }

    method Prepend(first: nat, set0: nat, ecl: seq<nat>) returns (id: nat)
      requires t.Valid() && Live(t.cells, set0)
      modifies this
      ensures t.Valid() && Live(t.cells, id) && Grown(old(t.cells), t.cells)
      ensures List(t.cells, id) == [first] + Merge(old(List(t.cells, set0)), ecl)
      decreases |List(t.cells, set0)| + |ecl|, 1
    {
      var tail := Union(set0, ecl);
      ghost var mid := t.cells;
      id := Cons(first, tail);
      ListFrame(t.cells, mid, tail);
    }

    /** release_superset_low, on the shared table */
    method Release(id: nat)
      requires t.Valid() && Live(t.cells, id) && Held(t, id)
      modifies this
      ensures t.Valid() && Grown(t.cells, old(t.cells))
      ensures Released(old(t.refs), t.refs, Gone(old(t.cells), old(t.refs), id), Staying(old(t.cells), old(t.refs), id)) == true
    {
      t := ReleaseLow(t, id);
    }
  }
}
