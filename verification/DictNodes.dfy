/** The nodes of src/dict-splay.c in memory: child pointers, and dict_splay's relinking of them through a
    scratch node.  Each pointer step is tied to the tree it stands for, so what DictSplay proves about
    trees holds of the nodes. */
module DictNodes {
  import opened Options
  import opened IrcCase
  import opened DoublyLinked
  import opened DictSplay

  /** The l and r fields of all nodes */
  datatype Kids = Kids(l: map<nat, Option<nat>>, r: map<nat, Option<nat>>)

  function SetL(k: Kids, x: nat, v: Option<nat>): Kids {
    k.(l := k.l[x := v])
  }

  function SetR(k: Kids, x: nat, v: Option<nat>): Kids {
    k.(r := k.r[x := v])
  }

  /** The pointer `p` leads to nodes that make up the tree `t`. */
  ghost predicate Rep(k: Kids, p: Option<nat>, t: Tree)
    decreases t
  {
    match t
    case Leaf => p == None
    case Node(l, e, r) => p == Some(e.id) && e.id in k.l && e.id in k.r && Rep(k, k.l[e.id], l) && Rep(k, k.r[e.id], r)
  }

  /** `x` is a node of the tree. */
  predicate Has(t: Tree, x: nat) {
    t.Node? && (t.e.id == x || Has(t.l, x) || Has(t.r, x))
  }

  /** No node is in the tree twice. */
  ghost predicate Once(t: Tree) {
    t.Node? ==>
      Once(t.l) && Once(t.r) && !Has(t.l, t.e.id) && !Has(t.r, t.e.id) && Unshared(t.l, t.r)
  }

  ghost predicate Unshared(t: Tree, u: Tree) {
    forall x :: Has(t, x) ==> !Has(u, x)
  }

  ghost predicate SameAt(k: Kids, k2: Kids, x: nat) {
    x in k.l && x in k.r && x in k2.l && x in k2.r && k2.l[x] == k.l[x] && k2.r[x] == k.r[x]
  }

  lemma {:induction false} RepFrame(k: Kids, k2: Kids, p: Option<nat>, t: Tree)
    requires Rep(k, p, t) && forall x :: Has(t, x) && x in k.l && x in k.r ==> SameAt(k, k2, x)
    ensures Rep(k2, p, t)
    decreases t
  {
    if t.Node? {
      assert Has(t, t.e.id) && SameAt(k, k2, t.e.id);
      RepFrame(k, k2, k.l[t.e.id], t.l);
      RepFrame(k, k2, k.r[t.e.id], t.r);
    }
  }

  /** A node outside the tree may change. */
  lemma {:induction false} RepElsewhere(k: Kids, p: Option<nat>, t: Tree, x: nat, v: Option<nat>)
    requires Rep(k, p, t) && !Has(t, x)
    ensures Rep(SetL(k, x, v), p, t) && Rep(SetR(k, x, v), p, t)
  {
    RepFrame(k, SetL(k, x, v), p, t);
    RepFrame(k, SetR(k, x, v), p, t);
  }

  // ----- The two rotations -----

  function TurnedRight(k: Kids, x: nat): Kids
    requires x in k.l && k.l[x].Some? && k.l[x].value in k.r
  {
    var y := k.l[x].value;
    SetR(SetL(k, x, k.r[y]), y, Some(x))
  }

  function TurnedLeft(k: Kids, x: nat): Kids
    requires x in k.r && k.r[x].Some? && k.r[x].value in k.l
  {
    var y := k.r[x].value;
    SetL(SetR(k, x, k.l[y]), y, Some(x))
  }

  lemma {:induction false} TurnRight(k: Kids, t: Tree)
    requires t.Node? && t.l.Node? && Rep(k, Some(t.e.id), t) && Once(t)
    ensures t.e.id in k.l && k.l[t.e.id] == Some(t.l.e.id) && t.l.e.id in k.r
    ensures Rep(TurnedRight(k, t.e.id), Some(t.l.e.id), RotateRight(t)) && Once(RotateRight(t))
    ensures forall x :: Has(RotateRight(t), x) <==> Has(t, x)
    ensures forall x :: x in k.l && x in k.r && !Has(t, x) ==> SameAt(k, TurnedRight(k, t.e.id), x)
  {
    var x, y := t.e.id, t.l.e.id;
    assert Has(t.l, y);
    var k1 := SetL(k, x, k.r[y]);
    RepElsewhere(k, k.l[y], t.l.l, x, k.r[y]);
    RepElsewhere(k, k.r[y], t.l.r, x, k.r[y]);
    RepElsewhere(k, k.r[x], t.r, x, k.r[y]);
    assert !Has(t.r, y) && !Has(t.l.l, y) && !Has(t.l.r, y);
    RepElsewhere(k1, k1.l[y], t.l.l, y, Some(x));
    RepElsewhere(k1, k1.l[x], t.l.r, y, Some(x));
    RepElsewhere(k1, k1.r[x], t.r, y, Some(x));
    OnceRight(t);
  }

  lemma {:induction false} OnceRight(t: Tree)
    requires t.Node? && t.l.Node? && Once(t)
    ensures Once(RotateRight(t)) && forall x :: Has(RotateRight(t), x) <==> Has(t, x)
  {
    assert forall x :: Has(t.l.l, x) ==> Has(t.l, x);
    assert forall x :: Has(t.l.r, x) ==> Has(t.l, x);
    assert Has(t.l, t.l.e.id);
    var b := Node(t.l.r, t.e, t.r);
    assert Once(b);
    assert forall x :: Has(b, x) <==> x == t.e.id || Has(t.l.r, x) || Has(t.r, x);
  }

  lemma {:induction false} TurnLeft(k: Kids, t: Tree)
    requires t.Node? && t.r.Node? && Rep(k, Some(t.e.id), t) && Once(t)
    ensures t.e.id in k.r && k.r[t.e.id] == Some(t.r.e.id) && t.r.e.id in k.l
    ensures Rep(TurnedLeft(k, t.e.id), Some(t.r.e.id), RotateLeft(t)) && Once(RotateLeft(t))
    ensures forall x :: Has(RotateLeft(t), x) <==> Has(t, x)
    ensures forall x :: x in k.l && x in k.r && !Has(t, x) ==> SameAt(k, TurnedLeft(k, t.e.id), x)
  {
    var x, y := t.e.id, t.r.e.id;
    assert Has(t.r, y);
    var k1 := SetR(k, x, k.l[y]);
    RepElsewhere(k, k.r[y], t.r.r, x, k.l[y]);
    RepElsewhere(k, k.l[y], t.r.l, x, k.l[y]);
    RepElsewhere(k, k.l[x], t.l, x, k.l[y]);
    assert !Has(t.l, y) && !Has(t.r.r, y) && !Has(t.r.l, y);
    RepElsewhere(k1, k1.r[y], t.r.r, y, Some(x));
    RepElsewhere(k1, k1.r[x], t.r.l, y, Some(x));
    RepElsewhere(k1, k1.l[x], t.l, y, Some(x));
    OnceLeft(t);
  }

  lemma {:induction false} OnceLeft(t: Tree)
    requires t.Node? && t.r.Node? && Once(t)
    ensures Once(RotateLeft(t)) && forall x :: Has(RotateLeft(t), x) <==> Has(t, x)
  {
    assert forall x :: Has(t.r.l, x) ==> Has(t.r, x);
    assert forall x :: Has(t.r.r, x) ==> Has(t.r, x);
    assert Has(t.r, t.r.e.id);
    var b := Node(t.l, t.e, t.r.l);
    assert Once(b);
    assert forall x :: Has(b, x) <==> x == t.e.id || Has(t.r.l, x) || Has(t.l, x);
  }

  // ----- The scratch trees -----

  /** `x` is a node of one of the parts. */
  ghost predicate InParts(ps: seq<Part>, x: nat) {
    exists i :: 0 <= i < |ps| && (ps[i].e.id == x || Has(ps[i].kept, x))
  }

  /** The parts of a scratch tree share no node with each other. */
  ghost predicate PartsOnce(ps: seq<Part>) {
    && (forall i :: 0 <= i < |ps| ==> Once(ps[i].kept) && !Has(ps[i].kept, ps[i].e.id))
    && (forall i, j :: 0 <= i < j < |ps| ==> PartsApart(ps[i], ps[j]))
  }

  ghost predicate PartsApart(p: Part, q: Part) {
    p.e.id != q.e.id && !Has(p.kept, q.e.id) && !Has(q.kept, p.e.id) && Unshared(p.kept, q.kept)
  }

  /** The left scratch tree hangs from `first` by r pointers; the last one is not set yet. */
  ghost predicate SpineL(k: Kids, first: Option<nat>, ls: seq<Part>) {
    && (ls != [] ==> first == Some(ls[0].e.id))
    && (forall i :: 0 <= i < |ls| ==> ls[i].e.id in k.l && ls[i].e.id in k.r && Rep(k, k.l[ls[i].e.id], ls[i].kept))
    && (forall i :: 0 <= i < |ls| - 1 ==> k.r[ls[i].e.id] == Some(ls[i + 1].e.id))
  }

  /** The right scratch tree hangs by l pointers. */
  ghost predicate SpineR(k: Kids, first: Option<nat>, rs: seq<Part>) {
    && (rs != [] ==> first == Some(rs[0].e.id))
    && (forall i :: 0 <= i < |rs| ==> rs[i].e.id in k.l && rs[i].e.id in k.r && Rep(k, k.r[rs[i].e.id], rs[i].kept))
    && (forall i :: 0 <= i < |rs| - 1 ==> k.l[rs[i].e.id] == Some(rs[i + 1].e.id))
  }

  /** `l` of the source: the last node of the left scratch tree, or the scratch node itself */
  function Last(ps: seq<Part>): Option<nat> {
    if ps == [] then None else Some(ps[|ps| - 1].e.id)
  }

  /** Changes to nodes that are in no part leave a spine alone. */
  lemma {:induction false} SpinesFrame(k: Kids, k2: Kids, first: Option<nat>, ps: seq<Part>)
    requires forall x :: InParts(ps, x) && x in k.l && x in k.r ==> SameAt(k, k2, x)
    ensures SpineL(k, first, ps) ==> SpineL(k2, first, ps)
    ensures SpineR(k, first, ps) ==> SpineR(k2, first, ps)
  {
    forall i | 0 <= i < |ps| ensures InParts(ps, ps[i].e.id) && forall x :: Has(ps[i].kept, x) ==> InParts(ps, x) {
    }
    if SpineL(k, first, ps) {
      forall i | 0 <= i < |ps| ensures Rep(k2, k.l[ps[i].e.id], ps[i].kept) && SameAt(k, k2, ps[i].e.id) {
        RepFrame(k, k2, k.l[ps[i].e.id], ps[i].kept);
      }
    }
    if SpineR(k, first, ps) {
      forall i | 0 <= i < |ps| ensures Rep(k2, k.r[ps[i].e.id], ps[i].kept) && SameAt(k, k2, ps[i].e.id) {
        RepFrame(k, k2, k.r[ps[i].e.id], ps[i].kept);
      }
    }
  }

  /** The last r pointer of the left spine may be set to anything. */
  lemma {:induction false} SpineLLast(k: Kids, first: Option<nat>, ls: seq<Part>, v: Option<nat>)
    requires SpineL(k, first, ls) && PartsOnce(ls) && ls != []
    ensures SpineL(SetR(k, ls[|ls| - 1].e.id, v), first, ls)
  {
    var x := ls[|ls| - 1].e.id;
    forall i | 0 <= i < |ls| ensures Rep(SetR(k, x, v), k.l[ls[i].e.id], ls[i].kept) {
      assert i < |ls| - 1 ==> PartsApart(ls[i], ls[|ls| - 1]);
      RepElsewhere(k, k.l[ls[i].e.id], ls[i].kept, x, v);
    }
    assert forall i :: 0 <= i < |ls| - 1 ==> PartsApart(ls[i], ls[|ls| - 1]);
  }

  lemma {:induction false} SpineRLast(k: Kids, first: Option<nat>, rs: seq<Part>, v: Option<nat>)
    requires SpineR(k, first, rs) && PartsOnce(rs) && rs != []
    ensures SpineR(SetL(k, rs[|rs| - 1].e.id, v), first, rs)
  {
    var x := rs[|rs| - 1].e.id;
    forall i | 0 <= i < |rs| ensures Rep(SetL(k, x, v), k.r[rs[i].e.id], rs[i].kept) {
      assert i < |rs| - 1 ==> PartsApart(rs[i], rs[|rs| - 1]);
      RepElsewhere(k, k.r[rs[i].e.id], rs[i].kept, x, v);
    }
    assert forall i :: 0 <= i < |rs| - 1 ==> PartsApart(rs[i], rs[|rs| - 1]);
  }

  /** A left spine whose last r pointer leads to `tail` is the tree LinkL makes. */
  lemma {:induction false} CloseL(k: Kids, first: Option<nat>, ls: seq<Part>, p: Option<nat>, tail: Tree)
    requires SpineL(k, first, ls) && Rep(k, p, tail) && (if ls == [] then first == p else k.r[ls[|ls| - 1].e.id] == p)
    ensures Rep(k, first, LinkL(ls, tail))
    decreases |ls|
  {
    if ls != [] {
      var n := |ls| - 1;
      var t := Node(ls[n].kept, ls[n].e, tail);
      assert Rep(k, Some(ls[n].e.id), t);
      assert forall i :: 0 <= i < n ==> ls[..n][i] == ls[i];
      CloseL(k, first, ls[..n], Some(ls[n].e.id), t);
    }
  }

  lemma {:induction false} CloseR(k: Kids, first: Option<nat>, rs: seq<Part>, p: Option<nat>, tail: Tree)
    requires SpineR(k, first, rs) && Rep(k, p, tail) && (if rs == [] then first == p else k.l[rs[|rs| - 1].e.id] == p)
    ensures Rep(k, first, LinkR(rs, tail))
    decreases |rs|
  {
    if rs != [] {
      var n := |rs| - 1;
      var t := Node(tail, rs[n].e, rs[n].kept);
      assert Rep(k, Some(rs[n].e.id), t);
      assert forall i :: 0 <= i < n ==> rs[..n][i] == rs[i];
      CloseR(k, first, rs[..n], Some(rs[n].e.id), t);
    }
  }

  // ----- The loop of dict_splay -----

  /** The memory while a splay is under way: `node` is the tree still to be searched, and the scratch
      node holds the roots of the two scratch trees. */
  datatype Hand = Hand(k: Kids, node: nat, nl: Option<nat>, nr: Option<nat>)

  ghost predicate Held(h: Hand, ls: seq<Part>, t: Tree, rs: seq<Part>) {
    && t.Node? && Rep(h.k, Some(h.node), t) && SpineL(h.k, h.nr, ls) && SpineR(h.k, h.nl, rs)
    && Once(t) && PartsOnce(ls) && PartsOnce(rs)
    && (forall x :: Has(t, x) ==> !InParts(ls, x) && !InParts(rs, x))
    && (forall x :: InParts(ls, x) ==> !InParts(rs, x))
  }

  lemma {:induction false} HeldRight(h: Hand, ls: seq<Part>, t: Tree, rs: seq<Part>)
    requires Held(h, ls, t, rs) && t.l.Node?
    ensures h.node in h.k.l && h.k.l[h.node] == Some(t.l.e.id) && t.l.e.id in h.k.r
    ensures Held(h.(k := TurnedRight(h.k, h.node), node := t.l.e.id), ls, RotateRight(t), rs)
  {
    TurnRight(h.k, t);
    SpinesFrame(h.k, TurnedRight(h.k, h.node), h.nr, ls);
    SpinesFrame(h.k, TurnedRight(h.k, h.node), h.nl, rs);
  }

  lemma {:induction false} HeldLeft(h: Hand, ls: seq<Part>, t: Tree, rs: seq<Part>)
    requires Held(h, ls, t, rs) && t.r.Node?
    ensures h.node in h.k.r && h.k.r[h.node] == Some(t.r.e.id) && t.r.e.id in h.k.l
    ensures Held(h.(k := TurnedLeft(h.k, h.node), node := t.r.e.id), ls, RotateLeft(t), rs)
  {
    TurnLeft(h.k, t);
    SpinesFrame(h.k, TurnedLeft(h.k, h.node), h.nr, ls);
    SpinesFrame(h.k, TurnedLeft(h.k, h.node), h.nl, rs);
  }

  lemma {:induction false} PartsMore(ps: seq<Part>, t: Tree, p: Part)
    requires t.Node? && PartsOnce(ps) && Once(t) && p.e == t.e && (p.kept == t.l || p.kept == t.r)
    requires forall x :: Has(t, x) ==> !InParts(ps, x)
    ensures PartsOnce(ps + [p]) && forall x :: InParts(ps + [p], x) <==> InParts(ps, x) || x == p.e.id || Has(p.kept, x)
  {
    var qs := ps + [p];
    forall i | 0 <= i < |ps| ensures PartsApart(ps[i], p) {
      forall x | Has(ps[i].kept, x) || x == ps[i].e.id ensures InParts(ps, x) && !Has(t, x) {
      }
    }
    forall x ensures InParts(qs, x) <==> InParts(ps, x) || x == p.e.id || Has(p.kept, x) {
      if InParts(ps, x) {
        var i :| 0 <= i < |ps| && (ps[i].e.id == x || Has(ps[i].kept, x));
        assert qs[i] == ps[i];
      }
      if x == p.e.id || Has(p.kept, x) {
        assert qs[|ps|] == p;
      }
    }
  }

  /** r->l = node; r = node; node = node->l */
  function LinkedRight(h: Hand, r: Option<nat>): Hand
    requires h.node in h.k.l && h.k.l[h.node].Some?
  {
    Hand(if r.Some? then SetL(h.k, r.value, Some(h.node)) else h.k, h.k.l[h.node].value,
         if r.Some? then h.nl else Some(h.node), h.nr)
  }

  /** l->r = node; l = node; node = node->r */
  function LinkedLeft(h: Hand, l: Option<nat>): Hand
    requires h.node in h.k.r && h.k.r[h.node].Some?
  {
    Hand(if l.Some? then SetR(h.k, l.value, Some(h.node)) else h.k, h.k.r[h.node].value,
         h.nl, if l.Some? then h.nr else Some(h.node))
  }

  /** Setting a pointer in the last part of one spine leaves the other spine and the tree alone. */
  lemma {:induction false} LastElsewhere(k: Kids, k2: Kids, ps: seq<Part>, p: Option<nat>, t: Tree, first: Option<nat>, qs: seq<Part>)
    requires ps != [] && Rep(k, p, t) && forall x :: x in k.l && x in k.r && x != ps[|ps| - 1].e.id ==> SameAt(k, k2, x)
    requires (forall x :: Has(t, x) ==> !InParts(ps, x)) && (forall x :: InParts(qs, x) ==> !InParts(ps, x))
    ensures Rep(k2, p, t) && (SpineL(k, first, qs) ==> SpineL(k2, first, qs)) && (SpineR(k, first, qs) ==> SpineR(k2, first, qs))
  {
    assert InParts(ps, ps[|ps| - 1].e.id);
    RepFrame(k, k2, p, t);
    SpinesFrame(k, k2, first, qs);
  }

  lemma {:induction false} HeldLinkRight(h: Hand, ls: seq<Part>, t: Tree, rs: seq<Part>)
    requires Held(h, ls, t, rs) && t.l.Node?
    ensures h.node == t.e.id && h.node in h.k.l && h.k.l[h.node].Some?
    ensures Held(LinkedRight(h, Last(rs)), ls, t.l, rs + [Part(t.e, t.r)])
  {
    assert Rep(h.k, h.k.l[h.node], t.l);
    var h2, p := LinkedRight(h, Last(rs)), Part(t.e, t.r);
    PartsMore(rs, t, p);
    assert forall x :: Has(t.l, x) ==> Has(t, x);
    if rs != [] {
      LastElsewhere(h.k, h2.k, rs, Some(h.node), t, h.nr, ls);
      SpineRLast(h.k, h.nl, rs, Some(h.node));
    }
    SpineRMore(h2.k, h2.nl, rs, p);
  }

  lemma {:induction false} SpineRMore(k: Kids, first: Option<nat>, rs: seq<Part>, p: Part)
    requires SpineR(k, first, rs) && (if rs == [] then first == Some(p.e.id) else k.l[rs[|rs| - 1].e.id] == Some(p.e.id))
    requires p.e.id in k.l && p.e.id in k.r && Rep(k, k.r[p.e.id], p.kept)
    ensures SpineR(k, first, rs + [p])
  {
    var qs := rs + [p];
    assert forall i :: 0 <= i < |qs| ==> qs[i] == if i < |rs| then rs[i] else p;
  }

  lemma {:induction false} SpineLMore(k: Kids, first: Option<nat>, ls: seq<Part>, p: Part)
    requires SpineL(k, first, ls) && (if ls == [] then first == Some(p.e.id) else k.r[ls[|ls| - 1].e.id] == Some(p.e.id))
    requires p.e.id in k.l && p.e.id in k.r && Rep(k, k.l[p.e.id], p.kept)
    ensures SpineL(k, first, ls + [p])
  {
    var qs := ls + [p];
    assert forall i :: 0 <= i < |qs| ==> qs[i] == if i < |ls| then ls[i] else p;
  }

  lemma {:induction false} HeldLinkLeft(h: Hand, ls: seq<Part>, t: Tree, rs: seq<Part>)
    requires Held(h, ls, t, rs) && t.r.Node?
    ensures h.node == t.e.id && h.node in h.k.r && h.k.r[h.node].Some?
    ensures Held(LinkedLeft(h, Last(ls)), ls + [Part(t.e, t.l)], t.r, rs)
  {
    assert Rep(h.k, h.k.r[h.node], t.r);
    var h2, p := LinkedLeft(h, Last(ls)), Part(t.e, t.l);
    PartsMore(ls, t, p);
    assert forall x :: Has(t.r, x) ==> Has(t, x);
    if ls != [] {
      LastElsewhere(h.k, h2.k, ls, Some(h.node), t, h.nl, rs);
      SpineLLast(h.k, h.nr, ls, Some(h.node));
    }
    SpineLMore(h2.k, h2.nr, ls, p);
  }

  lemma {:induction false} LinkLHas(ls: seq<Part>, tail: Tree, x: nat)
    ensures Has(LinkL(ls, tail), x) <==> InParts(ls, x) || Has(tail, x)
    decreases |ls|
  {
    if ls != [] {
      var n := |ls| - 1;
      LinkLHas(ls[..n], Node(ls[n].kept, ls[n].e, tail), x);
      InPartsLast(ls, x);
    }
  }

  lemma {:induction false} LinkRHas(rs: seq<Part>, tail: Tree, x: nat)
    ensures Has(LinkR(rs, tail), x) <==> InParts(rs, x) || Has(tail, x)
    decreases |rs|
  {
    if rs != [] {
      var n := |rs| - 1;
      LinkRHas(rs[..n], Node(tail, rs[n].e, rs[n].kept), x);
      InPartsLast(rs, x);
    }
  }

  lemma {:induction false} InPartsLast(ps: seq<Part>, x: nat)
    requires ps != []
    ensures var p := ps[|ps| - 1]; InParts(ps, x) <==> InParts(ps[..|ps| - 1], x) || p.e.id == x || Has(p.kept, x)
  {
    var qs := ps[..|ps| - 1];
    if InParts(qs, x) {
      var i :| 0 <= i < |qs| && (qs[i].e.id == x || Has(qs[i].kept, x));
      assert ps[i] == qs[i];
    }
    if i :| 0 <= i < |ps| && (ps[i].e.id == x || Has(ps[i].kept, x)) {
      if i < |qs| {
        assert qs[i] == ps[i];
      }
    }
  }

  /** l->r = node->l */
  function ClosedL(h: Hand, l: Option<nat>): Hand
    requires h.node in h.k.l
  {
    if l.Some? then h.(k := SetR(h.k, l.value, h.k.l[h.node])) else h.(nr := h.k.l[h.node])
  }

  /** r->l = node->r */
  function ClosedR(h: Hand, r: Option<nat>): Hand
    requires h.node in h.k.r
  {
    if r.Some? then h.(k := SetL(h.k, r.value, h.k.r[h.node])) else h.(nl := h.k.r[h.node])
  }

  /** The last two assignments: node->l = N.r; node->r = N.l */
  function Rooted(h: Hand): Kids {
    SetR(SetL(h.k, h.node, h.nr), h.node, h.nl)
  }

  lemma {:induction false} HeldCloseL(h: Hand, ls: seq<Part>, t: Tree, rs: seq<Part>)
    requires Held(h, ls, t, rs)
    ensures h.node in h.k.l && var h2 := ClosedL(h, Last(ls));
      && Rep(h2.k, Some(h.node), t) && SpineR(h2.k, h.nl, rs) && h2.nl == h.nl && h2.node == h.node
      && Rep(h2.k, h2.nr, LinkL(ls, t.l))
  {
    var h2 := ClosedL(h, Last(ls));
    if ls != [] {
      LastElsewhere(h.k, h2.k, ls, Some(h.node), t, h.nl, rs);
      SpineLLast(h.k, h.nr, ls, h.k.l[h.node]);
    }
    assert Has(t, t.e.id);
    assert Rep(h2.k, h2.k.l[h.node], t.l);
    assert h2.k.l == h.k.l;
    CloseL(h2.k, h2.nr, ls, h.k.l[h.node], t.l);
  }

  lemma {:induction false} HeldCloseR(h: Hand, ls: seq<Part>, t: Tree, rs: seq<Part>, a: Tree)
    requires t.Node? && Rep(h.k, Some(h.node), t) && SpineR(h.k, h.nl, rs) && PartsOnce(rs) && Rep(h.k, h.nr, a)
    requires (forall x :: Has(t, x) ==> !InParts(rs, x)) && (forall x :: Has(a, x) ==> !InParts(rs, x))
    ensures h.node in h.k.r && var h2 := ClosedR(h, Last(rs));
      && h2.node == h.node && h.node in h2.k.l && h.node in h2.k.r && h2.nr == h.nr
      && Rep(h2.k, h2.nr, a) && Rep(h2.k, h2.nl, LinkR(rs, t.r))
  {
    var h2 := ClosedR(h, Last(rs));
    if rs != [] {
      LastElsewhere(h.k, h2.k, rs, Some(h.node), t, None, []);
      LastElsewhere(h.k, h2.k, rs, h.nr, a, None, []);
      SpineRLast(h.k, h.nl, rs, h.k.r[h.node]);
    }
    assert Rep(h2.k, h2.k.r[h.node], t.r);
    assert h2.k.r == h.k.r;
    CloseR(h2.k, h2.nl, rs, h.k.r[h.node], t.r);
  }

  /** The four assignments after the loop make the tree with the scratch trees below the root. */
  lemma {:induction false} HeldEnd(h: Hand, ls: seq<Part>, t: Tree, rs: seq<Part>)
    requires Held(h, ls, t, rs) == true
    ensures h.node in h.k.l && h.node in h.k.r && h.node in ClosedL(h, Last(ls)).k.r && Has(t, h.node)
    ensures Rep(Rooted(ClosedR(ClosedL(h, Last(ls)), Last(rs))), Some(h.node), Node(LinkL(ls, t.l), t.e, LinkR(rs, t.r))) == true
  {
    var a, b := LinkL(ls, t.l), LinkR(rs, t.r);
    HeldCloseL(h, ls, t, rs);
    assert forall x :: Has(t.l, x) || Has(t.r, x) ==> Has(t, x);
    forall x ensures (Has(a, x) <==> InParts(ls, x) || Has(t.l, x)) && (Has(b, x) <==> InParts(rs, x) || Has(t.r, x)) {
      LinkLHas(ls, t.l, x);
      LinkRHas(rs, t.r, x);
    }
    var h1 := ClosedL(h, Last(ls));
    HeldCloseR(h1, ls, t, rs, a);
    var h2 := ClosedR(h1, Last(rs));
    assert Has(t, h.node);
    RootedRep(h2, a, t.e, b);
  }

  lemma {:induction false} RootedRep(h: Hand, a: Tree, e: Entry, b: Tree)
    requires Rep(h.k, h.nr, a) && Rep(h.k, h.nl, b) && e.id == h.node && !Has(a, e.id) && !Has(b, e.id)
    requires h.node in h.k.l && h.node in h.k.r
    ensures Rep(Rooted(h), Some(h.node), Node(a, e, b)) == true
  {
    RepElsewhere(h.k, h.nr, a, h.node, h.nr);
    RepElsewhere(h.k, h.nl, b, h.node, h.nr);
    var k3 := SetL(h.k, h.node, h.nr);
    RepElsewhere(k3, h.nr, a, h.node, h.nl);
    RepElsewhere(k3, h.nl, b, h.node, h.nl);
    assert Rep(Rooted(h), Some(h.node), Node(a, e, b));
  }

  // ----- Nodes by their place in the order -----

  lemma {:induction false} HasIsListed(t: Tree, x: nat)
    ensures Has(t, x) <==> x in Ids(InOrder(t))
  {
    if t.Node? {
      HasIsListed(t.l, x);
      HasIsListed(t.r, x);
      assert Ids(InOrder(t)) == Ids(InOrder(t.l)) + [t.e.id] + Ids(InOrder(t.r));
    }
  }

  lemma {:induction false} ListedOnce(t: Tree)
    requires NoDup(Ids(InOrder(t)))
    ensures Once(t)
  {
    if t.Node? {
      var a, b := Ids(InOrder(t.l)), Ids(InOrder(t.r));
      assert Ids(InOrder(t)) == a + [t.e.id] + b;
      NoDupParts(a, t.e.id, b);
      ListedOnce(t.l);
      ListedOnce(t.r);
      forall x ensures (Has(t.l, x) <==> x in a) && (Has(t.r, x) <==> x in b) {
        HasIsListed(t.l, x);
        HasIsListed(t.r, x);
      }
    }
  }

  lemma {:induction false} NoDupParts(a: seq<nat>, x: nat, b: seq<nat>)
    requires NoDup(a + [x] + b)
    ensures NoDup(a) && NoDup(b) && x !in a && x !in b && forall y :: y in a ==> y !in b
  {
    var s := a + [x] + b;
    assert forall i :: 0 <= i < |a| ==> s[i] == a[i];
    assert s[|a|] == x;
    assert forall i :: 0 <= i < |b| ==> b[i] == s[|a| + 1 + i];
  }

  /** Key and data of every node on the list are in memory. */
  ghost predicate Stored(m: map<nat, Entry>, s: seq<Entry>) {
    forall i :: 0 <= i < |s| ==> s[i].id in m && m[s[i].id] == s[i]
  }

  lemma {:induction false} RootStored(m: map<nat, Entry>, a: seq<Entry>, t: Tree, b: seq<Entry>)
    requires Stored(m, a + InOrder(t) + b) && t.Node?
    ensures t.e.id in m && m[t.e.id] == t.e
    ensures t.l.Node? ==> t.l.e.id in m && m[t.l.e.id] == t.l.e
    ensures t.r.Node? ==> t.r.e.id in m && m[t.r.e.id] == t.r.e
  {
    var s := a + InOrder(t) + b;
    assert s[|a| + |InOrder(t.l)|] == t.e;
    if t.l.Node? {
      assert InOrder(t.l)[|InOrder(t.l.l)|] == t.l.e;
      assert s[|a| + |InOrder(t.l.l)|] == t.l.e;
    }
    if t.r.Node? {
      assert InOrder(t.r)[|InOrder(t.r.l)|] == t.r.e;
      assert s[|a| + |InOrder(t.l)| + 1 + |InOrder(t.r.l)|] == t.r.e;
    }
  }

  // ----- dict_splay -----

  /** Memory outside the tree is as it was. */
  ghost predicate Outside(k: Kids, k2: Kids, t: Tree) {
    forall x :: x in k.l && x in k.r && !Has(t, x) ==> SameAt(k, k2, x)
  }

  ghost predicate Within(t0: Tree, ls: seq<Part>, t: Tree, rs: seq<Part>) {
    forall x :: Has(t, x) || InParts(ls, x) || InParts(rs, x) ==> Has(t0, x)
  }

  /** The loop's invariant: the nodes make up the tree in hand and the scratch trees, which together
      keep the order of the original and lie on their sides of the key. */
  ghost predicate Splaying(k0: Kids, t0: Tree, m: map<nat, Entry>, key: Str, h: Hand, ls: seq<Part>, t: Tree, rs: seq<Part>) {
    && Held(h, ls, t, rs) == true && SetAside(InOrder(t0), key, ls, t, rs) == true && Within(t0, ls, t, rs) == true
    && Outside(k0, h.k, t0) == true && Stored(m, InOrder(t0)) == true
  }

  lemma {:induction false} SplayStart(k: Kids, m: map<nat, Entry>, root: nat, key: Str, t0: Tree)
    requires Rep(k, Some(root), t0) && NoDup(Ids(InOrder(t0))) && Sorted(InOrder(t0)) && Stored(m, InOrder(t0))
    ensures Splaying(k, t0, m, key, Hand(k, root, None, None), [], t0, []) == true
  {
    ListedOnce(t0);
    assert InOrder(t0) == FlatL([]) + InOrder(t0) + FlatR([]);
  }

  /** What the loop sees through its pointers */
  lemma {:induction false} Seen(k0: Kids, t0: Tree, m: map<nat, Entry>, key: Str, h: Hand, ls: seq<Part>, t: Tree, rs: seq<Part>)
    requires Splaying(k0, t0, m, key, h, ls, t, rs) == true
    ensures t.Node? && h.node == t.e.id && h.node in m && m[h.node] == t.e && h.node in h.k.l && h.node in h.k.r
    ensures (h.k.l[h.node] == None <==> t.l == Leaf) && (h.k.r[h.node] == None <==> t.r == Leaf)
    ensures t.l.Node? ==> h.k.l[h.node] == Some(t.l.e.id) && t.l.e.id in m && m[t.l.e.id] == t.l.e && t.l.e.id in h.k.r
    ensures t.r.Node? ==> h.k.r[h.node] == Some(t.r.e.id) && t.r.e.id in m && m[t.r.e.id] == t.r.e && t.r.e.id in h.k.l
  {
    RootStored(m, FlatL(ls), t, FlatR(rs));
    assert Rep(h.k, h.k.l[h.node], t.l) && Rep(h.k, h.k.r[h.node], t.r);
  }

  lemma {:induction false} SplayTurnRight(k0: Kids, t0: Tree, m: map<nat, Entry>, key: Str, h: Hand, ls: seq<Part>, t: Tree, rs: seq<Part>)
    requires Splaying(k0, t0, m, key, h, ls, t, rs) == true && t.l.Node?
    ensures h.node in h.k.l && h.k.l[h.node] == Some(t.l.e.id) && t.l.e.id in h.k.r
    ensures Splaying(k0, t0, m, key, h.(k := TurnedRight(h.k, h.node), node := t.l.e.id), ls, RotateRight(t), rs) == true
  {
    HeldRight(h, ls, t, rs);
    TurnRight(h.k, t);
    RotateRightOrder(t);
  }

  lemma {:induction false} SplayTurnLeft(k0: Kids, t0: Tree, m: map<nat, Entry>, key: Str, h: Hand, ls: seq<Part>, t: Tree, rs: seq<Part>)
    requires Splaying(k0, t0, m, key, h, ls, t, rs) == true && t.r.Node?
    ensures h.node in h.k.r && h.k.r[h.node] == Some(t.r.e.id) && t.r.e.id in h.k.l
    ensures Splaying(k0, t0, m, key, h.(k := TurnedLeft(h.k, h.node), node := t.r.e.id), ls, RotateLeft(t), rs) == true
  {
    HeldLeft(h, ls, t, rs);
    TurnLeft(h.k, t);
    RotateLeftOrder(t);
  }

  lemma {:induction false} SplayLinkRight(k0: Kids, t0: Tree, m: map<nat, Entry>, key: Str, h: Hand, ls: seq<Part>, t: Tree, rs: seq<Part>)
    requires Splaying(k0, t0, m, key, h, ls, t, rs) == true && t.l.Node? && Compare(key, t.e.key) < 0
    ensures h.node in h.k.l && h.k.l[h.node].Some?
    ensures Splaying(k0, t0, m, key, LinkedRight(h, Last(rs)), ls, t.l, rs + [Part(t.e, t.r)]) == true
  {
    HeldLinkRight(h, ls, t, rs);
    LinkRightStep(InOrder(t0), key, ls, t, rs);
    PartsMore(rs, t, Part(t.e, t.r));
    assert rs != [] ==> InParts(rs, rs[|rs| - 1].e.id);
  }

  lemma {:induction false} SplayLinkLeft(k0: Kids, t0: Tree, m: map<nat, Entry>, key: Str, h: Hand, ls: seq<Part>, t: Tree, rs: seq<Part>)
    requires Splaying(k0, t0, m, key, h, ls, t, rs) == true && t.r.Node? && Compare(key, t.e.key) > 0
    ensures h.node in h.k.r && h.k.r[h.node].Some?
    ensures Splaying(k0, t0, m, key, LinkedLeft(h, Last(ls)), ls + [Part(t.e, t.l)], t.r, rs) == true
  {
    HeldLinkLeft(h, ls, t, rs);
    LinkLeftStep(InOrder(t0), key, ls, t, rs);
    PartsMore(ls, t, Part(t.e, t.l));
    assert ls != [] ==> InParts(ls, ls[|ls| - 1].e.id);
  }

  /** What a splay of `t0` leaves in memory: the same entries in the same order, the key or a neighbour of
      its place at the root, and nothing else touched. */
  ghost predicate Splayed(k: Kids, t0: Tree, key: Str, k2: Kids, top: nat, t: Tree) {
    t.Node? && Rep(k2, Some(top), t) && InOrder(t) == InOrder(t0) && Near(t, key) && Outside(k, k2, t0)
  }

  lemma {:induction false} SplayDone(k0: Kids, t0: Tree, m: map<nat, Entry>, key: Str, h: Hand, ls: seq<Part>, t: Tree, rs: seq<Part>)
    requires Splaying(k0, t0, m, key, h, ls, t, rs) == true && t.Node?
    requires var c := Compare(key, t.e.key); c == 0 || (c < 0 && t.l == Leaf) || (c > 0 && t.r == Leaf)
    ensures h.node in h.k.l && h.node in ClosedL(h, Last(ls)).k.r
    ensures Splayed(k0, t0, key, Rooted(ClosedR(ClosedL(h, Last(ls)), Last(rs))), h.node, Node(LinkL(ls, t.l), t.e, LinkR(rs, t.r)))
  {
    HeldEnd(h, ls, t, rs);
    SplayEnd(InOrder(t0), key, ls, t, rs);
    EndOutside(k0, t0, h, ls, t, rs);
  }

  lemma {:induction false} EndOutside(k0: Kids, t0: Tree, h: Hand, ls: seq<Part>, t: Tree, rs: seq<Part>)
    requires Has(t, h.node) && Within(t0, ls, t, rs) && Outside(k0, h.k, t0)
    requires h.node in h.k.l && h.node in ClosedL(h, Last(ls)).k.r
    ensures Outside(k0, Rooted(ClosedR(ClosedL(h, Last(ls)), Last(rs))), t0) == true
  {
    assert ls != [] ==> InParts(ls, ls[|ls| - 1].e.id);
    assert rs != [] ==> InParts(rs, rs[|rs| - 1].e.id);
  }

  /** dict_splay, on the nodes: `l` and `r` are the last nodes of the scratch trees, or None for the
      scratch node itself. */
  method Splay(k: Kids, m: map<nat, Entry>, root: nat, key: Str, ghost t0: Tree) returns (k2: Kids, top: nat)
    requires Rep(k, Some(root), t0) == true && NoDup(Ids(InOrder(t0))) == true
    requires Sorted(InOrder(t0)) == true && Stored(m, InOrder(t0)) == true
    ensures exists t :: Splayed(k, t0, key, k2, top, t) == true
  {
    var h := Hand(k, root, None, None);
    var l: Option<nat>, r: Option<nat> := None, None;
    ghost var ls: seq<Part>, t, rs: seq<Part> := [], t0, [];
    SplayStart(k, m, root, key, t0);
    while true
      invariant Splaying(k, t0, m, key, h, ls, t, rs) == true && l == Last(ls) && r == Last(rs)
      decreases Size(t)
    {
      Seen(k, t0, m, key, h, ls, t, rs);
      var res := Compare(key, m[h.node].key);
      if res == 0 {
        break;
      }
      if res < 0 {
        if h.k.l[h.node] == None {
          break;
        }
        var y := h.k.l[h.node].value;
        if Compare(key, m[y].key) < 0 {
          SplayTurnRight(k, t0, m, key, h, ls, t, rs);
          RotateRightOrder(t);
          t := RotateRight(t);
          h := h.(k := SetR(SetL(h.k, h.node, h.k.r[y]), y, Some(h.node)), node := y);
          Seen(k, t0, m, key, h, ls, t, rs);
          if h.k.l[h.node] == None {
            break;
          }
        }
        SplayLinkRight(k, t0, m, key, h, ls, t, rs);
        ls, t, rs := ls, t.l, rs + [Part(t.e, t.r)];
        h, r := LinkedRight(h, r), Some(h.node);
      } else {
        if h.k.r[h.node] == None {
          break;
        }
        var y := h.k.r[h.node].value;
        if Compare(key, m[y].key) > 0 {
          SplayTurnLeft(k, t0, m, key, h, ls, t, rs);
          RotateLeftOrder(t);
          t := RotateLeft(t);
          h := h.(k := SetL(SetR(h.k, h.node, h.k.l[y]), y, Some(h.node)), node := y);
          Seen(k, t0, m, key, h, ls, t, rs);
          if h.k.r[h.node] == None {
            break;
          }
        }
        SplayLinkLeft(k, t0, m, key, h, ls, t, rs);
        ls, t, rs := ls + [Part(t.e, t.l)], t.r, rs;
        h, l := LinkedLeft(h, l), Some(h.node);
      }
    }
    SplayDone(k, t0, m, key, h, ls, t, rs);
    k2, top := Rooted(ClosedR(ClosedL(h, l), r)), h.node;
  }

  // ----- The nodes dict_insert and dict_remove2 relink -----

  /** A new node above the root, which becomes its right child and gives it its left one */
  function BelowNewRight(k: Kids, n: nat, root: nat): Kids
    requires root in k.l
  {
    SetL(SetR(SetL(k, n, k.l[root]), n, Some(root)), root, None)
  }

  function BelowNewLeft(k: Kids, n: nat, root: nat): Kids
    requires root in k.r
  {
    SetR(SetL(SetR(k, n, k.r[root]), n, Some(root)), root, None)
  }

  lemma {:induction false} NewBefore(k: Kids, t: Tree, e: Entry)
    requires t.Node? && Rep(k, Some(t.e.id), t) == true && Once(t) == true && !Has(t, e.id)
    ensures t.e.id in k.l && Rep(BelowNewRight(k, e.id, t.e.id), Some(e.id), Node(t.l, e, Node(Leaf, t.e, t.r))) == true
  {
    var k2 := BelowNewRight(k, e.id, t.e.id);
    RepFrame(k, k2, k.l[t.e.id], t.l);
    RepFrame(k, k2, k.r[t.e.id], t.r);
    assert Rep(k2, Some(t.e.id), Node(Leaf, t.e, t.r));
    assert Rep(k2, Some(e.id), Node(t.l, e, Node(Leaf, t.e, t.r)));
  }

  lemma {:induction false} NewAfter(k: Kids, t: Tree, e: Entry)
    requires t.Node? && Rep(k, Some(t.e.id), t) == true && Once(t) == true && !Has(t, e.id)
    ensures t.e.id in k.r && Rep(BelowNewLeft(k, e.id, t.e.id), Some(e.id), Node(Node(t.l, t.e, Leaf), e, t.r)) == true
  {
    var k2 := BelowNewLeft(k, e.id, t.e.id);
    RepFrame(k, k2, k.l[t.e.id], t.l);
    RepFrame(k, k2, k.r[t.e.id], t.r);
    assert Rep(k2, Some(t.e.id), Node(t.l, t.e, Leaf));
    assert Rep(k2, Some(e.id), Node(Node(t.l, t.e, Leaf), e, t.r));
  }

  lemma {:induction false} StoredMore(m: map<nat, Entry>, s: seq<Entry>, p: nat, e: Entry)
    requires Stored(m, s) && p <= |s| && forall i :: 0 <= i < |s| ==> s[i].id != e.id
    ensures Stored(m[e.id := e], s[..p] + [e] + s[p..])
  {
  }

  lemma {:induction false} StoredAtRoot(m: map<nat, Entry>, t: Tree, e: Entry)
    requires t.Node? && Stored(m, InOrder(t)) && NoDup(Ids(InOrder(t))) && e.id == t.e.id
    ensures Stored(m[e.id := e], InOrder(Node(t.l, e, t.r)))
  {
    var s, s2, p := InOrder(t), InOrder(Node(t.l, e, t.r)), |InOrder(t.l)|;
    assert s[p] == t.e && s2[p] == e;
    forall i | 0 <= i < |s2| && i != p ensures s2[i] == s[i] && s[i].id != e.id {
      assert Ids(s)[i] != Ids(s)[p];
    }
  }

  /** A freed node is gone from memory. */
  function Freed(k: Kids, x: nat): Kids {
    Kids(k.l - {x}, k.r - {x})
  }

  lemma {:induction false} FreedElsewhere(k: Kids, p: Option<nat>, t: Tree, x: nat)
    requires Rep(k, p, t) && !Has(t, x)
    ensures Rep(Freed(k, x), p, t)
  {
    RepFrame(k, Freed(k, x), p, t);
  }

  lemma {:induction false} StoredLess(m: map<nat, Entry>, t: Tree)
    requires t.Node? && Stored(m, InOrder(t)) && NoDup(Ids(InOrder(t)))
    ensures Stored(m - {t.e.id}, InOrder(t.l) + InOrder(t.r))
  {
    var s, s2, p := InOrder(t), InOrder(t.l) + InOrder(t.r), |InOrder(t.l)|;
    assert s[p] == t.e;
    forall i | 0 <= i < |s2| ensures s2[i] == s[if i < p then i else i + 1] && s2[i].id != t.e.id {
      assert Ids(s)[if i < p then i else i + 1] != Ids(s)[p];
    }
  }

  lemma {:induction false} SidesOnce(t: Tree)
    requires t.Node? && NoDup(Ids(InOrder(t))) && Sorted(InOrder(t))
    ensures Once(t) && NoDup(Ids(InOrder(t.l))) && Sorted(InOrder(t.l))
  {
    ListedOnce(t);
    assert Ids(InOrder(t)) == Ids(InOrder(t.l)) + [t.e.id] + Ids(InOrder(t.r));
    NoDupParts(Ids(InOrder(t.l)), t.e.id, Ids(InOrder(t.r)));
    SortedParts(InOrder(t.l), t.e, InOrder(t.r));
  }

  lemma {:induction false} StoredLeft(m: map<nat, Entry>, t: Tree)
    requires t.Node? && Stored(m, InOrder(t))
    ensures Stored(m, InOrder(t.l))
  {
    assert forall i :: 0 <= i < |InOrder(t.l)| ==> InOrder(t)[i] == InOrder(t.l)[i];
  }

  /** The splayed left subtree `u` takes over the right subtree of the root, and the root is freed. */
  lemma {:induction false} Joined(k: Kids, t: Tree, key: Str, k2: Kids, top: nat, u: Tree)
    requires t.Node? && Rep(k, Some(t.e.id), t) && NoDup(Ids(InOrder(t))) && Sorted(InOrder(t)) && Compare(key, t.e.key) == 0
    requires Splayed(k, t.l, key, k2, top, u)
    ensures t.e.id in k2.r && Rep(Freed(SetR(k2, top, k2.r[t.e.id]), t.e.id), Some(top), Node(u.l, u.e, t.r))
    ensures InOrder(Node(u.l, u.e, t.r)) == InOrder(t.l) + InOrder(t.r)
  {
    SidesOnce(t);
    ListedOnce(u);
    forall x ensures Has(u, x) <==> Has(t.l, x) {
      HasIsListed(u, x);
      HasIsListed(t.l, x);
    }
    assert Has(u, top) && forall x :: Has(u.l, x) ==> Has(u, x);
    assert SameAt(k, k2, t.e.id);
    RepFrame(k, k2, k.r[t.e.id], t.r);
    var k3 := SetR(k2, top, k2.r[t.e.id]);
    RepElsewhere(k2, k2.r[t.e.id], t.r, top, k2.r[t.e.id]);
    RepElsewhere(k2, k2.l[top], u.l, top, k2.r[t.e.id]);
    FreedElsewhere(k3, Some(top), Node(u.l, u.e, t.r), t.e.id);
    SortedParts(InOrder(t.l), t.e, InOrder(t.r));
    SameSide(InOrder(t.l), InOrder(t.r), t.e.key, key);
    NothingAbove(u, key);
    assert InOrder(u) == InOrder(u.l) + [u.e];
  }

  // ----- The dictionary -----

  /** The fields of a dictionary and of its nodes */
  datatype Store = Store(root: Option<nat>, kids: Kids, held: map<nat, Entry>, thread: Thread, count: int, nextId: nat)

  /** The nodes make up a tree, whose entries are sorted, threaded in that order and counted. */
  ghost predicate Sound(d: Store, t: Tree) {
    && Rep(d.kids, d.root, t) == true && Stored(d.held, InOrder(t)) == true
    && Keeps(InOrder(t), d.thread, d.nextId) == true && d.count == |InOrder(t)|
  }

  lemma {:induction false} RootFacts(k: Kids, p: Option<nat>, t: Tree, m: map<nat, Entry>)
    requires Rep(k, p, t) == true && Stored(m, InOrder(t)) == true
    ensures p == None <==> t == Leaf
    ensures t.Node? ==> var top := t.e.id;
      && p == Some(top) && top in m && m[top] == t.e && top in k.l && top in k.r
      && Rep(k, k.l[top], t.l) == true && (k.l[top] == None <==> t.l == Leaf)
  {
    if t.Node? {
      assert InOrder(t) == [] + InOrder(t) + [];
      RootStored(m, [], t, []);
    }
  }

  lemma {:induction false} SoundFacts(d: Store, t: Tree)
    requires Sound(d, t) == true
    ensures d.root == None <==> t == Leaf
    ensures NoDup(Ids(InOrder(t))) == true && Sorted(InOrder(t)) == true && Stored(d.held, InOrder(t)) == true
    ensures Rep(d.kids, d.root, t) == true
    ensures t.Node? ==> var top := t.e.id;
      && d.root == Some(top) && top in d.held && d.held[top] == t.e && top in d.kids.l && top in d.kids.r
      && Rep(d.kids, d.kids.l[top], t.l) == true && (d.kids.l[top] == None <==> t.l == Leaf)
  {
    RootFacts(d.kids, d.root, t, d.held);
  }

  lemma {:induction false} SoundSplayed(d: Store, t0: Tree, key: Str, k: Kids, top: nat, t: Tree)
    requires Sound(d, t0) == true && Splayed(d.kids, t0, key, k, top, t) == true
    ensures Sound(d.(root := Some(top), kids := k), t) == true && InOrder(t) == InOrder(t0) && t.Node? && Near(t, key) == true
  {
  }

  function FirstNode(d: Store, e: Entry): Store {
    Store(Some(e.id), SetR(SetL(d.kids, e.id, None), e.id, None), d.held[e.id := e],
          Thread(Links(map[e.id := None], map[e.id := None]), Some(e.id), Some(e.id)), d.count + 1, d.nextId + 1)
  }

  /** insert just before the root */
  function NodeBefore(d: Store, e: Entry, top: nat): Store
    requires top in d.kids.l && top in d.thread.links.prev
  {
    Store(Some(e.id), BelowNewRight(d.kids, e.id, top), d.held[e.id := e], Before(d.thread, e.id, top), d.count + 1, d.nextId + 1)
  }

  /** insert just after the root */
  function NodeAfter(d: Store, e: Entry, top: nat): Store
    requires top in d.kids.r && top in d.thread.links.next
  {
    Store(Some(e.id), BelowNewLeft(d.kids, e.id, top), d.held[e.id := e], After(d.thread, e.id, top), d.count + 1, d.nextId + 1)
  }

  /** What an insertion leaves */
  ghost predicate Stores(t: Tree, key: Str, data: int, d2: Store) {
    exists t2 :: Sound(d2, t2) == true && Dictionary(InOrder(t2)) == Dictionary(InOrder(t))[Folded(key) := (key, data)]
  }

  lemma {:induction false} StoresBy(t: Tree, key: Str, data: int, d2: Store, t2: Tree)
    requires Rep(d2.kids, d2.root, t2) == true && Stored(d2.held, InOrder(t2)) == true
    requires Keeps(InOrder(t2), d2.thread, d2.nextId) == true && d2.count == |InOrder(t2)|
    requires Dictionary(InOrder(t2)) == Dictionary(InOrder(t))[Folded(key) := (key, data)]
    ensures Stores(t, key, data, d2) == true
  {
    assert Sound(d2, t2) == true;
  }

  lemma {:induction false} SoundFirst(d: Store, t: Tree, key: Str, data: int)
    requires Sound(d, t) == true && t == Leaf
    ensures Stores(t, key, data, FirstNode(d, Entry(d.nextId, key, data))) == true
  {
    var e := Entry(d.nextId, key, data);
    var t2 := Node(Leaf, e, Leaf);
    assert InOrder(t2) == [e] && Ids([e]) == [e.id];
    assert Dictionary([e]) == map[Folded(e.key) := (e.key, e.data)];
    assert Chained([e.id], FirstNode(d, e).thread.links);
    assert Keeps([e], FirstNode(d, e).thread, e.id + 1);
    assert Rep(FirstNode(d, e).kids, Some(e.id), t2);
    assert Sound(FirstNode(d, e), t2) == true;
  }

  lemma {:induction false} NewIsElsewhere(t: Tree, k: Thread, n: nat)
    requires Keeps(InOrder(t), k, n) == true
    ensures Once(t) == true && !Has(t, n) && forall i :: 0 <= i < |InOrder(t)| ==> InOrder(t)[i].id != n
  {
    ListedOnce(t);
    HasIsListed(t, n);
  }

  /** Both places for a new node: key and data of all nodes are in memory. */
  lemma {:induction false} StoredBefore(m: map<nat, Entry>, t: Tree, e: Entry)
    requires t.Node? && Stored(m, InOrder(t)) == true && forall i :: 0 <= i < |InOrder(t)| ==> InOrder(t)[i].id != e.id
    requires Sorted(InOrder(t)) == true && Near(t, e.key) == true
    ensures Compare(e.key, t.e.key) < 0 ==> Stored(m[e.id := e], InOrder(Node(t.l, e, Node(Leaf, t.e, t.r)))) == true
    ensures Compare(e.key, t.e.key) > 0 ==> Stored(m[e.id := e], InOrder(Node(Node(t.l, t.e, Leaf), e, t.r))) == true
  {
    if Compare(e.key, t.e.key) < 0 {
      SplitBefore(t, e);
      StoredMore(m, InOrder(t), |InOrder(t.l)|, e);
    } else if Compare(e.key, t.e.key) > 0 {
      SplitAfter(t, e);
      StoredMore(m, InOrder(t), |InOrder(t.l)| + 1, e);
    }
  }

  lemma {:induction false} SoundBefore(d: Store, t: Tree, key: Str, data: int)
    requires Sound(d, t) == true && t.Node? && Near(t, key) == true && Compare(key, t.e.key) < 0
    ensures t.e.id in d.kids.l && t.e.id in d.thread.links.prev
    ensures Stores(t, key, data, NodeBefore(d, Entry(d.nextId, key, data), t.e.id)) == true
  {
    var e := Entry(d.nextId, key, data);
    NewIsElsewhere(t, d.thread, e.id);
    AtRootBefore(InOrder(t), d.thread, t, e);
    StoredBefore(d.held, t, e);
    NewBefore(d.kids, t, e);
    StoresBy(t, key, data, NodeBefore(d, e, t.e.id), Node(t.l, e, Node(Leaf, t.e, t.r)));
  }

  lemma {:induction false} SoundAfter(d: Store, t: Tree, key: Str, data: int)
    requires Sound(d, t) == true && t.Node? && Near(t, key) == true && Compare(key, t.e.key) > 0
    ensures t.e.id in d.kids.r && t.e.id in d.thread.links.next
    ensures Stores(t, key, data, NodeAfter(d, Entry(d.nextId, key, data), t.e.id)) == true
  {
    var e := Entry(d.nextId, key, data);
    NewIsElsewhere(t, d.thread, e.id);
    AtRootAfter(InOrder(t), d.thread, t, e);
    StoredBefore(d.held, t, e);
    NewAfter(d.kids, t, e);
    StoresBy(t, key, data, NodeAfter(d, e, t.e.id), Node(Node(t.l, t.e, Leaf), e, t.r));
  }

  lemma {:induction false} SoundSame(d: Store, t: Tree, key: Str, data: int)
    requires Sound(d, t) == true && t.Node? && Compare(key, t.e.key) == 0
    ensures Stores(t, key, data, d.(held := d.held[t.e.id := Entry(t.e.id, key, data)])) == true
  {
    var e := Entry(t.e.id, key, data);
    AtRoot(InOrder(t), d.thread, t, key, data, d.nextId);
    StoredAtRoot(d.held, t, e);
    assert Sound(d.(held := d.held[t.e.id := e]), Node(t.l, e, t.r)) == true;
  }

  /** The root `top` is freed, and `root` is the tree that remains. */
  function Unrooted(d: Store, root: Option<nat>, k: Kids, top: nat): Store
    requires top in d.thread.links.prev && top in d.thread.links.next
  {
    Store(root, Freed(k, top), d.held - {top}, Unthread(d.thread, top), d.count - 1, d.nextId)
  }

  /** `t2` is what remains of `t` without its root, which is freed. */
  ghost predicate Remains(k: Kids, top: nat, root: Option<nat>, t: Tree, t2: Tree) {
    t.Node? && Rep(Freed(k, top), root, t2) && InOrder(t2) == InOrder(t.l) + InOrder(t.r)
  }

  lemma {:induction false} SoundUnrooted(d: Store, t: Tree, key: Str, root: Option<nat>, k: Kids, t2: Tree)
    requires Sound(d, t) == true && t.Node? && Compare(key, t.e.key) == 0 && Remains(k, t.e.id, root, t, t2) == true
    ensures t.e.id in d.thread.links.prev && t.e.id in d.thread.links.next
    ensures Sound(Unrooted(d, root, k, t.e.id), t2) == true && Dictionary(InOrder(t2)) == Dictionary(InOrder(t)) - {Folded(key)}
  {
    RemovedAt(InOrder(t.l), t.e, InOrder(t.r), key, d.thread, d.nextId);
    StoredLess(d.held, t);
  }

  lemma {:induction false} LeftToSplay(m: map<nat, Entry>, t: Tree)
    requires t.Node? && NoDup(Ids(InOrder(t))) && Sorted(InOrder(t)) && Stored(m, InOrder(t))
    ensures NoDup(Ids(InOrder(t.l))) == true && Sorted(InOrder(t.l)) == true && Stored(m, InOrder(t.l)) == true && Once(t) == true
  {
    SidesOnce(t);
    StoredLeft(m, t);
  }

  /** dict_remove2's new_root: the right subtree, or the splayed left subtree with the right one below it.
      Once the old root is freed, no pointer in the new tree leads to it. */
  method NewRoot(k: Kids, m: map<nat, Entry>, top: nat, key: Str, ghost d: Store, ghost t: Tree) returns (k2: Kids, p: Option<nat>)
    requires Sound(d, t) == true && k == d.kids && m == d.held && d.root == Some(top)
    requires t.Node? && Compare(key, t.e.key) == 0
    ensures exists t2 :: Remains(k2, top, p, t, t2) == true
  {
    SoundFacts(d, t);
    LeftToSplay(m, t);
    if k.l[top] == None {
      k2, p := k, k.r[top];
      FreedElsewhere(k, p, t.r, top);
      assert InOrder(t.r) == InOrder(t.l) + InOrder(t.r);
      assert Remains(k2, top, p, t, t.r);
    } else {
      var y;
      k2, y := Splay(k, m, k.l[top].value, key, t.l);
      ghost var u :| Splayed(k, t.l, key, k2, y, u) == true;
      Joined(k, t, key, k2, y, u);
      k2, p := SetR(k2, y, k2.r[top]), Some(y);
      assert Remains(k2, top, p, t, Node(u.l, u.e, t.r));
    }
  }

  lemma {:induction false} SoundHas(d: Store, t: Tree, key: Str)
    requires Sound(d, t) == true
    ensures Folded(key) in Dictionary(InOrder(t)) <==> exists i :: 0 <= i < |InOrder(t)| && SameLetters(InOrder(t)[i].key, key)
    ensures Folded(key) in Dictionary(InOrder(t)) ==> HasEntry(InOrder(t), key, Dictionary(InOrder(t))[Folded(key)].1)
  {
    DictionaryHas(InOrder(t), key);
  }

  lemma {:induction false} SoundRoot(d: Store, t: Tree)
    requires Sound(d, t) == true && t.Node?
    ensures d.root == Some(t.e.id)
  {
  }

  class Dict {
    var root: Option<nat>
    var kids: Kids
    var held: map<nat, Entry>
    var thread: Thread
    var count: int
    var nextId: nat
    ghost var tree: Tree

    /** The entries in key order */
    ghost function Contents(): seq<Entry>
      reads this
    {
      InOrder(tree)
    }

    ghost function State(): Store
      reads this
    {
      Store(root, kids, held, thread, count, nextId)
    }

    ghost predicate Valid()
      reads this
    {
      Sound(State(), tree) == true
    }

    constructor ()
      ensures Valid() && Dictionary(Contents()) == map[]
    {
      root, kids, held := None, Kids(map[], map[]), map[];
      thread := Thread(Links(map[], map[]), None, None);
      count, nextId := 0, 0;
      tree := Leaf;
    }

    lemma {:induction false} CountIsSize()
      requires Valid()
      ensures count == |Dictionary(Contents())|
    {
      SortedDiffer(Contents());
      DictionarySize(Contents());
    }

    /** dict->root = dict_splay(dict->root, key) */
    method SplayRoot(key: Str)
      requires Valid() && root.Some?
      modifies this`root, this`kids, this`tree
      ensures Valid() && Contents() == old(Contents()) && tree.Node? && Near(tree, key) == true
    {
      SoundFacts(State(), tree);
      var k, top := Splay(kids, held, root.value, key, tree);
      ghost var t :| Splayed(kids, tree, key, k, top, t) == true;
      SoundSplayed(State(), tree, key, k, top, t);
      root, kids, tree := Some(top), k, t;
    }

    method Insert(key: Option<Str>, data: int)
      requires Valid()
      modifies this
      ensures Valid()
      ensures Dictionary(Contents()) ==
        if key.None? then old(Dictionary(Contents())) else old(Dictionary(Contents()))[Folded(key.value) := (key.value, data)]
      ensures key.Some? ==> HasEntry(Contents(), key.value, data)
    {
      if key == None {
        return;
      }
      SoundFacts(State(), tree);
      if root == None {
        var e := Entry(nextId, key.value, data);
        SoundFirst(State(), tree, key.value, data);
        root, kids, held := Some(e.id), SetR(SetL(kids, e.id, None), e.id, None), held[e.id := e];
        thread := Thread(Links(map[e.id := None], map[e.id := None]), Some(e.id), Some(e.id));
        count, nextId := count + 1, nextId + 1;
        Settle(key.value, data, tree);
      } else {
        SplayRoot(key.value);
        InsertAtRoot(key.value, data);
      }
      SoundHas(State(), tree, key.value);
    }

    /** The second half of dict_insert, after the splay */
    method InsertAtRoot(key: Str, data: int)
      requires Valid() && tree.Node? && Near(tree, key) == true
      modifies this
      ensures Valid() && Dictionary(Contents()) == old(Dictionary(Contents()))[Folded(key) := (key, data)]
    {
      SoundFacts(State(), tree);
      var e, top := Entry(nextId, key, data), root.value;
      var res := Compare(key, held[top].key);
      if res < 0 {
        SoundBefore(State(), tree, key, data);
        kids, root, held := BelowNewRight(kids, e.id, top), Some(e.id), held[e.id := e];
        thread := Before(thread, e.id, top);
        count, nextId := count + 1, nextId + 1;
      } else if res > 0 {
        SoundAfter(State(), tree, key, data);
        kids, root, held := BelowNewLeft(kids, e.id, top), Some(e.id), held[e.id := e];
        thread := After(thread, e.id, top);
        count, nextId := count + 1, nextId + 1;
      } else {
        SoundSame(State(), tree, key, data);
        held := held[top := Entry(top, key, data)];
      }
      Settle(key, data, tree);
    }

    /** The tree that the nodes now make up */
    ghost method Settle(key: Str, data: int, t: Tree)
      requires Stores(t, key, data, State()) == true
      modifies this`tree
      ensures Valid() && Dictionary(Contents()) == Dictionary(InOrder(t))[Folded(key) := (key, data)]
    {
      var t2 :| Sound(State(), t2) == true && Dictionary(InOrder(t2)) == Dictionary(InOrder(t))[Folded(key) := (key, data)];
      tree := t2;
    }

    method Remove(key: Option<Str>) returns (removed: bool)
      requires Valid()
      modifies this
      ensures Valid()
      ensures removed <==> key.Some? && Folded(key.value) in old(Dictionary(Contents()))
      ensures Dictionary(Contents()) ==
        if removed then old(Dictionary(Contents())) - {Folded(key.value)} else old(Dictionary(Contents()))
    {
      SoundFacts(State(), tree);
      if root == None || key == None {
        return false;
      }
      SplayRoot(key.value);
      SoundFacts(State(), tree);
      FoundAtRoot(tree, key.value);
      if Compare(key.value, held[root.value].key) != 0 {
        return false;
      }
      RemoveRoot(key.value);
      removed := true;
    }

    /** The second half of dict_remove2, once the key is at the root */
    method RemoveRoot(key: Str)
      requires Valid() && tree.Node? && Compare(key, tree.e.key) == 0
      modifies this
      ensures Valid() && Dictionary(Contents()) == old(Dictionary(Contents())) - {Folded(key)}
    {
      SoundRoot(State(), tree);
      var top := root.value;
      var k, p := NewRoot(kids, held, top, key, State(), tree);
      ghost var u :| Remains(k, top, p, tree, u) == true;
      SoundUnrooted(State(), tree, key, p, k, u);
      ghost var d := Unrooted(State(), p, k, top);
      root, kids, held := p, Freed(k, top), held - {top};
      thread, count := Unthread(thread, top), count - 1;
      tree := u;
      assert State() == d;
    }

    method Find(key: Option<Str>) returns (found: bool, data: int)
      requires Valid()
      modifies this`root, this`kids, this`tree
      ensures Valid() && Contents() == old(Contents())
      ensures found <==> key.Some? && Folded(key.value) in Dictionary(Contents())
      ensures data == if found then Dictionary(Contents())[Folded(key.value)].1 else 0
      ensures found <==> key.Some? && exists i :: 0 <= i < |Contents()| && SameLetters(Contents()[i].key, key.value)
      ensures found ==> HasEntry(Contents(), key.value, data)
    {
      SoundFacts(State(), tree);
      if root == None || key == None {
        return false, 0;
      }
      SplayRoot(key.value);
      SoundFacts(State(), tree);
      FoundAtRoot(tree, key.value);
      SoundHas(State(), tree, key.value);
      found := Compare(key.value, held[root.value].key) == 0;
      data := if found then held[root.value].data else 0;
    }
  }

  /** What is stored under a name is found under the name in any other case. */
  method FindInAnyCase(dict: Dict, key: Str, other: Str, data: int) returns (found: bool, answer: int)
    requires dict.Valid() && SameLetters(key, other)
    modifies dict
    ensures dict.Valid() && found && answer == data
  {
    FoldedMeans(key, other);
    dict.Insert(Some(key), data);
    found, answer := dict.Find(Some(other));
  }
}
