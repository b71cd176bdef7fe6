/** merge_users of src/chanserv.c.  A userData record is on two doubly linked lists at once: that of
    its channel, through prev and next, and that of its handle, through u_prev and u_next. */
module ChanMerge {
  import opened Options
  import opened DoublyLinked

  /** What a record holds besides its links */
  datatype Rec = Rec(handle: nat, access: nat, seen: int)

  type Recs = map<nat, Rec>

  // ----- The lists of the handles -----

  /** Every record is on the list of its handle, and nothing else is. */
  ghost predicate HandlesOk(recs: Recs, ul: Links, heads: map<nat, Option<nat>>, hs: map<nat, seq<nat>>) {
    && (forall h :: h in hs ==> HandleOk(recs, ul, heads, h, hs[h]))
    && (forall id :: id in recs ==> recs[id].handle in hs && id in hs[recs[id].handle])
  }

  ghost predicate HandleOk(recs: Recs, ul: Links, heads: map<nat, Option<nat>>, h: nat, s: seq<nat>) {
    && Chained(s, ul) && h in heads && heads[h] == At(s, 0)
    && forall i :: 0 <= i < |s| ==> s[i] in recs && recs[s[i]].handle == h
  }

  /** The head of a list after its i-th record is gone */
  lemma HeadAfterUnlink(s: seq<nat>, k: Links, i: nat)
    requires Chained(s, k) && i < |s|
    ensures Linked(s, k, i)
    ensures At(Without(s, i), 0) == if k.prev[s[i]].Some? then At(s, 0) else k.next[s[i]]
  {
    assert Linked(s, k, i);
  }

  lemma WithoutElems(s: seq<nat>, i: nat)
    requires NoDup(s) && i < |s|
    ensures NoDup(Without(s, i)) && forall x :: x in Without(s, i) <==> x in s && x != s[i]
  {
    var t := Without(s, i);
    assert forall j :: 0 <= j < |t| ==> t[j] == if j < i then s[j] else s[j + 1];
    forall x | x in s && x != s[i] ensures x in t {
      var j :| 0 <= j < |s| && s[j] == x;
      assert t[if j < i then j else j - 1] == x;
    }
  }

  /** The handle's side of del_channel_user */
  function HeadsWithout(heads: map<nat, Option<nat>>, ul: Links, h: nat, id: nat): map<nat, Option<nat>>
    requires id in ul.prev && id in ul.next
  {
    if ul.prev[id].Some? then heads else heads[h := ul.next[id]]
  }

  lemma HandleWithout(recs: Recs, ul: Links, heads: map<nat, Option<nat>>, hs: map<nat, seq<nat>>, id: nat, i: nat)
    requires HandlesOk(recs, ul, heads, hs) && id in recs && i < |hs[recs[id].handle]| && hs[recs[id].handle][i] == id
    ensures id in ul.prev && id in ul.next
    ensures var h := recs[id].handle;
      HandlesOk(recs - {id}, Unlink(ul, id), HeadsWithout(heads, ul, h, id), hs[h := Without(hs[h], i)])
  {
    var h, s := recs[id].handle, hs[recs[id].handle];
    assert HandleOk(recs, ul, heads, h, s);
    assert Linked(s, ul, i);
    var recs2, ul2, heads2, hs2 := recs - {id}, Unlink(ul, id), HeadsWithout(heads, ul, h, id), hs[h := Without(s, i)];
    WithoutElems(s, i);
    HeadAfterUnlink(s, ul, i);
    UnlinkChained(s, ul, i);
    forall g | g in hs2 ensures HandleOk(recs2, ul2, heads2, g, hs2[g]) {
      if g == h {
        forall j | 0 <= j < |hs2[h]| ensures hs2[h][j] in recs2 && recs2[hs2[h][j]].handle == h {
          assert hs2[h][j] in Without(s, i);
        }
      } else {
        assert HandleOk(recs, ul, heads, g, hs[g]);
        forall j | 0 <= j < |s| ensures s[j] !in hs[g] {
          assert recs[s[j]].handle == h;
        }
        UnlinkElsewhere(s, hs[g], ul, i);
      }
    }
  }

  // ----- The two channels -----

  /** Distinct handles on a channel's list */
  ghost predicate OncePerHandle(s: seq<nat>, recs: Recs) {
    (forall i :: 0 <= i < |s| ==> s[i] in recs) &&
    forall i, j :: 0 <= i < j < |s| ==> recs[s[i]].handle != recs[s[j]].handle
  }

  datatype World = World(recs: Recs, cl: Links, ul: Links, heads: map<nat, Option<nat>>,
                         src: Option<nat>, tgt: Option<nat>, srcCount: int, tgtCount: int, total: int)

  /** Both lists linked, apart, and each with one record a handle; the counters are right. */
  ghost predicate WorldOk(w: World, src: seq<nat>, tgt: seq<nat>, hs: map<nat, seq<nat>>) {
    && Chained(src, w.cl) && Chained(tgt, w.cl) && Apart(src, tgt) && Apart(tgt, src)
    && w.src == At(src, 0) && w.tgt == At(tgt, 0)
    && OncePerHandle(src, w.recs) && OncePerHandle(tgt, w.recs)
    && w.srcCount == |src| && w.tgtCount == |tgt| && w.total == |w.recs|
    && HandlesOk(w.recs, w.ul, w.heads, hs)
  }

  /** del_channel_user on a record of the target channel, or of the source */
  function Deleted(w: World, id: nat, fromTarget: bool): World
    requires id in w.recs && id in w.cl.prev && id in w.cl.next && id in w.ul.prev && id in w.ul.next
  {
    var first := !w.cl.prev[id].Some?;
    World(w.recs - {id}, Unlink(w.cl, id), Unlink(w.ul, id), HeadsWithout(w.heads, w.ul, w.recs[id].handle, id),
          if first && !fromTarget then w.cl.next[id] else w.src,
          if first && fromTarget then w.cl.next[id] else w.tgt,
          if fromTarget then w.srcCount else w.srcCount - 1,
          if fromTarget then w.tgtCount - 1 else w.tgtCount,
          w.total - 1)
  }

  lemma OnceWithout(s: seq<nat>, recs: Recs, i: nat)
    requires NoDup(s) && OncePerHandle(s, recs) && i < |s|
    ensures OncePerHandle(Without(s, i), recs - {s[i]})
  {
    var t := Without(s, i);
    assert forall j :: 0 <= j < |t| ==> t[j] == if j < i then s[j] else s[j + 1];
  }

  lemma OnceElsewhere(s: seq<nat>, recs: Recs, id: nat)
    requires OncePerHandle(s, recs) && id !in s
    ensures OncePerHandle(s, recs - {id})
  {
  }

  lemma ApartWithout(s: seq<nat>, t: seq<nat>, i: nat)
    requires Apart(s, t) && Apart(t, s) && NoDup(s) && i < |s|
    ensures Apart(Without(s, i), t) && Apart(t, Without(s, i))
  {
    WithoutElems(s, i);
    var r := Without(s, i);
    forall j | 0 <= j < |r| ensures r[j] !in t {
      assert r[j] in s;
    }
  }

  function Place(s: seq<nat>, x: nat): (i: nat)
    requires x in s
    ensures i < |s| && s[i] == x
  {
    if s[0] == x then 0 else 1 + Place(s[1..], x)
  }

  lemma InHandleList(w: World, src: seq<nat>, tgt: seq<nat>, hs: map<nat, seq<nat>>, id: nat)
    requires WorldOk(w, src, tgt, hs) && id in w.recs
    ensures w.recs[id].handle in hs && id in hs[w.recs[id].handle] && id in w.ul.prev && id in w.ul.next
  {
    var h := w.recs[id].handle;
    assert HandleOk(w.recs, w.ul, w.heads, h, hs[h]);
    assert Linked(hs[h], w.ul, Place(hs[h], id));
  }

  lemma DeletedTarget(w: World, src: seq<nat>, tgt: seq<nat>, hs: map<nat, seq<nat>>, i: nat)
    requires WorldOk(w, src, tgt, hs) == true && i < |tgt|
    ensures var id := tgt[i];
      id in w.recs && id in w.cl.prev && id in w.cl.next && id in w.ul.prev && id in w.ul.next &&
      w.recs[id].handle in hs && id in hs[w.recs[id].handle] &&
      WorldOk(Deleted(w, id, true), src, Without(tgt, i),
              hs[w.recs[id].handle := Without(hs[w.recs[id].handle], Place(hs[w.recs[id].handle], id))]) == true
  {
    var id := tgt[i];
    InHandleList(w, src, tgt, hs, id);
    HeadAfterUnlink(tgt, w.cl, i);
    UnlinkChained(tgt, w.cl, i);
    UnlinkElsewhere(tgt, src, w.cl, i);
    OnceWithout(tgt, w.recs, i);
    OnceElsewhere(src, w.recs, id);
    ApartWithout(tgt, src, i);
    HandleWithout(w.recs, w.ul, w.heads, hs, id, Place(hs[w.recs[id].handle], id));
  }

  lemma DeletedSource(w: World, src: seq<nat>, tgt: seq<nat>, hs: map<nat, seq<nat>>, i: nat)
    requires WorldOk(w, src, tgt, hs) == true && i < |src|
    ensures var id := src[i];
      id in w.recs && id in w.cl.prev && id in w.cl.next && id in w.ul.prev && id in w.ul.next &&
      w.recs[id].handle in hs && id in hs[w.recs[id].handle] &&
      WorldOk(Deleted(w, id, false), Without(src, i), tgt,
              hs[w.recs[id].handle := Without(hs[w.recs[id].handle], Place(hs[w.recs[id].handle], id))]) == true
  {
    var id := src[i];
    InHandleList(w, src, tgt, hs, id);
    HeadAfterUnlink(src, w.cl, i);
    UnlinkChained(src, w.cl, i);
    UnlinkElsewhere(src, tgt, w.cl, i);
    OnceWithout(src, w.recs, i);
    OnceElsewhere(tgt, w.recs, id);
    ApartWithout(src, tgt, i);
    HandleWithout(w.recs, w.ul, w.heads, hs, id, Place(hs[w.recs[id].handle], id));
  }

  // ----- Which of two records stays -----

  /** The source's record is chosen: higher access, or the same and seen later. */
  predicate Better(s: Rec, t: Rec) {
    if s.access == t.access then s.seen > t.seen else s.access > t.access
  }

  /** The lists and the records before the merge */
  datatype Start = Start(recs: Recs, src: seq<nat>, tgt: seq<nat>)

  ghost predicate StartOk(z: Start) {
    NoDup(z.src) && NoDup(z.tgt) && Apart(z.src, z.tgt) && Apart(z.tgt, z.src) &&
    OncePerHandle(z.src, z.recs) && OncePerHandle(z.tgt, z.recs)
  }

  /** A target record loses to the source's record for the same handle. */
  ghost predicate LosesInTarget(z: Start, id: nat)
    requires StartOk(z) && id in z.recs
  {
    exists i :: 0 <= i < |z.src| && z.recs[z.src[i]].handle == z.recs[id].handle && Better(z.recs[z.src[i]], z.recs[id])
  }

  /** A source record has lost to one of the first `p` target records. */
  ghost predicate LosesInSource(z: Start, p: nat, id: nat)
    requires StartOk(z) && p <= |z.tgt| && id in z.recs
  {
    exists j :: 0 <= j < p && z.recs[z.tgt[j]].handle == z.recs[id].handle && !Better(z.recs[id], z.recs[z.tgt[j]])
  }

  /** Number of the first `p` target records whose handle is also on the source channel */
  ghost function Common(z: Start, p: nat): nat
    requires StartOk(z) && p <= |z.tgt|
  {
    if p == 0 then 0 else Common(z, p - 1) + if OnSource(z, z.recs[z.tgt[p - 1]].handle) then 1 else 0
  }

  ghost predicate OnSource(z: Start, h: nat)
    requires StartOk(z)
  {
    exists i :: 0 <= i < |z.src| && z.recs[z.src[i]].handle == h
  }

  /** After `p` target records have been looked at */
  ghost predicate Looked(z: Start, p: nat, recs: Recs, src: seq<nat>, tgt: seq<nat>) {
    && StartOk(z) && p <= |z.tgt|
    && (forall id :: id in recs ==> id in z.recs && recs[id] == z.recs[id])
    && (forall id :: id in src <==> id in z.src && !LosesInSource(z, p, id))
    && (forall id :: id in tgt <==> id in z.tgt && (Place(z.tgt, id) < p ==> !LosesInTarget(z, id)))
    && |recs| == |z.recs| - Common(z, p)
  }

  lemma PlaceAt(s: seq<nat>, i: nat)
    requires NoDup(s) && i < |s|
    ensures Place(s, s[i]) == i
  {
  }

  lemma Advance(z: Start, p: nat, id: nat)
    requires StartOk(z) && p < |z.tgt| && id in z.recs
    ensures LosesInSource(z, p + 1, id) <==>
      LosesInSource(z, p, id) || (z.recs[z.tgt[p]].handle == z.recs[id].handle && !Better(z.recs[id], z.recs[z.tgt[p]]))
  {
  }

  /** The handle is not on the source channel: nothing is removed. */
  lemma LookedAlone(z: Start, p: nat, recs: Recs, src: seq<nat>, tgt: seq<nat>)
    requires Looked(z, p, recs, src, tgt) == true && p < |z.tgt| && !OnSource(z, z.recs[z.tgt[p]].handle)
    ensures Looked(z, p + 1, recs, src, tgt) == true
  {
    forall id ensures id in src <==> id in z.src && !LosesInSource(z, p + 1, id) {
      if id in z.src {
        var i :| 0 <= i < |z.src| && z.src[i] == id;
        Advance(z, p, id);
      }
    }
    forall id ensures id in tgt <==> id in z.tgt && (Place(z.tgt, id) < p + 1 ==> !LosesInTarget(z, id)) {
      if id in z.tgt && Place(z.tgt, id) == p {
        assert !LosesInTarget(z, id);
      }
    }
  }

  /** The target's record stays and the source's goes. */
  lemma LookedTargetStays(z: Start, p: nat, recs: Recs, src: seq<nat>, tgt: seq<nat>, i: nat, k: nat)
    requires Looked(z, p, recs, src, tgt) == true && p < |z.tgt| && NoDup(src) && i < |src| && src[i] in recs
    requires k < |z.src| && z.src[k] == src[i] && z.recs[src[i]].handle == z.recs[z.tgt[p]].handle && !Better(z.recs[src[i]], z.recs[z.tgt[p]])
    ensures Looked(z, p + 1, recs - {src[i]}, Without(src, i), tgt) == true
  {
    WithoutElems(src, i);
    assert OnSource(z, z.recs[z.tgt[p]].handle);
    forall id ensures id in Without(src, i) <==> id in z.src && !LosesInSource(z, p + 1, id) {
      if id in z.src {
        var m :| 0 <= m < |z.src| && z.src[m] == id;
        Advance(z, p, id);
        if id != src[i] {
          assert z.recs[z.src[m]].handle != z.recs[z.src[k]].handle;
        }
      }
    }
    forall id ensures id in tgt <==> id in z.tgt && (Place(z.tgt, id) < p + 1 ==> !LosesInTarget(z, id)) {
      if id in z.tgt && Place(z.tgt, id) == p {
        forall m | 0 <= m < |z.src| && z.recs[z.src[m]].handle == z.recs[id].handle ensures m == k {
        }
        assert !LosesInTarget(z, id);
      }
    }
  }

  /** The source's record stays and the target's goes. */
  lemma LookedSourceStays(z: Start, p: nat, recs: Recs, src: seq<nat>, tgt: seq<nat>, i: nat, k: nat)
    requires Looked(z, p, recs, src, tgt) == true && p < |z.tgt| && NoDup(tgt) && i < |tgt| && tgt[i] == z.tgt[p] && tgt[i] in recs
    requires k < |z.src| && z.recs[z.src[k]].handle == z.recs[z.tgt[p]].handle && Better(z.recs[z.src[k]], z.recs[z.tgt[p]])
    ensures Looked(z, p + 1, recs - {tgt[i]}, src, Without(tgt, i)) == true
  {
    WithoutElems(tgt, i);
    PlaceAt(z.tgt, p);
    assert OnSource(z, z.recs[z.tgt[p]].handle);
    assert LosesInTarget(z, z.tgt[p]);
    forall id ensures id in src <==> id in z.src && !LosesInSource(z, p + 1, id) {
      if id in z.src {
        var m :| 0 <= m < |z.src| && z.src[m] == id;
        Advance(z, p, id);
        if m != k {
          assert z.recs[z.src[m]].handle != z.recs[z.src[k]].handle;
        }
      }
    }
    forall id ensures id in Without(tgt, i) <==> id in z.tgt && (Place(z.tgt, id) < p + 1 ==> !LosesInTarget(z, id)) {
      if id in z.tgt && Place(z.tgt, id) == p {
        assert id == z.tgt[p];
      }
    }
  }

  // ----- merge_users -----

  /** The scratch dictionary holds the source's records by handle. */
  ghost predicate MergeOk(merge: map<nat, nat>, recs: Recs, src: seq<nat>) {
    && (forall h :: h in merge ==> merge[h] in src && merge[h] in recs && recs[merge[h]].handle == h)
    && (forall i :: 0 <= i < |src| ==> src[i] in recs && recs[src[i]].handle in merge && merge[recs[src[i]].handle] == src[i])
  }

  /** While a target record is looked at, the source's record for its handle is in the dictionary. */
  lemma OnSourceMerged(z: Start, p: nat, recs: Recs, src: seq<nat>, tgt: seq<nat>, merge: map<nat, nat>)
    requires Looked(z, p, recs, src, tgt) == true && p < |z.tgt| && MergeOk(merge, recs, src) == true
    ensures OnSource(z, z.recs[z.tgt[p]].handle) ==> z.recs[z.tgt[p]].handle in merge
  {
    var h := z.recs[z.tgt[p]].handle;
    if OnSource(z, h) {
      var i :| 0 <= i < |z.src| && z.recs[z.src[i]].handle == h;
      assert !LosesInSource(z, p, z.src[i]);
      assert z.src[i] in src;
      var m :| 0 <= m < |src| && src[m] == z.src[i];
      assert recs[src[m]].handle in merge;
    }
  }

  lemma MergeWithout(merge: map<nat, nat>, recs: Recs, src: seq<nat>, i: nat)
    requires MergeOk(merge, recs, src) == true && NoDup(src) && i < |src|
    ensures MergeOk(merge - {recs[src[i]].handle}, recs - {src[i]}, Without(src, i)) == true
  {
    WithoutElems(src, i);
    var t, h := Without(src, i), recs[src[i]].handle;
    forall j | 0 <= j < |t| ensures t[j] in recs - {src[i]} && recs[t[j]].handle in merge - {h} && merge[recs[t[j]].handle] == t[j] {
      assert t[j] in src;
      var m :| 0 <= m < |src| && src[m] == t[j];
      assert merge[recs[src[m]].handle] == src[m];
    }
  }

  lemma MergeElsewhere(merge: map<nat, nat>, recs: Recs, src: seq<nat>, id: nat)
    requires MergeOk(merge, recs, src) == true && id !in src
    ensures MergeOk(merge, recs - {id}, src) == true
  {
  }

  /** Between the two loops and within the second: the records still in the scratch dictionary are to
      be moved, and the target's list is in order. */
  ghost predicate Moving(w: World, tgt: seq<nat>, merge: map<nat, nat>, hs: map<nat, seq<nat>>) {
    && Chained(tgt, w.cl) && w.tgt == At(tgt, 0) && w.tgtCount == |tgt| && w.total == |w.recs|
    && OncePerHandle(tgt, w.recs) && HandlesOk(w.recs, w.ul, w.heads, hs)
    && (forall h :: h in merge ==> merge[h] in w.recs && w.recs[merge[h]].handle == h)
    && (forall i :: 0 <= i < |tgt| ==> w.recs[tgt[i]].handle !in merge)
  }

  function Moved(w: World, id: nat): World {
    w.(cl := LinkFirst(w.cl, id, w.tgt), tgt := Some(id), tgtCount := w.tgtCount + 1)
  }

  lemma MoveStep(w: World, tgt: seq<nat>, merge: map<nat, nat>, hs: map<nat, seq<nat>>, h: nat)
    requires Moving(w, tgt, merge, hs) == true && h in merge
    ensures Moving(Moved(w, merge[h]), [merge[h]] + tgt, merge - {h}, hs) == true
  {
    var id := merge[h];
    assert id !in tgt;
    LinkFirstChained(tgt, w.cl, id);
    var t := [id] + tgt;
    assert forall i :: 0 < i < |t| ==> t[i] == tgt[i - 1];
  }

  /** A record is on the merged list exactly when it survives the comparison. */
  ghost predicate Survives(z: Start, id: nat)
    requires StartOk(z)
  {
    (id in z.tgt && id in z.recs && !LosesInTarget(z, id)) || (id in z.src && id in z.recs && !LosesInSource(z, |z.tgt|, id))
  }

  ghost predicate Merged(z: Start, w: World, tgt: seq<nat>, hs: map<nat, seq<nat>>) {
    && StartOk(z) && Chained(tgt, w.cl) && w.tgt == At(tgt, 0) && w.src == None && w.tgtCount == |tgt|
    && w.total == |z.recs| - Common(z, |z.tgt|) && OncePerHandle(tgt, w.recs) && HandlesOk(w.recs, w.ul, w.heads, hs)
    && (forall id :: id in tgt <==> Survives(z, id)) && (forall id :: id in tgt ==> w.recs[id] == z.recs[id])
  }

  /** After the first loop no handle is both on the target and on the source. */
  lemma HandlesApart(z: Start, recs: Recs, src: seq<nat>, tgt: seq<nat>, i: nat, m: nat)
    requires Looked(z, |z.tgt|, recs, src, tgt) && i < |tgt| && m < |src|
    ensures tgt[i] in z.recs && src[m] in z.recs && z.recs[tgt[i]].handle != z.recs[src[m]].handle
  {
    var t, x := tgt[i], src[m];
    assert t in tgt && x in src;
    PlaceBelow(z.tgt, t);
    var k :| 0 <= k < |z.src| && z.src[k] == x;
    var j :| 0 <= j < |z.tgt| && z.tgt[j] == t;
  }

  lemma ReadyToMove(z: Start, w: World, src: seq<nat>, tgt: seq<nat>, merge: map<nat, nat>, hs: map<nat, seq<nat>>)
    requires WorldOk(w, src, tgt, hs) == true && Looked(z, |z.tgt|, w.recs, src, tgt) == true && MergeOk(merge, w.recs, src) == true
    ensures Moving(w, tgt, merge, hs) == true
  {
    forall i, h | 0 <= i < |tgt| && h in merge ensures w.recs[tgt[i]].handle != h {
      var m :| 0 <= m < |src| && src[m] == merge[h];
      HandlesApart(z, w.recs, src, tgt, i, m);
    }
  }

  lemma PlaceBelow(s: seq<nat>, x: nat)
    requires x in s
    ensures Place(s, x) < |s|
  {
  }

  lemma CollectStep(merge: map<nat, nat>, recs: Recs, src: seq<nat>, n: nat)
    requires OncePerHandle(src, recs) && n < |src| && MergeOk(merge, recs, src[..n]) == true
    ensures MergeOk(merge[recs[src[n]].handle := src[n]], recs, src[..n + 1]) == true
  {
    var t := src[..n + 1];
    assert t == src[..n] + [src[n]] && t[n] == src[n];
    assert forall i :: 0 <= i < n ==> t[i] == src[..n][i];
  }

  lemma NothingLooked(z: Start)
    requires StartOk(z)
    ensures Looked(z, 0, z.recs, z.src, z.tgt) == true
  {
    assert forall id :: id in z.src ==> id in z.recs && !LosesInSource(z, 0, id);
  }

  lemma NextInTarget(w: World, src: seq<nat>, tgt: seq<nat>, hs: map<nat, seq<nat>>, z: Start, p: nat, k: nat)
    requires WorldOk(w, src, tgt, hs) == true && k < |tgt| && p < |z.tgt| && tgt[k..] == z.tgt[p..]
    ensures tgt[k] == z.tgt[p] && z.tgt[p] in w.cl.next && w.cl.next[z.tgt[p]] == At(z.tgt, p + 1)
  {
    assert tgt[k] == tgt[k..][0] == z.tgt[p..][0];
    assert Linked(tgt, w.cl, k);
    assert |tgt| - k == |z.tgt| - p;
    if k + 1 < |tgt| {
      assert tgt[k + 1] == tgt[k..][1] == z.tgt[p..][1];
    }
  }

  lemma MoveValues(merge: map<nat, nat>, h: nat)
    requires h in merge
    ensures forall id :: id in merge.Values <==> id == merge[h] || id in (merge - {h}).Values
  {
    forall id | id in merge.Values ensures id == merge[h] || id in (merge - {h}).Values {
      var g :| g in merge && merge[g] == id;
      if g != h {
        assert (merge - {h})[g] == id;
      }
    }
  }

  lemma MergeEnds(z: Start, w: World, src1: seq<nat>, tgt1: seq<nat>, tgt: seq<nat>, merge: map<nat, nat>, hs: map<nat, seq<nat>>)
    requires Looked(z, |z.tgt|, w.recs, src1, tgt1) == true && MergeOk(merge, w.recs, src1) == true
    requires Moving(w, tgt, map[], hs) == true && w.src == None
    requires forall id :: id in tgt <==> id in tgt1 || id in merge.Values
    ensures Merged(z, w, tgt, hs) == true
  {
    forall id ensures id in merge.Values <==> id in src1 {
      if id in src1 {
        var i :| 0 <= i < |src1| && src1[i] == id;
        assert merge[w.recs[src1[i]].handle] == id;
      }
    }
    forall id ensures id in tgt <==> Survives(z, id) {
      if id in z.tgt {
        PlaceBelow(z.tgt, id);
        var i :| 0 <= i < |z.tgt| && z.tgt[i] == id;
      }
      if id in z.src {
        var i :| 0 <= i < |z.src| && z.src[i] == id;
      }
    }
  }

  /** All that the first loop keeps up: `p` target records have been looked at, `k` of them kept. */
  ghost predicate Resolving(w: World, src: seq<nat>, tgt: seq<nat>, hs: map<nat, seq<nat>>, merge: map<nat, nat>, z: Start, p: nat, k: nat) {
    && WorldOk(w, src, tgt, hs) && Looked(z, p, w.recs, src, tgt) && MergeOk(merge, w.recs, src)
    && p <= |z.tgt| && k <= |tgt| && tgt[k..] == z.tgt[p..]
  }

  ghost function HandleLists(w: World, hs: map<nat, seq<nat>>, id: nat): map<nat, seq<nat>>
    requires id in w.recs && w.recs[id].handle in hs && id in hs[w.recs[id].handle]
  {
    var h := w.recs[id].handle;
    hs[h := Without(hs[h], Place(hs[h], id))]
  }

  predicate CanDelete(w: World, id: nat) {
    id in w.recs && id in w.cl.prev && id in w.cl.next && id in w.ul.prev && id in w.ul.next
  }

  /** What is known of the record the loop has come to */
  lemma AtRecord(w: World, src: seq<nat>, tgt: seq<nat>, hs: map<nat, seq<nat>>, merge: map<nat, nat>, z: Start, p: nat, k: nat)
    requires Resolving(w, src, tgt, hs, merge, z, p, k) == true && p < |z.tgt|
    ensures k < |tgt| && tgt[k] == z.tgt[p] && tgt[k] in w.recs && tgt[k] in z.recs && w.recs[tgt[k]] == z.recs[tgt[k]]
    ensures tgt[k] in w.cl.next && w.cl.next[tgt[k]] == At(z.tgt, p + 1)
    ensures var h := w.recs[tgt[k]].handle; h in merge ==> merge[h] in src && merge[h] in w.recs && w.recs[merge[h]].handle == h
  {
    assert |tgt[k..]| == |z.tgt[p..]|;
    NextInTarget(w, src, tgt, hs, z, p, k);
  }

  lemma TailAfter(tgt: seq<nat>, t0: seq<nat>, p: nat, k: nat)
    requires p < |t0| && k < |tgt| && tgt[k..] == t0[p..]
    ensures tgt[k + 1..] == t0[p + 1..] && Without(tgt, k)[k..] == t0[p + 1..]
  {
    assert tgt[k + 1..] == tgt[k..][1..] && t0[p + 1..] == t0[p..][1..];
    assert Without(tgt, k)[k..] == tgt[k + 1..];
  }

  lemma DropTargetOk(w: World, src: seq<nat>, tgt: seq<nat>, hs: map<nat, seq<nat>>, merge: map<nat, nat>, z: Start, p: nat, k: nat, su: nat)
    requires Resolving(w, src, tgt, hs, merge, z, p, k) == true
    requires p < |z.tgt| && k < |tgt| && tgt[k] == z.tgt[p] && su in src && tgt[k] in w.recs && su in w.recs
    requires w.recs[su].handle == w.recs[tgt[k]].handle && Better(w.recs[su], w.recs[tgt[k]])
    ensures CanDelete(w, tgt[k]) && w.recs[tgt[k]].handle in hs && tgt[k] in hs[w.recs[tgt[k]].handle]
    ensures Resolving(Deleted(w, tgt[k], true), src, Without(tgt, k), HandleLists(w, hs, tgt[k]), merge, z, p + 1, k) == true
  {
    DeletedTarget(w, src, tgt, hs, k);
    var m :| 0 <= m < |z.src| && z.src[m] == su;
    LookedSourceStays(z, p, w.recs, src, tgt, k, m);
    MergeElsewhere(merge, w.recs, src, tgt[k]);
    TailAfter(tgt, z.tgt, p, k);
  }

  lemma DropSourceOk(w: World, src: seq<nat>, tgt: seq<nat>, hs: map<nat, seq<nat>>, merge: map<nat, nat>, z: Start, p: nat, k: nat, su: nat)
    requires Resolving(w, src, tgt, hs, merge, z, p, k) == true
    requires p < |z.tgt| && k < |tgt| && su in src && z.tgt[p] in w.recs && su in w.recs
    requires w.recs[su].handle == w.recs[z.tgt[p]].handle && !Better(w.recs[su], w.recs[z.tgt[p]])
    ensures CanDelete(w, su) && w.recs[su].handle in hs && su in hs[w.recs[su].handle]
    ensures Resolving(Deleted(w, su, false), Without(src, Place(src, su)), tgt, HandleLists(w, hs, su), merge - {w.recs[su].handle}, z, p + 1, k + 1) == true
  {
    var i := Place(src, su);
    DeletedSource(w, src, tgt, hs, i);
    var m :| 0 <= m < |z.src| && z.src[m] == su;
    LookedTargetStays(z, p, w.recs, src, tgt, i, m);
    MergeWithout(merge, w.recs, src, i);
    TailAfter(tgt, z.tgt, p, k);
  }

  lemma CompareAlone(w: World, src: seq<nat>, tgt: seq<nat>, hs: map<nat, seq<nat>>, merge: map<nat, nat>, z: Start, p: nat, k: nat)
    requires Resolving(w, src, tgt, hs, merge, z, p, k) == true && p < |z.tgt| && k < |tgt| && z.tgt[p] in z.recs && z.recs[z.tgt[p]].handle !in merge
    ensures Resolving(w, src, tgt, hs, merge, z, p + 1, k + 1) == true
  {
    OnSourceMerged(z, p, w.recs, src, tgt, merge);
    LookedAlone(z, p, w.recs, src, tgt);
    TailAfter(tgt, z.tgt, p, k);
  }

  ghost predicate Together(tgt: seq<nat>, merge: map<nat, nat>, all: set<nat>) {
    forall id :: id in all <==> id in tgt || id in merge.Values
  }

  /** All that the second loop keeps up */
  ghost predicate Mover(w: World, tgt: seq<nat>, merge: map<nat, nat>, hs: map<nat, seq<nat>>, recs: Recs, all: set<nat>) {
    Moving(w, tgt, merge, hs) && w.recs == recs && Together(tgt, merge, all)
  }

  lemma MoverStep(w: World, tgt: seq<nat>, merge: map<nat, nat>, hs: map<nat, seq<nat>>, recs: Recs, all: set<nat>, h: nat)
    requires Mover(w, tgt, merge, hs, recs, all) == true && h in merge
    ensures Mover(Moved(w, merge[h]), [merge[h]] + tgt, merge - {h}, hs, recs, all) == true
  {
    MoveStep(w, tgt, merge, hs, h);
    MoveValues(merge, h);
    assert forall id :: id in [merge[h]] + tgt <==> id == merge[h] || id in tgt;
  }

  lemma MoverStart(z: Start, w: World, src: seq<nat>, tgt: seq<nat>, merge: map<nat, nat>, hs: map<nat, seq<nat>>, k: nat)
    requires Resolving(w, src, tgt, hs, merge, z, |z.tgt|, k) == true
    ensures Mover(w, tgt, merge, hs, w.recs, (set id | id in tgt) + merge.Values) == true
  {
    ReadyToMove(z, w, src, tgt, merge, hs);
  }

  lemma MoverEnd(z: Start, w: World, src1: seq<nat>, tgt1: seq<nat>, merge: map<nat, nat>, hs: map<nat, seq<nat>>, k: nat, w2: World, tgt: seq<nat>)
    requires Resolving(w, src1, tgt1, hs, merge, z, |z.tgt|, k) == true
    requires Mover(w2, tgt, map[], hs, w.recs, (set id | id in tgt1) + merge.Values) == true
    ensures Merged(z, w2.(src := None), tgt, hs) == true
  {
    ForgetSource(w2, tgt, hs);
    Arrived(tgt, (set id | id in tgt1) + merge.Values);
    assert forall id :: id in tgt <==> id in tgt1 || id in merge.Values;
    MergeEnds(z, w2.(src := None), src1, tgt1, tgt, merge, hs);
  }

  lemma ForgetSource(w: World, tgt: seq<nat>, hs: map<nat, seq<nat>>)
    requires Moving(w, tgt, map[], hs) == true
    ensures Moving(w.(src := None), tgt, map[], hs) == true
  {
  }

  lemma Arrived(tgt: seq<nat>, all: set<nat>)
    requires Together(tgt, map[], all) == true
    ensures forall id :: id in tgt <==> id in all
  {
    var none: map<nat, nat> := map[];
    assert none.Values == {};
  }

  /** The sequences that the lists stand for: source, target, and one for each handle */
  datatype Lists = Lists(src: seq<nat>, tgt: seq<nat>, hs: map<nat, seq<nat>>)

  /** The source's users go into the scratch dictionary. */
  method Collect(w: World, ghost l: Lists) returns (merge: map<nat, nat>)
    requires WorldOk(w, l.src, l.tgt, l.hs)
    ensures MergeOk(merge, w.recs, l.src)
  {
    merge := map[];
    var cur := w.src;
    ghost var n := 0;
    assert l.src[..0] == [];
    while cur.Some?
      invariant 0 <= n <= |l.src| && cur == At(l.src, n) && MergeOk(merge, w.recs, l.src[..n]) == true
      decreases |l.src| - n
    {
      assert Linked(l.src, w.cl, n);
      CollectStep(merge, w.recs, l.src, n);
      merge := merge[w.recs[cur.value].handle := cur.value];
      cur := w.cl.next[cur.value];
      n := n + 1;
    }
    assert l.src[..n] == l.src;
  }

  /** One target user: the scratch dictionary is asked for the same handle, and the record that is
      not chosen is deleted. */
  method Compare(w: World, ghost l: Lists, tu: nat, merge: map<nat, nat>, ghost z: Start, ghost p: nat, ghost k: nat)
    returns (w2: World, ghost l2: Lists, merge2: map<nat, nat>, ghost k2: nat)
    requires Resolving(w, l.src, l.tgt, l.hs, merge, z, p, k) == true && p < |z.tgt| && tu == z.tgt[p]
    ensures Resolving(w2, l2.src, l2.tgt, l2.hs, merge2, z, p + 1, k2) == true
  {
    AtRecord(w, l.src, l.tgt, l.hs, merge, z, p, k);
    var h := w.recs[tu].handle;
    if h !in merge {
      CompareAlone(w, l.src, l.tgt, l.hs, merge, z, p, k);
      return w, l, merge, k + 1;
    }
    var su := merge[h];
    if Better(w.recs[su], w.recs[tu]) {
      DropTargetOk(w, l.src, l.tgt, l.hs, merge, z, p, k, su);
      return Deleted(w, tu, true), Lists(l.src, Without(l.tgt, k), HandleLists(w, l.hs, tu)), merge, k;
    } else {
      DropSourceOk(w, l.src, l.tgt, l.hs, merge, z, p, k, su);
      return Deleted(w, su, false), Lists(Without(l.src, Place(l.src, su)), l.tgt, HandleLists(w, l.hs, su)), merge - {h}, k + 1;
    }
  }

  /** The first loop, over the target's list; the next record is read before this one may go. */
  method Resolve(w0: World, ghost l0: Lists, merge0: map<nat, nat>)
    returns (w: World, ghost l: Lists, merge: map<nat, nat>, ghost k: nat)
    requires WorldOk(w0, l0.src, l0.tgt, l0.hs) == true && MergeOk(merge0, w0.recs, l0.src) == true
    ensures Resolving(w, l.src, l.tgt, l.hs, merge, Start(w0.recs, l0.src, l0.tgt), |l0.tgt|, k) == true
  {
    w, l, merge, k := w0, l0, merge0, 0;
    ghost var z := Start(w0.recs, l0.src, l0.tgt);
    var cur := w.tgt;
    ghost var p: nat := 0;
    NothingLooked(z);
    while cur.Some?
      invariant cur == At(z.tgt, p) && p <= |z.tgt| && Resolving(w, l.src, l.tgt, l.hs, merge, z, p, k) == true
      decreases |z.tgt| - p
    {
      AtRecord(w, l.src, l.tgt, l.hs, merge, z, p, k);
      var next := w.cl.next[cur.value];
      w, l, merge, k := Compare(w, l, cur.value, merge, z, p, k);
      cur := next;
      p := p + 1;
    }
  }

  /** The second loop: what is left in the scratch dictionary goes to the head of the target. */
  method MoveAll(w0: World, ghost tgt0: seq<nat>, ghost hs: map<nat, seq<nat>>, merge0: map<nat, nat>, ghost all: set<nat>)
    returns (w: World, ghost tgt: seq<nat>)
    requires Mover(w0, tgt0, merge0, hs, w0.recs, all) == true
    ensures Mover(w, tgt, map[], hs, w0.recs, all) == true
  {
    w, tgt := w0, tgt0;
    var merge := merge0;
    while merge != map[]
      invariant Mover(w, tgt, merge, hs, w0.recs, all) == true
      decreases |merge|
    {
      var h :| h in merge;
      MoverStep(w, tgt, merge, hs, w0.recs, all, h);
      w, tgt := Moved(w, merge[h]), [merge[h]] + tgt;
      merge := merge - {h};
    }
  }

  /** merge_users: the target's list is the merged one, for some sequences that the lists stand for. */
  method MergeUsers(w0: World, ghost l0: Lists) returns (w: World)
    requires WorldOk(w0, l0.src, l0.tgt, l0.hs) == true
    ensures exists l: Lists :: Merged(Start(w0.recs, l0.src, l0.tgt), w, l.tgt, l.hs)
  {
    var merge := Collect(w0, l0);
    var w1, l1, merge1, k := Resolve(w0, l0, merge);
    ghost var z := Start(w0.recs, l0.src, l0.tgt);
    MoverStart(z, w1, l1.src, l1.tgt, merge1, l1.hs, k);
    var w2, tgt := MoveAll(w1, l1.tgt, l1.hs, merge1, (set id | id in l1.tgt) + merge1.Values);
    MoverEnd(z, w1, l1.src, l1.tgt, merge1, l1.hs, k, w2, tgt);
    w := w2.(src := None);
    ghost var l := Lists([], tgt, l1.hs);
    assert Merged(z, w, l.tgt, l.hs) == true;
  }

  /** Record `a` is kept rather than `b`: higher access, or the same and seen later; when both are equal
      the target's record stays. */
  ghost predicate KeptOver(z: Start, a: nat, b: nat)
    requires a in z.recs && b in z.recs
  {
    var x, y := z.recs[a], z.recs[b];
    x.access > y.access || (x.access == y.access && (x.seen > y.seen || (x.seen == y.seen && a in z.tgt)))
  }

  /** Two records of the handle `h`, the first of them after the merge */
  ghost predicate Rival(z: Start, w: World, h: nat, id: nat, other: nat) {
    && id != other && (other in z.src || other in z.tgt) && id in w.recs && other in z.recs
    && w.recs[id].handle == h && z.recs[other].handle == h
  }

  lemma OneRecord(s: seq<nat>, recs: Recs, a: nat, b: nat)
    requires OncePerHandle(s, recs)
    ensures a in s && b in s ==> a in recs && b in recs && (recs[a].handle == recs[b].handle ==> a == b)
  {
  }

  lemma SurvivorIsBest(z: Start, id: nat, other: nat)
    requires StartOk(z) && Survives(z, id) && id != other && (other in z.src || other in z.tgt) && other in z.recs
    requires z.recs[id].handle == z.recs[other].handle
    ensures KeptOver(z, id, other)
  {
    OneRecord(z.src, z.recs, id, other);
    OneRecord(z.tgt, z.recs, id, other);
    if other in z.src {
      var k :| 0 <= k < |z.src| && z.src[k] == other;
      assert !LosesInTarget(z, id);
    } else {
      var k :| 0 <= k < |z.tgt| && z.tgt[k] == other;
      assert !LosesInSource(z, |z.tgt|, id);
    }
  }

  /** Every handle of either channel is on the merged list once, with the better of its records. */
  lemma MergedIsUnion(z: Start, w: World, tgt: seq<nat>, hs: map<nat, seq<nat>>, h: nat)
    requires Merged(z, w, tgt, hs)
    ensures (exists i :: 0 <= i < |tgt| && w.recs[tgt[i]].handle == h) <==>
      OnSource(z, h) || exists j :: 0 <= j < |z.tgt| && z.recs[z.tgt[j]].handle == h
    ensures forall id, other :: id in tgt && Rival(z, w, h, id, other) ==>
      id in z.recs && w.recs[id] == z.recs[id] && KeptOver(z, id, other)
  {
    forall i | 0 <= i < |tgt| && w.recs[tgt[i]].handle == h ensures OnSource(z, h) || exists j :: 0 <= j < |z.tgt| && z.recs[z.tgt[j]].handle == h {
      assert tgt[i] in tgt && Survives(z, tgt[i]);
    }
    if OnSource(z, h) || exists j :: 0 <= j < |z.tgt| && z.recs[z.tgt[j]].handle == h {
      SomeSurvivor(z, w, tgt, hs, h);
    }
    forall id, other | id in tgt && Rival(z, w, h, id, other)
      ensures id in z.recs && w.recs[id] == z.recs[id] && KeptOver(z, id, other)
    {
      SurvivorIsBest(z, id, other);
    }
  }

  lemma SomeSurvivor(z: Start, w: World, tgt: seq<nat>, hs: map<nat, seq<nat>>, h: nat)
    requires Merged(z, w, tgt, hs)
    requires OnSource(z, h) || exists j :: 0 <= j < |z.tgt| && z.recs[z.tgt[j]].handle == h
    ensures exists i :: 0 <= i < |tgt| && w.recs[tgt[i]].handle == h
  {
    var id: nat;
    if j :| 0 <= j < |z.tgt| && z.recs[z.tgt[j]].handle == h {
      if LosesInTarget(z, z.tgt[j]) {
        var k :| 0 <= k < |z.src| && z.recs[z.src[k]].handle == h && Better(z.recs[z.src[k]], z.recs[z.tgt[j]]);
        id := z.src[k];
        forall m | 0 <= m < |z.tgt| && z.recs[z.tgt[m]].handle == h ensures m == j {
        }
        assert !LosesInSource(z, |z.tgt|, id);
      } else {
        id := z.tgt[j];
      }
    } else {
      var k :| 0 <= k < |z.src| && z.recs[z.src[k]].handle == h;
      id := z.src[k];
      assert !LosesInSource(z, |z.tgt|, id);
    }
    assert Survives(z, id) && id in tgt;
    var i :| 0 <= i < |tgt| && tgt[i] == id;
    assert w.recs[tgt[i]].handle == h;
  }
}
