/** The access-changing commands of src/chanserv.c on one channel's user list, for users who are not
    helpers.  Text of replies, logging, timers and mode changes are not part of the model. */
module ChanServ {
  import opened Options

  const OWNER: nat := 500
  const COOWNER: nat := 400

  /** struct userData; a handle is known by a number */
  datatype User = User(handle: nat, access: nat, seen: int, suspended: bool, present: bool)

  ghost predicate Unique(us: seq<User>) {
    forall i, j :: 0 <= i < j < |us| ==> us[i].handle != us[j].handle
  }

  /** The level of a handle on a list */
  function Level(us: seq<User>, h: nat): Option<nat> {
    if us == [] then None else if us[0].handle == h then Some(us[0].access) else Level(us[1..], h)
  }

  lemma {:induction false} LevelAt(us: seq<User>, i: nat)
    requires Unique(us) && i < |us|
    ensures Level(us, us[i].handle) == Some(us[i].access)
  {
    if i > 0 {
      assert us[0].handle != us[i].handle;
      LevelAt(us[1..], i - 1);
    }
  }

  lemma {:induction false} LevelFrom(us: seq<User>, h: nat) returns (i: nat)
    requires Level(us, h).Some?
    ensures i < |us| && us[i].handle == h && us[i].access == Level(us, h).value
  {
    if us[0].handle == h {
      i := 0;
    } else {
      i := LevelFrom(us[1..], h);
      i := i + 1;
    }
  }

  lemma {:induction false} LevelNone(us: seq<User>, h: nat)
    ensures Level(us, h) == None <==> forall i :: 0 <= i < |us| ==> us[i].handle != h
  {
    if us != [] {
      LevelNone(us[1..], h);
      if Level(us, h) == None {
        forall i | 0 <= i < |us| ensures us[i].handle != h {
          if i > 0 {
            assert us[1..][i - 1] == us[i];
          }
        }
      }
    }
  }

  lemma LevelKept(us: seq<User>, vs: seq<User>, h: nat)
    requires Unique(vs) && (forall u :: u in us ==> u in vs) && Level(us, h).Some?
    ensures Level(vs, h) == Level(us, h)
  {
    var i := LevelFrom(us, h);
    assert us[i] in vs;
    var j :| 0 <= j < |vs| && vs[j] == us[i];
    LevelAt(vs, j);
  }

  /** Lists with the same entries give the same levels. */
  lemma SameLevels(us: seq<User>, vs: seq<User>)
    requires Unique(us) && Unique(vs) && forall u :: u in us <==> u in vs
    ensures forall h :: Level(us, h) == Level(vs, h)
  {
    forall h ensures Level(us, h) == Level(vs, h) {
      if Level(us, h).Some? {
        LevelKept(us, vs, h);
      } else if Level(vs, h).Some? {
        LevelKept(vs, us, h);
      }
    }
  }

  ghost function Owners(us: seq<User>): set<nat> {
    set i | 0 <= i < |us| && us[i].access == OWNER :: us[i].handle
  }

  lemma OwnerLevel(us: seq<User>, h: nat)
    requires Unique(us)
    ensures h in Owners(us) <==> Level(us, h) == Some(OWNER)
  {
    if h in Owners(us) {
      var i :| 0 <= i < |us| && us[i].access == OWNER && us[i].handle == h;
      LevelAt(us, i);
    }
    if Level(us, h) == Some(OWNER) {
      var i := LevelFrom(us, h);
    }
  }

  // ----- What a command may do -----

  /** An entry appears, goes or changes level only when the actor outranks it, before and after. */
  ghost predicate Outranked(us: seq<User>, vs: seq<User>, actor: nat) {
    forall h :: Level(us, h) != Level(vs, h) ==>
      Level(us, actor).Some? && Below(Level(us, h), Level(us, actor).value) && Below(Level(vs, h), Level(us, actor).value)
  }

  predicate Below(l: Option<nat>, a: nat) {
    l.Some? ==> l.value < a
  }

  ghost predicate Sound(us: seq<User>) {
    Unique(us) && forall i :: 0 <= i < |us| ==> 0 < us[i].access <= OWNER
  }

  /** Nobody outranks an owner, so ranking commands leave the owners alone. */
  lemma OutrankedKeepsOwners(us: seq<User>, vs: seq<User>, actor: nat)
    requires Sound(us) && Sound(vs) && Outranked(us, vs, actor)
    ensures Owners(us) == Owners(vs)
  {
    forall h ensures h in Owners(us) <==> h in Owners(vs) {
      OwnerLevel(us, h);
      OwnerLevel(vs, h);
      if Level(us, actor).Some? {
        var i := LevelFrom(us, actor);
      }
    }
  }

  /** Two owners trade places with one former non-owner, or nothing changes. */
  ghost predicate Transferred(us: seq<User>, vs: seq<User>, from: nat, to: nat) {
    && Level(us, from) == Some(OWNER) && Level(us, to).Some? && Level(vs, to) == Some(OWNER)
    && (from != to ==> Level(vs, from).Some? && (Level(vs, from) == Some(OWNER) <==> Level(us, to) == Some(OWNER)) && Level(vs, from).value >= COOWNER)
    && (forall h :: h != from && h != to ==> Level(us, h) == Level(vs, h))
  }

  lemma SwapOne(a: set<nat>, b: set<nat>, from: nat, to: nat, both: bool)
    requires from in a && (to in a <==> both || from == to) && (from == to ==> both)
    requires forall h :: h in b <==> if h == to then true else if h == from then both else h in a
    ensures |a| == |b|
  {
    if both {
      assert a == b;
    } else {
      assert b == (a - {from}) + {to};
    }
  }

  lemma TransferKeepsCount(us: seq<User>, vs: seq<User>, from: nat, to: nat)
    requires Sound(us) && Sound(vs) && Transferred(us, vs, from, to)
    ensures |Owners(us)| == |Owners(vs)|
  {
    forall h ensures h in Owners(vs) <==> if h == to then true else if h == from then Level(us, to) == Some(OWNER) else h in Owners(us) {
      OwnerLevel(us, h);
      OwnerLevel(vs, h);
    }
    OwnerLevel(us, from);
    OwnerLevel(us, to);
    SwapOne(Owners(us), Owners(vs), from, to, Level(us, to) == Some(OWNER));
  }

  /** A user who is not an owner leaves. */
  ghost predicate Left(us: seq<User>, vs: seq<User>, actor: nat) {
    Level(us, actor).Some? && Level(us, actor) != Some(OWNER) && Level(vs, actor) == None &&
    forall h :: h != actor ==> Level(us, h) == Level(vs, h)
  }

  lemma LeavingKeepsOwners(us: seq<User>, vs: seq<User>, actor: nat)
    requires Sound(us) && Sound(vs) && Left(us, vs, actor)
    ensures Owners(us) == Owners(vs)
  {
    forall h ensures h in Owners(us) <==> h in Owners(vs) {
      OwnerLevel(us, h);
      OwnerLevel(vs, h);
    }
  }

  // ----- The list -----

  ghost predicate Same(us: seq<User>, vs: seq<User>) {
    forall h :: Level(us, h) == Level(vs, h)
  }

  function ToFront(us: seq<User>, i: nat): seq<User>
    requires i < |us|
  {
    [us[i]] + us[..i] + us[i + 1..]
  }

  lemma ToFrontSame(us: seq<User>, i: nat)
    requires Sound(us) && i < |us|
    ensures Sound(ToFront(us, i)) && Same(us, ToFront(us, i)) && |ToFront(us, i)| == |us|
    ensures forall u :: u in ToFront(us, i) <==> u in us
  {
    var vs := ToFront(us, i);
    assert forall k :: 0 <= k < |vs| ==> vs[k] == if k == 0 then us[i] else if k <= i then us[k - 1] else us[k];
    forall u | u in us ensures u in vs {
      var k :| 0 <= k < |us| && us[k] == u;
      assert vs[if k == i then 0 else if k < i then k + 1 else k] == u;
    }
    SameLevels(us, vs);
  }

  /** The user at the head of the list goes. */
  lemma DropHead(us: seq<User>)
    requires Sound(us) && us != []
    ensures Sound(us[1..]) && Level(us[1..], us[0].handle) == None
    ensures forall h :: h != us[0].handle ==> Level(us[1..], h) == Level(us, h)
  {
    forall i | 0 <= i < |us[1..]| ensures us[1..][i].handle != us[0].handle {
      assert us[1..][i] == us[i + 1];
    }
    LevelNone(us[1..], us[0].handle);
  }

  function WithAccess(us: seq<User>, h: nat, a: nat): (vs: seq<User>)
    ensures |vs| == |us|
    ensures forall i :: 0 <= i < |us| ==> vs[i] == if us[i].handle == h then us[i].(access := a) else us[i]
  {
    seq(|us|, i requires 0 <= i < |us| => if us[i].handle == h then us[i].(access := a) else us[i])
  }

  lemma {:induction false} WithAccessLevels(us: seq<User>, h: nat, a: nat, x: nat)
    ensures Level(WithAccess(us, h, a), x) == if x == h && Level(us, h).Some? then Some(a) else Level(us, x)
  {
    if us != [] {
      WithAccessLevels(us[1..], h, a, x);
      assert WithAccess(us, h, a)[1..] == WithAccess(us[1..], h, a);
    }
  }

  /** The users that a loop over the list leaves */
  function Kept(us: seq<User>, drop: User -> bool): seq<User> {
    if us == [] then [] else (if drop(us[0]) then [] else [us[0]]) + Kept(us[1..], drop)
  }

  lemma {:induction false} KeptIn(us: seq<User>, drop: User -> bool)
    ensures forall u :: u in Kept(us, drop) <==> u in us && !drop(u)
    ensures |Kept(us, drop)| <= |us|
  {
    if us != [] {
      KeptIn(us[1..], drop);
      assert us == [us[0]] + us[1..];
    }
  }

  /** One turn of the loop */
  lemma {:induction false} KeptStep(passed: seq<User>, rest: seq<User>, drop: User -> bool)
    requires rest != []
    ensures |passed + rest[1..]| == |passed + rest| - 1 && passed + rest == (passed + [rest[0]]) + rest[1..]
    ensures passed + Kept(rest, drop) == (if drop(rest[0]) then passed else passed + [rest[0]]) + Kept(rest[1..], drop)
  {
    var ks := Kept(rest[1..], drop);
    if drop(rest[0]) {
      assert Kept(rest, drop) == [] + ks == ks;
    } else {
      assert Kept(rest, drop) == [rest[0]] + ks;
      Associate(passed, [rest[0]], ks);
    }
    assert rest == [rest[0]] + rest[1..];
    Associate(passed, [rest[0]], rest[1..]);
  }

  lemma Associate(a: seq<User>, b: seq<User>, c: seq<User>)
    ensures a + (b + c) == (a + b) + c
  {
  }

  lemma {:induction false} KeptUnique(us: seq<User>, drop: User -> bool)
    requires Unique(us)
    ensures Unique(Kept(us, drop))
  {
    if us != [] {
      KeptUnique(us[1..], drop);
      KeptIn(us[1..], drop);
      var ks := Kept(us[1..], drop);
      forall i | 0 <= i < |ks| ensures ks[i].handle != us[0].handle {
        assert ks[i] in us[1..];
        var j :| 0 <= j < |us[1..]| && us[1..][j] == ks[i];
        assert us[j + 1] == ks[i];
      }
    }
  }

  /** Dropping only users below a level: whoever goes was below it, and nobody else changes. */
  lemma KeptLevels(us: seq<User>, drop: User -> bool, a: nat)
    requires Sound(us) && forall i :: 0 <= i < |us| && drop(us[i]) ==> us[i].access < a
    ensures Sound(Kept(us, drop))
    ensures forall h :: Level(Kept(us, drop), h) != Level(us, h) ==> Level(Kept(us, drop), h) == None && Below(Level(us, h), a)
  {
    var ks := Kept(us, drop);
    KeptIn(us, drop);
    KeptUnique(us, drop);
    forall i | 0 <= i < |ks| ensures 0 < ks[i].access <= OWNER {
      assert ks[i] in us;
    }
    forall h | Level(ks, h) != Level(us, h) ensures Level(ks, h) == None && Below(Level(us, h), a) {
      LevelNone(us, h);
      if Level(ks, h).Some? {
        var i := LevelFrom(ks, h);
        assert ks[i] in us;
        var j :| 0 <= j < |us| && us[j] == ks[i];
        LevelAt(us, j);
      } else if Level(us, h).Some? {
        var i := LevelFrom(us, h);
        LevelNone(ks, h);
        assert us[i] in us;
      }
    }
  }

  /** Whom cmd_mdel_user deletes */
  predicate InSpan(u: User, min: nat, max: nat, matches: nat -> bool) {
    min <= u.access <= max && matches(u.handle)
  }

  /** Whom cmd_trim_users deletes for an actor with access `a`: nobody who was seen since `limit`, is
      present, or is frozen and not on vacation; a `max` of zero stands for everyone below the actor. */
  predicate Trimmed(u: User, a: nat, min: nat, max: nat, limit: int, frozen: nat -> bool, vacation: bool) {
    !(u.seen > limit || u.present || (frozen(u.handle) && !vacation)) &&
    (min <= u.access <= max || (max == 0 && u.access < a))
  }

  // ----- Who may act -----

  /** The actor has an entry that is not suspended, with access above `l`. */
  ghost predicate ActsAbove(us: seq<User>, actor: nat, l: int) {
    exists u :: u in us && u.handle == actor && !u.suspended && u.access > l
  }

  /** The actor has such an entry, and outranks the entry of `h`. */
  ghost predicate Outranks(us: seq<User>, actor: nat, h: nat) {
    Level(us, h).Some? && ActsAbove(us, actor, Level(us, h).value)
  }

  /** The handle has an entry that can be used: any, or one that is not suspended. */
  ghost predicate Listed(us: seq<User>, h: nat, allowSuspended: bool) {
    exists u :: u in us && u.handle == h && (allowSuspended || !u.suspended)
  }

  ghost predicate SameEntries(us: seq<User>, vs: seq<User>) {
    forall u :: u in us <==> u in vs
  }

  /** Entries other than that of `h` are as they were. */
  ghost predicate OnlyEntry(us: seq<User>, vs: seq<User>, h: nat) {
    forall u: User :: u.handle != h ==> (u in vs <==> u in us)
  }

  lemma OneEntry(us: seq<User>, u: User, v: User)
    requires Sound(us) && u in us && v in us && u.handle == v.handle
    ensures u == v && Level(us, u.handle) == Some(u.access)
  {
    var i :| 0 <= i < |us| && us[i] == u;
    var j :| 0 <= j < |us| && us[j] == v;
    LevelAt(us, i);
  }

  /** What the entry that was looked up says of the actor's rank, on the list and on the same entries in
      another order */
  lemma ActsAs(us: seq<User>, vs: seq<User>, actor: nat, me: Option<User>)
    requires Sound(us) && SameEntries(us, vs) && (me.None? ==> !Listed(us, actor, false))
    requires me.Some? ==> me.value in us && me.value.handle == actor && !me.value.suspended
    ensures forall l: int :: ActsAbove(vs, actor, l) <==> me.Some? && me.value.access > l
  {
    forall l: int ensures ActsAbove(vs, actor, l) <==> me.Some? && me.value.access > l {
      if u :| u in vs && u.handle == actor && !u.suspended && u.access > l {
        assert u in us;
        assert Listed(us, actor, false);
        OneEntry(us, u, me.value);
      }
    }
  }

  /** add_channel_user puts a new entry at the head. */
  lemma AddedEntry(us: seq<User>, u: User)
    requires Sound(us) && Level(us, u.handle) == None && 0 < u.access <= OWNER
    ensures Sound([u] + us) && Level([u] + us, u.handle) == Some(u.access)
    ensures forall h :: h != u.handle ==> Level([u] + us, h) == Level(us, h)
    ensures forall v :: v in [u] + us <==> v in us || v == u
  {
    LevelNone(us, u.handle);
    assert ([u] + us)[1..] == us;
  }

  class Channel {
    const maxUsers: nat
    const isProtected: bool
    var users: seq<User>
    var userCount: int
    var registered: bool

    ghost predicate Valid()
      reads this
    {
      Sound(users) && userCount == |users|
    }

    /** _GetChannelUser without the helper override: a user who is found moves to the head. */
    method Lookup(h: nat, allowSuspended: bool) returns (found: Option<User>)
      requires Valid()
      modifies this`users
      ensures Valid() && Same(old(users), users) && SameEntries(old(users), users)
      ensures found.Some? <==> Listed(old(users), h, allowSuspended)
      ensures found.Some? ==> users != [] && users[0] == found.value && found.value.handle == h && (allowSuspended || !found.value.suspended)
      ensures found.Some? ==> Level(users, h) == Some(found.value.access)
      ensures allowSuspended && found.None? ==> Level(users, h) == None
    {
      var i := 0;
      while i < |users| && !(users[i].handle == h && (allowSuspended || !users[i].suspended))
        invariant 0 <= i <= |users|
        invariant forall k :: 0 <= k < i ==> users[k].handle == h ==> users[k].suspended && !allowSuspended
      {
        i := i + 1;
      }
      if i == |users| {
        LevelNone(users, h);
        return None;
      }
      found := Some(users[i]);
      LevelAt(users, i);
      ToFrontSame(users, i);
      users := ToFront(users, i);
    }

    /** The actor's own entry, with what it says of the actor's rank */
    method Actor(actor: nat) returns (me: Option<User>)
      requires Valid()
      modifies this`users
      ensures Valid() && Same(old(users), users) && SameEntries(old(users), users)
      ensures forall l: int :: ActsAbove(old(users), actor, l) <==> me.Some? && me.value.access > l
      ensures me.Some? ==> Level(users, actor) == Some(me.value.access) && me.value in users
      ensures me.Some? <==> Listed(old(users), actor, false)
    {
      me := Lookup(actor, false);
      ActsAs(users, old(users), actor, me);
    }

    /** del_channel_user on the user at the head, with garbage collection */
    method DelHead()
      requires Valid() && users != []
      modifies this
      ensures Valid() && users == old(users)[1..]
      ensures registered == (old(registered) && (users != [] || isProtected))
    {
      DropHead(users);
      users := users[1..];
      userCount := userCount - 1;
      if users == [] && !isProtected {
        registered := false;
      }
    }

    /** cmd_adduser.  `h` is None when the name is not a known account; `inChannel` is what
        scan_user_presence finds. */
    method AddUser(actor: nat, h: Option<nat>, level: nat, inChannel: bool, now: int) returns (done: bool)
      requires Valid()
      modifies this
      ensures Valid() && Outranked(old(users), users, actor) && registered == old(registered)
      ensures done <==> (
        && old(userCount) < maxUsers && 0 < level <= OWNER && ActsAbove(old(users), actor, level)
        && h.Some? && Level(old(users), h.value) == None)
      ensures done ==> Level(users, h.value) == Some(level)
      ensures done ==> forall u ::
        u in users <==> u in old(users) || u == User(h.value, level, if inChannel then now else 0, false, inChannel)
      ensures !done ==> Same(old(users), users) && SameEntries(old(users), users)
    {
      if userCount >= maxUsers || level == 0 || level > OWNER {
        return false;
      }
      var me := Actor(actor);
      if me == None || me.value.access <= level || h == None {
        return false;
      }
      var actee := Lookup(h.value, true);
      if actee.Some? {
        return false;
      }
      var u := User(h.value, level, 0, false, false);
      if inChannel {
        u := u.(present := true, seen := now);
      }
      AddedEntry(users, u);
      users := [u] + users;
      userCount := userCount + 1;
      return true;
    }

    /** cmd_clvl.  `blocked` is set when a temporary change meets an entry that expires itself. */
    method Clvl(actor: nat, h: Option<nat>, level: nat, blocked: bool) returns (done: bool)
      requires Valid()
      modifies this
      ensures Valid() && Outranked(old(users), users, actor) && registered == old(registered)
      ensures done <==> (
        && h.Some? && h.value != actor && Outranks(old(users), actor, h.value)
        && 0 < level <= OWNER && ActsAbove(old(users), actor, level) && !blocked)
      ensures done ==> Level(users, h.value) == Some(level) && OnlyEntry(old(users), users, h.value)
      ensures !done ==> Same(old(users), users) && SameEntries(old(users), users)
    {
      var me := Actor(actor);
      if me == None || h == None || h.value == actor {
        return false;
      }
      var victim := Lookup(h.value, true);
      if victim == None || me.value.access <= victim.value.access || level == 0 || level > OWNER || level >= me.value.access || blocked {
        return false;
      }
      forall x ensures Level(WithAccess(users, h.value, level), x) == if x == h.value then Some(level) else Level(users, x) {
        WithAccessLevels(users, h.value, level, x);
      }
      WithAccessOthers(users, h.value, level);
      users := WithAccess(users, h.value, level);
      return true;
    }

    /** cmd_deluser.  `named` says that the level given on the command line fits the victim's. */
    method DelUser(actor: nat, h: Option<nat>, named: bool) returns (done: bool)
      requires Valid()
      modifies this
      ensures Valid() && Outranked(old(users), users, actor)
      ensures done <==> h.Some? && named && Outranks(old(users), actor, h.value)
      ensures done ==> Level(users, h.value) == None && OnlyEntry(old(users), users, h.value)
      ensures done ==> registered == (old(registered) && (users != [] || isProtected))
      ensures !done ==> Same(old(users), users) && SameEntries(old(users), users) && registered == old(registered)
    {
      var me := Actor(actor);
      if me == None || h == None {
        return false;
      }
      var victim := Lookup(h.value, true);
      if victim == None || !named || me.value.access <= victim.value.access {
        return false;
      }
      DropHead(users);
      DelHead();
      return true;
    }

    /** The loops of cmd_mdel_user and cmd_trim_users */
    method DelWhere(drop: User -> bool)
      requires Valid()
      modifies this
      ensures users == Kept(old(users), drop) && userCount == |users|
      ensures registered == old(registered) || (users == [] && !isProtected)
    {
      var passed: seq<User>, rest := [], users;
      while rest != []
        invariant users == passed + rest && userCount == |users|
        invariant passed + Kept(rest, drop) == Kept(old(users), drop)
        invariant registered == old(registered) || (users == [] && !isProtected)
        decreases |rest|
      {
        KeptStep(passed, rest, drop);
        if drop(rest[0]) {
          users := passed + rest[1..];
          userCount := userCount - 1;
          if users == [] && !isProtected {
            registered := false;
          }
        } else {
          passed := passed + [rest[0]];
        }
        rest := rest[1..];
      }
    }

    /** cmd_mdel_user.  The actor stays, so the channel does, too. */
    method MDel(actor: nat, min: nat, max: nat, matches: nat -> bool) returns (done: bool)
      requires Valid()
      modifies this
      ensures Valid() && Outranked(old(users), users, actor) && registered == old(registered)
      ensures done <==> min <= max && ActsAbove(old(users), actor, max)
      ensures done ==> forall u :: u in users <==> u in old(users) && (u.access < min || u.access > max || !matches(u.handle))
      ensures !done ==> SameEntries(old(users), users)
    {
      var me := Actor(actor);
      if me == None || min > max || me.value.access <= max {
        return false;
      }
      var drop := (u: User) => InSpan(u, min, max, matches);
      KeptLevels(users, drop, me.value.access);
      KeptIn(users, drop);
      assert me.value in Kept(users, drop);
      DelWhere(drop);
      return true;
    }

    /** cmd_trim_users */
    method Trim(actor: nat, min: nat, max: nat, limit: int, frozen: nat -> bool, vacation: bool) returns (done: bool)
      requires Valid()
      modifies this
      ensures Valid() && Outranked(old(users), users, actor) && registered == old(registered)
      ensures done <==> min <= max && ActsAbove(old(users), actor, max)
      ensures done ==> Level(old(users), actor).Some?
      ensures done ==> forall u :: u in users <==> (
        && u in old(users)
        && (u.seen > limit || u.present || (frozen(u.handle) && !vacation) ||
            ((u.access < min || u.access > max) && (max > 0 || u.access >= Level(old(users), actor).value))))
      ensures !done ==> SameEntries(old(users), users)
    {
      var me := Actor(actor);
      if min > max || me == None || me.value.access <= max {
        return false;
      }
      var a := me.value.access;
      var drop := (u: User) => Trimmed(u, a, min, max, limit, frozen, vacation);
      KeptLevels(users, drop, a);
      KeptIn(users, drop);
      assert me.value in Kept(users, drop);
      DelWhere(drop);
      return true;
    }

    /** cmd_suspend */
    method Suspend(actor: nat, h: Option<nat>, now: int, durationOk: bool) returns (done: bool)
      requires Valid()
      modifies this
      ensures Valid() && Same(old(users), users) && registered == old(registered)
      ensures done <==> h.Some? && Outranks(old(users), actor, h.value) && Listed(old(users), h.value, false) && durationOk
      ensures h.Some? ==> OnlyEntry(old(users), users, h.value)
      ensures done ==> forall u :: u in old(users) && u.handle == h.value ==>
        User(h.value, u.access, if u.present then now else u.seen, true, false) in users
      ensures h.None? ==> SameEntries(old(users), users)
    {
      if h == None {
        return false;
      }
      var me := Actor(actor);
      if me == None {
        return false;
      }
      var target := Lookup(h.value, true);
      if target == None || target.value.access >= me.value.access {
        return false;
      }
      HeadOnly(users, old(users));
      if target.value.suspended {
        return false;
      }
      var u := target.value;
      if u.present {
        u := u.(present := false, seen := now);
      }
      if durationOk {
        u := u.(suspended := true);
      }
      ReplaceHead(users, u);
      users := [u] + users[1..];
      return durationOk;
    }

    /** cmd_unsuspend; `inChannel` is what scan_user_presence finds. */
    method Unsuspend(actor: nat, h: Option<nat>, now: int, inChannel: bool) returns (done: bool)
      requires Valid()
      modifies this
      ensures Valid() && Same(old(users), users) && registered == old(registered)
      ensures done <==> h.Some? && Outranks(old(users), actor, h.value) && !Listed(old(users), h.value, false)
      ensures done ==> OnlyEntry(old(users), users, h.value)
      ensures done ==> forall u :: u in old(users) && u.handle == h.value ==>
        User(h.value, u.access, if inChannel then now else u.seen, false, inChannel) in users
      ensures !done ==> SameEntries(old(users), users)
    {
      if h == None {
        return false;
      }
      var me := Actor(actor);
      if me == None {
        return false;
      }
      var target := Lookup(h.value, true);
      if target == None || target.value.access >= me.value.access {
        return false;
      }
      HeadOnly(users, old(users));
      if !target.value.suspended {
        return false;
      }
      var u := target.value.(suspended := false, present := inChannel);
      if inChannel {
        u := u.(seen := now);
      }
      ReplaceHead(users, u);
      users := [u] + users[1..];
      return true;
    }

    /** The owner who gives the channel away: the actor, or else the only owner there is */
    method Giver(actor: nat, waited: bool) returns (from: Option<nat>)
      requires Valid()
      modifies this`users
      ensures Valid() && Same(old(users), users) && SameEntries(old(users), users)
      ensures from.Some? ==> Level(users, from.value) == Some(OWNER)
      ensures forall f: nat :: from == Some(f) <==> Gives(old(users), actor, waited, f)
    {
      var me := Actor(actor);
      GivesSame(old(users), users);
      if me.Some? && me.value.access == OWNER {
        assert ActsAbove(old(users), actor, OWNER - 1);
        return if waited then Some(actor) else None;
      }
      assert !ActsAbove(old(users), actor, OWNER - 1) by {
        assert me.Some? ==> me.value.access <= OWNER;
      }
      from := None;
      ghost var us := users;
      for i := 0 to |users|
        invariant users == us && OwnersSoFar(users, i) == (if from.Some? then {from.value} else {})
        invariant from.Some? ==> Level(users, from.value) == Some(OWNER)
      {
        if users[i].access == OWNER {
          SecondOwner(users, i);
          if from.Some? {
            return None;
          }
          LevelAt(users, i);
          from := Some(users[i].handle);
        }
      }
      assert OwnersSoFar(users, |users|) == Owners(users);
    }

    /** cmd_giveownership.  `waited` says that the last transfer is long enough ago, `allowed` that
        the limits on the new owner are met and the transfer has been confirmed. */
    method GiveOwnership(actor: nat, to: Option<nat>, waited: bool, allowed: bool) returns (from: Option<nat>)
      requires Valid()
      modifies this
      ensures Valid() && registered == old(registered)
      ensures from.None? ==> Same(old(users), users) && SameEntries(old(users), users)
      ensures forall f: nat :: from == Some(f) <==>
        Gives(old(users), actor, waited, f) && to.Some? && to.value != actor && Listed(old(users), to.value, false) && allowed
      ensures from.Some? ==> to.Some? && Transferred(old(users), users, from.value, to.value)
      ensures from.Some? && from != to ==> (
        var l := Level(old(users), to.value).value;
        Level(users, from.value) == Some(if l > COOWNER then l else COOWNER))
    {
      from := Giver(actor, waited);
      if from == None || to == None || to.value == actor {
        return None;
      }
      var next := Lookup(to.value, false);
      if next == None || !allowed {
        return None;
      }
      var co := if next.value.access >= COOWNER then next.value.access else COOWNER;
      var us := WithAccess(users, to.value, OWNER);
      var vs := WithAccess(us, from.value, co);
      forall x
        ensures Level(vs, x) == if x == from.value then Some(co) else if x == to.value then Some(OWNER) else Level(users, x)
      {
        WithAccessLevels(users, to.value, OWNER, x);
        WithAccessLevels(us, from.value, co, x);
        WithAccessLevels(users, to.value, OWNER, from.value);
      }
      users := vs;
    }

    /** cmd_deleteme */
    method DeleteMe(actor: nat, confirmed: bool) returns (done: bool)
      requires Valid()
      modifies this
      ensures Valid()
      ensures done <==> Level(old(users), actor).Some? && Level(old(users), actor) != Some(OWNER) && confirmed
      ensures if done then Left(old(users), users, actor) else Same(old(users), users)
      ensures done ==> OnlyEntry(old(users), users, actor)
      ensures registered == (old(registered) && (!done || users != [] || isProtected))
    {
      var target := Lookup(actor, true);
      if target == None || target.value.access == OWNER || !confirmed {
        return false;
      }
      DropHead(users);
      DelHead();
      return true;
    }
  }

  /** Whose ownership cmd_giveownership takes: the actor's, who has to wait, or else that of the one owner */
  ghost predicate Gives(us: seq<User>, actor: nat, waited: bool, f: nat) {
    if ActsAbove(us, actor, OWNER - 1) then waited && f == actor else Owners(us) == {f}
  }

  lemma GivesSame(us: seq<User>, vs: seq<User>)
    requires Sound(us) && Sound(vs) && Same(us, vs)
    ensures Owners(us) == Owners(vs)
  {
    forall h ensures h in Owners(us) <==> h in Owners(vs) {
      OwnerLevel(us, h);
      OwnerLevel(vs, h);
    }
  }

  ghost function OwnersSoFar(us: seq<User>, n: int): set<nat>
    requires 0 <= n <= |us|
  {
    set i | 0 <= i < n && us[i].access == OWNER :: us[i].handle
  }

  lemma SecondOwner(us: seq<User>, i: nat)
    requires Sound(us) && i < |us| && us[i].access == OWNER
    ensures us[i].handle !in OwnersSoFar(us, i) && us[i].handle in Owners(us) && OwnersSoFar(us, i) <= Owners(us)
  {
  }

  lemma WithAccessOthers(us: seq<User>, h: nat, a: nat)
    ensures OnlyEntry(us, WithAccess(us, h, a), h)
  {
    var vs := WithAccess(us, h, a);
    forall u: User | u.handle != h ensures u in vs <==> u in us {
      if u in us {
        var i :| 0 <= i < |us| && us[i] == u;
        assert vs[i] == u;
      }
    }
  }

  /** The head is the only entry of its handle, on the list before it was looked up, too. */
  lemma HeadOnly(us: seq<User>, vs: seq<User>)
    requires Sound(us) && us != [] && SameEntries(us, vs)
    ensures forall u :: u in vs && u.handle == us[0].handle ==> u == us[0]
    ensures us[0] in vs
  {
    assert us[0] in us;
    forall u | u in vs && u.handle == us[0].handle ensures u == us[0] {
      OneEntry(us, u, us[0]);
    }
  }

  lemma ReplaceHead(us: seq<User>, u: User)
    requires Sound(us) && us != [] && u.handle == us[0].handle && u.access == us[0].access
    ensures Sound([u] + us[1..]) && Same(us, [u] + us[1..])
    ensures forall v: User :: v.handle != u.handle ==> (v in [u] + us[1..] <==> v in us)
    ensures forall v :: v in [u] + us[1..] && v.handle == u.handle ==> v == u
  {
    assert us == [us[0]] + us[1..];
    var vs := [u] + us[1..];
    assert vs[1..] == us[1..];
    assert forall i :: 0 < i < |us| ==> vs[i] == us[i];
  }

  // ----- Runs of commands -----

  datatype Command =
    | AddUser(h: Option<nat>, level: nat, inChannel: bool, now: int)
    | Clvl(h: Option<nat>, level: nat, blocked: bool)
    | DelUser(h: Option<nat>, named: bool)
    | MDel(min: nat, max: nat, matches: nat -> bool)
    | Trim(min: nat, max: nat, limit: int, frozen: nat -> bool, vacation: bool)
    | Suspend(h: Option<nat>, now: int, durationOk: bool)
    | Unsuspend(h: Option<nat>, now: int, inChannel: bool)
    | GiveOwnership(to: Option<nat>, waited: bool, allowed: bool)
    | DeleteMe(confirmed: bool)

  /** One step of a run.  Only a transfer of ownership and leaving are not ranking changes. */
  ghost predicate Step(us: seq<User>, vs: seq<User>, actor: nat, cmd: Command) {
    match cmd
    case GiveOwnership(to, _, _) => Same(us, vs) || (to.Some? && exists from :: Transferred(us, vs, from, to.value))
    case DeleteMe(_) => Same(us, vs) || Left(us, vs, actor)
    case _ => Outranked(us, vs, actor)
  }

  lemma StepKeepsCount(us: seq<User>, vs: seq<User>, actor: nat, cmd: Command)
    requires Sound(us) && Sound(vs) && Step(us, vs, actor, cmd)
    ensures |Owners(us)| == |Owners(vs)|
  {
    if Outranked(us, vs, actor) {
      OutrankedKeepsOwners(us, vs, actor);
    } else if cmd.DeleteMe? {
      LeavingKeepsOwners(us, vs, actor);
    } else {
      var from :| Transferred(us, vs, from, cmd.to.value);
      TransferKeepsCount(us, vs, from, cmd.to.value);
    }
  }

  method Perform(ch: Channel, actor: nat, cmd: Command)
    requires ch.Valid()
    modifies ch
    ensures ch.Valid() && Step(old(ch.users), ch.users, actor, cmd)
    ensures ch.registered == old(ch.registered) || (ch.users == [] && !ch.isProtected)
  {
    match cmd
    case AddUser(h, level, inChannel, now) => var _ := ch.AddUser(actor, h, level, inChannel, now);
    case Clvl(h, level, blocked) => var _ := ch.Clvl(actor, h, level, blocked);
    case DelUser(h, named) => var _ := ch.DelUser(actor, h, named);
    case MDel(min, max, matches) => var _ := ch.MDel(actor, min, max, matches);
    case Trim(min, max, limit, frozen, vacation) => var _ := ch.Trim(actor, min, max, limit, frozen, vacation);
    case Suspend(h, now, durationOk) => var _ := ch.Suspend(actor, h, now, durationOk);
    case Unsuspend(h, now, inChannel) => var _ := ch.Unsuspend(actor, h, now, inChannel);
    case GiveOwnership(to, waited, allowed) => var _ := ch.GiveOwnership(actor, to, waited, allowed);
    case DeleteMe(confirmed) => var _ := ch.DeleteMe(actor, confirmed);
  }

  /** Over every run the number of owners is constant, handles stay unique, and a channel that has an
      owner is never emptied and stays registered. */
  method Run(ch: Channel, script: seq<(nat, Command)>)
    requires ch.Valid()
    modifies ch
    ensures ch.Valid() && |Owners(ch.users)| == old(|Owners(ch.users)|)
    ensures old(Owners(ch.users)) != {} ==> ch.users != [] && ch.registered == old(ch.registered)
  {
    for i := 0 to |script|
      invariant ch.Valid() && |Owners(ch.users)| == old(|Owners(ch.users)|)
      invariant old(Owners(ch.users)) != {} ==> ch.registered == old(ch.registered)
    {
      ghost var us := ch.users;
      Perform(ch, script[i].0, script[i].1);
      StepKeepsCount(us, ch.users, script[i].0, script[i].1);
    }
  }
}
