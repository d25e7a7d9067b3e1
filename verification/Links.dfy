/** Which Pi-side link a vehicle's sessions ride on, and what a call leaves behind. */
module Links {
  import opened Bytes
  import opened PiSessions

  // ----- the choice of a link -----

  lemma {:induction false} FirstOfVin(c: seq<Entry>, vin: Vin, i: nat)
    requires i < |c| && c[i].vin == vin && forall k :: 0 <= k < i ==> c[k].vin != vin
    ensures OfVin(c, vin) != [] && OfVin(c, vin)[0] == c[i]
  {
    if i > 0 { FirstOfVin(c[1..], vin, i - 1); }
  }

  /** The first cached entry of the vehicle decides; without one, the stored row of domain 2 if it can be
      read; then that of domain 3; and only then is a link asked for. */
  lemma LinkChoice(s: State, vin: Vin, post: Posted, unread: set<Domain>)
    ensures forall i :: 0 <= i < |s.cache| && s.cache[i].vin == vin && (forall k :: 0 <= k < i ==> s.cache[k].vin != vin) ==>
      FoundOrOpened(s, vin, post, unread) == Posted(s.cache[i].sid)
    ensures (forall k :: 0 <= k < |s.cache| ==> s.cache[k].vin != vin) ==>
      FoundOrOpened(s, vin, post, unread) ==
        if 2 !in unread && (vin, 2) in s.idb then Posted(s.idb[(vin, 2)])
        else if 3 !in unread && (vin, 3) in s.idb then Posted(s.idb[(vin, 3)])
        else post
  {
    forall i | 0 <= i < |s.cache| && s.cache[i].vin == vin && (forall k :: 0 <= k < i ==> s.cache[k].vin != vin)
      ensures FoundOrOpened(s, vin, post, unread) == Posted(s.cache[i].sid)
    {
      FirstOfVin(s.cache, vin, i);
    }
    OfVinMember(s.cache, vin);
    if forall k :: 0 <= k < |s.cache| ==> s.cache[k].vin != vin {
      if OfVin(s.cache, vin) != [] { assert OfVin(s.cache, vin)[0] in s.cache; }
    }
  }

  // ----- one link per vehicle, over every run -----

  /** Every cached entry and every stored row of the vehicle is on link x. */
  ghost predicate AllOn(s: State, vin: Vin, x: SessionId) {
    && (forall e :: e in s.cache && e.vin == vin ==> e.sid == x)
    && (forall d :: (vin, d) in s.idb ==> s.idb[(vin, d)] == x)
  }

  ghost predicate OneLink(s: State, vin: Vin) { exists x :: AllOn(s, vin, x) }

  predicate Home(d: Domain) { d == VEHICLE_SECURITY || d == INFOTAINMENT }

  ghost predicate HomeRows(s: State) { forall k :: k in s.idb ==> Home(k.1) }

  lemma {:induction false} PutMembers(c: seq<Entry>, e: Entry)
    ensures forall x :: x in Put(c, e) ==> x in c || x == e
  {
    if c != [] { PutMembers(c[1..], e); }
  }

  lemma {:induction false} DropMembers(c: seq<Entry>, d: Domain)
    ensures forall x :: x in Drop(c, d) ==> x in c
  {
    if c != [] { DropMembers(c[1..], d); }
  }

  /** Evicting only takes entries away. */
  lemma {:induction false} EvictMembers(s: State, victims: seq<Entry>)
    ensures var t := EvictedAll(s, victims); t.idb == s.idb && forall x :: x in t.cache ==> x in s.cache
    decreases |victims|
  {
    if victims != [] {
      DropMembers(s.cache, victims[0].domain);
      EvictMembers(Evicted(s, victims[0].domain), victims[1..]);
    }
  }

  ghost predicate Fewer(t: State, s: State) {
    (forall e :: e in t.cache ==> e in s.cache) && (forall k :: k in t.idb ==> k in s.idb && t.idb[k] == s.idb[k])
  }

  lemma FewerKeepsLink(s: State, t: State, vin: Vin, x: SessionId)
    requires Fewer(t, s) && AllOn(s, vin, x)
    ensures AllOn(t, vin, x)
  {}

  lemma EvictVinIsFewer(s: State, vin: Vin, wiped: bool)
    ensures Fewer(EvictedVin(s, vin, wiped), s)
  {
    EvictMembers(s, OfVin(s.cache, vin));
  }

  /** What is found is the link everything of the vehicle is on, if anything is. */
  lemma FoundIsTheLink(s: State, vin: Vin, post: Posted, x: SessionId)
    requires AllOn(s, vin, x) && HomeRows(s)
    ensures var f := FoundOrOpened(s, vin, post, {}); f.Posted? ==> AllOn(s, vin, f.sid)
    ensures !FoundOrOpened(s, vin, post, {}).Posted? ==> FoundOrOpened(s, vin, post, {}) == post
  {
    var cached := OfVin(s.cache, vin);
    OfVinMember(s.cache, vin);
    if cached != [] { assert cached[0] in cached; } else { NoVictims(s.cache, vin); }
    forall d | (vin, d) in s.idb ensures Home(d) { assert Home((vin, d).1); }
  }

  /** Opening for one vehicle keeps every vehicle on one link; the new entry, if any, is on its vehicle's. */
  lemma OpenKeepsLink(s: State, user: Vin, d: Domain, o: Open, vin: Vin)
    requires OneLink(s, vin) && OneLink(s, user) && HomeRows(s) && Home(d) && o.unread == {}
    ensures var t := DirectOpened(s, user, d, o);
      && t.state.cache == s.cache && HomeRows(t.state) && OneLink(t.state, vin)
      && (t.entry.Some? ==> t.entry.value.vin == user && t.entry.value.domain == d && AllOn(t.state, user, t.entry.value.sid))
  {
    var x :| AllOn(s, user, x);
    FoundIsTheLink(s, user, o.post, x);
    var t := DirectOpened(s, user, d, o);
    if vin == user {
      if t.entry.Some? { assert AllOn(t.state, vin, t.entry.value.sid); } else { assert AllOn(t.state, vin, x); }
    } else {
      var y :| AllOn(s, vin, y);
      assert AllOn(t.state, vin, y);
    }
  }

  lemma PutKeepsLink(s: State, e: Entry, vin: Vin)
    requires AllOn(s, e.vin, e.sid) && OneLink(s, vin)
    ensures var t := s.(cache := Put(s.cache, e)); AllOn(t, e.vin, e.sid) && OneLink(t, vin)
  {
    var t := s.(cache := Put(s.cache, e));
    PutMembers(s.cache, e);
    assert AllOn(t, e.vin, e.sid);
    if vin != e.vin {
      var y :| AllOn(s, vin, y);
      assert AllOn(t, vin, y);
    }
  }

  lemma FewerKeepsOne(s: State, t: State, vin: Vin)
    requires Fewer(t, s) && OneLink(s, vin)
    ensures OneLink(t, vin)
  {
    var x :| AllOn(s, vin, x);
    FewerKeepsLink(s, t, vin, x);
  }

  /** What is kept for both vehicles at once. */
  ghost predicate Tidy(s: State, user: Vin, vin: Vin) { OneLink(s, user) && OneLink(s, vin) && HomeRows(s) }

  lemma FewerIsTidy(s: State, t: State, user: Vin, vin: Vin)
    requires Fewer(t, s) && Tidy(s, user, vin)
    ensures Tidy(t, user, vin)
  {
    FewerKeepsOne(s, t, user);
    FewerKeepsOne(s, t, vin);
  }

  lemma BodyIsTidy(s: State, user: Vin, o: Outcome, wiped: bool, vin: Vin)
    requires Tidy(s, user, vin)
    ensures Tidy(AfterBody(s, user, o, wiped).state, user, vin)
  {
    EvictVinIsFewer(s, user, wiped);
    FewerIsTidy(s, EvictedVin(s, user, wiped), user, vin);
  }

  lemma HydrateIsTidy(s: State, user: Vin, d: Domain, env: Env, vin: Vin)
    requires Tidy(s, user, vin)
    ensures Tidy(UseHydrated(s, user, d, env).state, user, vin)
  {
    if env.rowRead && (user, d) in s.idb {
      if env.keyOk {
        var e := Entry(d, user, s.idb[(user, d)]);
        var held := Acquired(s, e.sid);
        var x :| AllOn(s, user, x);
        assert AllOn(held, user, e.sid);
        FewerIsTidy(s, held, user, vin);
        PutKeepsLink(held, e, vin);
        BodyIsTidy(held.(cache := Put(held.cache, e)), user, env.second, env.wiped, vin);
      } else {
        FewerIsTidy(s, UseHydrated(s, user, d, env).state, user, vin);
      }
    }
  }

  lemma TwiceIsTidy(s: State, user: Vin, d: Domain, env: Env, vin: Vin)
    requires Tidy(s, user, vin) && Home(d) && env.open.unread == {} && env.retry.unread == {}
    ensures var t := OpenTwice(s, user, d, env);
      Tidy(t.state, user, vin) && (t.entry.Some? ==> t.entry.value.vin == user && AllOn(t.state, user, t.entry.value.sid))
  {
    var once := DirectOpened(s, user, d, env.open);
    OpenKeepsLink(s, user, d, env.open, vin);
    OpenKeepsLink(s, user, d, env.open, user);
    if once.result == Dead {
      var mid := EvictedVin(once.state, user, env.wiped);
      EvictVinIsFewer(once.state, user, env.wiped);
      FewerIsTidy(once.state, mid, user, vin);
      OpenKeepsLink(mid, user, d, env.retry, vin);
      OpenKeepsLink(mid, user, d, env.retry, user);
    }
  }

  lemma ColdIsTidy(s: State, user: Vin, d: Domain, env: Env, vin: Vin)
    requires Tidy(s, user, vin) && Home(d) && env.open.unread == {} && env.retry.unread == {}
    ensures Tidy(ColdStart(s, user, d, env).state, user, vin)
  {
    var t := OpenTwice(s, user, d, env);
    TwiceIsTidy(s, user, d, env, vin);
    if t.entry.Some? {
      PutKeepsLink(t.state, t.entry.value, vin);
      var cached := t.state.(cache := Put(t.state.cache, t.entry.value));
      DropMembers(cached.cache, d);
      FewerIsTidy(cached, Evicted(cached, d), user, vin);
    }
  }

  lemma UseIsTidy(s: State, user: Vin, d: Domain, env: Env, vin: Vin)
    requires Tidy(s, user, vin) && Home(d) && env.open.unread == {} && env.retry.unread == {}
    ensures Tidy(WithCached(s, user, d, env).state, user, vin)
  {
    var one := UseCached(s, user, d, env);
    BodyIsTidy(s, user, env.first, env.wiped, vin);
    if one.reply == None {
      HydrateIsTidy(one.state, user, d, env, vin);
      var two := UseHydrated(one.state, user, d, env);
      if two.reply == None { ColdIsTidy(two.state, user, d, env, vin); }
    }
  }

  /** The call uses one of the vehicle's two domains and finds its rows readable; a late row write is of a
      session still cached. */
  predicate Orderly(s: State, op: Op) {
    match op
    case Use(_, d, env) => Home(d) && env.open.unread == {} && env.retry.unread == {}
    case Refresh(_, d, _, _) => Home(d)
    case Persist(vin, d, sid) => Home(d) && Entry(d, vin, sid) in s.cache
    case _ => true
  }

  lemma RefreshIsTidy(s: State, user: Vin, d: Domain, refetched: bool, wiped: bool, vin: Vin)
    requires Tidy(s, user, vin) && Home(d)
    ensures var t := Refreshed(s, user, d, refetched, wiped); HomeRows(t) && OneLink(t, vin)
  {
    if Find(s.cache, d).Some? {
      if refetched {
        var e := Find(s.cache, d).value;
        FindsMember(s.cache, d);
        var x :| AllOn(s, vin, x);
        assert AllOn(Refreshed(s, user, d, refetched, wiped), vin, x);
      } else {
        EvictVinIsFewer(s, user, wiped);
        FewerIsTidy(s, EvictedVin(s, user, wiped), user, vin);
      }
    }
  }

  /** The vehicle an operation is for. */
  function For(op: Op, otherwise: Vin): Vin { if op.CloseAll? then otherwise else op.vin }

  lemma DidIsTidy(s: State, op: Op, vin: Vin)
    requires Tidy(s, For(op, vin), vin) && Orderly(s, op)
    ensures OneLink(Did(s, op), vin) && HomeRows(Did(s, op))
  {
    match op
    case Use(user, d, env) => UseIsTidy(s, user, d, env, vin);
    case Refresh(user, d, refetched, wiped) => RefreshIsTidy(s, user, d, refetched, wiped, vin);
    case Evict(user, wiped) =>
      EvictVinIsFewer(s, user, wiped);
      FewerIsTidy(s, Did(s, op), user, vin);
    case CloseAll(forget) =>
      EvictMembers(s, s.cache);
      FewerIsTidy(s, Did(s, op), vin, vin);
    case Persist(user, d, sid) =>
      var x :| AllOn(s, vin, x);
      assert AllOn(Did(s, op), vin, x);
  }

  ghost predicate AllOrderly(idb: map<(Vin, Domain), SessionId>, ops: seq<Op>) {
    forall i :: 0 <= i < |ops| ==> Orderly(After(idb, ops[..i]), ops[i])
  }

  /** In every orderly run from a store whose vehicles are on one link each (an empty one, say), all cached
      sessions of a vehicle share one Pi-side link, whatever was opened, lost, evicted or reopened. */
  lemma {:induction false} SessionsShareLink(idb: map<(Vin, Domain), SessionId>, ops: seq<Op>, vin: Vin)
    requires AllOrderly(idb, ops)
    requires (forall k :: k in idb ==> Home(k.1)) && (forall k, l :: k in idb && l in idb && k.0 == l.0 ==> idb[k] == idb[l])
    ensures OneLink(After(idb, ops), vin) && HomeRows(After(idb, ops))
  {
    var s := After(idb, ops);
    if ops == [] {
      if d :| (vin, d) in idb { assert AllOn(s, vin, idb[(vin, d)]); } else { assert AllOn(s, vin, SessionId(vin, 0)); }
    } else {
      var n := |ops| - 1;
      forall i | 0 <= i < n ensures Orderly(After(idb, ops[..n][..i]), ops[..n][i]) { assert ops[..n][..i] == ops[..i]; }
      SessionsShareLink(idb, ops[..n], vin);
      SessionsShareLink(idb, ops[..n], For(ops[n], vin));
      DidIsTidy(After(idb, ops[..n]), ops[n], vin);
    }
  }

  /** So the two domains' entries are on the same link. */
  lemma DomainsShareLink(idb: map<(Vin, Domain), SessionId>, ops: seq<Op>, a: Entry, b: Entry)
    requires AllOrderly(idb, ops)
    requires (forall k :: k in idb ==> Home(k.1)) && (forall k, l :: k in idb && l in idb && k.0 == l.0 ==> idb[k] == idb[l])
    requires a in After(idb, ops).cache && b in After(idb, ops).cache && a.vin == b.vin
    ensures a.sid == b.sid
  {
    SessionsShareLink(idb, ops, a.vin);
    var x :| AllOn(After(idb, ops), a.vin, x);
  }

  // ----- what a call leaves -----

  /** A cached session answers without touching anything, unless its link is dead. */
  lemma CachedUseIsFree(s: State, vin: Vin, d: Domain, env: Env)
    requires Find(s.cache, d).Some? && env.first != Dead
    ensures WithCached(s, vin, d, env) == Stage(s, Some(env.first))
  {}

  /** A call that succeeds leaves its domain cached, for its vehicle unless another's was there. */
  lemma SuccessIsCached(s: State, vin: Vin, d: Domain, env: Env)
    requires WithCached(s, vin, d, env).reply == Some(Ok)
    ensures var e := Find(WithCached(s, vin, d, env).state.cache, d); e.Some? && (NoStranger(s, vin, d) ==> e.value.vin == vin)
  {
    var one := UseCached(s, vin, d, env);
    if one.reply == None {
      var two := UseHydrated(one.state, vin, d, env);
      if two.reply.Some? {
        PutFinds(one.state.cache, Entry(d, vin, one.state.idb[(vin, d)]), d);
      } else {
        var t := OpenTwice(two.state, vin, d, env);
        PutFinds(t.state.cache, t.entry.value, d);
      }
    }
  }

  /** A stored session whose keys still derive is resumed on its own link, and stays cached unless that is dead. */
  lemma StoredIsResumed(s: State, vin: Vin, d: Domain, env: Env)
    requires Find(s.cache, d) == None && (vin, d) in s.idb && env.rowRead && env.keyOk && env.second != Dead
    ensures var r := WithCached(s, vin, d, env);
      r.reply == Some(env.second) && Find(r.state.cache, d) == Some(Entry(d, vin, s.idb[(vin, d)])) && r.state.idb == s.idb
  {
    PutFinds(s.cache, Entry(d, vin, s.idb[(vin, d)]), d);
  }

  /** A dead cached link is replaced: with the store wiped and a fresh link posted, the call goes through on it. */
  lemma DeadLinkIsReplaced(s: State, vin: Vin, d: Domain, env: Env, sid: SessionId)
    requires Sound(s, None) && Find(s.cache, d).Some? && Home(d) && env.first == Dead && env.wiped && env.rowRead
    requires env.open.post == Posted(sid) && env.open.handshake == Ok && env.third == Ok
    ensures var r := WithCached(s, vin, d, env); r.reply == Some(Ok) && Find(r.state.cache, d) == Some(Entry(d, vin, sid))
  {
    var mid := EvictedVin(s, vin, true);
    EvictVinKeeps(s, vin, true);
    EvictVinIsFewer(s, vin, true);
    assert (vin, d) !in mid.idb;
    assert UseHydrated(mid, vin, d, env) == Stage(mid, None);
    OpensPosted(mid, vin, d, env.open, sid);
    PutFinds(mid.cache, Entry(d, vin, sid), d);
  }

  lemma OpensPosted(s: State, vin: Vin, d: Domain, o: Open, sid: SessionId)
    requires OfVin(s.cache, vin) == [] && (vin, VEHICLE_SECURITY) !in s.idb && (vin, INFOTAINMENT) !in s.idb
    requires o.post == Posted(sid) && o.handshake == Ok
    ensures var t := DirectOpened(s, vin, d, o); t.result == Ok && t.entry == Some(Entry(d, vin, sid)) && t.state.cache == s.cache
  {}

  /** A cold start that finds a dead link evicts and opens once more, on the link posted then. */
  lemma DeadOpenIsRetried(s: State, vin: Vin, d: Domain, env: Env, sid: SessionId)
    requires Sound(s, None) && (env.open.post.Posted? ==> env.open.post.sid.vin == vin)
    requires Find(s.cache, d) == None && (vin, d) !in s.idb && env.rowRead && env.wiped
    requires DirectOpened(s, vin, d, env.open).result == Dead
    requires env.retry.post == Posted(sid) && env.retry.handshake == Ok && env.third == Ok
    ensures var r := WithCached(s, vin, d, env); r.reply == Some(Ok) && Find(r.state.cache, d) == Some(Entry(d, vin, sid))
  {
    var once := DirectOpened(s, vin, d, env.open).state;
    OpenKeeps(s, vin, d, env.open);
    var mid := EvictedVin(once, vin, true);
    EvictVinKeeps(once, vin, true);
    OpensPosted(mid, vin, d, env.retry, sid);
    PutFinds(mid.cache, Entry(d, vin, sid), d);
  }

  /** A fresh session whose first command fails is not kept. */
  lemma FailedFirstIsDropped(s: State, vin: Vin, d: Domain, env: Env)
    requires Unique(OpenTwice(s, vin, d, env).state.cache) && OpenTwice(s, vin, d, env).entry.Some? && env.third != Ok
    requires OpenTwice(s, vin, d, env).entry.value.domain == d
    ensures var r := ColdStart(s, vin, d, env); r.reply == Some(env.third) && Find(r.state.cache, d) == None
  {
    var t := OpenTwice(s, vin, d, env);
    PutShape(t.state.cache, t.entry.value);
    PutFinds(t.state.cache, t.entry.value, d);
    DropFinds(Put(t.state.cache, t.entry.value), d, d);
  }

  /** A refresh stores the session it refreshed, under that session's own vehicle. */
  lemma RefreshStores(s: State, vin: Vin, d: Domain, wiped: bool)
    requires Find(s.cache, d).Some?
    ensures var t, e := Refreshed(s, vin, d, true, wiped), Find(s.cache, d).value;
      t.cache == s.cache && t.refs == s.refs && (e.vin, d) in t.idb && t.idb[(e.vin, d)] == e.sid
  {}

  /** A row whose keys no longer derive is dropped, and the call goes on without it. */
  lemma BadRowIsDropped(s: State, vin: Vin, d: Domain, env: Env)
    requires (vin, d) in s.idb && env.rowRead && !env.keyOk && env.wiped
    ensures var r := UseHydrated(s, vin, d, env);
      r.reply == None && r.state.idb == s.idb - {(vin, d)} && r.state.cache == s.cache && r.state.refs == s.refs
  {}

  /** An evicted vehicle's links have no count left, whatever it was, and its rows are gone if the store obeys. */
  lemma EvictionLeavesNothing(s: State, vin: Vin, wiped: bool, e: Entry)
    requires e in s.cache && e.vin == vin
    ensures var t := EvictedVin(s, vin, wiped);
      Refs(t, e.sid) == 0 && (wiped ==> (vin, VEHICLE_SECURITY) !in t.idb && (vin, INFOTAINMENT) !in t.idb)
  {
    OfVinMember(s.cache, vin);
    assert e in OfVin(s.cache, vin);
  }

  lemma OpenIsStored(s: State, vin: Vin, d: Domain, o: Open)
    ensures var t := DirectOpened(s, vin, d, o);
      t.entry.Some? && o.persisted ==> (vin, d) in t.state.idb && t.state.idb[(vin, d)] == t.entry.value.sid
  {}

  /** A session survives a reload of the page: opened afresh and stored, then resumed from the store alone,
      it is on the same link. */
  lemma ReloadResumes(s: State, vin: Vin, d: Domain, env: Env, later: Env)
    requires Find(s.cache, d) == None && (vin, d) !in s.idb && env.rowRead
    requires env.open.handshake == Ok && env.open.persisted && env.open.post.Posted? && env.third == Ok
    requires later.rowRead && later.keyOk && later.second == Ok
    ensures var before := WithCached(s, vin, d, env).state;
      var resumed := WithCached(State(map[], [], before.idb, []), vin, d, later);
      resumed.reply == Some(Ok) && Find(resumed.state.cache, d) == Find(before.cache, d)
  {
    var t := DirectOpened(s, vin, d, env.open);
    OpenIsStored(s, vin, d, env.open);
    assert OpenTwice(s, vin, d, env) == t;
    PutFinds(t.state.cache, t.entry.value, d);
    StoredIsResumed(State(map[], [], WithCached(s, vin, d, env).state.idb, []), vin, d, later);
  }

  lemma {:induction false} EvictsEverything(s: State)
    ensures EvictedAll(s, s.cache).cache == []
    decreases |s.cache|
  {
    if s.cache != [] {
      assert Evicted(s, s.cache[0].domain).cache == s.cache[1..];
      EvictsEverything(Evicted(s, s.cache[0].domain));
    }
  }

  /** Closing all leaves nothing cached, and, where counts were exact, no reference: every link was deleted. */
  lemma CloseAllLeavesNothing(s: State, forget: bool)
    requires Exact(s, None)
    ensures var t := AllClosed(s, forget);
      t.cache == [] && (forall sid :: Refs(t, sid) == 0) && t.idb == (if forget then map[] else s.idb)
  {
    EvictsEverything(s);
    EvictAllKeeps(s, s.cache);
    EvictMembers(s, s.cache);
    assert forall sid :: Count([], sid) == 0;
  }
}
