/** The client's cache of car sessions, and the reference counts of the Pi-side links they share. */
module PiSessions {
  import opened Bytes

  type Vin = string
  type Domain = nat

  const VEHICLE_SECURITY: Domain := 2
  const INFOTAINMENT: Domain := 3

  /** The Pi opens every link for one vehicle. */
  datatype SessionId = SessionId(vin: Vin, serial: nat)

  datatype Entry = Entry(domain: Domain, vin: Vin, sid: SessionId)

  /** A DELETE is recorded with the number of cached entries still bound to the id. */
  datatype Event = Acquire(sid: SessionId) | Release(sid: SessionId) | Delete(sid: SessionId, bound: nat)

  /** The cache is a JavaScript Map: its entries in insertion order. */
  datatype State = State(
    refs: map<SessionId, nat>, cache: seq<Entry>, idb: map<(Vin, Domain), SessionId>, log: seq<Event>)

  // ----- the cache as an ordered map -----

  function Find(c: seq<Entry>, d: Domain): Option<Entry> {
    if c == [] then None else if c[0].domain == d then Some(c[0]) else Find(c[1..], d)
  }

  function Put(c: seq<Entry>, e: Entry): seq<Entry> {
    if c == [] then [e] else if c[0].domain == e.domain then [e] + c[1..] else [c[0]] + Put(c[1..], e)
  }

  function Drop(c: seq<Entry>, d: Domain): seq<Entry> {
    if c == [] then [] else if c[0].domain == d then c[1..] else [c[0]] + Drop(c[1..], d)
  }

  function OfVin(c: seq<Entry>, vin: Vin): seq<Entry> {
    if c == [] then [] else (if c[0].vin == vin then [c[0]] else []) + OfVin(c[1..], vin)
  }

  function Count(c: seq<Entry>, sid: SessionId): nat {
    if c == [] then 0 else (if c[0].sid == sid then 1 else 0) + Count(c[1..], sid)
  }

  ghost predicate Unique(c: seq<Entry>) {
    c == [] || (Find(c[1..], c[0].domain) == None && Unique(c[1..]))
  }

  ghost predicate Owned(c: seq<Entry>) { forall e :: e in c ==> e.sid.vin == e.vin }

  // ----- references -----

  function Refs(s: State, sid: SessionId): nat { if sid in s.refs then s.refs[sid] else 0 }

  function Acquired(s: State, sid: SessionId): State {
    s.(refs := s.refs[sid := Refs(s, sid) + 1], log := s.log + [Acquire(sid)])
  }

  /** A missing count is taken for one; the last release deletes the link. */
  function Released(s: State, sid: SessionId): State {
    if Refs(s, sid) > 1
    then s.(refs := s.refs[sid := Refs(s, sid) - 1], log := s.log + [Release(sid)])
    else s.(refs := s.refs - {sid}, log := s.log + [Release(sid)] + [Delete(sid, Count(s.cache, sid))])
  }

  function Evicted(s: State, d: Domain): State {
    var e := Find(s.cache, d);
    if e == None then s else Released(s.(cache := Drop(s.cache, d)), e.value.sid)
  }

  function EvictedAll(s: State, victims: seq<Entry>): State
    decreases |victims|
  {
    if victims == [] then s else EvictedAll(Evicted(s, victims[0].domain), victims[1..])
  }

  function Wiped(idb: map<(Vin, Domain), SessionId>, vin: Vin): map<(Vin, Domain), SessionId> {
    idb - {(vin, VEHICLE_SECURITY), (vin, INFOTAINMENT)}
  }

  /** `wiped` is whether the store's deletes go through. */
  function EvictedVin(s: State, vin: Vin, wiped: bool): State {
    var victims := OfVin(s.cache, vin);
    var t := EvictedAll(s, victims);
    t.(idb := if wiped then Wiped(t.idb, vin) else t.idb, refs := t.refs - set e | e in victims :: e.sid)
  }

  // ----- opening, hydrating, using -----

  /** How a request to the car ends: Dead is an error that says the link is gone. */
  datatype Outcome = Ok | Dead | Failed

  datatype Posted = Posted(sid: SessionId) | PostError(dead: bool)

  /** `unread` are the stored rows whose read fails; the lookup passes over them. */
  datatype Open = Open(post: Posted, handshake: Outcome, persisted: bool, unread: set<Domain>)

  datatype Opened = Opened(state: State, result: Outcome, entry: Option<Entry>)

  function Stored(s: State, vin: Vin, unread: set<Domain>): Option<SessionId> {
    if VEHICLE_SECURITY !in unread && (vin, VEHICLE_SECURITY) in s.idb then Some(s.idb[(vin, VEHICLE_SECURITY)])
    else if INFOTAINMENT !in unread && (vin, INFOTAINMENT) in s.idb then Some(s.idb[(vin, INFOTAINMENT)])
    else None
  }

  function FoundOrOpened(s: State, vin: Vin, post: Posted, unread: set<Domain>): Posted {
    var cached := OfVin(s.cache, vin);
    if cached != [] then Posted(cached[0].sid)
    else if Stored(s, vin, unread).Some? then Posted(Stored(s, vin, unread).value)
    else post
  }

  function DirectOpened(s: State, vin: Vin, d: Domain, o: Open): Opened {
    var found := FoundOrOpened(s, vin, o.post, o.unread);
    if found.PostError? then Opened(s, if found.dead then Dead else Failed, None)
    else
      var held := Acquired(s, found.sid);
      if o.handshake != Ok then Opened(Released(held, found.sid), o.handshake, None)
      else Opened(if o.persisted then held.(idb := held.idb[(vin, d) := found.sid]) else held, Ok, Some(Entry(d, vin, found.sid)))
  }

  /** What the outside world does during one call. */
  datatype Env = Env(first: Outcome, rowRead: bool, keyOk: bool, second: Outcome, open: Open, retry: Open, third: Outcome, wiped: bool)

  /** reply is None while the call falls through to its next stage. */
  datatype Stage = Stage(state: State, reply: Option<Outcome>)

  function AfterBody(s: State, vin: Vin, o: Outcome, wiped: bool): Stage {
    if o == Dead then Stage(EvictedVin(s, vin, wiped), None) else Stage(s, Some(o))
  }

  function UseCached(s: State, vin: Vin, d: Domain, env: Env): Stage {
    if Find(s.cache, d) == None then Stage(s, None) else AfterBody(s, vin, env.first, env.wiped)
  }

  function UseHydrated(s: State, vin: Vin, d: Domain, env: Env): Stage {
    if !env.rowRead then Stage(s, Some(Failed))
    else if (vin, d) !in s.idb then Stage(s, None)
    else if !env.keyOk then Stage(if env.wiped then s.(idb := s.idb - {(vin, d)}) else s, None)
    else
      var sid := s.idb[(vin, d)];
      var held := Acquired(s, sid);
      AfterBody(held.(cache := Put(held.cache, Entry(d, vin, sid))), vin, env.second, env.wiped)
  }

  function OpenTwice(s: State, vin: Vin, d: Domain, env: Env): Opened {
    var once := DirectOpened(s, vin, d, env.open);
    if once.result == Dead then DirectOpened(EvictedVin(once.state, vin, env.wiped), vin, d, env.retry) else once
  }

  function ColdStart(s: State, vin: Vin, d: Domain, env: Env): Stage {
    var link := OpenTwice(s, vin, d, env);
    if link.entry == None then Stage(link.state, Some(link.result))
    else
      var cached := link.state.(cache := Put(link.state.cache, link.entry.value));
      Stage(if env.third == Ok then cached else Evicted(cached, d), Some(env.third))
  }

  function WithCached(s: State, vin: Vin, d: Domain, env: Env): Stage {
    var one := UseCached(s, vin, d, env);
    if one.reply.Some? then one
    else
      var two := UseHydrated(one.state, vin, d, env);
      if two.reply.Some? then two else ColdStart(two.state, vin, d, env)
  }

  function Refreshed(s: State, vin: Vin, d: Domain, refetched: bool, wiped: bool): State {
    if Find(s.cache, d) == None then s
    else if refetched then
      var e := Find(s.cache, d).value;
      s.(idb := s.idb[(e.vin, d) := e.sid])
    else EvictedVin(s, vin, wiped)
  }

  function AllClosed(s: State, forget: bool): State {
    var t := EvictedAll(s, s.cache);
    if forget then t.(idb := map[]) else t
  }

  // ----- whole runs -----

  /** Persist is a command's row write, which is not waited for. */
  datatype Op =
    | Use(vin: Vin, domain: Domain, env: Env)
    | Refresh(vin: Vin, domain: Domain, refetched: bool, wiped: bool)
    | Evict(vin: Vin, wiped: bool)
    | CloseAll(forget: bool)
    | Persist(vin: Vin, domain: Domain, sid: SessionId)

  function Did(s: State, op: Op): State {
    match op
    case Use(vin, d, env) => WithCached(s, vin, d, env).state
    case Refresh(vin, d, refetched, wiped) => Refreshed(s, vin, d, refetched, wiped)
    case Evict(vin, wiped) => EvictedVin(s, vin, wiped)
    case CloseAll(forget) => AllClosed(s, forget)
    case Persist(vin, d, sid) => s.(idb := s.idb[(vin, d) := sid])
  }

  /** The Pi answers a POST with a link to the vehicle asked for, and rows name the vehicle's own links. */
  predicate Honest(op: Op) {
    match op
    case Use(vin, _, env) => HonestEnv(vin, env)
    case Persist(vin, _, sid) => sid.vin == vin
    case _ => true
  }

  predicate HonestEnv(vin: Vin, env: Env) {
    (env.open.post.Posted? ==> env.open.post.sid.vin == vin) && (env.retry.post.Posted? ==> env.retry.post.sid.vin == vin)
  }

  ghost predicate HonestRows(idb: map<(Vin, Domain), SessionId>) { forall k :: k in idb ==> idb[k].vin == k.0 }

  function After(idb: map<(Vin, Domain), SessionId>, ops: seq<Op>): State {
    if ops == [] then State(map[], [], idb, []) else Did(After(idb, ops[..|ops| - 1]), ops[|ops| - 1])
  }

  // ----- what is claimed -----

  function Held(held: Option<SessionId>, sid: SessionId): nat { if held == Some(sid) then 1 else 0 }

  ghost predicate Shaped(s: State) { Unique(s.cache) && Owned(s.cache) && HonestRows(s.idb) }

  ghost predicate DeletesUnused(log: seq<Event>) { forall i :: 0 <= i < |log| && log[i].Delete? ==> log[i].bound == 0 }

  /** No count is too low, and no link was deleted under a cached entry. `held` is a reference not cached yet. */
  ghost predicate Sound(s: State, held: Option<SessionId>) {
    Shaped(s) && DeletesUnused(s.log) && Enough(s, held)
  }

  ghost predicate Enough(s: State, held: Option<SessionId>) {
    forall sid :: Refs(s, sid) >= Count(s.cache, sid) + Held(held, sid)
  }

  function Live(log: seq<Event>, sid: SessionId): int {
    if log == [] then 0
    else
      var e := log[|log| - 1];
      Live(log[..|log| - 1], sid) + if e == Acquire(sid) then 1 else if e == Release(sid) then -1 else 0
  }

  ghost predicate LastRelease(log: seq<Event>, i: int, sid: SessionId) {
    0 <= i < |log| && log[i] == Release(sid) && Live(log[..i + 1], sid) == 0
  }

  /** A DELETE follows a release exactly when that was the last reference. */
  ghost predicate DeletesExact(log: seq<Event>) {
    && (forall i :: 0 <= i < |log| && log[i].Delete? ==> LastRelease(log, i - 1, log[i].sid))
    && (forall i, sid :: LastRelease(log, i, sid) ==> i + 1 < |log| && log[i + 1] == Delete(sid, 0))
  }

  /** Every count is the number of cached entries (and the reference in hand). */
  ghost predicate Exact(s: State, held: Option<SessionId>) {
    Sound(s, held) && DeletesExact(s.log) && Balanced(s, held) && Tallied(s)
  }

  ghost predicate Balanced(s: State, held: Option<SessionId>) {
    forall sid :: Refs(s, sid) == Count(s.cache, sid) + Held(held, sid)
  }

  ghost predicate Tallied(s: State) { forall sid :: Refs(s, sid) == Live(s.log, sid) }

  // ----- the log -----

  lemma LiveSnoc(log: seq<Event>, e: Event, sid: SessionId)
    ensures Live(log + [e], sid) == Live(log, sid) + if e == Acquire(sid) then 1 else if e == Release(sid) then -1 else 0
  {
    assert (log + [e])[..|log|] == log;
  }

  lemma LastReleaseStable(log: seq<Event>, more: seq<Event>, i: int, sid: SessionId)
    requires i < |log|
    ensures LastRelease(log, i, sid) <==> LastRelease(log + more, i, sid)
  {
    if 0 <= i { assert (log + more)[..i + 1] == log[..i + 1]; }
  }

  lemma LogGrows(log: seq<Event>, e: Event)
    requires DeletesExact(log) && !e.Delete? && (e.Release? ==> Live(log, e.sid) != 1)
    ensures DeletesExact(log + [e])
  {
    var longer := log + [e];
    forall i, sid | i < |log| ensures LastRelease(log, i, sid) <==> LastRelease(longer, i, sid) {
      LastReleaseStable(log, [e], i, sid);
    }
    forall sid ensures !LastRelease(longer, |log|, sid) {
      LiveSnoc(log, e, sid);
      assert longer[..|log| + 1] == longer;
    }
  }

  lemma LogDeletes(log: seq<Event>, sid: SessionId)
    requires DeletesExact(log) && Live(log, sid) == 1
    ensures DeletesExact(log + [Release(sid)] + [Delete(sid, 0)])
  {
    var n, longer := |log|, log + [Release(sid)] + [Delete(sid, 0)];
    forall i, x | i < n ensures LastRelease(log, i, x) <==> LastRelease(longer, i, x) {
      assert log + [Release(sid), Delete(sid, 0)] == longer;
      LastReleaseStable(log, [Release(sid), Delete(sid, 0)], i, x);
    }
    LiveSnoc(log, Release(sid), sid);
    assert longer[..n + 1] == log + [Release(sid)];
    assert LastRelease(longer, n, sid);
    assert forall x :: LastRelease(longer, n, x) ==> x == sid;
    assert longer[n + 1].Delete?;
  }

  // ----- the cache -----

  lemma {:induction false} FindsMember(c: seq<Entry>, d: Domain)
    ensures Find(c, d).Some? ==> Find(c, d).value in c && Find(c, d).value.domain == d
    ensures Find(c, d) == None ==> forall e :: e in c ==> e.domain != d
  {
    if c != [] && c[0].domain != d {
      FindsMember(c[1..], d);
      assert c == [c[0]] + c[1..];
    }
  }

  lemma {:induction false} DropFinds(c: seq<Entry>, d: Domain, x: Domain)
    requires Unique(c)
    ensures Find(Drop(c, d), x) == if x == d then None else Find(c, x)
  {
    if c != [] && c[0].domain != d { DropFinds(c[1..], d, x); }
  }

  lemma {:induction false} DropShape(c: seq<Entry>, d: Domain)
    requires Unique(c)
    ensures Unique(Drop(c, d)) && forall e :: e in Drop(c, d) ==> e in c
  {
    if c != [] && c[0].domain != d {
      DropShape(c[1..], d);
      DropFinds(c[1..], d, c[0].domain);
    }
  }

  lemma {:induction false} DropCounts(c: seq<Entry>, d: Domain, sid: SessionId)
    ensures Find(c, d).Some? ==> Count(c, sid) == Count(Drop(c, d), sid) + Held(Some(Find(c, d).value.sid), sid)
  {
    if c != [] && c[0].domain != d { DropCounts(c[1..], d, sid); }
  }

  lemma {:induction false} PutFinds(c: seq<Entry>, e: Entry, x: Domain)
    ensures Find(Put(c, e), x) == if x == e.domain then Some(e) else Find(c, x)
  {
    if c != [] && c[0].domain != e.domain { PutFinds(c[1..], e, x); }
  }

  lemma {:induction false} PutShape(c: seq<Entry>, e: Entry)
    requires Unique(c)
    ensures Unique(Put(c, e)) && forall x :: x in Put(c, e) ==> x in c || x == e
  {
    if c != [] && c[0].domain != e.domain {
      PutShape(c[1..], e);
      PutFinds(c[1..], e, c[0].domain);
    }
  }

  lemma {:induction false} PutCounts(c: seq<Entry>, e: Entry, sid: SessionId)
    ensures Count(Put(c, e), sid) + (if Find(c, e.domain).Some? then Held(Some(Find(c, e.domain).value.sid), sid) else 0)
         == Count(c, sid) + Held(Some(e.sid), sid)
  {
    if c != [] && c[0].domain != e.domain { PutCounts(c[1..], e, sid); }
  }

  // ----- one reference at a time -----

  lemma AcquireKeeps(s: State, sid: SessionId)
    requires Sound(s, None)
    ensures Sound(Acquired(s, sid), Some(sid))
    ensures Exact(s, None) ==> Exact(Acquired(s, sid), Some(sid))
  {
    var t := Acquired(s, sid);
    if Exact(s, None) {
      LogGrows(s.log, Acquire(sid));
      forall x ensures Refs(t, x) == Live(t.log, x) { LiveSnoc(s.log, Acquire(sid), x); }
    }
  }

  lemma ReleaseCounts(s: State, sid: SessionId)
    requires Enough(s, Some(sid))
    ensures Enough(Released(s, sid), None) && (Balanced(s, Some(sid)) ==> Balanced(Released(s, sid), None))
    ensures Refs(s, sid) >= 1 && (Refs(s, sid) == 1 ==> Count(s.cache, sid) == 0)
    ensures forall x :: Refs(Released(s, sid), x) == Refs(s, x) - Held(Some(sid), x)
  {
    assert Refs(s, sid) >= Count(s.cache, sid) + Held(Some(sid), sid);
  }

  lemma ReleaseKeeps(s: State, sid: SessionId)
    requires Sound(s, Some(sid))
    ensures Sound(Released(s, sid), None)
    ensures Exact(s, Some(sid)) ==> Exact(Released(s, sid), None)
  {
    ReleaseCounts(s, sid);
    assert DeletesUnused(Released(s, sid).log);
    if Exact(s, Some(sid)) {
      ReleaseLogged(s, sid);
      ReleaseTallied(s, sid);
    }
  }

  lemma ReleaseLogged(s: State, sid: SessionId)
    requires Enough(s, Some(sid)) && Tallied(s) && DeletesExact(s.log)
    ensures DeletesExact(Released(s, sid).log)
  {
    ReleaseCounts(s, sid);
    assert Refs(s, sid) == Live(s.log, sid);
    if Refs(s, sid) > 1 { LogGrows(s.log, Release(sid)); } else { LogDeletes(s.log, sid); }
  }

  lemma ReleaseTallied(s: State, sid: SessionId)
    requires Enough(s, Some(sid)) && Tallied(s)
    ensures Tallied(Released(s, sid))
  {
    var t := Released(s, sid);
    ReleaseCounts(s, sid);
    forall x ensures Refs(t, x) == Live(t.log, x) {
      LiveSnoc(s.log, Release(sid), x);
      LiveSnoc(s.log + [Release(sid)], Delete(sid, Count(s.cache, sid)), x);
    }
  }

  lemma EvictKeeps(s: State, d: Domain)
    requires Sound(s, None)
    ensures Sound(Evicted(s, d), None)
    ensures Exact(s, None) ==> Exact(Evicted(s, d), None)
  {
    if Find(s.cache, d).Some? {
      var sid := Find(s.cache, d).value.sid;
      var t := s.(cache := Drop(s.cache, d));
      DropShape(s.cache, d);
      forall x ensures Count(s.cache, x) == Count(t.cache, x) + Held(Some(sid), x) { DropCounts(s.cache, d, x); }
      assert Sound(t, Some(sid));
      assert Exact(s, None) ==> Exact(t, Some(sid));
      ReleaseKeeps(t, sid);
    }
  }

  /** Caching an entry keeps the counts exact unless it overwrites one. */
  lemma BindKeeps(s: State, e: Entry)
    requires Sound(s, Some(e.sid)) && e.sid.vin == e.vin
    ensures Sound(s.(cache := Put(s.cache, e)), None)
    ensures Exact(s, Some(e.sid)) && Find(s.cache, e.domain) == None ==> Exact(s.(cache := Put(s.cache, e)), None)
  {
    var t := s.(cache := Put(s.cache, e));
    PutShape(s.cache, e);
    forall x ensures Count(t.cache, x) <= Count(s.cache, x) + Held(Some(e.sid), x)
      ensures Find(s.cache, e.domain) == None ==> Count(t.cache, x) == Count(s.cache, x) + Held(Some(e.sid), x)
    {
      PutCounts(s.cache, e, x);
    }
  }

  // ----- eviction of a vehicle -----

  lemma {:induction false} EvictAllKeeps(s: State, victims: seq<Entry>)
    requires Sound(s, None)
    ensures Sound(EvictedAll(s, victims), None)
    ensures Exact(s, None) ==> Exact(EvictedAll(s, victims), None)
    decreases |victims|
  {
    if victims != [] {
      EvictKeeps(s, victims[0].domain);
      EvictAllKeeps(Evicted(s, victims[0].domain), victims[1..]);
    }
  }

  lemma {:induction false} FirstVictim(c: seq<Entry>, vin: Vin)
    requires Unique(c) && OfVin(c, vin) != []
    ensures var v := OfVin(c, vin)[0];
      v in c && Find(c, v.domain) == Some(v) && OfVin(Drop(c, v.domain), vin) == OfVin(c, vin)[1..]
  {
    if c[0].vin != vin {
      FirstVictim(c[1..], vin);
      FindsMember(c[1..], c[0].domain);
      assert OfVin(c, vin) == OfVin(c[1..], vin);
    }
  }

  /** Evicting a vehicle's entries one by one leaves none of them and touches no others. */
  lemma {:induction false} EvictsVin(s: State, vin: Vin)
    requires Unique(s.cache)
    ensures var t := EvictedAll(s, OfVin(s.cache, vin));
      && OfVin(t.cache, vin) == [] && t.idb == s.idb
      && (forall d :: Find(t.cache, d) == if Find(s.cache, d).Some? && Find(s.cache, d).value.vin == vin then None else Find(s.cache, d))
    decreases |OfVin(s.cache, vin)|
  {
    var victims := OfVin(s.cache, vin);
    if victims == [] {
      forall d ensures Find(s.cache, d).Some? ==> Find(s.cache, d).value.vin != vin {
        FindsMember(s.cache, d);
        NoVictims(s.cache, vin);
      }
    } else {
      var d := victims[0].domain;
      FirstVictim(s.cache, vin);
      OfVinMember(s.cache, vin);
      DropShape(s.cache, d);
      forall x { DropFinds(s.cache, d, x); }
      EvictsVin(Evicted(s, d), vin);
    }
  }

  lemma {:induction false} OfVinMember(c: seq<Entry>, vin: Vin)
    ensures forall e :: e in OfVin(c, vin) <==> e in c && e.vin == vin
  {
    if c != [] {
      OfVinMember(c[1..], vin);
      assert c == [c[0]] + c[1..];
    }
  }

  lemma NoVictims(c: seq<Entry>, vin: Vin)
    requires OfVin(c, vin) == []
    ensures forall e :: e in c ==> e.vin != vin
  {
    OfVinMember(c, vin);
  }

  lemma {:induction false} Uncounted(c: seq<Entry>, sid: SessionId)
    requires Owned(c) && forall e :: e in c ==> e.vin != sid.vin
    ensures Count(c, sid) == 0
  {
    if c != [] {
      assert c[0] in c;
      Uncounted(c[1..], sid);
    }
  }

  /** When a vehicle's entries are gone, so are its references: zeroing them changes no exact count. */
  lemma ZeroKeeps(s: State, gone: set<SessionId>)
    requires Sound(s, None) && forall sid :: sid in gone ==> Count(s.cache, sid) == 0
    ensures Sound(s.(refs := s.refs - gone), None)
    ensures Exact(s, None) ==> Exact(s.(refs := s.refs - gone), None)
  {
    var t := s.(refs := s.refs - gone);
    assert forall sid :: Refs(t, sid) == if sid in gone then 0 else Refs(s, sid);
  }

  lemma WipeKeeps(s: State, vin: Vin)
    requires Sound(s, None)
    ensures Sound(s.(idb := Wiped(s.idb, vin)), None)
    ensures Exact(s, None) ==> Exact(s.(idb := Wiped(s.idb, vin)), None)
  {}

  lemma VictimsUncounted(s: State, t: State, vin: Vin)
    requires Owned(s.cache) && Owned(t.cache) && OfVin(t.cache, vin) == []
    ensures forall sid :: sid in (set e | e in OfVin(s.cache, vin) :: e.sid) ==> Count(t.cache, sid) == 0
  {
    NoVictims(t.cache, vin);
    OfVinMember(s.cache, vin);
    forall e | e in OfVin(s.cache, vin) ensures Count(t.cache, e.sid) == 0 {
      assert e in s.cache;
      Uncounted(t.cache, e.sid);
    }
  }

  lemma EvictVinKeeps(s: State, vin: Vin, wiped: bool)
    requires Sound(s, None)
    ensures Sound(EvictedVin(s, vin, wiped), None)
    ensures Exact(s, None) ==> Exact(EvictedVin(s, vin, wiped), None)
    ensures OfVin(EvictedVin(s, vin, wiped).cache, vin) == []
    ensures forall d :: Find(EvictedVin(s, vin, wiped).cache, d)
                     == if Find(s.cache, d).Some? && Find(s.cache, d).value.vin == vin then None else Find(s.cache, d)
  {
    var victims := OfVin(s.cache, vin);
    var t := EvictedAll(s, victims);
    EvictAllKeeps(s, victims);
    EvictsVin(s, vin);
    VictimsUncounted(s, t, vin);
    ZeroKeeps(t, set e | e in victims :: e.sid);
    WipeKeeps(t.(refs := t.refs - set e | e in victims :: e.sid), vin);
  }

  // ----- the stages of a call -----

  lemma FoundIsOwn(s: State, vin: Vin, post: Posted, unread: set<Domain>)
    requires Shaped(s) && (post.Posted? ==> post.sid.vin == vin)
    ensures var f := FoundOrOpened(s, vin, post, unread); f.Posted? ==> f.sid.vin == vin
  {
    var cached := OfVin(s.cache, vin);
    OfVinMember(s.cache, vin);
    if cached != [] { assert cached[0] in cached; }
  }

  lemma OpenKeeps(s: State, vin: Vin, d: Domain, o: Open)
    requires Sound(s, None) && (o.post.Posted? ==> o.post.sid.vin == vin)
    ensures var t := DirectOpened(s, vin, d, o);
      && t.state.cache == s.cache && (t.result == Ok <==> t.entry.Some?)
      && (t.entry.Some? ==> t.entry.value.domain == d && t.entry.value.vin == vin && t.entry.value.sid.vin == vin)
      && var held := if t.entry.Some? then Some(t.entry.value.sid) else None;
         Sound(t.state, held) && (Exact(s, None) ==> Exact(t.state, held))
  {
    var found := FoundOrOpened(s, vin, o.post, o.unread);
    FoundIsOwn(s, vin, o.post, o.unread);
    if found.Posted? {
      AcquireKeeps(s, found.sid);
      ReleaseKeepsIf(Acquired(s, found.sid), found.sid, o.handshake);
    }
  }

  lemma ReleaseKeepsIf(s: State, sid: SessionId, handshake: Outcome)
    requires Sound(s, Some(sid))
    ensures handshake != Ok ==> Sound(Released(s, sid), None) && (Exact(s, Some(sid)) ==> Exact(Released(s, sid), None))
  {
    if handshake != Ok { ReleaseKeeps(s, sid); }
  }

  /** The cached entry, if any, is the vehicle's own: what a caller can check before the call. */
  predicate NoStranger(s: State, vin: Vin, d: Domain) {
    Find(s.cache, d).Some? ==> Find(s.cache, d).value.vin == vin
  }

  lemma UseCachedKeeps(s: State, vin: Vin, d: Domain, env: Env)
    requires Sound(s, None)
    ensures var r := UseCached(s, vin, d, env);
      && Sound(r.state, None) && (Exact(s, None) ==> Exact(r.state, None))
      && (r.reply == None && NoStranger(s, vin, d) ==> Find(r.state.cache, d) == None)
  {
    EvictVinKeeps(s, vin, env.wiped);
  }

  lemma UseHydratedKeeps(s: State, vin: Vin, d: Domain, env: Env)
    requires Sound(s, None)
    ensures var r := UseHydrated(s, vin, d, env);
      && Sound(r.state, None)
      && (Find(s.cache, d) == None ==>
            && (Exact(s, None) ==> Exact(r.state, None))
            && (r.reply == None ==> Find(r.state.cache, d) == None))
  {
    if env.rowRead && (vin, d) in s.idb && env.keyOk {
      var e := Entry(d, vin, s.idb[(vin, d)]);
      var t := Acquired(s, e.sid);
      AcquireKeeps(s, e.sid);
      BindKeeps(t, e);
      PutFinds(s.cache, e, d);
      EvictVinKeeps(t.(cache := Put(t.cache, e)), vin, env.wiped);
    }
  }

  lemma OpenTwiceKeeps(s: State, vin: Vin, d: Domain, env: Env)
    requires Sound(s, None) && HonestEnv(vin, env)
    ensures var t := OpenTwice(s, vin, d, env);
      && (Find(s.cache, d) == None ==> Find(t.state.cache, d) == None)
      && (t.entry.Some? ==> t.entry.value.domain == d && t.entry.value.vin == vin && t.entry.value.sid.vin == vin)
      && var held := if t.entry.Some? then Some(t.entry.value.sid) else None;
         Sound(t.state, held) && (Exact(s, None) ==> Exact(t.state, held))
  {
    var once := DirectOpened(s, vin, d, env.open);
    OpenKeeps(s, vin, d, env.open);
    if once.result == Dead {
      EvictVinKeeps(once.state, vin, env.wiped);
      OpenKeeps(EvictedVin(once.state, vin, env.wiped), vin, d, env.retry);
    }
  }

  lemma ColdStartKeeps(s: State, vin: Vin, d: Domain, env: Env)
    requires Sound(s, None) && HonestEnv(vin, env)
    ensures var r := ColdStart(s, vin, d, env);
      Sound(r.state, None) && (Exact(s, None) && Find(s.cache, d) == None ==> Exact(r.state, None))
  {
    var t := OpenTwice(s, vin, d, env);
    OpenTwiceKeeps(s, vin, d, env);
    if t.entry.Some? {
      BindKeeps(t.state, t.entry.value);
      EvictKeeps(t.state.(cache := Put(t.state.cache, t.entry.value)), d);
    }
  }

  lemma UseKeeps(s: State, vin: Vin, d: Domain, env: Env)
    requires Sound(s, None) && HonestEnv(vin, env)
    ensures var r := WithCached(s, vin, d, env);
      Sound(r.state, None) && (Exact(s, None) && NoStranger(s, vin, d) ==> Exact(r.state, None))
  {
    var one := UseCached(s, vin, d, env);
    UseCachedKeeps(s, vin, d, env);
    if one.reply == None {
      var two := UseHydrated(one.state, vin, d, env);
      UseHydratedKeeps(one.state, vin, d, env);
      if two.reply == None { ColdStartKeeps(two.state, vin, d, env); }
    }
  }

  // ----- when the counts stay exact -----

  /** The link's transport is dead, the store is wiped, and a fresh link opens. */
  function DeadThenFresh(vin: Vin): Env {
    var anew := Open(Posted(SessionId(vin, 0)), Ok, false, {});
    Env(Dead, true, false, Dead, anew, anew, Ok, true)
  }

  lemma ColdStartLeaks(s: State, vin: Vin, d: Domain)
    requires Exact(s, None) && Find(s.cache, d).Some? && Find(s.cache, d).value.sid.vin != vin
    ensures var t := ColdStart(s, vin, d, DeadThenFresh(vin)).state;
      var sid := Find(s.cache, d).value.sid;
      Refs(t, sid) > Count(t.cache, sid)
  {
    var env := DeadThenFresh(vin);
    var t := DirectOpened(s, vin, d, env.open);
    OpenKeeps(s, vin, d, env.open);
    FoundIsOwn(s, vin, env.open.post, env.open.unread);
    assert t.result == Ok && OpenTwice(s, vin, d, env) == t;
    PutCounts(t.state.cache, t.entry.value, Find(s.cache, d).value.sid);
  }

  /** Overwriting another vehicle's entry loses its reference: the count stays one too high. */
  lemma StrangerLeaks(s: State, vin: Vin, d: Domain)
    requires Exact(s, None) && !NoStranger(s, vin, d)
    ensures var t := WithCached(s, vin, d, DeadThenFresh(vin)).state;
      var sid := Find(s.cache, d).value.sid;
      Refs(t, sid) > Count(t.cache, sid)
  {
    var env := DeadThenFresh(vin);
    var one := UseCached(s, vin, d, env);
    FindsMember(s.cache, d);
    EvictVinKeeps(s, vin, true);
    assert one == Stage(EvictedVin(s, vin, true), None);
    RowsDropped(one.state, vin, d, env);
    ColdStartLeaks(UseHydrated(one.state, vin, d, env).state, vin, d);
  }

  lemma RowsDropped(s: State, vin: Vin, d: Domain, env: Env)
    requires Exact(s, None) && env.rowRead && !env.keyOk
    ensures var r := UseHydrated(s, vin, d, env); r.reply == None && r.state.cache == s.cache && Exact(r.state, None)
  {}

  /** A call keeps every count exact, whatever happens during it, if and only if the entry cached
      for its domain, if there is one, belongs to the same vehicle. */
  lemma CallsStayExactIff(s: State, vin: Vin, d: Domain)
    requires Exact(s, None)
    ensures (forall env | HonestEnv(vin, env) :: Exact(WithCached(s, vin, d, env).state, None)) <==> NoStranger(s, vin, d)
  {
    if NoStranger(s, vin, d) {
      forall env | HonestEnv(vin, env) ensures Exact(WithCached(s, vin, d, env).state, None) {
        UseKeeps(s, vin, d, env);
      }
    } else {
      StrangerLeaks(s, vin, d);
      assert HonestEnv(vin, DeadThenFresh(vin));
    }
  }

  /** The leak happens: two vehicles used in turn, one domain. */
  lemma StrangerIsReachable(a: Vin, b: Vin)
    requires a != b
    ensures var anew := Open(Posted(SessionId(a, 0)), Ok, false, {});
      var s := After(map[], [Use(a, INFOTAINMENT, Env(Ok, true, true, Ok, anew, anew, Ok, true))]);
      Exact(s, None) && !NoStranger(s, b, INFOTAINMENT)
  {
    var anew := Open(Posted(SessionId(a, 0)), Ok, false, {});
    var op := Use(a, INFOTAINMENT, Env(Ok, true, true, Ok, anew, anew, Ok, true));
    var s0 := State(map[], [], map[], []);
    assert [op][..0] == [] && After(map[], []) == s0;
    assert After(map[], [op]) == Did(s0, op);
    UseKeeps(s0, a, INFOTAINMENT, op.env);
    FirstUse(s0, a, INFOTAINMENT, op.env);
  }

  lemma FirstUse(s: State, vin: Vin, d: Domain, env: Env)
    requires s.cache == [] && s.idb == map[] && env.rowRead && env.open.post.Posted? && env.open.handshake == Ok && env.third == Ok
    ensures WithCached(s, vin, d, env).state.cache == [Entry(d, vin, env.open.post.sid)]
  {
    assert FoundOrOpened(s, vin, env.open.post, env.open.unread) == env.open.post;
  }

  // ----- whole runs -----

  /** Every call finds no other vehicle's entry in its domain. */
  predicate Guarded(idb: map<(Vin, Domain), SessionId>, ops: seq<Op>) {
    ops == [] ||
    (Guarded(idb, ops[..|ops| - 1]) &&
     var op := ops[|ops| - 1];
     op.Use? ==> NoStranger(After(idb, ops[..|ops| - 1]), op.vin, op.domain))
  }

  lemma DidKeeps(s: State, op: Op)
    requires Sound(s, None) && Honest(op)
    ensures Sound(Did(s, op), None)
    ensures Exact(s, None) && (op.Use? ==> NoStranger(s, op.vin, op.domain)) ==> Exact(Did(s, op), None)
  {
    match op
    case Use(vin, d, env) => UseKeeps(s, vin, d, env);
    case Refresh(vin, d, refetched, wiped) =>
      EvictVinKeeps(s, vin, wiped);
      FindsMember(s.cache, d);
    case Evict(vin, wiped) => EvictVinKeeps(s, vin, wiped);
    case CloseAll(forget) => EvictAllKeeps(s, s.cache);
    case Persist(vin, d, sid) =>
  }

  /** Over every run, no DELETE is sent for a link that a cached entry still uses. Over a guarded run,
      every count is the number of cached entries, and a DELETE is sent exactly at the last release. */
  lemma {:induction false} CountsFollowCache(idb: map<(Vin, Domain), SessionId>, ops: seq<Op>)
    requires HonestRows(idb) && forall i :: 0 <= i < |ops| ==> Honest(ops[i])
    ensures Sound(After(idb, ops), None)
    ensures Guarded(idb, ops) ==> Exact(After(idb, ops), None)
  {
    if ops != [] {
      CountsFollowCache(idb, ops[..|ops| - 1]);
      DidKeeps(After(idb, ops[..|ops| - 1]), ops[|ops| - 1]);
    }
  }

  // ----- a page that talks to one vehicle -----

  ghost predicate AllOf(c: seq<Entry>, vin: Vin) { forall e :: e in c ==> e.vin == vin }

  lemma {:induction false} DropAllOf(c: seq<Entry>, d: Domain, vin: Vin)
    requires AllOf(c, vin)
    ensures AllOf(Drop(c, d), vin)
  {
    if c != [] { DropAllOf(c[1..], d, vin); }
  }

  lemma {:induction false} PutAllOf(c: seq<Entry>, e: Entry)
    requires AllOf(c, e.vin)
    ensures AllOf(Put(c, e), e.vin)
  {
    if c != [] { PutAllOf(c[1..], e); }
  }

  lemma {:induction false} EvictAllOf(s: State, victims: seq<Entry>, vin: Vin)
    requires AllOf(s.cache, vin)
    ensures AllOf(EvictedAll(s, victims).cache, vin)
    decreases |victims|
  {
    if victims != [] {
      DropAllOf(s.cache, victims[0].domain, vin);
      EvictAllOf(Evicted(s, victims[0].domain), victims[1..], vin);
    }
  }

  lemma HydratedAllOf(s: State, vin: Vin, d: Domain, env: Env)
    requires AllOf(s.cache, vin)
    ensures AllOf(UseHydrated(s, vin, d, env).state.cache, vin)
  {
    if (vin, d) in s.idb {
      var e := Entry(d, vin, s.idb[(vin, d)]);
      var t := Acquired(s, e.sid).(cache := Put(s.cache, e));
      PutAllOf(s.cache, e);
      EvictAllOf(t, OfVin(t.cache, vin), vin);
    }
  }

  lemma OpenTwiceAllOf(s: State, vin: Vin, d: Domain, env: Env)
    requires AllOf(s.cache, vin)
    ensures var t := OpenTwice(s, vin, d, env);
      AllOf(t.state.cache, vin) && (t.entry.Some? ==> t.entry.value.domain == d && t.entry.value.vin == vin)
  {
    var once := DirectOpened(s, vin, d, env.open);
    EvictAllOf(once.state, OfVin(once.state.cache, vin), vin);
  }

  lemma ColdStartAllOf(s: State, vin: Vin, d: Domain, env: Env)
    requires AllOf(s.cache, vin)
    ensures AllOf(ColdStart(s, vin, d, env).state.cache, vin)
  {
    var t := OpenTwice(s, vin, d, env);
    OpenTwiceAllOf(s, vin, d, env);
    if t.entry.Some? {
      PutAllOf(t.state.cache, t.entry.value);
      DropAllOf(Put(t.state.cache, t.entry.value), d, vin);
    }
  }

  lemma DidAllOf(s: State, op: Op, vin: Vin)
    requires AllOf(s.cache, vin) && (op.Use? ==> op.vin == vin)
    ensures AllOf(Did(s, op).cache, vin)
  {
    match op
    case Use(_, d, env) =>
      var one := UseCached(s, vin, d, env);
      EvictAllOf(s, OfVin(s.cache, vin), vin);
      HydratedAllOf(one.state, vin, d, env);
      ColdStartAllOf(UseHydrated(one.state, vin, d, env).state, vin, d, env);
    case Refresh(v, _, _, _) => EvictAllOf(s, OfVin(s.cache, v), vin);
    case Evict(v, _) => EvictAllOf(s, OfVin(s.cache, v), vin);
    case CloseAll(_) => EvictAllOf(s, s.cache, vin);
    case Persist(_, _, _) =>
  }

  lemma {:induction false} OneVehicleIsGuarded(idb: map<(Vin, Domain), SessionId>, ops: seq<Op>, vin: Vin)
    requires forall i :: 0 <= i < |ops| && ops[i].Use? ==> ops[i].vin == vin
    ensures Guarded(idb, ops) && AllOf(After(idb, ops).cache, vin)
  {
    if ops != [] {
      var s, op := After(idb, ops[..|ops| - 1]), ops[|ops| - 1];
      OneVehicleIsGuarded(idb, ops[..|ops| - 1], vin);
      DidAllOf(s, op, vin);
      if op.Use? { FindsMember(s.cache, op.domain); }
    }
  }

  /** A page that uses one vehicle keeps its counts exact in every run. */
  lemma OneVehicleStaysExact(idb: map<(Vin, Domain), SessionId>, ops: seq<Op>, vin: Vin)
    requires HonestRows(idb) && forall i :: 0 <= i < |ops| ==> Honest(ops[i])
    requires forall i :: 0 <= i < |ops| && ops[i].Use? ==> ops[i].vin == vin
    ensures Exact(After(idb, ops), None)
  {
    OneVehicleIsGuarded(idb, ops, vin);
    CountsFollowCache(idb, ops);
  }

  /** After a vehicle is evicted and its rows are wiped, the next open posts for a fresh link. */
  lemma RetryOpensAnew(s: State, vin: Vin, post: Posted, unread: set<Domain>)
    requires Sound(s, None)
    ensures FoundOrOpened(EvictedVin(s, vin, true), vin, post, unread) == post
  {
    EvictVinKeeps(s, vin, true);
  }

  // ----- the module's own variables -----

  class SessionCache {
    var refs: map<SessionId, nat>
    var cache: seq<Entry>
    var idb: map<(Vin, Domain), SessionId>
    var log: seq<Event>

    function View(): State
      reads this
    {
      State(refs, cache, idb, log)
    }

    constructor (idb: map<(Vin, Domain), SessionId>)
      ensures View() == After(idb, [])
    {
      refs, cache, this.idb, log := map[], [], idb, [];
    }

    method Acquire(sid: SessionId)
      modifies this
      ensures View() == Acquired(old(View()), sid)
    {
      var rc := (if sid in refs then refs[sid] else 0) + 1;
      refs := refs[sid := rc];
      log := log + [Event.Acquire(sid)];
    }

    method Release(sid: SessionId) returns (deleted: bool)
      modifies this
      ensures View() == Released(old(View()), sid)
      ensures deleted <==> old(Refs(View(), sid)) <= 1
    {
      var rc := (if sid in refs && refs[sid] > 0 then refs[sid] else 1) - 1;
      log := log + [Event.Release(sid)];
      if rc > 0 {
        refs := refs[sid := rc];
        return false;
      }
      refs := refs - {sid};
      log := log + [Delete(sid, Count(cache, sid))];
      return true;
    }

    method FindOrOpen(vin: Vin, post: Posted, unread: set<Domain>) returns (found: Posted)
      ensures found == FoundOrOpened(View(), vin, post, unread)
    {
      for i := 0 to |cache|
        invariant OfVin(cache[i..], vin) == OfVin(cache, vin)
      {
        assert cache[i..][1..] == cache[i + 1..];
        if cache[i].vin == vin {
          return Posted(cache[i].sid);
        }
      }
      if VEHICLE_SECURITY !in unread && (vin, VEHICLE_SECURITY) in idb {
        return Posted(idb[(vin, VEHICLE_SECURITY)]);
      }
      if INFOTAINMENT !in unread && (vin, INFOTAINMENT) in idb {
        return Posted(idb[(vin, INFOTAINMENT)]);
      }
      return post;
    }

    method OpenDirect(vin: Vin, d: Domain, o: Open) returns (result: Outcome, entry: Option<Entry>)
      modifies this
      ensures Opened(View(), result, entry) == DirectOpened(old(View()), vin, d, o)
    {
      var found := FindOrOpen(vin, o.post, o.unread);
      if found.PostError? {
        return if found.dead then Dead else Failed, None;
      }
      Acquire(found.sid);
      if o.handshake != Ok {
        var _ := Release(found.sid);
        return o.handshake, None;
      }
      if o.persisted {
        idb := idb[(vin, d) := found.sid];
      }
      return Ok, Some(Entry(d, vin, found.sid));
    }

    method Evict(d: Domain)
      modifies this
      ensures View() == Evicted(old(View()), d)
    {
      var e := Find(cache, d);
      if e == None {
        return;
      }
      cache := Drop(cache, d);
      var _ := Release(e.value.sid);
    }

    method EvictEach(victims: seq<Entry>)
      modifies this
      ensures View() == EvictedAll(old(View()), victims)
    {
      for i := 0 to |victims|
        invariant EvictedAll(View(), victims[i..]) == EvictedAll(old(View()), victims)
      {
        assert victims[i..][1..] == victims[i + 1..];
        Evict(victims[i].domain);
      }
    }

    method CachedOf(vin: Vin) returns (victims: seq<Entry>)
      ensures victims == OfVin(cache, vin)
    {
      victims := [];
      for i := 0 to |cache|
        invariant victims + OfVin(cache[i..], vin) == OfVin(cache, vin)
      {
        assert cache[i..][1..] == cache[i + 1..];
        if cache[i].vin == vin { victims := victims + [cache[i]]; }
      }
    }

    method Zero(victims: seq<Entry>)
      modifies this`refs
      ensures refs == old(refs) - set e | e in victims :: e.sid
    {
      for i := 0 to |victims|
        invariant refs == old(refs) - set e | e in victims[..i] :: e.sid
      {
        assert victims[..i + 1] == victims[..i] + [victims[i]];
        refs := refs - {victims[i].sid};
      }
      assert victims[..|victims|] == victims;
    }

    method EvictSession(vin: Vin, wiped: bool)
      modifies this
      ensures View() == EvictedVin(old(View()), vin, wiped)
    {
      var victims := CachedOf(vin);
      EvictEach(victims);
      if wiped {
        idb := Wiped(idb, vin);
      }
      Zero(victims);
    }

    method Hydrate(vin: Vin, d: Domain, keyOk: bool, wiped: bool) returns (e: Option<Entry>)
      modifies this
      ensures e.Some? <==> (vin, d) in old(idb) && keyOk
      ensures e.Some? ==> e.value == Entry(d, vin, old(idb)[(vin, d)]) && View() == Acquired(old(View()), e.value.sid)
      ensures e == None ==> View() == old(View()).(idb := if wiped && !keyOk then old(idb) - {(vin, d)} else old(idb))
    {
      if (vin, d) !in idb {
        assert idb - {(vin, d)} == idb;
        return None;
      }
      if !keyOk {
        if wiped { idb := idb - {(vin, d)}; }
        return None;
      }
      Acquire(idb[(vin, d)]);
      return Some(Entry(d, vin, idb[(vin, d)]));
    }

    method TryCached(vin: Vin, d: Domain, env: Env) returns (reply: Option<Outcome>)
      modifies this
      ensures Stage(View(), reply) == UseCached(old(View()), vin, d, env)
    {
      if Find(cache, d) == None {
        return None;
      }
      if env.first != Dead {
        return Some(env.first);
      }
      EvictSession(vin, env.wiped);
      return None;
    }

    method TryHydrated(vin: Vin, d: Domain, env: Env) returns (reply: Option<Outcome>)
      modifies this
      ensures Stage(View(), reply) == UseHydrated(old(View()), vin, d, env)
    {
      if !env.rowRead {
        return Some(Failed);
      }
      var hydrated := Hydrate(vin, d, env.keyOk, env.wiped);
      if hydrated == None {
        assert (vin, d) !in old(idb) ==> old(idb) - {(vin, d)} == old(idb);
        return None;
      }
      cache := Put(cache, hydrated.value);
      if env.second != Dead {
        return Some(env.second);
      }
      EvictSession(vin, env.wiped);
      return None;
    }

    /** The call's outcome and new state are those of `WithCached`, stage by stage. */
    method WithCachedSession(vin: Vin, d: Domain, env: Env) returns (reply: Outcome)
      modifies this
      ensures Stage(View(), Some(reply)) == WithCached(old(View()), vin, d, env)
    {
      var first := TryCached(vin, d, env);
      if first.Some? {
        return first.value;
      }
      var second := TryHydrated(vin, d, env);
      if second.Some? {
        return second.value;
      }
      reply := Cold(vin, d, env);
    }

    method Cold(vin: Vin, d: Domain, env: Env) returns (reply: Outcome)
      modifies this
      ensures Stage(View(), Some(reply)) == ColdStart(old(View()), vin, d, env)
    {
      var result, entry := OpenDirect(vin, d, env.open);
      if result == Dead {
        EvictSession(vin, env.wiped);
        result, entry := OpenDirect(vin, d, env.retry);
      }
      if entry == None {
        return result;
      }
      cache := Put(cache, entry.value);
      if env.third != Ok {
        Evict(d);
      }
      return env.third;
    }

    method RefreshCachedSession(vin: Vin, d: Domain, refetched: bool, wiped: bool) returns (ok: bool)
      modifies this
      ensures View() == Refreshed(old(View()), vin, d, refetched, wiped)
      ensures ok <==> old(Find(cache, d)).Some? && refetched
    {
      var entry := Find(cache, d);
      if entry == None {
        return false;
      }
      if refetched {
        idb := idb[(entry.value.vin, d) := entry.value.sid];
        return true;
      }
      EvictSession(vin, wiped);
      return false;
    }

    method CloseAllSessions(forget: bool)
      modifies this
      ensures View() == AllClosed(old(View()), forget)
    {
      EvictEach(cache);
      if forget {
        idb := map[];
      }
    }
  }
}
