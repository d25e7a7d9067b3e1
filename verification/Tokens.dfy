/** Bearer tokens with a claim window: issue, claim on first use, revoke, delete, and the pruning
    of lapsed codes.  Times are whole seconds of the database clock. */
module Tokens {
  import opened Bytes

  type Hash = nat
  type Seconds = nat

  /** A row of tesla_client_tokens; token_hash is unique, so rows are keyed by it. */
  datatype Row = Row(id: nat, revoked: bool, expires: Option<Seconds>)

  /** AUTOINCREMENT: an id is never used twice, whatever is deleted. */
  datatype Db = Db(rows: map<Hash, Row>, nextId: nat)

  const FRESH := Db(map[], 1)

  // ----- the statements -----

  predicate Lapsed(r: Row, now: Seconds) { r.expires.Some? && r.expires.value <= now }

  function Pruned(db: Db, now: Seconds): Db {
    db.(rows := map h | h in db.rows && !Lapsed(db.rows[h], now) :: db.rows[h])
  }

  function Inserted(db: Db, hash: Hash, expires: Option<Seconds>): Db {
    if hash in db.rows then db else Db(db.rows[hash := Row(db.nextId, false, expires)], db.nextId + 1)
  }

  function Revoked(db: Db, id: nat): Db {
    db.(rows := map h | h in db.rows :: if db.rows[h].id == id then db.rows[h].(revoked := true) else db.rows[h])
  }

  function Deleted(db: Db, id: nat): Db {
    db.(rows := map h | h in db.rows && db.rows[h].id != id :: db.rows[h])
  }

  predicate Accepts(db: Db, hash: Hash, now: Seconds) {
    hash in db.rows && !db.rows[hash].revoked && !Lapsed(db.rows[hash], now)
  }

  /** A successful Validate clears the window, if that best-effort write lands. */
  function Validated(db: Db, hash: Hash, now: Seconds, lands: bool): Db {
    if Accepts(db, hash, now) && lands then db.(rows := db.rows[hash := db.rows[hash].(expires := None)]) else db
  }

  // ----- runs -----

  datatype Op =
    | Issue(hash: Hash)
    | IssueEphemeral(hash: Hash, ttl: nat, prunes: bool)  // `prunes`: whether the pruning statement took effect
    | Validate(hash: Hash, lands: bool)
    | Revoke(id: nat)
    | Delete(id: nat)

  datatype Event = Event(op: Op, at: Seconds)

  function Stepped(db: Db, e: Event): Db {
    match e.op
    case Issue(h) => Inserted(db, h, None)
    case IssueEphemeral(h, ttl, prunes) => Inserted(if prunes then Pruned(db, e.at) else db, h, Some(e.at + ttl))
    case Validate(h, lands) => Validated(db, h, e.at, lands)
    case Revoke(id) => Revoked(db, id)
    case Delete(id) => Deleted(db, id)
  }

  function After(es: seq<Event>): Db {
    if es == [] then FRESH else Stepped(After(es[..|es| - 1]), es[|es| - 1])
  }

  predicate Issues(op: Op, hash: Hash) { (op.Issue? || op.IssueEphemeral?) && op.hash == hash }

  /** The clock never goes back, and no two tokens share a hash. */
  ghost predicate Legal(es: seq<Event>) {
    && (forall i, j :: 0 <= i < j < |es| ==> es[i].at <= es[j].at)
    && (forall i, j, h :: 0 <= i < j < |es| && Issues(es[i].op, h) ==> !Issues(es[j].op, h))
  }

  // ----- one token's own history, with no table and no pruning -----

  datatype Life = Unissued | Token(id: nat, withdrawn: bool, expiry: Option<Seconds>, claimed: bool)

  /** Neither revoked nor deleted, and before its expiry if it has one, or used in time before. */
  predicate Good(l: Life, t: Seconds) {
    l.Token? && !l.withdrawn && (l.expiry == None || t < l.expiry.value || l.claimed)
  }

  function Issued(es: seq<Event>): nat {
    if es == [] then 0 else
      var op := es[|es| - 1].op;
      Issued(es[..|es| - 1]) + (if op.Issue? || op.IssueEphemeral? then 1 else 0)
  }

  function LifeOf(es: seq<Event>, hash: Hash): Life {
    if es == [] then Unissued else
      var before, e := es[..|es| - 1], es[|es| - 1];
      var l := LifeOf(before, hash);
      match e.op
      case Issue(h) => if h == hash then Token(1 + Issued(before), false, None, false) else l
      case IssueEphemeral(h, ttl, _) => if h == hash then Token(1 + Issued(before), false, Some(e.at + ttl), false) else l
      case Validate(h, lands) => if h == hash && lands && Good(l, e.at) then l.(claimed := true) else l
      case Revoke(id) => if l.Token? && l.id == id then l.(withdrawn := true) else l
      case Delete(id) => if l.Token? && l.id == id then l.(withdrawn := true) else l
  }

  /** How a token's row stands to its history at time `now`. */
  ghost predicate RowFits(db: Db, hash: Hash, l: Life, now: Seconds) {
    match l
    case Unissued => hash !in db.rows
    case Token(id, withdrawn, expiry, claimed) =>
      if hash in db.rows then db.rows[hash] == Row(id, withdrawn, if claimed then None else expiry)
      else withdrawn || (!claimed && expiry.Some? && expiry.value <= now)
  }

  ghost predicate Fits(db: Db, es: seq<Event>, now: Seconds) {
    && db.nextId == 1 + Issued(es)
    && (forall h :: RowFits(db, h, LifeOf(es, h), now))
    && (forall h :: LifeOf(es, h).Token? ==> LifeOf(es, h).id <= Issued(es))
  }

  lemma {:induction false} NotIssuedYet(es: seq<Event>, hash: Hash)
    requires forall i :: 0 <= i < |es| ==> !Issues(es[i].op, hash)
    ensures LifeOf(es, hash) == Unissued
  {
    if es != [] { NotIssuedYet(es[..|es| - 1], hash); }
  }

  lemma StepFits(es: seq<Event>, db: Db, now: Seconds)
    requires es != [] && Legal(es) && now <= es[|es| - 1].at && Fits(db, es[..|es| - 1], now)
    ensures Fits(Stepped(db, es[|es| - 1]), es, es[|es| - 1].at)
  {
    var before, e := es[..|es| - 1], es[|es| - 1];
    var db' := Stepped(db, e);
    if e.op.Issue? || e.op.IssueEphemeral? { NotIssuedYet(before, e.op.hash); }
    forall h ensures RowFits(db', h, LifeOf(es, h), e.at) {
      assert RowFits(db, h, LifeOf(before, h), now);
    }
    if e.op.Issue? || e.op.IssueEphemeral? { assert RowFits(db, e.op.hash, Unissued, now); }
  }

  lemma {:induction false} TableFollowsHistory(es: seq<Event>)
    requires Legal(es)
    ensures Fits(After(es), es, if es == [] then 0 else es[|es| - 1].at)
  {
    if es != [] {
      var before := es[..|es| - 1];
      TableFollowsHistory(before);
      StepFits(es, After(before), if before == [] then 0 else before[|before| - 1].at);
    }
  }

  /** Over every legal run a token validates at t exactly when it is neither revoked nor deleted
      and either t is before its expiry or an earlier Validate succeeded (and was recorded). */
  lemma ValidatesExactly(es: seq<Event>, hash: Hash, t: Seconds)
    requires Legal(es) && (es != [] ==> es[|es| - 1].at <= t)
    ensures Accepts(After(es), hash, t) <==> Good(LifeOf(es, hash), t)
  {
    TableFollowsHistory(es);
    assert RowFits(After(es), hash, LifeOf(es, hash), if es == [] then 0 else es[|es| - 1].at);
  }

  /** After an ephemeral issue that prunes, nothing in the table has lapsed, and every row that had not is
      still there, unchanged, beside the new one. */
  lemma PruningKeepsTheLiving(db: Db, hash: Hash, ttl: nat, now: Seconds, h: Hash)
    requires hash !in db.rows && ttl > 0
    ensures var t := Stepped(db, Event(IssueEphemeral(hash, ttl, true), now));
      && (forall x :: x in t.rows ==> !Lapsed(t.rows[x], now))
      && (h in db.rows ==> (h in t.rows <==> !(db.rows[h].expires.Some? && db.rows[h].expires.value <= now)))
      && (h in db.rows && h in t.rows ==> t.rows[h] == db.rows[h])
      && hash in t.rows && t.rows[hash] == Row(db.nextId, false, Some(now + ttl))
      && t.rows.Keys <= db.rows.Keys + {hash}
  {}

  /** A Validate that succeeds but whose write is lost does not claim the token: it lapses all the same. */
  lemma LostClaim(hash: Hash, ttl: nat, at: Seconds, t: Seconds)
    requires 0 < ttl && at + ttl <= t
    ensures var issued := [Event(IssueEphemeral(hash, ttl, false), at)];
      && Accepts(After(issued), hash, at)
      && !Accepts(After(issued + [Event(Validate(hash, false), at)]), hash, t)
      && Accepts(After(issued + [Event(Validate(hash, true), at)]), hash, t)
  {
    var issued := [Event(IssueEphemeral(hash, ttl, false), at)];
    assert issued[..0] == [];
    assert After(issued).rows == map[hash := Row(1, false, Some(at + ttl))];
    forall lands: bool ensures (issued + [Event(Validate(hash, lands), at)])[..1] == issued {}
  }

  /** The same run, whatever the pruning statements did. */
  ghost predicate SameButPruning(es: seq<Event>, fs: seq<Event>) {
    && |es| == |fs|
    && forall i :: 0 <= i < |es| ==>
         && es[i].at == fs[i].at
         && (es[i].op == fs[i].op
             || (es[i].op.IssueEphemeral? && fs[i].op.IssueEphemeral? && es[i].op.hash == fs[i].op.hash && es[i].op.ttl == fs[i].op.ttl))
  }

  lemma {:induction false} SameLives(es: seq<Event>, fs: seq<Event>, hash: Hash)
    requires SameButPruning(es, fs)
    ensures LifeOf(es, hash) == LifeOf(fs, hash) && Issued(es) == Issued(fs)
  {
    if es != [] { SameLives(es[..|es| - 1], fs[..|fs| - 1], hash); }
  }

  /** Pruning is invisible: leaving it out, or having it fail, changes no Validate result. */
  lemma PruningInvisible(es: seq<Event>, fs: seq<Event>, hash: Hash, t: Seconds)
    requires SameButPruning(es, fs) && Legal(es) && (es != [] ==> es[|es| - 1].at <= t)
    ensures Accepts(After(es), hash, t) == Accepts(After(fs), hash, t)
  {
    forall i, j, h | 0 <= i < j < |fs| && Issues(fs[i].op, h) ensures !Issues(fs[j].op, h) {
      assert Issues(es[i].op, h) && !Issues(es[j].op, h);
    }
    assert Legal(fs);
    ValidatesExactly(es, hash, t);
    ValidatesExactly(fs, hash, t);
    SameLives(es, fs, hash);
  }

  // ----- the service -----

  datatype Outcome = Done | BadName | BadTtl | NotFound | Invalid

  class TeslaTokenService {
    var rows: map<Hash, Row>
    var nextId: nat

    ghost function View(): Db
      reads this
    {
      Db(rows, nextId)
    }

    constructor ()
      ensures View() == FRESH
    {
      rows, nextId := map[], 1;
    }

    method IssueToken(nameLength: nat, hash: Hash, now: Seconds) returns (r: Outcome)
      requires hash !in rows
      modifies this
      ensures r == if 1 <= nameLength <= 80 then Done else BadName
      ensures View() == if r == Done then Stepped(old(View()), Event(Issue(hash), now)) else old(View())
    {
      if nameLength == 0 || nameLength > 80 {
        return BadName;
      }
      rows := rows[hash := Row(nextId, false, None)];
      nextId := nextId + 1;
      return Done;
    }

    method IssueEphemeralToken(nameLength: nat, hash: Hash, ttl: int, prunes: bool, now: Seconds) returns (r: Outcome)
      requires hash !in rows
      modifies this
      ensures r == if !(1 <= nameLength <= 80) then BadName else if ttl <= 0 then BadTtl else Done
      ensures View() == if r == Done then Stepped(old(View()), Event(IssueEphemeral(hash, ttl, prunes), now)) else old(View())
    {
      if nameLength == 0 || nameLength > 80 {
        return BadName;
      }
      if ttl <= 0 {
        return BadTtl;
      }
      if prunes {
        rows := map h | h in rows && !Lapsed(rows[h], now) :: rows[h];
      }
      rows := rows[hash := Row(nextId, false, Some(now + ttl))];
      nextId := nextId + 1;
      return Done;
    }

    method RevokeToken(id: nat) returns (r: Outcome)
      modifies this`rows
      ensures View() == Revoked(old(View()), id)
      ensures r == NotFound <==> forall h :: h in rows ==> rows[h].id != id
    {
      r := if exists h :: h in rows && rows[h].id == id then Done else NotFound;
      rows := map h | h in rows :: if rows[h].id == id then rows[h].(revoked := true) else rows[h];
      assert forall h :: h in rows ==> h in old(rows) && rows[h].id == old(rows)[h].id;
    }

    method DeleteToken(id: nat) returns (r: Outcome)
      modifies this`rows
      ensures View() == Deleted(old(View()), id)
      ensures r == NotFound <==> View() == old(View())
    {
      ghost var before := rows;
      r := if exists h :: h in rows && rows[h].id == id then Done else NotFound;
      rows := map h | h in rows && rows[h].id != id :: rows[h];
      if r == Done {
        ghost var h :| h in before && before[h].id == id;
        assert h !in rows;
      } else {
        assert rows == before;
      }
    }

    method ValidateToken(hash: Hash, lands: bool, now: Seconds) returns (r: Outcome)
      modifies this`rows
      ensures View() == Validated(old(View()), hash, now, lands)
      ensures r == if Accepts(old(View()), hash, now) then Done else Invalid
    {
      if hash !in rows || rows[hash].revoked || Lapsed(rows[hash], now) {
        return Invalid;
      }
      if rows[hash].expires.Some? && lands {
        rows := rows[hash := rows[hash].(expires := None)];
      }
      return Done;
    }
  }
}
