/** What a reader of the database may rely on after every schedule: rows that read back, scans that find
    their duck, lifecycles that only move forward, talk only about sailing ducks, and a sound feed. */
module DuckGuarantees {
  import opened Wrappers
  import opened Schema
  import opened Store
  import opened Cascade
  import opened Invariants
  import opened Handlers
  import opened Evolution
  import opened Runs
  import opened Reachability
  import opened MintGuarantees
  import Funnel
  import PhotoKeys
  import Codes
  import Codec

  // ----- Rows read back ------------------------------------------------------------------

  /** No reachable database breaks a declared constraint or holds a row that reads back as corrupt. */
  lemma NothingCorrupt(codec: Codec.DuckCodec, vessels: set<Id>, events: seq<Event>)
    requires Codec.Valid(codec)
    ensures var db := Run(codec, Start(vessels), events).db;
            && Checks(db) && ForeignKeys(db)
            && UniqueDucks(db.ducks) && UniqueFlocks(db.flocks) && UniqueUsers(db.users)
            && (forall d | d in db.ducks :: ReadDuck(d, db.ducks[d]).Ok?)
            && (forall f | f in db.flocks :: ReadFlock(db.flocks[f]).Ok?)
            && (forall s | s in db.sightings :: ReadSighting(s, db.sightings[s]).Ok?)
            && (forall d | d in db.ducks :: HistoryReads(db, d))
  {
    hide Good, TasksOk, Exclusive, Run, Checks, ForeignKeys, UniqueDucks, UniqueFlocks, UniqueUsers, IdsBounded,
      NoticesAgree, ReadDuck, ReadFlock, ReadSighting, HistoryReads, FlockReads;
    var db := Run(codec, Start(vessels), events).db;
    ReachableInv(codec, vessels, events);
    GoodMeetsSchema(codec, db);
    forall d | d in db.ducks ensures ReadDuck(d, db.ducks[d]).Ok? && HistoryReads(db, d) {
      Funnel.DuckReadsBack(codec, db, d);
      Funnel.HistoryReadable(codec, db, d);
    }
    forall f | f in db.flocks ensures ReadFlock(db.flocks[f]).Ok? {
      Funnel.FlockFound(codec, db, f);
      Funnel.FlockReadsBack(codec, db.flocks[f]);
    }
    forall s | s in db.sightings ensures ReadSighting(s, db.sightings[s]).Ok? {
      Funnel.SightingReadsBack(codec, db, s);
    }
  }

  // ----- The scan funnel --------------------------------------------------------------------

  /** After every schedule a scan finds exactly the row whose stored code the scanned text spells. */
  lemma {:induction false} ScansFindTheirDuck(codec: Codec.DuckCodec, vessels: set<Id>, events: seq<Event>, raw: string)
    requires Codec.Valid(codec)
    ensures var db := Run(codec, Start(vessels), events).db;
            && ResolveAny(codec, db, raw) == Funnel.NaiveLookup(db, raw)
            && (ResolveAny(codec, db, raw).Found? || ResolveAny(codec, db, raw).Missing?)
            && (forall d | d in db.ducks && Codes.ParseDuck(raw) == Ok(db.ducks[d].code) ::
                  ResolveAny(codec, db, raw).Found? && ResolveAny(codec, db, raw).duck.id == d)
            && (ResolveAny(codec, db, raw).Found? ==>
                  && ResolveAny(codec, db, raw).duck.id in db.ducks
                  && Codes.ParseDuck(raw) == Ok(db.ducks[ResolveAny(codec, db, raw).duck.id].code))
  {
    hide Good, TasksOk, Exclusive, Run, ResolveAny, Funnel.NaiveLookup, Codes.ParseDuck;
    var db := Run(codec, Start(vessels), events).db;
    ReachableInv(codec, vessels, events);
    Funnel.ScanFunnel(codec, db, raw);
    forall d | d in db.ducks && Codes.ParseDuck(raw) == Ok(db.ducks[d].code)
      ensures ResolveAny(codec, db, raw).Found? && ResolveAny(codec, db, raw).duck.id == d
    {
      Funnel.StoredCodeResolves(codec, db, raw, d);
    }
  }

  // ----- Lifecycles ----------------------------------------------------------------------------

  /** Allocated, then staged, then sailing; details and sailing time never altered once set. */
  predicate Forward(before: Lifecycle, after: Lifecycle) {
    match (before, after)
    case (Allocated, _) => true
    case (Staged(details), Staged(later)) => later == details
    case (Staged(details), Sailing(later, _)) => later == details
    case (Sailing(details, since), Sailing(later, when)) => later == details && when == since
    case _ => false
  }

  lemma RowMovesForward(id: Id, a: DuckRow, b: DuckRow)
    requires RowEvolves(a, b) && ReadDuck(id, a).Ok? && ReadDuck(id, b).Ok?
    ensures Forward(ReadDuck(id, a).value.lifecycle, ReadDuck(id, b).value.lifecycle)
    ensures ReadDuck(id, b).value.code == ReadDuck(id, a).value.code
    ensures ReadDuck(id, b).value.flock == ReadDuck(id, a).value.flock
    ensures ReadDuck(id, b).value.seqNo == ReadDuck(id, a).value.seqNo
  {
    hide Codes.ParseDuck, ReadText;
  }

  /** Between any two moments of any schedule, through soft deletion and restoration alike, a duck keeps its
      code, flock and number and its lifecycle only moves forward; a removed duck never comes back. */
  lemma LifecyclesMoveForward(codec: Codec.DuckCodec, vessels: set<Id>, past: seq<Event>, more: seq<Event>, d: Id)
    requires Codec.Valid(codec)
    requires d in Run(codec, Run(codec, Start(vessels), past), more).db.ducks
    ensures var a := Run(codec, Start(vessels), past).db;
            var b := Run(codec, Run(codec, Start(vessels), past), more).db;
            d < a.next.duck ==>
              && d in a.ducks && ReadDuck(d, a.ducks[d]).Ok? && ReadDuck(d, b.ducks[d]).Ok?
              && var (x, y) := (ReadDuck(d, a.ducks[d]).value, ReadDuck(d, b.ducks[d]).value);
                 && y.code == x.code && y.flock == x.flock && y.seqNo == x.seqNo
                 && Forward(x.lifecycle, y.lifecycle)
  {
    hide Good, TasksOk, Exclusive, Run, ReadDuck, RowEvolves, Forward;
    var s := Run(codec, Start(vessels), past);
    var (a, b) := (s.db, Run(codec, s, more).db);
    ReachableInv(codec, vessels, past);
    RunKeepsInv(codec, s, more);
    if d < a.next.duck {
      Funnel.DuckReadsBack(codec, a, d);
      Funnel.DuckReadsBack(codec, b, d);
      RowMovesForward(d, a.ducks[d], b.ducks[d]);
    }
  }

  // ----- Talk is about sailing ducks ---------------------------------------------------------------

  predicate IsSailing(db: Db, d: Id) {
    d in db.ducks && ReadDuck(d, db.ducks[d]).Ok? && ReadDuck(d, db.ducks[d]).value.lifecycle.Sailing?
  }

  lemma LiveIsSailing(codec: Codec.DuckCodec, db: Db, d: Id)
    requires Codec.Valid(codec) && Good(codec, db) && Live(db.ducks, d)
    ensures IsSailing(db, d)
  {
    hide Good, ReadDuck;
    Funnel.DuckReadsBack(codec, db, d);
  }

  lemma TalkIsLive(codec: Codec.DuckCodec, db: Db)
    requires Codec.Valid(codec) && Good(codec, db)
    ensures forall s | s in db.sightings :: Live(db.ducks, db.sightings[s].duck)
    ensures forall c | c in db.comments :: Live(db.ducks, db.comments[c].duck)
    ensures forall p | p in db.follows :: Live(db.ducks, p.1)
    ensures forall n | n in db.notifications :: Live(db.ducks, db.notifications[n].duck)
  {
    hide DucksOk, Dense, UsersOk, FlocksOk, ForeignKeys, Live;
    assert forall n | n in db.notifications :: NoticeOk(db.notifications[n], db.sightings);
  }

  /** However checks and writes of handlers interleave, every sighting, comment, follow and notice is about
      a duck that is sailing. */
  lemma OnlySailingDucksAreTalkedAbout(codec: Codec.DuckCodec, vessels: set<Id>, events: seq<Event>)
    requires Codec.Valid(codec)
    ensures var db := Run(codec, Start(vessels), events).db;
            && (forall s | s in db.sightings :: IsSailing(db, db.sightings[s].duck))
            && (forall c | c in db.comments :: IsSailing(db, db.comments[c].duck))
            && (forall p | p in db.follows :: IsSailing(db, p.1))
            && (forall n | n in db.notifications :: IsSailing(db, db.notifications[n].duck))
  {
    hide Good, TasksOk, Exclusive, Run, Live, IsSailing;
    var db := Run(codec, Start(vessels), events).db;
    ReachableInv(codec, vessels, events);
    TalkIsLive(codec, db);
    forall d | Live(db.ducks, d) ensures IsSailing(db, d) {
      LiveIsSailing(codec, db, d);
    }
  }

  // ----- The feed --------------------------------------------------------------------------------------

  lemma FeedOf(codec: Codec.DuckCodec, db: Db)
    requires Codec.Valid(codec) && Good(codec, db)
    ensures forall n | n in db.notifications :: NoticeOk(db.notifications[n], db.sightings)
    ensures forall n, m | n in db.notifications && m in db.notifications && n != m ::
              db.notifications[n].user != db.notifications[m].user
              || db.notifications[n].sighting != db.notifications[m].sighting
  {
    hide DucksOk, Dense, UsersOk, FlocksOk, ForeignKeys, SightingsOk, CommentsOk, FollowsOk, NoticeOk;
  }

  /** Every notice names a stored sighting of the same duck found by somebody else, and a user hears of a
      sighting at most once. */
  lemma FeedIsSound(codec: Codec.DuckCodec, vessels: set<Id>, events: seq<Event>)
    requires Codec.Valid(codec)
    ensures var db := Run(codec, Start(vessels), events).db;
            && (forall n | n in db.notifications ::
                  var r := db.notifications[n];
                  r.sighting in db.sightings && db.sightings[r.sighting].duck == r.duck
                  && db.sightings[r.sighting].user != r.user)
            && (forall n, m | n in db.notifications && m in db.notifications && n != m ::
                  db.notifications[n].user != db.notifications[m].user
                  || db.notifications[n].sighting != db.notifications[m].sighting)
  {
    hide Good, TasksOk, Exclusive, Run;
    var db := Run(codec, Start(vessels), events).db;
    ReachableInv(codec, vessels, events);
    FeedOf(codec, db);
    assert forall n | n in db.notifications :: NoticeOk(db.notifications[n], db.sightings);
  }

  lemma FollowersBounded(codec: Codec.DuckCodec, db: Db)
    requires Codec.Valid(codec) && Good(codec, db)
    ensures forall p | p in db.follows :: p.0 < db.next.user
    ensures forall n | n in db.notifications :: n < db.next.notification
    ensures db.next.sighting !in db.sightings
  {
    hide DucksOk, Dense, FlocksOk, DuckKeys, FlockKeys, SightingKeys, CommentKeys, NoticeKeys, CommentsOk, FollowsOk,
      NoticeOk, UniqueUsers;
  }

  /** Logging a sighting tells each follower of that moment but the finder, once each and nobody else,
      keeps every older notice, and then makes the finder a follower. */
  lemma {:induction false} LogFansOut(codec: Codec.DuckCodec, db: Db, r: SightingRow)
    requires Codec.Valid(codec) && Good(codec, db) && LogSighting(db, r).Ok?
    ensures var (after, sid) := (LogSighting(db, r).value, db.next.sighting);
            && sid !in db.sightings && after.sightings == db.sightings[sid := r]
            && (forall n | n in db.notifications ::
                  n in after.notifications && after.notifications[n] == db.notifications[n])
            && (forall n | n in after.notifications && n !in db.notifications ::
                  var e := after.notifications[n];
                  e == NotificationRow(e.user, r.duck, sid, None) && (e.user, r.duck) in db.follows && e.user != r.user)
            && (forall u: Id | (u, r.duck) in db.follows && u != r.user ::
                  exists n | n in after.notifications && n !in db.notifications :: after.notifications[n].user == u)
            && (forall n, m | n in after.notifications && m in after.notifications && n != m
                              && n !in db.notifications && m !in db.notifications ::
                  after.notifications[n].user != after.notifications[m].user)
            && after.follows == db.follows + {(r.user, r.duck)}
  {
    hide Good, SightingRefs, Notified, Notices, Append;
    FollowersBounded(codec, db);
    LogNotices(db, r);
    NotifiedExactly(db.follows, r.duck, r.user, db.next.user);
    FanOut(db.follows, r, db.next.user, db.notifications, db.next.notification, db.next.sighting,
           LogSighting(db, r).value.notifications);
  }

  lemma FanOut(follows: set<(Id, Id)>, r: SightingRow, n: nat, earlier: map<Id, NotificationRow>, base: Id, sid: Id,
               after: map<Id, NotificationRow>)
    requires forall p | p in follows :: p.0 < n
    requires forall k | k in earlier :: k < base
    requires var us := Notified(follows, r.duck, r.user, n);
             && (forall i, j | 0 <= i < j < |us| :: us[i] < us[j])
             && (forall u :: u in us <==> u < n && (u, r.duck) in follows && u != r.user)
             && (forall k :: k in after <==> k in earlier || base <= k < base + |us|)
             && (forall k | base <= k < base + |us| :: after[k] == NotificationRow(us[k - base], r.duck, sid, None))
    ensures forall k | k in after && k !in earlier ::
              after[k] == NotificationRow(after[k].user, r.duck, sid, None)
              && (after[k].user, r.duck) in follows && after[k].user != r.user
    ensures forall u: Id | (u, r.duck) in follows && u != r.user ::
              exists k | k in after && k !in earlier :: after[k].user == u
    ensures forall k, l | k in after && l in after && k != l && k !in earlier && l !in earlier ::
              after[k].user != after[l].user
  {
    hide Notified;
    var us := Notified(follows, r.duck, r.user, n);
    forall k | k in after && k !in earlier
      ensures after[k] == NotificationRow(after[k].user, r.duck, sid, None)
              && (after[k].user, r.duck) in follows && after[k].user != r.user
    {
      assert us[k - base] in us;
    }
    forall u: Id | (u, r.duck) in follows && u != r.user
      ensures exists k | k in after && k !in earlier :: after[k].user == u
    {
      assert u in us;
      var i :| 0 <= i < |us| && us[i] == u;
      assert after[base + i].user == u;
    }
  }

  // ----- Hard deletion ------------------------------------------------------------------------------------

  /** After every schedule, deleting a user passes all twelve foreign-key checks, is one simultaneous filter
      of the tables (or nothing at all for an admin or a stranger), and loses no photo key. */
  lemma {:induction false} UserDeletionIsExact(codec: Codec.DuckCodec, vessels: set<Id>, events: seq<Event>, u: Id)
    requires Codec.Valid(codec)
    ensures var db := Run(codec, Start(vessels), events).db;
            var (r, after) := DeleteUser(db, u);
            && RunChecked(db, UserCascade(u)) == Some(WithoutUser(db, u))
            && (if u in db.users && !db.users[u].isAdmin
                then
                  && r == Ok(Some(UserPhotoKeys(db, u))) && after == WithoutUser(db, u)
                  && PhotoKeys.PhotoBag(db) == PhotoKeys.PhotoBag(after) + multiset(UserPhotoKeys(db, u))
                else r == Ok(None) && after == db)
  {
    hide Good, TasksOk, Exclusive, Run, Checks, ForeignKeys, IdsBounded, NoticesAgree, DeleteUser, RunChecked,
      UserCascade,
      UserPhotoKeys, PhotoKeys.PhotoBag, WithoutUser, UniqueDucks, UniqueFlocks, UniqueUsers;
    var db := Run(codec, Start(vessels), events).db;
    ReachableInv(codec, vessels, events);
    GoodMeetsSchema(codec, db);
    AgreementCloses(db, u);
    UserCascadeIsFilter(db, u);
    DeleteUserIsFilter(db, u);
    PhotoKeys.UserPhotosConserved(db, u);
  }

  /** The same for a flock and its six statements. */
  lemma FlockDeletionIsExact(codec: Codec.DuckCodec, vessels: set<Id>, events: seq<Event>, f: Id)
    requires Codec.Valid(codec)
    ensures var db := Run(codec, Start(vessels), events).db;
            var (r, after) := DeleteFlock(db, f);
            && r == Ok(if f in db.flocks then Some(FlockPhotoKeys(db, f)) else None)
            && after == WithoutFlock(db, f)
            && (f !in db.flocks ==> after == db)
            && PhotoKeys.PhotoBag(db)
               == PhotoKeys.PhotoBag(after) + (if f in db.flocks then multiset(FlockPhotoKeys(db, f)) else multiset{})
  {
    hide Good, TasksOk, Exclusive, Run, Checks, ForeignKeys, IdsBounded, NoticesAgree, DeleteFlock, FlockPhotoKeys,
      PhotoKeys.PhotoBag, WithoutFlock, UniqueDucks, UniqueFlocks, UniqueUsers;
    var db := Run(codec, Start(vessels), events).db;
    ReachableInv(codec, vessels, events);
    GoodMeetsSchema(codec, db);
    DeleteFlockIsFilter(db, f);
    PhotoKeys.FlockPhotosConserved(db, f);
  }

  // ----- Removing a sighting from the wrong page ---------------------------------------------------------

  /** Naming a sighting of another duck removes no sighting, yet is a no-op only if the sighting notified
      nobody: the notices go by sighting alone. */
  lemma {:induction false} WrongDuckIsNoOpIff(db: Db, sighting: Id, duck: Id)
    requires sighting in db.sightings && db.sightings[sighting].duck != duck
    ensures DeleteSighting(db, sighting, duck).sightings == db.sightings
    ensures DeleteSighting(db, sighting, duck) == db
            <==> forall n | n in db.notifications :: db.notifications[n].sighting != sighting
  {
    var after := DeleteSighting(db, sighting, duck);
    if forall n | n in db.notifications :: db.notifications[n].sighting != sighting {
      assert after.notifications == db.notifications;
    } else {
      var n :| n in db.notifications && db.notifications[n].sighting == sighting;
      assert n !in after.notifications;
    }
  }
}
