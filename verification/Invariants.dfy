/** What holds of the tables in every reachable database, and that every repository operation keeps it. */
module Invariants {
  import opened Wrappers
  import opened Schema
  import opened Store
  import opened Minting
  import opened Cascade
  import Codes
  import Codec
  import Text
  import Profanity

  // ----- One predicate per table ---------------------------------------------------

  predicate UsersOk(users: map<Id, UserRow>, next: Id) {
    && (forall u | u in users :: u < next)
    && UniqueUsers(users)
  }

  predicate FlockReads(codec: Codec.DuckCodec, r: FlockRow) {
    && Codes.IsFlockCode(r.code)
    && r.generation in codec.ciphers
    && TextFits(Text.LABEL_MAX, r.flockLabel)
  }

  predicate FlocksOk(codec: Codec.DuckCodec, flocks: map<Id, FlockRow>, next: Id) {
    && (forall f | f in flocks :: f < next && FlockReads(codec, flocks[f]))
    && UniqueFlocks(flocks)
  }

  predicate DuckReads(r: DuckRow) {
    && DuckChecks(r)
    && (r.originatedAt.Some? ==>
          TextFits(Text.DESCRIPTION_MAX, r.description) && TextFits(Text.DUCK_NAME_MAX, r.name))
  }

  /** The row carries the code its flock mints for its number. */
  ghost predicate DuckCoded(codec: Codec.DuckCodec, flocks: map<Id, FlockRow>, r: DuckRow)
    requires Codec.Valid(codec)
  {
    && r.flock in flocks
    && Codes.IsFlockCode(flocks[r.flock].code)
    && r.seqNo >= 0
    && MintCode(codec, flocks[r.flock].generation, flocks[r.flock].code, r.seqNo) == Some(r.code)
  }

  ghost predicate DucksOk(codec: Codec.DuckCodec, ducks: map<Id, DuckRow>, flocks: map<Id, FlockRow>, next: Id)
    requires Codec.Valid(codec)
  {
    && (forall d | d in ducks :: d < next && DuckReads(ducks[d]) && DuckCoded(codec, flocks, ducks[d]))
    && UniqueDucks(ducks)
  }

  predicate HasSeq(ducks: map<Id, DuckRow>, f: Id, s: int) {
    exists d | d in ducks :: ducks[d].flock == f && ducks[d].seqNo == s
  }

  /** Below a minted number of a flock only unmintable numbers are missing. */
  ghost predicate Dense(codec: Codec.DuckCodec, ducks: map<Id, DuckRow>, flocks: map<Id, FlockRow>)
    requires Codec.Valid(codec)
  {
    forall d, s: nat | d in ducks && ducks[d].flock in flocks && Codes.IsFlockCode(flocks[ducks[d].flock].code)
                       && s <= ducks[d].seqNo
                       && MintCode(codec, flocks[ducks[d].flock].generation, flocks[ducks[d].flock].code, s).Some? ::
      HasSeq(ducks, ducks[d].flock, s)
  }

  /** The duck exists and has set sail. */
  predicate Live(ducks: map<Id, DuckRow>, d: Id) {
    d in ducks && ducks[d].setSailAt.Some?
  }

  predicate SightingsOk(sightings: map<Id, SightingRow>, ducks: map<Id, DuckRow>, next: Id) {
    forall s | s in sightings ::
      && s < next
      && SightingChecks(sightings[s])
      && TextFits(Text.NOTE_MAX, sightings[s].note)
      && Live(ducks, sightings[s].duck)
  }

  predicate CommentsOk(comments: map<Id, CommentRow>, ducks: map<Id, DuckRow>, next: Id) {
    forall c | c in comments ::
      c < next && TextFits(Text.COMMENT_MAX, Some(comments[c].body)) && Live(ducks, comments[c].duck)
  }

  predicate FollowsOk(follows: set<(Id, Id)>, ducks: map<Id, DuckRow>) {
    forall p | p in follows :: Live(ducks, p.1)
  }

  /** A notice is about its sighting's duck and goes to somebody other than the finder. */
  predicate NoticeOk(r: NotificationRow, sightings: map<Id, SightingRow>) {
    r.sighting in sightings && r.duck == sightings[r.sighting].duck && r.user != sightings[r.sighting].user
  }

  predicate NoticesOk(notices: map<Id, NotificationRow>, sightings: map<Id, SightingRow>, next: Id) {
    && (forall n | n in notices :: n < next && NoticeOk(notices[n], sightings))
    && (forall n, m | n in notices && m in notices && n != m ::
          notices[n].user != notices[m].user || notices[n].sighting != notices[m].sighting)
  }

  /** The invariant of the database. */
  ghost predicate Good(codec: Codec.DuckCodec, db: Db)
    requires Codec.Valid(codec)
  {
    && ForeignKeys(db)
    && UsersOk(db.users, db.next.user)
    && FlocksOk(codec, db.flocks, db.next.flock)
    && DucksOk(codec, db.ducks, db.flocks, db.next.duck)
    && Dense(codec, db.ducks, db.flocks)
    && SightingsOk(db.sightings, db.ducks, db.next.sighting)
    && CommentsOk(db.comments, db.ducks, db.next.comment)
    && FollowsOk(db.follows, db.ducks)
    && NoticesOk(db.notifications, db.sightings, db.next.notification)
  }

  /** An empty registry with its seeded vessels. */
  function Empty(vessels: set<Id>): Db {
    Db(map[], map[], map[], map[], map[], {}, map[], vessels, Ids(1, 1, 1, 1, 1, 1))
  }

  lemma {:induction false} EmptyIsGood(codec: Codec.DuckCodec, vessels: set<Id>)
    requires Codec.Valid(codec)
    ensures Good(codec, Empty(vessels))
  {
  }

  /** The declared constraints all follow. */
  lemma {:induction false} GoodMeetsSchema(codec: Codec.DuckCodec, db: Db)
    requires Codec.Valid(codec) && Good(codec, db)
    ensures ForeignKeys(db) && Checks(db) && IdsBounded(db) && NoticesAgree(db)
    ensures UniqueDucks(db.ducks) && UniqueFlocks(db.flocks) && UniqueUsers(db.users)
  {
    hide MintCode, ForeignKeys, Dense, UniqueUsers, UniqueDucks, UniqueFlocks;
  }

  // ----- Users and flocks -------------------------------------------------------------

  lemma UsersGrow(db: Db, users: map<Id, UserRow>)
    requires ForeignKeys(db) && db.users.Keys <= users.Keys
    ensures ForeignKeys(db.(users := users))
  {
    assert forall n | n in db.notifications :: NoticeRefs(db.users, db.ducks, db.sightings, db.notifications[n]);
    assert forall s | s in db.sightings :: SightingRefs(db.ducks, db.vessels, db.users, db.sightings[s]);
    hide DuckKeys;
  }

  lemma RenewUser(users: map<Id, UserRow>, u: Id, r: UserRow)
    requires UniqueUsers(users) && u in users && r.issuer == users[u].issuer && r.subject == users[u].subject
    ensures UniqueUsers(users[u := r])
  {
  }

  lemma AddUser(users: map<Id, UserRow>, u: Id, r: UserRow)
    requires UniqueUsers(users)
    requires forall v | v in users :: !(users[v].issuer == r.issuer && users[v].subject == r.subject)
    ensures UniqueUsers(users[u := r])
  {
  }

  lemma UpsertKeepsUsers(db: Db, issuer: string, subject: string, displayName: Option<string>, email: Option<string>,
                         grantAdmin: bool)
    requires UsersOk(db.users, db.next.user)
    ensures var after := Upsert(db, issuer, subject, displayName, email, grantAdmin);
            UsersOk(after.users, after.next.user)
  {
    hide UniqueUsers, FindUser, Coalesce;
    match FindUser(db.users, issuer, subject, db.next.user)
    case Some(u) =>
      RenewUser(db.users, u, Renewed(db.users[u], displayName, email, grantAdmin));
    case None =>
      AddUser(db.users, db.next.user, UserRow(issuer, subject, displayName, email, grantAdmin));
  }

  lemma UpsertShape(db: Db, issuer: string, subject: string, displayName: Option<string>, email: Option<string>,
                    grantAdmin: bool)
    ensures var after := Upsert(db, issuer, subject, displayName, email, grantAdmin);
            && after == db.(users := after.users, next := db.next.(user := db.next.user + 1))
            && db.users.Keys <= after.users.Keys
  {
  }

  lemma UsersKeepGood(codec: Codec.DuckCodec, db: Db, users: map<Id, UserRow>, next: Id)
    requires Codec.Valid(codec) && Good(codec, db)
    requires UsersOk(users, next) && db.users.Keys <= users.Keys
    ensures Good(codec, db.(users := users, next := db.next.(user := next)))
  {
    hide ForeignKeys, UsersOk, FlocksOk, DucksOk, Dense, SightingsOk, CommentsOk, FollowsOk, NoticesOk;
    UsersGrow(db, users);
    CountersFree(db.(users := users), db.next.(user := next));
  }

  lemma {:induction false} UpsertKeepsGood(codec: Codec.DuckCodec, db: Db, issuer: string, subject: string,
                                           displayName: Option<string>, email: Option<string>, grantAdmin: bool)
    requires Codec.Valid(codec) && Good(codec, db)
    ensures Good(codec, Upsert(db, issuer, subject, displayName, email, grantAdmin))
  {
    hide Upsert, ForeignKeys, UsersOk, FlocksOk, DucksOk, Dense, SightingsOk, CommentsOk, FollowsOk, NoticesOk;
    var after := Upsert(db, issuer, subject, displayName, email, grantAdmin);
    UpsertKeepsUsers(db, issuer, subject, displayName, email, grantAdmin);
    UpsertShape(db, issuer, subject, displayName, email, grantAdmin);
    UsersKeepGood(codec, db, after.users, after.next.user);
  }

  lemma AddFlockKeepsGood(codec: Codec.DuckCodec, db: Db, r: FlockRow)
    requires Codec.Valid(codec) && Good(codec, db)
    requires r.owner in db.users && FlockReads(codec, r)
    requires forall f | f in db.flocks :: db.flocks[f].code != r.code
    ensures Good(codec, db.(flocks := db.flocks[db.next.flock := r], next := db.next.(flock := db.next.flock + 1)))
  {
    hide UsersOk, SightingsOk, CommentsOk, FollowsOk, NoticesOk, MintCode, FlockReads, DuckReads,
      SightingKeys, CommentKeys, FollowKeys, NoticeKeys, UniqueDucks, HasSeq, Codes.IsFlockCode;
    assert DuckKeys(db.ducks, db.flocks);
  }

  lemma CountersFree(db: Db, next: Ids)
    requires ForeignKeys(db)
    ensures ForeignKeys(db.(next := next))
  {
  }

  lemma BurnFlock(codec: Codec.DuckCodec, flocks: map<Id, FlockRow>, next: Id)
    requires FlocksOk(codec, flocks, next)
    ensures FlocksOk(codec, flocks, next + 1)
  {
    hide FlockReads, UniqueFlocks;
  }

  lemma BurnFlockKeepsGood(codec: Codec.DuckCodec, db: Db)
    requires Codec.Valid(codec) && Good(codec, db)
    ensures Good(codec, db.(next := db.next.(flock := db.next.flock + 1)))
  {
    hide ForeignKeys, UsersOk, FlocksOk, DucksOk, Dense, SightingsOk, CommentsOk, FollowsOk, NoticesOk;
    BurnFlock(codec, db.flocks, db.next.flock);
    CountersFree(db, db.next.(flock := db.next.flock + 1));
  }

  /** Drawing a prefix keeps the invariant, and never disturbs what exists. */
  lemma {:induction false} CreateFlockKeepsGood(codec: Codec.DuckCodec, db: Db, owner: Id, generation: nat,
                                                flockLabel: Option<string>, draws: seq<string>)
    requires Codec.Valid(codec) && Good(codec, db)
    requires generation in codec.ciphers && TextFits(Text.LABEL_MAX, flockLabel)
    requires forall i | 0 <= i < |draws| :: Codes.IsFlockCode(draws[i])
    ensures Good(codec, CreateFlock(db, owner, generation, flockLabel, draws).1)
    decreases |draws|
  {
    hide Good, Profanity.Matches, Codes.IsFlockCode;
    if draws != [] {
      if Profanity.Matches(draws[0]) {
        CreateFlockKeepsGood(codec, db, owner, generation, flockLabel, draws[1..]);
      } else {
        var burnt := db.(next := db.next.(flock := db.next.flock + 1));
        BurnFlockKeepsGood(codec, db);
        if FindFlock(db.flocks, draws[0], db.next.flock).Some? {
          CreateFlockKeepsGood(codec, burnt, owner, generation, flockLabel, draws[1..]);
        } else if owner in db.users {
          PrefixUnused(codec, db, draws[0]);
          AddFlockKeepsGood(codec, db, FlockRow(draws[0], generation, owner, flockLabel));
        }
      }
    }
  }

  lemma PrefixUnused(codec: Codec.DuckCodec, db: Db, code: string)
    requires Codec.Valid(codec) && Good(codec, db) && FindFlock(db.flocks, code, db.next.flock).None?
    ensures forall f | f in db.flocks :: db.flocks[f].code != code
  {
  }

  // ----- A duck's row -----------------------------------------------------------------------

  lemma DuckUpdateKeepsRows(codec: Codec.DuckCodec, db: Db, d: Id, r: DuckRow)
    requires Codec.Valid(codec) && DucksOk(codec, db.ducks, db.flocks, db.next.duck) && d in db.ducks
    requires r.code == db.ducks[d].code && r.flock == db.ducks[d].flock && r.seqNo == db.ducks[d].seqNo
    requires DuckReads(r)
    ensures DucksOk(codec, db.ducks[d := r], db.flocks, db.next.duck)
  {
    hide MintCode, DuckReads, Codes.IsFlockCode;
  }

  lemma SameDuckKeys(db: Db, ducks: map<Id, DuckRow>)
    requires ForeignKeys(db) && ducks.Keys == db.ducks.Keys
            && forall d | d in ducks :: ducks[d].flock == db.ducks[d].flock
    ensures ForeignKeys(db.(ducks := ducks))
  {
    assert forall n | n in db.notifications :: NoticeRefs(db.users, db.ducks, db.sightings, db.notifications[n]);
    assert forall s | s in db.sightings :: SightingRefs(db.ducks, db.vessels, db.users, db.sightings[s]);
    hide FlockKeys;
  }

  /** What hangs off live ducks still does when no live duck is lost. */
  lemma LiveGrows(db: Db, ducks: map<Id, DuckRow>)
    requires forall x | Live(db.ducks, x) :: Live(ducks, x)
    ensures SightingsOk(db.sightings, db.ducks, db.next.sighting) ==> SightingsOk(db.sightings, ducks, db.next.sighting)
    ensures CommentsOk(db.comments, db.ducks, db.next.comment) ==> CommentsOk(db.comments, ducks, db.next.comment)
    ensures FollowsOk(db.follows, db.ducks) ==> FollowsOk(db.follows, ducks)
  {
    hide Live, SightingChecks, TextFits;
  }

  lemma LiveAfterUpdate(ducks: map<Id, DuckRow>, d: Id, r: DuckRow)
    requires d in ducks && (ducks[d].setSailAt.Some? ==> r.setSailAt.Some?)
    ensures forall x | Live(ducks, x) :: Live(ducks[d := r], x)
  {
  }

  lemma DuckUpdateKeepsGood(codec: Codec.DuckCodec, db: Db, d: Id, r: DuckRow)
    requires Codec.Valid(codec) && Good(codec, db) && d in db.ducks
    requires r.code == db.ducks[d].code && r.flock == db.ducks[d].flock && r.seqNo == db.ducks[d].seqNo
    requires DuckReads(r) && (db.ducks[d].setSailAt.Some? ==> r.setSailAt.Some?)
    ensures Good(codec, db.(ducks := db.ducks[d := r]))
  {
    hide ForeignKeys, UsersOk, FlocksOk, DucksOk, Dense, SightingsOk, CommentsOk, FollowsOk, NoticesOk, Live, DuckReads;
    var ducks := db.ducks[d := r];
    DuckUpdateKeepsRows(codec, db, d, r);
    DuckUpdateKeepsDense(codec, db, d, r);
    SameDuckKeys(db, ducks);
    LiveAfterUpdate(db.ducks, d, r);
    LiveGrows(db, ducks);
  }

  lemma DuckUpdateKeepsDense(codec: Codec.DuckCodec, db: Db, d: Id, r: DuckRow)
    requires Codec.Valid(codec) && Dense(codec, db.ducks, db.flocks) && d in db.ducks
    requires r.flock == db.ducks[d].flock && r.seqNo == db.ducks[d].seqNo
    ensures Dense(codec, db.ducks[d := r], db.flocks)
  {
    hide MintCode, Codes.IsFlockCode;
    var ducks := db.ducks[d := r];
    forall f, s | HasSeq(db.ducks, f, s) ensures HasSeq(ducks, f, s) {
      var e :| e in db.ducks && db.ducks[e].flock == f && db.ducks[e].seqNo == s;
      assert e in ducks && ducks[e].flock == f && ducks[e].seqNo == s;
    }
  }

  lemma StagedReads(r: DuckRow, description: string, name: Option<string>, photo: PhotoRef, now: Time)
    requires DuckReads(r) && r.originatedAt.None?
    requires TextFits(Text.DESCRIPTION_MAX, Some(description)) && TextFits(Text.DUCK_NAME_MAX, name)
    ensures r.setSailAt.None?
    ensures DuckReads(r.(originatedAt := Some(now), description := Some(description), name := name,
                         photoKey := Some(photo.key), photoType := Some(photo.contentType)))
  {
    hide TextFits;
  }

  lemma {:induction false} StageKeepsGood(codec: Codec.DuckCodec, db: Db, d: Id, description: string,
                                          name: Option<string>, photo: PhotoRef, now: Time)
    requires Codec.Valid(codec) && Good(codec, db)
    requires TextFits(Text.DESCRIPTION_MAX, Some(description)) && TextFits(Text.DUCK_NAME_MAX, name)
    ensures Good(codec, Stage(db, d, description, name, photo, now))
  {
    if d in db.ducks && db.ducks[d].originatedAt.None? {
      var r := db.ducks[d].(originatedAt := Some(now), description := Some(description), name := name,
                            photoKey := Some(photo.key), photoType := Some(photo.contentType));
      DuckReadsOf(codec, db, d);
      StagedReads(db.ducks[d], description, name, photo, now);
      hide Good, DuckReads, TextFits;
      DuckUpdateKeepsGood(codec, db, d, r);
    }
  }

  lemma DuckReadsOf(codec: Codec.DuckCodec, db: Db, d: Id)
    requires Codec.Valid(codec) && Good(codec, db) && d in db.ducks
    ensures DuckReads(db.ducks[d])
  {
  }

  lemma {:induction false} SetSailKeepsGood(codec: Codec.DuckCodec, db: Db, d: Id, now: Time)
    requires Codec.Valid(codec) && Good(codec, db)
    ensures Good(codec, SetSail(db, d, now))
  {
    if d in db.ducks && db.ducks[d].originatedAt.Some? && db.ducks[d].setSailAt.None? {
      DuckReadsOf(codec, db, d);
      hide Good;
      DuckUpdateKeepsGood(codec, db, d, db.ducks[d].(setSailAt := Some(now)));
    }
  }

  lemma {:induction false} MarksKeepGood(codec: Codec.DuckCodec, db: Db, d: Id, on: bool, now: Time)
    requires Codec.Valid(codec) && Good(codec, db)
    ensures Good(codec, SetDeleted(db, d, on, now))
    ensures Good(codec, SetCommentsLocked(db, d, on, now))
  {
    if d in db.ducks {
      DuckReadsOf(codec, db, d);
      hide Good;
      var r := db.ducks[d];
      DuckUpdateKeepsGood(codec, db, d, r.(deletedAt := Mark(r.deletedAt, on, now)));
      DuckUpdateKeepsGood(codec, db, d, r.(commentsLockedAt := Mark(r.commentsLockedAt, on, now)));
    }
  }

  // ----- Sightings, comments, follows ------------------------------------------------------------

  /** The notification table after a log: the old rows, then one new row per other follower. */
  lemma {:induction false} LogNotices(db: Db, r: SightingRow)
    requires LogSighting(db, r).Ok? && forall n | n in db.notifications :: n < db.next.notification
    ensures var after := LogSighting(db, r).value.notifications;
            var users := Notified(db.follows, r.duck, r.user, db.next.user);
            var base := db.next.notification;
            && (forall n :: n in after <==> n in db.notifications || base <= n < base + |users|)
            && (forall n | n in db.notifications :: after[n] == db.notifications[n])
            && (forall n | base <= n < base + |users| ::
                  after[n] == NotificationRow(users[n - base], r.duck, db.next.sighting, None))
  {
    hide Notified, SightingRefs;
  }

  lemma LogKeepsNotices(db: Db, r: SightingRow)
    requires LogSighting(db, r).Ok? && NoticesOk(db.notifications, db.sightings, db.next.notification)
    requires forall s | s in db.sightings :: s < db.next.sighting
    ensures var after := LogSighting(db, r).value;
            NoticesOk(after.notifications, after.sightings, after.next.notification)
  {
    hide SightingRefs, Notified, Notices, Append;
    var users := Notified(db.follows, r.duck, r.user, db.next.user);
    var (base, sid) := (db.next.notification, db.next.sighting);
    LogNotices(db, r);
    NotifiedExactly(db.follows, r.duck, r.user, db.next.user);
    assert forall i | 0 <= i < |users| :: users[i] in users;
    assert forall n | n in db.notifications :: NoticeOk(db.notifications[n], db.sightings);
    NewNoticesOk(db.notifications, db.sightings, base, LogSighting(db, r).value.notifications, users, sid, r);
  }

  lemma NewNoticesOk(notices: map<Id, NotificationRow>, sightings: map<Id, SightingRow>, base: Id,
                     after: map<Id, NotificationRow>, users: seq<Id>, sid: Id, r: SightingRow)
    requires NoticesOk(notices, sightings, base)
    requires forall s | s in sightings :: s < sid
    requires forall i, j | 0 <= i < j < |users| :: users[i] < users[j]
    requires forall i | 0 <= i < |users| :: users[i] != r.user
    requires forall n :: n in after <==> n in notices || base <= n < base + |users|
    requires forall n | n in notices :: after[n] == notices[n]
    requires forall n | base <= n < base + |users| :: after[n] == NotificationRow(users[n - base], r.duck, sid, None)
    ensures NoticesOk(after, sightings[sid := r], base + |users|)
  {
    forall n | n in after
      ensures n < base + |users| && NoticeOk(after[n], sightings[sid := r])
      ensures n >= base <==> after[n].sighting == sid
    {
      if n < base {
        assert NoticeOk(notices[n], sightings);
      }
    }
    hide NoticeOk;
    forall n, m | n in after && m in after && n < m
      ensures after[n].user != after[m].user || after[n].sighting != after[m].sighting
    {
      if n >= base {
        assert users[n - base] < users[m - base];
      }
    }
  }

  lemma SightingsBelow(db: Db)
    requires SightingsOk(db.sightings, db.ducks, db.next.sighting)
    ensures forall s | s in db.sightings :: s < db.next.sighting
  {
  }

  lemma LogKeepsRest(db: Db, r: SightingRow)
    requires SightingsOk(db.sightings, db.ducks, db.next.sighting) && FollowsOk(db.follows, db.ducks)
    requires LogSighting(db, r).Ok? && SightingChecks(r) && TextFits(Text.NOTE_MAX, r.note) && Live(db.ducks, r.duck)
    ensures var after := LogSighting(db, r).value;
            SightingsOk(after.sightings, after.ducks, after.next.sighting) && FollowsOk(after.follows, after.ducks)
  {
    hide Live, SightingChecks, TextFits, Notified, Notices, Append, SightingRefs;
  }

  lemma {:induction false} LogKeepsGood(codec: Codec.DuckCodec, db: Db, r: SightingRow)
    requires Codec.Valid(codec) && Good(codec, db) && LogSighting(db, r).Ok?
    requires SightingChecks(r) && TextFits(Text.NOTE_MAX, r.note) && Live(db.ducks, r.duck)
    ensures Good(codec, LogSighting(db, r).value)
  {
    hide ForeignKeys, UsersOk, FlocksOk, DucksOk, Dense, SightingsOk, CommentsOk, FollowsOk, NoticesOk, SightingRefs,
      Live, SightingChecks, TextFits, Notified, Notices, Append;
    SightingsBelow(db);
    LogKeepsNotices(db, r);
    LogKeepsKeys(codec, db, r);
    LogKeepsRest(db, r);
  }

  lemma LogKeepsKeys(codec: Codec.DuckCodec, db: Db, r: SightingRow)
    requires Codec.Valid(codec) && Good(codec, db) && LogSighting(db, r).Ok?
    ensures ForeignKeys(LogSighting(db, r).value)
  {
    hide DucksOk, Dense, FlocksOk, UsersOk, CommentsOk, FollowsOk, SightingsOk, FlockKeys, DuckKeys, CommentKeys;
    var after := LogSighting(db, r).value;
    var users := Notified(db.follows, r.duck, r.user, db.next.user);
    NotifiedExactly(db.follows, r.duck, r.user, db.next.user);
    assert forall i | 0 <= i < |users| :: users[i] in users && (users[i], r.duck) in db.follows;
    forall n | n in after.notifications
      ensures NoticeRefs(after.users, after.ducks, after.sightings, after.notifications[n])
    {
      if n in db.notifications && n < db.next.notification {
        assert NoticeRefs(db.users, db.ducks, db.sightings, db.notifications[n]);
      }
    }
  }

  lemma DeleteSightingKeepsKeys(db: Db, sighting: Id, duck: Id)
    requires ForeignKeys(db)
    ensures ForeignKeys(DeleteSighting(db, sighting, duck))
  {
    assert forall n | n in db.notifications :: NoticeRefs(db.users, db.ducks, db.sightings, db.notifications[n]);
    hide FlockKeys, DuckKeys, CommentKeys, FollowKeys, SightingRefs;
  }

  lemma DeleteSightingKeepsRows(db: Db, sighting: Id, duck: Id)
    requires SightingsOk(db.sightings, db.ducks, db.next.sighting)
    requires NoticesOk(db.notifications, db.sightings, db.next.notification)
    ensures var after := DeleteSighting(db, sighting, duck);
            && SightingsOk(after.sightings, db.ducks, db.next.sighting)
            && NoticesOk(after.notifications, after.sightings, db.next.notification)
  {
    hide SightingChecks, TextFits, Live;
    assert forall n | n in db.notifications :: NoticeOk(db.notifications[n], db.sightings);
  }

  lemma {:induction false} DeleteSightingKeepsGood(codec: Codec.DuckCodec, db: Db, sighting: Id, duck: Id)
    requires Codec.Valid(codec) && Good(codec, db)
    ensures Good(codec, DeleteSighting(db, sighting, duck))
  {
    hide ForeignKeys, UsersOk, FlocksOk, DucksOk, Dense, SightingsOk, CommentsOk, FollowsOk, NoticesOk;
    DeleteSightingKeepsKeys(db, sighting, duck);
    DeleteSightingKeepsRows(db, sighting, duck);
  }

  lemma {:induction false} CommentsKeepGood(codec: Codec.DuckCodec, db: Db, duck: Id, user: Id, body: string,
                                            comment: Id)
    requires Codec.Valid(codec) && Good(codec, db)
    requires TextFits(Text.COMMENT_MAX, Some(body))
    ensures Live(db.ducks, duck) && AddComment(db, duck, user, body).Ok? ==>
              Good(codec, AddComment(db, duck, user, body).value)
    ensures Good(codec, DeleteComment(db, comment, duck))
  {
    hide DucksOk, Dense, FlocksOk, UsersOk, SightingsOk, FollowsOk, NoticesOk, FlockKeys, DuckKeys, SightingKeys,
      FollowKeys, NoticeKeys, TextFits, Live;
  }

  lemma {:induction false} FollowsKeepGood(codec: Codec.DuckCodec, db: Db, user: Id, duck: Id)
    requires Codec.Valid(codec) && Good(codec, db)
    ensures Live(db.ducks, duck) && Follow(db, user, duck).Ok? ==> Good(codec, Follow(db, user, duck).value)
    ensures Good(codec, Unfollow(db, user, duck))
  {
    hide DucksOk, Dense, FlocksOk, UsersOk, SightingsOk, CommentsOk, NoticesOk, FlockKeys, DuckKeys, SightingKeys,
      CommentKeys, NoticeKeys, Live;
  }

  lemma MarkAllReadKeepsRows(db: Db, user: Id, now: Time)
    requires ForeignKeys(db) && NoticesOk(db.notifications, db.sightings, db.next.notification)
    ensures var after := MarkAllRead(db, user, now);
            ForeignKeys(after) && NoticesOk(after.notifications, db.sightings, db.next.notification)
  {
    var notices := MarkAllRead(db, user, now).notifications;
    hide FlockKeys, DuckKeys, SightingKeys, CommentKeys, FollowKeys;
    assert forall n | n in db.notifications :: NoticeRefs(db.users, db.ducks, db.sightings, db.notifications[n]);
    assert forall n | n in db.notifications :: NoticeOk(db.notifications[n], db.sightings);
    assert notices.Keys == db.notifications.Keys;
    assert forall n | n in notices :: notices[n] == db.notifications[n].(readAt := notices[n].readAt);
  }

  lemma {:induction false} MarkAllReadKeepsGood(codec: Codec.DuckCodec, db: Db, user: Id, now: Time)
    requires Codec.Valid(codec) && Good(codec, db)
    ensures Good(codec, MarkAllRead(db, user, now))
  {
    hide ForeignKeys, UsersOk, FlocksOk, DucksOk, Dense, SightingsOk, CommentsOk, FollowsOk, NoticesOk;
    MarkAllReadKeepsRows(db, user, now);
  }

  // ----- Hard deletion --------------------------------------------------------------------------------

  lemma WithoutUserOwners(codec: Codec.DuckCodec, db: Db, u: Id)
    requires UsersOk(db.users, db.next.user) && FlocksOk(codec, db.flocks, db.next.flock)
    ensures UsersOk(UsersWithout(db, u), db.next.user) && FlocksOk(codec, FlocksWithout(db, u), db.next.flock)
  {
    hide FlockReads;
  }

  lemma {:induction false} WithoutUserKeepsGood(codec: Codec.DuckCodec, db: Db, u: Id)
    requires Codec.Valid(codec) && Good(codec, db)
    ensures Good(codec, WithoutUser(db, u))
  {
    hide ForeignKeys, UsersOk, FlocksOk, DucksOk, Dense, SightingsOk, CommentsOk, FollowsOk, NoticesOk, DucksWithout,
      SightingsWithout, CommentsWithout, FollowsWithout, NoticesWithout,
      UsersWithout, FlocksWithout;
    GoodMeetsSchema(codec, db);
    AgreementCloses(db, u);
    UserCascadeIsFilter(db, u);
    WithoutUserDucks(codec, db, u);
    WithoutUserOwners(codec, db, u);
    WithoutUserRest(codec, db, u);
  }

  lemma DuckFlocksExist(codec: Codec.DuckCodec, db: Db)
    requires Codec.Valid(codec) && Good(codec, db)
    ensures forall d | d in db.ducks :: db.ducks[d].flock in db.flocks
  {
    hide DucksOk, Dense, UsersOk, FlocksOk, SightingsOk, CommentsOk, FollowsOk, NoticesOk;
  }

  /** Dropping some flocks together with all their ducks leaves the other flocks as they were. */
  lemma DropFlocks(codec: Codec.DuckCodec, db: Db, ducks: map<Id, DuckRow>, flocks: map<Id, FlockRow>)
    requires Codec.Valid(codec) && Good(codec, db)
    requires forall f | f in flocks :: f in db.flocks && flocks[f] == db.flocks[f]
    requires forall d :: d in ducks <==> d in db.ducks && db.ducks[d].flock in flocks
    requires forall d | d in ducks :: ducks[d] == db.ducks[d]
    ensures DucksOk(codec, ducks, flocks, db.next.duck)
    ensures Dense(codec, ducks, flocks)
  {
    hide MintCode, DuckReads, UsersOk, FlocksOk, SightingsOk, CommentsOk, FollowsOk, NoticesOk, Codes.IsFlockCode,
      ForeignKeys;
    assert DucksOk(codec, ducks, flocks, db.next.duck) by {
      hide Dense;
    }
    assert Dense(codec, ducks, flocks) by {
      forall f, s | HasSeq(db.ducks, f, s) && f in flocks ensures HasSeq(ducks, f, s) {
        var e :| e in db.ducks && db.ducks[e].flock == f && db.ducks[e].seqNo == s;
        assert e in ducks && ducks[e].flock == f && ducks[e].seqNo == s;
      }
      hide HasSeq, DucksOk;
    }
  }

  lemma WithoutUserDucks(codec: Codec.DuckCodec, db: Db, u: Id)
    requires Codec.Valid(codec) && Good(codec, db)
    ensures DucksOk(codec, DucksWithout(db, u), FlocksWithout(db, u), db.next.duck)
    ensures Dense(codec, DucksWithout(db, u), FlocksWithout(db, u))
  {
    hide DucksOk, Dense, UsersOk, FlocksOk, SightingsOk, CommentsOk, FollowsOk, NoticesOk, ForeignKeys;
    DuckFlocksExist(codec, db);
    DropFlocks(codec, db, DucksWithout(db, u), FlocksWithout(db, u));
  }

  lemma WithoutUserRest(codec: Codec.DuckCodec, db: Db, u: Id)
    requires Codec.Valid(codec) && Good(codec, db)
    ensures SightingsOk(SightingsWithout(db, u), DucksWithout(db, u), db.next.sighting)
    ensures CommentsOk(CommentsWithout(db, u), DucksWithout(db, u), db.next.comment)
    ensures FollowsOk(FollowsWithout(db, u), DucksWithout(db, u))
    ensures NoticesOk(NoticesWithout(db, u), SightingsWithout(db, u), db.next.notification)
  {
    hide DucksOk, Dense, FlocksOk, UsersOk, ForeignKeys, SightingChecks, TextFits, OwnsDuck;
    assert forall n | n in NoticesWithout(db, u) :: NoticeOk(db.notifications[n], db.sightings);
  }

  lemma FewerFlocksOk(codec: Codec.DuckCodec, db: Db, f: Id)
    requires FlocksOk(codec, db.flocks, db.next.flock)
    ensures FlocksOk(codec, db.flocks - {f}, db.next.flock)
  {
    hide FlockReads;
  }

  lemma {:induction false} WithoutFlockKeepsGood(codec: Codec.DuckCodec, db: Db, f: Id)
    requires Codec.Valid(codec) && Good(codec, db)
    ensures Good(codec, WithoutFlock(db, f))
  {
    hide ForeignKeys, UsersOk, FlocksOk, DucksOk, Dense, SightingsOk, CommentsOk, FollowsOk, NoticesOk, DucksOutside,
      SightingsOutside, CommentsOutside, FollowsOutside, NoticesOutside;
    GoodMeetsSchema(codec, db);
    FlockAgreementCloses(db, f);
    FlockCascadeIsFilter(db, f);
    WithoutFlockDucks(codec, db, f);
    FewerFlocksOk(codec, db, f);
    WithoutFlockRest(codec, db, f);
  }

  lemma WithoutFlockDucks(codec: Codec.DuckCodec, db: Db, f: Id)
    requires Codec.Valid(codec) && Good(codec, db)
    ensures DucksOk(codec, DucksOutside(db, f), db.flocks - {f}, db.next.duck)
    ensures Dense(codec, DucksOutside(db, f), db.flocks - {f})
  {
    hide DucksOk, Dense, UsersOk, FlocksOk, SightingsOk, CommentsOk, FollowsOk, NoticesOk, ForeignKeys;
    DuckFlocksExist(codec, db);
    DropFlocks(codec, db, DucksOutside(db, f), db.flocks - {f});
  }

  lemma WithoutFlockRest(codec: Codec.DuckCodec, db: Db, f: Id)
    requires Codec.Valid(codec) && Good(codec, db)
    ensures SightingsOk(SightingsOutside(db, f), DucksOutside(db, f), db.next.sighting)
    ensures CommentsOk(CommentsOutside(db, f), DucksOutside(db, f), db.next.comment)
    ensures FollowsOk(FollowsOutside(db, f), DucksOutside(db, f))
    ensures NoticesOk(NoticesOutside(db, f), SightingsOutside(db, f), db.next.notification)
  {
    hide DucksOk, Dense, FlocksOk, UsersOk, ForeignKeys, SightingChecks, TextFits;
    assert forall n | n in NoticesOutside(db, f) :: NoticeOk(db.notifications[n], db.sightings);
  }
}
