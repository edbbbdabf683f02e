/** What a hard deletion leaves behind, table by table, in terms of the rows it found. */
module Deletions {
  import opened Wrappers
  import opened Schema
  import opened Cascade
  import opened Invariants
  import opened Runs
  import opened MintGuarantees
  import Codec
  import PhotoKeys

  // ----- A user --------------------------------------------------------------------------

  predicate DuckOf(db: Db, u: Id, d: Id) {
    d in db.ducks && db.ducks[d].flock in db.flocks && db.flocks[db.ducks[d].flock].owner == u
  }

  /** Every row that is there now was there before and says the same. */
  predicate RowsKept(was: Db, db: Db) {
    && (forall u | u in db.users :: u in was.users && db.users[u] == was.users[u])
    && (forall f | f in db.flocks :: f in was.flocks && db.flocks[f] == was.flocks[f])
    && (forall d | d in db.ducks :: d in was.ducks && db.ducks[d] == was.ducks[d])
    && (forall s | s in db.sightings :: s in was.sightings && db.sightings[s] == was.sightings[s])
    && (forall c | c in db.comments :: c in was.comments && db.comments[c] == was.comments[c])
    && (forall n | n in db.notifications :: n in was.notifications && db.notifications[n] == was.notifications[n])
    && db.follows <= was.follows && db.vessels == was.vessels && db.next == was.next
  }

  /** Gone are the account, its flocks, their ducks, and of the talk exactly what he said or what is about one of
      his ducks; of the notices also those of his sightings. */
  ghost predicate UserGone(was: Db, db: Db, u: Id) {
    && RowsKept(was, db)
    && (forall v :: v in db.users <==> v in was.users && v != u)
    && (forall f :: f in db.flocks <==> f in was.flocks && was.flocks[f].owner != u)
    && (forall d :: d in db.ducks <==> d in was.ducks && !DuckOf(was, u, d))
    && (forall s :: s in db.sightings <==>
                      s in was.sightings && was.sightings[s].user != u && !DuckOf(was, u, was.sightings[s].duck))
    && (forall c :: c in db.comments <==>
                      c in was.comments && was.comments[c].user != u && !DuckOf(was, u, was.comments[c].duck))
    && (forall p :: p in db.follows <==> p in was.follows && p.0 != u && !DuckOf(was, u, p.1))
    && (forall n :: n in db.notifications <==>
                      && n in was.notifications
                      && was.notifications[n].user != u && !DuckOf(was, u, was.notifications[n].duck)
                      && was.notifications[n].sighting in was.sightings
                      && was.sightings[was.notifications[n].sighting].user != u)
  }

  lemma NoticesNameStored(db: Db)
    requires ForeignKeys(db)
    ensures forall n | n in db.notifications :: db.notifications[n].sighting in db.sightings
  {
    hide FlockKeys, DuckKeys, SightingKeys, CommentKeys, FollowKeys;
    assert forall n | n in db.notifications :: NoticeRefs(db.users, db.ducks, db.sightings, db.notifications[n]);
  }

  lemma FilterKeepsRows(db: Db, u: Id)
    ensures RowsKept(db, WithoutUser(db, u))
  {
    hide OwnsDuck, OutlivesUser;
  }

  lemma SameDucks(db: Db, u: Id)
    ensures forall d :: OwnsDuck(db.ducks, db.flocks, u, d) <==> DuckOf(db, u, d)
  {
  }

  lemma FilterDropsNotices(db: Db, u: Id)
    requires ForeignKeys(db)
    ensures forall n :: n in NoticesWithout(db, u) <==>
              && n in db.notifications
              && db.notifications[n].user != u && !DuckOf(db, u, db.notifications[n].duck)
              && db.notifications[n].sighting in db.sightings
              && db.sightings[db.notifications[n].sighting].user != u
  {
    SameDucks(db, u);
    NoticesNameStored(db);
    hide ForeignKeys, OwnsDuck, DuckOf;
  }

  lemma FilterDropsRows(db: Db, u: Id)
    ensures forall s :: s in SightingsWithout(db, u) <==>
              s in db.sightings && db.sightings[s].user != u && !DuckOf(db, u, db.sightings[s].duck)
    ensures forall c :: c in CommentsWithout(db, u) <==>
              c in db.comments && db.comments[c].user != u && !DuckOf(db, u, db.comments[c].duck)
    ensures forall p :: p in FollowsWithout(db, u) <==> p in db.follows && p.0 != u && !DuckOf(db, u, p.1)
    ensures forall d :: d in DucksWithout(db, u) <==> d in db.ducks && !DuckOf(db, u, d)
  {
    SameDucks(db, u);
    hide OwnsDuck, DuckOf;
  }

  lemma FilterIsUserGone(db: Db, u: Id)
    requires ForeignKeys(db) && u in db.users && !db.users[u].isAdmin
    ensures UserGone(db, WithoutUser(db, u), u)
  {
    FilterKeepsRows(db, u);
    FilterDropsRows(db, u);
    FilterDropsNotices(db, u);
    hide ForeignKeys, RowsKept, DuckOf, NoticesWithout, SightingsWithout, CommentsWithout, FollowsWithout, DucksWithout;
  }

  /** What a call deleting user `u` answers and leaves. */
  ghost predicate UserDeleted(was: Db, db: Db, u: Id, r: Result<Option<seq<string>>, RepoError>) {
    if u !in was.users || was.users[u].isAdmin then r == Ok(None) && db == was
    else
      && r.Ok? && r.value.Some? && UserGone(was, db, u)
      && PhotoKeys.PhotoBag(was) == PhotoKeys.PhotoBag(db) + multiset(r.value.value)
  }

  lemma UserDeletionEffect(codec: Codec.DuckCodec, db: Db, u: Id)
    requires Codec.Valid(codec) && Good(codec, db)
    ensures Good(codec, DeleteUser(db, u).1)
    ensures UserDeleted(db, DeleteUser(db, u).1, u, DeleteUser(db, u).0)
  {
    hide Good, Checks, ForeignKeys, IdsBounded, NoticesAgree, DeleteUser, UserPhotoKeys, WithoutUser, UniqueDucks,
      UniqueFlocks, UniqueUsers, UserGone, PhotoKeys.PhotoBag;
    GoodMeetsSchema(codec, db);
    DeleteUserIsFilter(db, u);
    WithoutUserKeepsGood(codec, db, u);
    if u in db.users && !db.users[u].isAdmin {
      FilterIsUserGone(db, u);
      PhotoKeys.UserPhotosConserved(db, u);
    }
  }

  /** After every schedule: deleting an admin or somebody unknown answers that nobody was deleted and changes
      nothing; deleting anybody else succeeds and takes away exactly what is his. */
  lemma UserDeletionLeaves(codec: Codec.DuckCodec, vessels: set<Id>, events: seq<Event>, u: Id)
    requires Codec.Valid(codec)
    ensures var db := Run(codec, Start(vessels), events).db;
            && (u !in db.users || db.users[u].isAdmin ==> DeleteUser(db, u) == (Ok(None), db))
            && (u in db.users && !db.users[u].isAdmin ==>
                  && DeleteUser(db, u).0.Ok? && DeleteUser(db, u).0.value.Some?
                  && UserGone(db, DeleteUser(db, u).1, u))
  {
    hide Good, TasksOk, Exclusive, Run, DeleteUser, UserGone, PhotoKeys.PhotoBag;
    ReachableInv(codec, vessels, events);
    UserDeletionEffect(codec, Run(codec, Start(vessels), events).db, u);
  }

  /** In a running system the deletion waits, changing nothing, exactly while some mint has inserted ducks into one
      of the user's flocks without having committed them. */
  lemma {:induction false} UserDeletionWaitsIff(codec: Codec.DuckCodec, sys: System, u: Id)
    requires Codec.Valid(codec) && Inv(codec, sys) && u in sys.db.users && !sys.db.users[u].isAdmin
    ensures var after := Step(codec, sys, HardDeleteUser(u));
            && after.tasks == sys.tasks
            && (if exists t | t in sys.tasks ::
                     && sys.tasks[t].Mint? && sys.tasks[t].phase.Inserted?
                     && sys.tasks[t].flock in sys.db.flocks && sys.db.flocks[sys.tasks[t].flock].owner == u
                then after == sys else UserGone(sys.db, after.db, u))
  {
    hide Good, TasksOk, Exclusive, Checks, ForeignKeys, IdsBounded, NoticesAgree, DeleteUser, UserPhotoKeys,
      WithoutUser, UniqueDucks, UniqueFlocks, UniqueUsers, UserGone, OwnerBusy;
    GoodMeetsSchema(codec, sys.db);
    DeleteUserIsFilter(sys.db, u);
    FilterIsUserGone(sys.db, u);
    OwnerBusyIff(sys, u);
    DeleteUserIs(codec, sys, u);
  }

  lemma DeleteUserIs(codec: Codec.DuckCodec, sys: System, u: Id)
    requires Codec.Valid(codec)
    ensures Step(codec, sys, HardDeleteUser(u))
            == if OwnerBusy(sys, u) then sys else sys.(db := DeleteUser(sys.db, u).1)
  {
    hide DeleteUser, OwnerBusy;
  }

  lemma OwnerBusyIff(sys: System, u: Id)
    ensures OwnerBusy(sys, u) <==> exists t | t in sys.tasks ::
              && sys.tasks[t].Mint? && sys.tasks[t].phase.Inserted?
              && sys.tasks[t].flock in sys.db.flocks && sys.db.flocks[sys.tasks[t].flock].owner == u
  {
    if t :| t in sys.tasks && sys.tasks[t].Mint? && sys.tasks[t].phase.Inserted?
            && sys.tasks[t].flock in sys.db.flocks && sys.db.flocks[sys.tasks[t].flock].owner == u {
      assert HasInserted(sys.tasks[t]) && FlockBusy(sys, sys.tasks[t].flock);
    }
    if OwnerBusy(sys, u) {
      var f :| f in sys.db.flocks && FlockBusy(sys, f) && sys.db.flocks[f].owner == u;
      var t :| t in sys.tasks && HasInserted(sys.tasks[t]) && sys.tasks[t].flock == f;
    }
  }

  // ----- A flock ---------------------------------------------------------------------------

  predicate DuckIn(db: Db, f: Id, d: Id) {
    d in db.ducks && db.ducks[d].flock == f
  }

  /** Gone are the flock, its ducks and all talk about them. */
  ghost predicate FlockGone(was: Db, db: Db, f: Id) {
    && RowsKept(was, db) && db.users == was.users
    && (forall g :: g in db.flocks <==> g in was.flocks && g != f)
    && (forall d :: d in db.ducks <==> d in was.ducks && was.ducks[d].flock != f)
    && (forall s :: s in db.sightings <==> s in was.sightings && !DuckIn(was, f, was.sightings[s].duck))
    && (forall c :: c in db.comments <==> c in was.comments && !DuckIn(was, f, was.comments[c].duck))
    && (forall p :: p in db.follows <==> p in was.follows && !DuckIn(was, f, p.1))
    && (forall n :: n in db.notifications <==>
                      n in was.notifications && !DuckIn(was, f, was.notifications[n].duck))
  }

  lemma FlockFilterKeepsRows(db: Db, f: Id)
    ensures RowsKept(db, WithoutFlock(db, f))
  {
    hide InFlock;
  }

  lemma FilterIsFlockGone(db: Db, f: Id)
    ensures FlockGone(db, WithoutFlock(db, f), f)
  {
    FlockFilterKeepsRows(db, f);
    assert forall d :: InFlock(db.ducks, f, d) <==> DuckIn(db, f, d);
    hide RowsKept, InFlock, DuckIn;
  }

  /** What a call deleting flock `f` answers and leaves. */
  ghost predicate FlockDeleted(was: Db, db: Db, f: Id, r: Result<Option<seq<string>>, RepoError>) {
    if f !in was.flocks then r == Ok(None) && db == was
    else
      && r.Ok? && r.value.Some? && FlockGone(was, db, f)
      && PhotoKeys.PhotoBag(was) == PhotoKeys.PhotoBag(db) + multiset(r.value.value)
  }

  lemma FlockDeletionEffect(codec: Codec.DuckCodec, db: Db, f: Id)
    requires Codec.Valid(codec) && Good(codec, db)
    ensures Good(codec, DeleteFlock(db, f).1)
    ensures FlockDeleted(db, DeleteFlock(db, f).1, f, DeleteFlock(db, f).0)
  {
    hide Good, Checks, ForeignKeys, IdsBounded, NoticesAgree, DeleteFlock, FlockPhotoKeys, WithoutFlock, UniqueDucks,
      UniqueFlocks, UniqueUsers, FlockGone, PhotoKeys.PhotoBag;
    GoodMeetsSchema(codec, db);
    DeleteFlockIsFilter(db, f);
    WithoutFlockKeepsGood(codec, db, f);
    FilterIsFlockGone(db, f);
    PhotoKeys.FlockPhotosConserved(db, f);
  }

  /** After every schedule: deleting an unknown flock changes nothing; deleting a known one succeeds and takes away
      exactly the flock, its ducks and what hangs off them. */
  lemma FlockDeletionLeaves(codec: Codec.DuckCodec, vessels: set<Id>, events: seq<Event>, f: Id)
    requires Codec.Valid(codec)
    ensures var db := Run(codec, Start(vessels), events).db;
            && (f !in db.flocks ==> DeleteFlock(db, f) == (Ok(None), db))
            && (f in db.flocks ==>
                  && DeleteFlock(db, f).0.Ok? && DeleteFlock(db, f).0.value.Some?
                  && FlockGone(db, DeleteFlock(db, f).1, f))
  {
    hide Good, TasksOk, Exclusive, Run, DeleteFlock, FlockGone, PhotoKeys.PhotoBag;
    ReachableInv(codec, vessels, events);
    FlockDeletionEffect(codec, Run(codec, Start(vessels), events).db, f);
  }

  /** The deletion of a flock likewise waits exactly while a mint has uncommitted ducks in it. */
  lemma {:induction false} FlockDeletionWaitsIff(codec: Codec.DuckCodec, sys: System, f: Id)
    requires Codec.Valid(codec) && Inv(codec, sys) && f in sys.db.flocks
    ensures var after := Step(codec, sys, HardDeleteFlock(f));
            && after.tasks == sys.tasks
            && (if exists t | t in sys.tasks ::
                     sys.tasks[t].Mint? && sys.tasks[t].phase.Inserted? && sys.tasks[t].flock == f
                then after == sys else FlockGone(sys.db, after.db, f))
  {
    hide Good, TasksOk, Exclusive, Checks, ForeignKeys, IdsBounded, NoticesAgree, DeleteFlock, FlockPhotoKeys,
      WithoutFlock, UniqueDucks, UniqueFlocks, UniqueUsers, FlockGone;
    GoodMeetsSchema(codec, sys.db);
    DeleteFlockIsFilter(sys.db, f);
    FilterIsFlockGone(sys.db, f);
    assert FlockBusy(sys, f) <==> exists t | t in sys.tasks ::
             sys.tasks[t].Mint? && sys.tasks[t].phase.Inserted? && sys.tasks[t].flock == f;
    hide FlockBusy;
    DeleteFlockIs(codec, sys, f);
  }

  lemma DeleteFlockIs(codec: Codec.DuckCodec, sys: System, f: Id)
    requires Codec.Valid(codec)
    ensures Step(codec, sys, HardDeleteFlock(f))
            == if FlockBusy(sys, f) then sys else sys.(db := DeleteFlock(sys.db, f).1)
  {
    hide DeleteFlock, FlockBusy;
  }
}
