/** The repositories as an object: one field per table, each method one transaction that reassigns the tables
    it touches, proved against the functions of `Store` and `Cascade`. */
module Registry {
  import opened Wrappers
  import opened Schema
  import opened Store
  import opened Minting
  import opened Cascade
  import opened Invariants
  import opened Handlers
  import opened Runs
  import Deletions
  import DuckGuarantees
  import Effects
  import MintGuarantees
  import PhotoKeys
  import Sequential
  import Codes
  import Codec
  import Profanity
  import Text

  class Repositories {
    ghost const codec: Codec.DuckCodec
    const vessels: set<Id>
    var users: map<Id, UserRow>
    var flocks: map<Id, FlockRow>
    var ducks: map<Id, DuckRow>
    var sightings: map<Id, SightingRow>
    var comments: map<Id, CommentRow>
    var follows: set<(Id, Id)>
    var notifications: map<Id, NotificationRow>
    var next: Ids

    function Tables(): Db
      reads this
    {
      Db(users, flocks, ducks, sightings, comments, follows, notifications, vessels, next)
    }

    /** The tables meet the invariant under the codec their codes were minted with. */
    ghost predicate Sound()
      reads this
    {
      Codec.Valid(codec) && Good(codec, Tables())
    }

    constructor (ghost codec: Codec.DuckCodec, vessels: set<Id>)
      ensures Tables() == Empty(vessels) && this.codec == codec
      ensures Codec.Valid(codec) ==> Sound()
    {
      this.codec := codec;
      this.vessels := vessels;
      users, flocks, ducks, sightings := map[], map[], map[], map[];
      comments, follows, notifications := map[], {}, map[];
      next := Ids(1, 1, 1, 1, 1, 1);
      new;
      if Codec.Valid(codec) {
        EmptyIsGood(codec, vessels);
      }
    }

    // ----- Users and flocks -----------------------------------------------------------

    /** Signing in returns the one account of the identity. */
    method UpsertUser(issuer: string, subject: string, displayName: Option<string>, email: Option<string>,
                      grantAdmin: bool)
      returns (u: Id)
      modifies `users, `next
      ensures Tables() == Upsert(old(Tables()), issuer, subject, displayName, email, grantAdmin)
      ensures old(Sound()) ==>
                Sound()
                && Effects.SignedIn(old(Tables()), Tables(), u, issuer, subject, displayName, email, grantAdmin)
    {
      hide Good, Codec.Valid, FindUser, Renewed, Effects.SignedIn;
      ghost var (db, sound) := (Tables(), Sound());
      var found := FindUser(users, issuer, subject, next.user);
      if found.Some? {
        u := found.value;
        users := users[u := Renewed(users[u], displayName, email, grantAdmin)];
      } else {
        u := next.user;
        users := users[u := UserRow(issuer, subject, displayName, email, grantAdmin)];
      }
      next := next.(user := next.user + 1);
      if sound {
        Effects.SignInTwice(codec, db, Tables(), issuer, subject, displayName, email, grantAdmin);
      }
    }

    /** Draws prefixes until one is neither rude nor taken, at most as many times as there are draws. */
    method CreateFlock(owner: Id, generation: nat, flockLabel: Option<string>, draws: seq<string>)
      returns (r: Result<Id, RepoError>)
      modifies this
      ensures (r, Tables()) == Store.CreateFlock(old(Tables()), owner, generation, flockLabel, draws)
    {
      var i := 0;
      while i < |draws|
        invariant 0 <= i <= |draws|
        invariant Store.CreateFlock(Tables(), owner, generation, flockLabel, draws[i..])
                  == Store.CreateFlock(old(Tables()), owner, generation, flockLabel, draws)
      {
        assert draws[i..][0] == draws[i] && draws[i..][1..] == draws[i + 1..];
        if !Profanity.Matches(draws[i]) {
          var id := next.flock;
          next := next.(flock := id + 1);
          if FindFlock(flocks, draws[i], id).None? {
            if owner !in users {
              return Err(Sql(ForeignKey));
            }
            flocks := flocks[id := FlockRow(draws[i], generation, owner, flockLabel)];
            return Ok(id);
          }
        }
        i := i + 1;
      }
      r := Err(Corrupt("flock"));
    }

    // ----- Minting ----------------------------------------------------------------------

    /** The loop of the mint: consecutive candidates, skipping what `encode` refuses. */
    static method AllocateEntries(encode: nat -> Option<string>, max: nat, count: nat)
      returns (r: Option<seq<Entry>>)
      ensures r == Allocate(encode, max + 1, count)
      ensures r.None? <==> |Acceptable(encode, max + 1)| < count
      ensures r.Some? ==> |r.value| == count && FirstAcceptable(encode, max + 1, r.value)
    {
      hide Allocate, FirstAcceptable, Acceptable;
      AllocateFullIff(encode, max + 1, count);
      AllocateIsFirst(encode, max + 1, count);
      var entries: seq<Entry> := [];
      var candidate := max + 1;
      PrependNothing(Allocate(encode, candidate, count));
      while |entries| < count
        invariant |entries| <= count && candidate > max
        invariant Allocate(encode, max + 1, count) == Prepend(entries, Allocate(encode, candidate, count - |entries|))
        decreases Codes.MAX_SEQ + 1 - candidate
      {
        AllocateStep(encode, candidate, count - |entries|);
        if !Codes.IsSeq(candidate) {
          return None;
        }
        var code := encode(candidate);
        if code.Some? {
          PrependOne(entries, (candidate, code.value), Allocate(encode, candidate + 1, count - |entries| - 1));
          entries := entries + [(candidate, code.value)];
        }
        candidate := candidate + 1;
      }
      AllocateStep(encode, candidate, 0);
      assert entries + [] == entries;
      r := Some(entries);
    }

    method MintBatch(flock: Id, count: nat, encode: nat -> Option<string>) returns (r: Result<seq<Entry>, RepoError>)
      modifies `ducks, `next
      ensures (r, Tables()) == Store.MintBatch(old(Tables()), flock, count, encode)
      ensures r.Err? ==> Tables() == old(Tables())
      ensures r.Ok? ==> BareRows(old(ducks), ducks, old(next).duck, flock, r.value)
                        && next == old(next).(duck := old(next).duck + |r.value|)
    {
      hide Allocate, Append, InsertClashes, MaxSeq, Minted, Acceptable, FirstAcceptable, BareRows;
      var max := MaxSeq(ducks, flock, next.duck);
      var planned := AllocateEntries(encode, max, count);
      if planned.None? {
        return Err(FlockFull);
      }
      var rows := Minted(flock, planned.value);
      if rows != [] && flock !in flocks {
        return Err(Sql(ForeignKey));
      }
      if InsertClashes(ducks, rows) {
        return Err(Sql(Unique));
      }
      RowsInserted(ducks, next.duck, flock, planned.value);
      ducks := Append(ducks, next.duck, rows);
      next := next.(duck := next.duck + |rows|);
      r := Ok(planned.value);
    }

    /** The mint request of a flock's owner: key preflight, then the batch with the filtering encoder. */
    method Mint(codec: Codec.DuckCodec, user: Id, f: Id, count: nat) returns (r: Result<seq<Entry>, MintError>)
      requires Codec.Valid(codec)
      modifies `ducks, `next
      ensures (r, Tables()) == MintRequest(codec, old(Tables()), user, f, count)
      ensures r.Err? ==> Tables() == old(Tables())
      ensures old(Sound()) && codec == this.codec ==>
                && Sound() && (r == Err(NoSuchFlock) <==> !(f in flocks && flocks[f].owner == user))
                && (r.Ok? ==> |r.value| == count && MintGuarantees.Hatched(old(Tables()), Tables(), f, r.value))
    {
      hide Encoder, Store.MintBatch, Codes.IsFlockCode, Codec.Encode, Codec.Valid, Good, MintGuarantees.Hatched,
        BareRows;
      if Sound() && codec == this.codec {
        MintGuarantees.MintRequestOutcome(codec, Tables(), user, f, count);
      }
      if f !in flocks || flocks[f].owner != user {
        return Err(NoSuchFlock);
      }
      var flock := flocks[f];
      if !Codes.IsFlockCode(flock.code) {
        return Err(Failed(Corrupt("flock")));
      }
      if Codec.Encode(codec, flock.generation, flock.code, 1).Err? {
        return Err(BadKey);
      }
      MintFailureChangesNothing(Tables(), f, count, Encoder(codec, flock.generation, flock.code));
      var batch := MintBatch(f, count, Encoder(codec, flock.generation, flock.code));
      r := match batch case Err(e) => Err(Failed(e)) case Ok(entries) => Ok(entries);
    }

    // ----- A duck's row -------------------------------------------------------------------

    /** Compare-and-set: only a duck without details takes them. */
    method Stage(d: Id, description: string, name: Option<string>, photo: PhotoRef, now: Time) returns (updated: bool)
      modifies `ducks
      ensures Tables() == Store.Stage(old(Tables()), d, description, name, photo, now)
      ensures updated <==> d in old(ducks) && old(ducks)[d].originatedAt.None?
      ensures old(Sound()) && Effects.IsText(Text.DESCRIPTION_MAX, description)
              && Effects.IsOptionalText(Text.DUCK_NAME_MAX, name) ==>
                && Sound() && Effects.OnlyRow(old(ducks), ducks, d)
                && (updated <==> Effects.Lives(old(Tables()), d, Allocated))
                && (updated ==> Effects.Lives(Tables(), d, Staged(Details(now, description, name, photo))))
                && (!updated ==> Tables() == old(Tables()))
                && forall w, m, p, t :: Store.Stage(Tables(), d, w, m, p, t) == Tables()
    {
      hide Good, Codec.Valid, Effects.Lives, Effects.IsText;
      ghost var (db, sound) := (Tables(), Sound());
      updated := d in ducks && ducks[d].originatedAt.None?;
      if updated {
        ducks := ducks[d := ducks[d].(originatedAt := Some(now), description := Some(description), name := name,
                                      photoKey := Some(photo.key), photoType := Some(photo.contentType))];
      }
      if sound && Effects.IsText(Text.DESCRIPTION_MAX, description)
         && Effects.IsOptionalText(Text.DUCK_NAME_MAX, name) {
        Effects.StageEffect(codec, db, d, description, name, photo, now);
        if d in db.ducks {
          Effects.LifeOf(codec, db, d);
        } else {
          Effects.NoLife(db, d);
        }
      }
    }

    method SetSail(d: Id, now: Time) returns (updated: bool)
      modifies `ducks
      ensures Tables() == Store.SetSail(old(Tables()), d, now)
      ensures updated <==> d in old(ducks) && old(ducks)[d].originatedAt.Some? && old(ducks)[d].setSailAt.None?
      ensures old(Sound()) ==>
                && Sound() && Effects.OnlyRow(old(ducks), ducks, d)
                && (updated <==> exists x :: Effects.Lives(old(Tables()), d, Staged(x)))
                && (forall x | Effects.Lives(old(Tables()), d, Staged(x)) ::
                      Effects.Lives(Tables(), d, Sailing(x, now)))
                && (!updated ==> Tables() == old(Tables()))
                && forall t :: Store.SetSail(Tables(), d, t) == Tables()
    {
      hide Good, Codec.Valid, Effects.Lives;
      ghost var (db, sound) := (Tables(), Sound());
      updated := d in ducks && ducks[d].originatedAt.Some? && ducks[d].setSailAt.None?;
      if updated {
        ducks := ducks[d := ducks[d].(setSailAt := Some(now))];
      }
      if sound {
        Effects.SailEffect(codec, db, d, now);
        if d in db.ducks {
          Effects.LifeOf(codec, db, d);
        } else {
          Effects.NoLife(db, d);
        }
      }
    }

    /** Soft deletion and restoration. */
    method SetDeleted(d: Id, deleted: bool, now: Time)
      modifies `ducks
      ensures Tables() == Store.SetDeleted(old(Tables()), d, deleted, now)
      ensures old(Sound()) ==>
                && Sound() && Effects.OnlyRow(old(ducks), ducks, d) && (d !in ducks ==> Tables() == old(Tables()))
                && (d in ducks ==>
                      && ReadDuck(d, old(ducks)[d]).Ok? && ReadDuck(d, ducks[d]).Ok?
                      && var (x, y) := (ReadDuck(d, old(ducks)[d]).value, ReadDuck(d, ducks[d]).value);
                         && y == x.(deletedAt := y.deletedAt) && (y.deletedAt.Some? <==> deleted)
                         && (deleted && x.deletedAt.Some? ==> y == x))
                && forall t :: Store.SetDeleted(Tables(), d, deleted, t) == Tables()
    {
      hide Good, Codec.Valid, ReadDuck;
      ghost var (db, sound) := (Tables(), Sound());
      if d in ducks {
        ducks := ducks[d := ducks[d].(deletedAt := Mark(ducks[d].deletedAt, deleted, now))];
      }
      if sound {
        Effects.DeletedEffect(codec, db, d, deleted, now);
      }
    }

    method SetCommentsLocked(d: Id, locked: bool, now: Time)
      modifies `ducks
      ensures Tables() == Store.SetCommentsLocked(old(Tables()), d, locked, now)
      ensures old(Sound()) ==>
                && Sound() && Effects.OnlyRow(old(ducks), ducks, d) && (d !in ducks ==> Tables() == old(Tables()))
                && (d in ducks ==>
                      && ReadDuck(d, old(ducks)[d]).Ok? && ReadDuck(d, ducks[d]).Ok?
                      && var (x, y) := (ReadDuck(d, old(ducks)[d]).value, ReadDuck(d, ducks[d]).value);
                         && y == x.(commentsLockedAt := y.commentsLockedAt) && (y.commentsLockedAt.Some? <==> locked)
                         && (locked && x.commentsLockedAt.Some? ==> y == x))
                && forall t :: Store.SetCommentsLocked(Tables(), d, locked, t) == Tables()
    {
      hide Good, Codec.Valid, ReadDuck;
      ghost var (db, sound) := (Tables(), Sound());
      if d in ducks {
        ducks := ducks[d := ducks[d].(commentsLockedAt := Mark(ducks[d].commentsLockedAt, locked, now))];
      }
      if sound {
        Effects.CommentLockEffect(codec, db, d, locked, now);
      }
    }

    // ----- Sightings, comments, follows -----------------------------------------------------

    /** Three inserts: the sighting, its notices, the finder's follow. */
    method Log(r: SightingRow) returns (done: Result<Id, RepoError>)
      modifies `sightings, `notifications, `follows, `next
      ensures match LogSighting(old(Tables()), r)
              case Err(e) => done == Err(e) && Tables() == old(Tables())
              case Ok(after) => done == Ok(old(next).sighting) && Tables() == after
      ensures done.Ok? <==> r.duck in ducks && r.vessel in vessels && r.user in users
      ensures old(Sound()) && done.Ok? ==>
                && done.value !in old(sightings) && sightings == old(sightings)[done.value := r]
                && (forall n | n in old(notifications) ::
                      n in notifications && notifications[n] == old(notifications)[n])
                && (forall n | n in notifications && n !in old(notifications) ::
                      var e := notifications[n];
                      e == NotificationRow(e.user, r.duck, done.value, None)
                      && (e.user, r.duck) in old(follows) && e.user != r.user)
                && (forall u: Id | (u, r.duck) in old(follows) && u != r.user ::
                      exists n | n in notifications && n !in old(notifications) :: notifications[n].user == u)
                && (forall n, m | n in notifications && m in notifications && n != m
                                  && n !in old(notifications) && m !in old(notifications) ::
                      notifications[n].user != notifications[m].user)
      ensures old(Sound()) && SightingChecks(r) && TextFits(Text.NOTE_MAX, r.note) && Live(ducks, r.duck) ==> Sound()
    {
      hide Good, Codec.Valid, Append, Notified, Notices, SightingChecks, TextFits, Live;
      ghost var (db, sound) := (Tables(), Sound());
      if !SightingRefs(ducks, vessels, users, r) {
        return Err(Sql(ForeignKey));
      }
      var sid := next.sighting;
      sightings := sightings[sid := r];
      next := next.(sighting := sid + 1);
      var rows := Notices(Notified(follows, r.duck, r.user, next.user), r.duck, sid);
      notifications := Append(notifications, next.notification, rows);
      next := next.(notification := next.notification + |rows|);
      follows := follows + {(r.user, r.duck)};
      done := Ok(sid);
      if sound {
        DuckGuarantees.LogFansOut(codec, db, r);
        if SightingChecks(r) && TextFits(Text.NOTE_MAX, r.note) && Live(ducks, r.duck) {
          LogKeepsGood(codec, db, r);
        }
      }
    }

    /** Two deletes; the second alone looks at the duck. Returns the photo key of a removed sighting. */
    method DeleteSighting(sighting: Id, duck: Id) returns (key: Option<Option<string>>)
      modifies `sightings, `notifications
      ensures Tables() == Store.DeleteSighting(old(Tables()), sighting, duck)
      ensures key == if sighting in old(sightings) && old(sightings)[sighting].duck == duck
                     then Some(old(sightings)[sighting].photoKey) else None
      ensures old(Sound()) ==> Sound() && Effects.SightingGone(old(Tables()), Tables(), sighting, duck, key)
    {
      hide Good, Codec.Valid, Effects.SightingGone;
      ghost var (db, sound) := (Tables(), Sound());
      notifications := map n | n in notifications && notifications[n].sighting != sighting :: notifications[n];
      key := None;
      if sighting in sightings && sightings[sighting].duck == duck {
        key := Some(sightings[sighting].photoKey);
        sightings := sightings - {sighting};
      }
      if sound {
        Effects.RemovalEffect(codec, db, Tables(), sighting, duck, key);
      }
    }

    method AddComment(duck: Id, user: Id, body: string) returns (done: Result<Id, RepoError>)
      modifies `comments, `next
      ensures match Store.AddComment(old(Tables()), duck, user, body)
              case Err(e) => done == Err(e) && Tables() == old(Tables())
              case Ok(after) => done == Ok(old(next).comment) && Tables() == after
      ensures done.Ok? <==> duck in ducks && user in users
      ensures old(Sound()) && done.Ok? ==>
                && done.value !in old(comments)
                && comments == old(comments)[done.value := CommentRow(duck, user, body)]
                && Store.DeleteComment(Tables(), done.value, duck).comments == old(comments)
      ensures old(Sound()) && Live(ducks, duck) && TextFits(Text.COMMENT_MAX, Some(body)) ==> Sound()
    {
      hide Good, Codec.Valid, Live, TextFits;
      ghost var (db, sound) := (Tables(), Sound());
      if duck !in ducks || user !in users {
        return Err(Sql(ForeignKey));
      }
      var id := next.comment;
      comments := comments[id := CommentRow(duck, user, body)];
      next := next.(comment := id + 1);
      done := Ok(id);
      if sound {
        Effects.CommentEffect(codec, db, duck, user, body);
      }
    }

    method DeleteComment(comment: Id, duck: Id) returns (removed: bool)
      modifies `comments
      ensures Tables() == Store.DeleteComment(old(Tables()), comment, duck)
      ensures removed <==> comment in old(comments) && comment !in comments
    {
      removed := comment in comments && comments[comment].duck == duck;
      if removed {
        comments := comments - {comment};
      }
    }

    /** `ON CONFLICT DO NOTHING`: following twice is following once. */
    method Follow(user: Id, duck: Id) returns (done: Result<(), RepoError>)
      modifies `follows
      ensures match Store.Follow(old(Tables()), user, duck)
              case Err(e) => done == Err(e) && Tables() == old(Tables())
              case Ok(after) => done == Ok(()) && Tables() == after
      ensures done.Ok? <==> (user, duck) in old(follows) || (user in users && duck in ducks)
      ensures forall p | p != (user, duck) :: p in follows <==> p in old(follows)
      ensures done.Ok? ==> Store.Follow(Tables(), user, duck) == Ok(Tables())
      ensures done.Ok? ==>
                forall finder: Id, n: nat | user < n && finder != user :: user in Notified(follows, duck, finder, n)
      ensures done.Ok? && (user, duck) !in old(follows) ==> Store.Unfollow(Tables(), user, duck) == old(Tables())
      ensures old(Sound()) && Live(ducks, duck) ==> Sound()
    {
      hide Good, Codec.Valid, Live, Notified;
      ghost var (db, sound) := (Tables(), Sound());
      if (user, duck) !in follows {
        if user !in users || duck !in ducks {
          return Err(Sql(ForeignKey));
        }
        follows := follows + {(user, duck)};
        assert follows - {(user, duck)} == db.follows;
      }
      done := Ok(());
      Effects.ToldIff(follows, duck, user);
      if sound && Live(ducks, duck) {
        FollowsKeepGood(codec, db, user, duck);
      }
    }

    /** Afterwards the user hears of no later find of the duck. */
    method Unfollow(user: Id, duck: Id)
      modifies `follows
      ensures Tables() == Store.Unfollow(old(Tables()), user, duck)
      ensures forall p | p != (user, duck) :: p in follows <==> p in old(follows)
      ensures forall finder: Id, n: nat | user < n && finder != user :: user !in Notified(follows, duck, finder, n)
      ensures Store.Unfollow(Tables(), user, duck) == Tables()
      ensures old(Sound()) ==> Sound()
    {
      hide Good, Codec.Valid, Notified;
      ghost var (db, sound) := (Tables(), Sound());
      follows := follows - {(user, duck)};
      Effects.ToldIff(follows, duck, user);
      if sound {
        FollowsKeepGood(codec, db, user, duck);
      }
    }

    method MarkAllRead(user: Id, now: Time)
      modifies `notifications
      ensures Tables() == Store.MarkAllRead(old(Tables()), user, now)
      ensures old(Sound()) ==> Sound() && Effects.FeedRead(old(Tables()), Tables(), user)
    {
      hide Good, Codec.Valid, Effects.FeedRead;
      ghost var (db, sound) := (Tables(), Sound());
      notifications := map n | n in notifications ::
        var r := notifications[n];
        if r.user == user && r.readAt.None? then r.(readAt := Some(now)) else r;
      if sound {
        Effects.FeedReadEffect(codec, db, Tables(), user, now);
      }
    }

    // ----- Hard deletion -----------------------------------------------------------------------

    /** The rows one DELETE statement matches, gone. */
    method Remove(s: Cascade.Delete)
      modifies `users, `flocks, `ducks, `sightings, `comments, `follows, `notifications
      ensures Tables() == Exec(old(Tables()), s)
    {
      hide Matching, MatchingFollows, TableOf;
      match TableOf(s) {
        case Notifications => notifications := notifications - Matching(Tables(), s);
        case Follows => follows := follows - MatchingFollows(Tables(), s);
        case Comments => comments := comments - Matching(Tables(), s);
        case Sightings => sightings := sightings - Matching(Tables(), s);
        case Ducks => ducks := ducks - Matching(Tables(), s);
        case Flocks => flocks := flocks - Matching(Tables(), s);
        case Users => users := users - Matching(Tables(), s);
      }
    }

    /** One DELETE statement; a dangling reference at its end undoes it. */
    method Delete(s: Cascade.Delete) returns (ok: bool)
      modifies `users, `flocks, `ducks, `sightings, `comments, `follows, `notifications
      ensures ok <==> ForeignKeys(Exec(old(Tables()), s))
      ensures Tables() == if ok then Exec(old(Tables()), s) else old(Tables())
    {
      hide ForeignKeys, Exec;
      var db := Tables();
      Remove(s);
      ok := ForeignKeys(Tables());
      if !ok {
        Restore(db);
      }
    }

    method Restore(db: Db)
      requires db.vessels == vessels && db.next == next
      modifies `users, `flocks, `ducks, `sightings, `comments, `follows, `notifications
      ensures Tables() == db
    {
      users, flocks, ducks, sightings := db.users, db.flocks, db.ducks, db.sightings;
      comments, follows, notifications := db.comments, db.follows, db.notifications;
    }

    /** A statement of a cascade, with `rest` still to come. */
    method Execute(s: Cascade.Delete, ghost rest: seq<Cascade.Delete>) returns (ok: bool)
      modifies `users, `flocks, `ducks, `sightings, `comments, `follows, `notifications
      ensures RunChecked(old(Tables()), [s] + rest) == if ok then RunChecked(Tables(), rest) else None
      ensures next == old(next)
    {
      hide ForeignKeys, Exec, RunChecked;
      RunCons(Tables(), s, rest, Exec(Tables(), s));
      ok := Delete(s);
    }

    /** Notices to the user, of his sightings, and on his ducks. */
    method ExecuteNotices(u: Id, ghost rest: seq<Cascade.Delete>) returns (ok: bool)
      modifies `users, `flocks, `ducks, `sightings, `comments, `follows, `notifications
      ensures RunChecked(old(Tables()),
                [NotificationsTo(u)] + ([NotificationsOfSightingsBy(u)] + ([NotificationsOnDucksOf(u)] + rest)))
              == if ok then RunChecked(Tables(), rest) else None
      ensures next == old(next)
    {
      hide RunChecked;
      ok := Execute(NotificationsTo(u), [NotificationsOfSightingsBy(u)] + ([NotificationsOnDucksOf(u)] + rest));
      if !ok { return; }
      ok := Execute(NotificationsOfSightingsBy(u), [NotificationsOnDucksOf(u)] + rest);
      if !ok { return; }
      ok := Execute(NotificationsOnDucksOf(u), rest);
    }

    /** His follows and those on his ducks. */
    method ExecuteFollows(u: Id, ghost rest: seq<Cascade.Delete>) returns (ok: bool)
      modifies `users, `flocks, `ducks, `sightings, `comments, `follows, `notifications
      ensures RunChecked(old(Tables()), [FollowsBy(u)] + ([FollowsOnDucksOf(u)] + rest))
              == if ok then RunChecked(Tables(), rest) else None
      ensures next == old(next)
    {
      hide RunChecked;
      ok := Execute(FollowsBy(u), [FollowsOnDucksOf(u)] + rest);
      if !ok { return; }
      ok := Execute(FollowsOnDucksOf(u), rest);
    }

    /** His comments and those on his ducks. */
    method ExecuteComments(u: Id, ghost rest: seq<Cascade.Delete>) returns (ok: bool)
      modifies `users, `flocks, `ducks, `sightings, `comments, `follows, `notifications
      ensures RunChecked(old(Tables()), [CommentsBy(u)] + ([CommentsOnDucksOf(u)] + rest))
              == if ok then RunChecked(Tables(), rest) else None
      ensures next == old(next)
    {
      hide RunChecked;
      ok := Execute(CommentsBy(u), [CommentsOnDucksOf(u)] + rest);
      if !ok { return; }
      ok := Execute(CommentsOnDucksOf(u), rest);
    }

    /** His sightings and those of his ducks. */
    method ExecuteSightings(u: Id, ghost rest: seq<Cascade.Delete>) returns (ok: bool)
      modifies `users, `flocks, `ducks, `sightings, `comments, `follows, `notifications
      ensures RunChecked(old(Tables()), [SightingsBy(u)] + ([SightingsOnDucksOf(u)] + rest))
              == if ok then RunChecked(Tables(), rest) else None
      ensures next == old(next)
    {
      hide RunChecked;
      ok := Execute(SightingsBy(u), [SightingsOnDucksOf(u)] + rest);
      if !ok { return; }
      ok := Execute(SightingsOnDucksOf(u), rest);
    }

    /** His ducks, his flocks, and the account unless it is an admin's. */
    method ExecuteOwnership(u: Id, ghost rest: seq<Cascade.Delete>) returns (ok: bool)
      modifies `users, `flocks, `ducks, `sightings, `comments, `follows, `notifications
      ensures RunChecked(old(Tables()), [DucksOf(u)] + ([FlocksOf(u)] + ([Account(u)] + rest)))
              == if ok then RunChecked(Tables(), rest) else None
      ensures next == old(next)
    {
      hide RunChecked;
      ok := Execute(DucksOf(u), [FlocksOf(u)] + ([Account(u)] + rest));
      if !ok { return; }
      ok := Execute(FlocksOf(u), [Account(u)] + rest);
      if !ok { return; }
      ok := Execute(Account(u), rest);
    }

    method ExecuteUserCascade(u: Id) returns (ok: bool)
      modifies `users, `flocks, `ducks, `sightings, `comments, `follows, `notifications
      ensures RunChecked(old(Tables()), UserCascade(u)) == if ok then Some(Tables()) else None
      ensures next == old(next)
    {
      hide RunChecked, UserCascade;
      ghost var own := [DucksOf(u)] + ([FlocksOf(u)] + ([Account(u)] + []));
      ghost var sight := [SightingsBy(u)] + ([SightingsOnDucksOf(u)] + own);
      ghost var talk := [CommentsBy(u)] + ([CommentsOnDucksOf(u)] + sight);
      ghost var track := [FollowsBy(u)] + ([FollowsOnDucksOf(u)] + talk);
      UserCascadeSplit(u);
      assert [Account(u)] + [] == [Account(u)];
      ok := ExecuteNotices(u, track);
      if !ok { return; }
      ok := ExecuteFollows(u, talk);
      if !ok { return; }
      ok := ExecuteComments(u, sight);
      if !ok { return; }
      ok := ExecuteSightings(u, own);
      if !ok { return; }
      ok := ExecuteOwnership(u, []);
      NothingLeft(Tables());
    }

    /** Removes a user and every trace of him, unless he is an admin or unknown, returning the photo keys to
        clean up. */
    method DeleteUser(u: Id) returns (r: Result<Option<seq<string>>, RepoError>)
      modifies `users, `flocks, `ducks, `sightings, `comments, `follows, `notifications
      ensures (r, Tables()) == Cascade.DeleteUser(old(Tables()), u)
      ensures old(Sound()) ==> Sound() && Deletions.UserDeleted(old(Tables()), Tables(), u, r)
    {
      hide RunChecked, UserCascade, UserPhotoKeys, Good, Codec.Valid, Deletions.UserDeleted;
      var db := Tables();
      if Sound() {
        Deletions.UserDeletionEffect(codec, db, u);
      }
      var keys := UserPhotoKeys(db, u);
      var ok := ExecuteUserCascade(u);
      if !ok {
        Restore(db);
        return Err(Sql(ForeignKey));
      }
      if users == db.users {
        Restore(db);
        return Ok(None);
      }
      r := Ok(Some(keys));
    }

    /** Everything that hangs off the ducks of the flock. */
    method ExecuteFlockTalk(f: Id, ghost rest: seq<Cascade.Delete>) returns (ok: bool)
      modifies `users, `flocks, `ducks, `sightings, `comments, `follows, `notifications
      ensures RunChecked(old(Tables()), [NotificationsInFlock(f)] + ([FollowsInFlock(f)] + ([CommentsInFlock(f)]
                                        + ([SightingsInFlock(f)] + rest))))
              == if ok then RunChecked(Tables(), rest) else None
      ensures next == old(next)
    {
      hide RunChecked;
      ok := Execute(NotificationsInFlock(f),
        [FollowsInFlock(f)] + ([CommentsInFlock(f)] + ([SightingsInFlock(f)] + rest)));
      if !ok { return; }
      ok := Execute(FollowsInFlock(f), [CommentsInFlock(f)] + ([SightingsInFlock(f)] + rest));
      if !ok { return; }
      ok := Execute(CommentsInFlock(f), [SightingsInFlock(f)] + rest);
      if !ok { return; }
      ok := Execute(SightingsInFlock(f), rest);
    }

    method ExecuteFlockCascade(f: Id) returns (ok: bool)
      modifies `users, `flocks, `ducks, `sightings, `comments, `follows, `notifications
      ensures RunChecked(old(Tables()), FlockCascade(f)) == if ok then Some(Tables()) else None
      ensures next == old(next)
    {
      hide RunChecked;
      ghost var rows := [DucksInFlock(f)] + ([Flock(f)] + []);
      assert FlockCascade(f) == [NotificationsInFlock(f)] + ([FollowsInFlock(f)] + ([CommentsInFlock(f)]
                                + ([SightingsInFlock(f)] + rows)));
      hide FlockCascade;
      ok := ExecuteFlockTalk(f, rows);
      if !ok { return; }
      ok := Execute(DucksInFlock(f), [Flock(f)] + []);
      if !ok { return; }
      ok := Execute(Flock(f), []);
      NothingLeft(Tables());
    }

    method DeleteFlock(f: Id) returns (r: Result<Option<seq<string>>, RepoError>)
      modifies `users, `flocks, `ducks, `sightings, `comments, `follows, `notifications
      ensures (r, Tables()) == Cascade.DeleteFlock(old(Tables()), f)
      ensures old(Sound()) ==> Sound() && Deletions.FlockDeleted(old(Tables()), Tables(), f, r)
    {
      hide RunChecked, FlockCascade, FlockPhotoKeys, Good, Codec.Valid, Deletions.FlockDeleted;
      var db := Tables();
      if Sound() {
        Deletions.FlockDeletionEffect(codec, db, f);
      }
      var keys := FlockPhotoKeys(db, f);
      var ok := ExecuteFlockCascade(f);
      if !ok {
        Restore(db);
        return Err(Sql(ForeignKey));
      }
      r := Ok(if f in db.flocks then Some(keys) else None);
    }

    // ----- Handlers ----------------------------------------------------------------------------------

    /** One repository call of a handler. */
    method Write(w: Handlers.Write, now: Time) returns (ok: bool)
      modifies `ducks, `sightings, `comments, `follows, `notifications, `next
      ensures match Perform(old(Tables()), w, now)
              case Ok(after) => ok && Tables() == after
              case Err(_) => !ok && Tables() == old(Tables())
    {
      hide SightingRefs, Append, Notified, Notices, Store.Stage, Store.SetSail, Store.SetDeleted,
        Store.SetCommentsLocked,
        LogSighting, Store.AddComment, Store.DeleteComment, Store.DeleteSighting, Store.Follow, Store.Unfollow;
      ok := true;
      match w {
        case WStage(d, description, name, photo) =>
          var _ := Stage(d, description, name, photo, now);
        case WSail(d) =>
          var _ := SetSail(d, now);
        case WLog(row) =>
          var done := Log(row);
          ok := done.Ok?;
        case WComment(d, u, body) =>
          var done := AddComment(d, u, body);
          ok := done.Ok?;
        case WDeleted(d, deleted) =>
          SetDeleted(d, deleted, now);
        case WLocked(d, locked) =>
          SetCommentsLocked(d, locked, now);
        case WDropComment(c, d) =>
          var _ := DeleteComment(c, d);
        case WDropSighting(s, d) =>
          var _ := DeleteSighting(s, d);
        case WFollow(u, d) =>
          var done := Follow(u, d);
          ok := done.Ok?;
        case WUnfollow(u, d) =>
          Unfollow(u, d);
      }
    }

    /** A duck-page request from resolution to response. */
    method Handle(codec: Codec.DuckCodec, viewer: Option<Viewer>, raw: string, request: Request, now: Time)
      returns (response: Response)
      requires Codec.Valid(codec)
      modifies `ducks, `sightings, `comments, `follows, `notifications, `next
      ensures (response, Tables()) == Serve(codec, old(Tables()), viewer, raw, request, now)
    {
      hide Decide, Perform;
      var decision := Decide(codec, Tables(), viewer, raw, request, now);
      match decision {
        case Respond(answer) =>
          response := answer;
        case Act(writes, answer) =>
          response := answer;
          Sequential.AtMostTwoWrites(codec, Tables(), viewer, raw, request, now);
          TwoWrites(Tables(), writes, answer, now);
          var ok := Write(writes[0], now);
          if ok && |writes| == 2 {
            ok := Write(writes[1], now);
          }
          if !ok {
            response := ServerError;
          }
      }
    }
  }

  /** The rows of `entries` stand under consecutive identities from `base` on, every mark and detail unset; all
      other rows below `base` are as they were. */
  ghost predicate BareRows(was: map<Id, DuckRow>, ducks: map<Id, DuckRow>, base: Id, f: Id, entries: seq<Entry>) {
    && (forall d :: d in ducks <==> d in was || base <= d < base + |entries|)
    && (forall d | d in was && d < base :: ducks[d] == was[d])
    && (forall k | 0 <= k < |entries| ::
          base + k in ducks
          && ducks[base + k]
             == DuckRow(entries[k].1, f, entries[k].0, None, None, None, None, None, None, None, None))
  }

  lemma RowsInserted(was: map<Id, DuckRow>, base: Id, f: Id, entries: seq<Entry>)
    ensures BareRows(was, Append(was, base, Minted(f, entries)), base, f, entries)
  {
    hide Append;
  }

  lemma NothingLeft(db: Db)
    ensures RunChecked(db, []) == Some(db)
  {
  }

  lemma TwoWrites(db: Db, writes: seq<Handlers.Write>, response: Response, now: Time)
    requires 1 <= |writes| <= 2
    ensures PerformAll(db, writes, response, now)
            == if Perform(db, writes[0], now).Err? then (ServerError, db)
               else
                 var mid := Perform(db, writes[0], now).value;
                 if |writes| == 1 then (response, mid)
                 else if Perform(mid, writes[1], now).Err? then (ServerError, mid)
                 else (response, Perform(mid, writes[1], now).value)
  {
    hide Perform;
    if |writes| == 2 && Perform(db, writes[0], now).Ok? {
      var mid := Perform(db, writes[0], now).value;
      assert writes[1..] == [writes[1]] && [writes[1]][1..] == [];
      assert PerformAll(mid, [writes[1]], response, now)
             == if Perform(mid, writes[1], now).Err?
               then (ServerError, mid) else (response, Perform(mid, writes[1], now).value);
    } else {
      assert |writes| == 1 ==> writes[1..] == [];
    }
  }

  lemma MintFailureChangesNothing(db: Db, f: Id, count: nat, encode: nat -> Option<string>)
    ensures Store.MintBatch(db, f, count, encode).0.Err? ==> Store.MintBatch(db, f, count, encode).1 == db
  {
    hide Allocate, InsertClashes, Minted;
  }

  lemma PrependNothing(rest: Option<seq<Entry>>)
    ensures Prepend([], rest) == rest
  {
    if rest.Some? {
      assert [] + rest.value == rest.value;
    }
  }

  function Prepend(entries: seq<Entry>, rest: Option<seq<Entry>>): Option<seq<Entry>> {
    if rest.None? then None else Some(entries + rest.value)
  }

  lemma PrependOne(entries: seq<Entry>, e: Entry, rest: Option<seq<Entry>>)
    ensures Prepend(entries + [e], rest) == Prepend(entries, Prepend([e], rest))
  {
    if rest.Some? {
      assert entries + [e] + rest.value == entries + ([e] + rest.value);
    }
  }
}
