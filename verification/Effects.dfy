/** What the short repository transactions mean to a caller: which entity changed and into what, what stayed,
    that the invariant is kept, what a second call does, and what undoes the first. */
module Effects {
  import opened Wrappers
  import opened Schema
  import opened Store
  import opened Cascade
  import opened Invariants
  import opened Handlers
  import opened Evolution
  import opened Runs
  import opened Safety
  import DuckGuarantees
  import Funnel
  import Permissions
  import PhotoKeys
  import Codes
  import Codec
  import Text

  // ----- A duck's row ------------------------------------------------------------------

  /** At most the row of `d` differs. */
  predicate OnlyRow(a: map<Id, DuckRow>, b: map<Id, DuckRow>, d: Id) {
    a.Keys == b.Keys && forall e | e in a && e != d :: b[e] == a[e]
  }

  /** Duck `d` is stored and is in this stage of its life. */
  predicate Lives(db: Db, d: Id, lifecycle: Lifecycle) {
    d in db.ducks && ReadDuck(d, db.ducks[d]).Ok? && ReadDuck(d, db.ducks[d]).value.lifecycle == lifecycle
  }

  predicate IsText(max: nat, t: string) {
    Text.Parse(max, t) == Ok(t)
  }

  predicate IsOptionalText(max: nat, t: Option<string>) {
    t.Some? ==> IsText(max, t.value)
  }

  lemma LifeOf(codec: Codec.DuckCodec, db: Db, d: Id)
    requires Codec.Valid(codec) && Good(codec, db) && d in db.ducks
    ensures ReadDuck(d, db.ducks[d]).Ok?
    ensures Lives(db, d, Allocated) <==> db.ducks[d].originatedAt.None?
    ensures (exists x :: Lives(db, d, Staged(x))) <==> db.ducks[d].originatedAt.Some? && db.ducks[d].setSailAt.None?
  {
    hide Good, ReadDuck;
    Funnel.DuckReadsBack(codec, db, d);
    var life := ReadDuck(d, db.ducks[d]).value.lifecycle;
    if db.ducks[d].originatedAt.Some? && db.ducks[d].setSailAt.None? {
      assert Lives(db, d, Staged(life.details));
    }
    if x :| Lives(db, d, Staged(x)) {
      assert life == Staged(x);
    }
  }

  lemma NoLife(db: Db, d: Id)
    requires d !in db.ducks
    ensures forall x :: !Lives(db, d, x)
  {
  }

  /** Staging turns an allocated duck into a staged one with exactly these details, and nothing else ever: on any
      other duck, and a second time, it does nothing. */
  lemma StageEffect(codec: Codec.DuckCodec, db: Db, d: Id, description: string, name: Option<string>, photo: PhotoRef,
                    now: Time)
    requires Codec.Valid(codec) && Good(codec, db)
    requires IsText(Text.DESCRIPTION_MAX, description) && IsOptionalText(Text.DUCK_NAME_MAX, name)
    ensures var after := Store.Stage(db, d, description, name, photo, now);
            && Good(codec, after) && OnlyRow(db.ducks, after.ducks, d)
            && (Lives(db, d, Allocated) ==> Lives(after, d, Staged(Details(now, description, name, photo))))
            && (!Lives(db, d, Allocated) ==> after == db)
            && forall w, m, p, t :: Store.Stage(after, d, w, m, p, t) == after
  {
    hide Good, ReadDuck, Text.Parse;
    StageKeepsGood(codec, db, d, description, name, photo, now);
    if d in db.ducks {
      LifeOf(codec, db, d);
      if db.ducks[d].originatedAt.None? {
        Permissions.AllocatedIsEmpty(codec, db, d);
        Permissions.DefinedRowReads(codec, db, d, description, name, photo, false, now);
      }
    }
  }

  lemma SailingRowReads(d: Id, r: DuckRow, now: Time)
    requires ReadDuck(d, r).Ok? && ReadDuck(d, r).value.lifecycle.Staged?
    ensures ReadDuck(d, r.(setSailAt := Some(now)))
            == Ok(ReadDuck(d, r).value.(lifecycle := Sailing(ReadDuck(d, r).value.lifecycle.details, now)))
  {
    hide Text.Parse, Codes.ParseDuck, ReadText;
  }

  /** Setting sail turns a staged duck into a sailing one with the same details, and nothing else ever. */
  lemma SailEffect(codec: Codec.DuckCodec, db: Db, d: Id, now: Time)
    requires Codec.Valid(codec) && Good(codec, db)
    ensures var after := Store.SetSail(db, d, now);
            && Good(codec, after) && OnlyRow(db.ducks, after.ducks, d)
            && (forall x | Lives(db, d, Staged(x)) :: Lives(after, d, Sailing(x, now)))
            && ((forall x :: !Lives(db, d, Staged(x))) ==> after == db)
            && forall t :: Store.SetSail(after, d, t) == after
  {
    hide Good, ReadDuck;
    SetSailKeepsGood(codec, db, d, now);
    if d in db.ducks {
      LifeOf(codec, db, d);
      if x :| Lives(db, d, Staged(x)) {
        SailingRowReads(d, db.ducks[d], now);
      }
    }
  }

  lemma MarkedRowReads(d: Id, r: DuckRow, mark: Option<Time>)
    requires ReadDuck(d, r).Ok?
    ensures ReadDuck(d, r.(deletedAt := mark)) == Ok(ReadDuck(d, r).value.(deletedAt := mark))
    ensures ReadDuck(d, r.(commentsLockedAt := mark)) == Ok(ReadDuck(d, r).value.(commentsLockedAt := mark))
  {
    hide Text.Parse, Codes.ParseDuck, ReadText;
  }

  /** The duck reads as before but for its deletion mark, which is there exactly when asked for; marking a
      marked duck keeps the first time, and a second call does nothing. */
  lemma DeletedEffect(codec: Codec.DuckCodec, db: Db, d: Id, deleted: bool, now: Time)
    requires Codec.Valid(codec) && Good(codec, db)
    ensures var after := Store.SetDeleted(db, d, deleted, now);
            && Good(codec, after) && OnlyRow(db.ducks, after.ducks, d) && (d !in db.ducks ==> after == db)
            && (d in db.ducks ==>
                  && ReadDuck(d, db.ducks[d]).Ok? && ReadDuck(d, after.ducks[d]).Ok?
                  && var (x, y) := (ReadDuck(d, db.ducks[d]).value, ReadDuck(d, after.ducks[d]).value);
                     && y == x.(deletedAt := y.deletedAt) && (y.deletedAt.Some? <==> deleted)
                     && (deleted && x.deletedAt.Some? ==> y == x))
            && forall t :: Store.SetDeleted(after, d, deleted, t) == after
  {
    hide Good, ReadDuck;
    MarksKeepGood(codec, db, d, deleted, now);
    if d in db.ducks {
      LifeOf(codec, db, d);
      var after := Store.SetDeleted(db, d, deleted, now);
      MarkedRowReads(d, db.ducks[d], after.ducks[d].deletedAt);
      ReadKeepsMarks(d, db.ducks[d]);
      forall t ensures Store.SetDeleted(after, d, deleted, t) == after {
        assert after.ducks[d := after.ducks[d]] == after.ducks;
      }
    }
  }

  lemma ReadKeepsMarks(d: Id, r: DuckRow)
    requires ReadDuck(d, r).Ok?
    ensures ReadDuck(d, r).value.deletedAt == r.deletedAt && ReadDuck(d, r).value.commentsLockedAt == r.commentsLockedAt
  {
    hide Text.Parse, Codes.ParseDuck, ReadLifecycle;
  }

  /** The same for the comment lock. */
  lemma CommentLockEffect(codec: Codec.DuckCodec, db: Db, d: Id, locked: bool, now: Time)
    requires Codec.Valid(codec) && Good(codec, db)
    ensures var after := Store.SetCommentsLocked(db, d, locked, now);
            && Good(codec, after) && OnlyRow(db.ducks, after.ducks, d) && (d !in db.ducks ==> after == db)
            && (d in db.ducks ==>
                  && ReadDuck(d, db.ducks[d]).Ok? && ReadDuck(d, after.ducks[d]).Ok?
                  && var (x, y) := (ReadDuck(d, db.ducks[d]).value, ReadDuck(d, after.ducks[d]).value);
                     && y == x.(commentsLockedAt := y.commentsLockedAt) && (y.commentsLockedAt.Some? <==> locked)
                     && (locked && x.commentsLockedAt.Some? ==> y == x))
            && forall t :: Store.SetCommentsLocked(after, d, locked, t) == after
  {
    hide Good, ReadDuck;
    MarksKeepGood(codec, db, d, locked, now);
    if d in db.ducks {
      LifeOf(codec, db, d);
      var after := Store.SetCommentsLocked(db, d, locked, now);
      MarkedRowReads(d, db.ducks[d], after.ducks[d].commentsLockedAt);
      ReadKeepsMarks(d, db.ducks[d]);
      forall t ensures Store.SetCommentsLocked(after, d, locked, t) == after {
        assert after.ducks[d := after.ducks[d]] == after.ducks;
      }
    }
  }

  // ----- Sightings -----------------------------------------------------------------------

  lemma {:induction false} BagWithout(m: map<Id, SightingRow>, s: Id, n: nat)
    ensures PhotoKeys.SightingBag(m, n)
            == PhotoKeys.SightingBag(m - {s}, n) + (if s < n then PhotoKeys.SightingOne(m, s) else multiset{})
  {
    hide *;
    PhotoKeys.SightingBagStep(m, n);
    PhotoKeys.SightingBagStep(m - {s}, n);
    if n > 0 {
      BagWithout(m, s, n - 1);
      OneWithout(m, s, n - 1);
    }
  }

  lemma OneWithout(m: map<Id, SightingRow>, s: Id, i: Id)
    ensures PhotoKeys.SightingOne(m - {s}, i) == if i == s then multiset{} else PhotoKeys.SightingOne(m, i)
  {
  }

  /** The sighting is off its own duck, all its notices and no other are gone, the tables lose exactly the photo
      key returned, and removing again changes nothing. */
  ghost predicate SightingGone(was: Db, db: Db, sighting: Id, duck: Id, key: Option<Option<string>>) {
    && (key.Some? <==> sighting in was.sightings && was.sightings[sighting].duck == duck)
    && db.sightings == (if key.Some? then was.sightings - {sighting} else was.sightings)
    && OnlyNoticesOf(was.notifications, db.notifications, sighting)
    && PhotoKeys.PhotoBag(was)
       == PhotoKeys.PhotoBag(db) + (if key.Some? then multiset(KeyOf(key.value)) else multiset{})
    && Store.DeleteSighting(db, sighting, duck) == db
  }

  lemma RemovalEffect(codec: Codec.DuckCodec, db: Db, after: Db, sighting: Id, duck: Id, key: Option<Option<string>>)
    requires Codec.Valid(codec) && Good(codec, db) && after == Store.DeleteSighting(db, sighting, duck)
    requires key == if sighting in db.sightings && db.sightings[sighting].duck == duck
                    then Some(db.sightings[sighting].photoKey) else None
    ensures Good(codec, after) && SightingGone(db, after, sighting, duck, key)
  {
    hide Good, PhotoKeys.SightingBag, PhotoKeys.DuckBag, OnlyNoticesOf;
    DeleteSightingKeepsGood(codec, db, sighting, duck);
    SightingsBounded(codec, db);
    RemovedTwice(db, sighting, duck);
    if key.Some? {
      BagWithout(db.sightings, sighting, db.next.sighting);
    }
  }

  /** The notices of the sighting are gone, all others are as they were. */
  ghost predicate OnlyNoticesOf(was: map<Id, NotificationRow>, notices: map<Id, NotificationRow>, sighting: Id) {
    && (forall n :: n in notices <==> n in was && was[n].sighting != sighting)
    && (forall n | n in notices :: notices[n] == was[n])
  }

  lemma RemovedTwice(db: Db, sighting: Id, duck: Id)
    ensures var after := Store.DeleteSighting(db, sighting, duck);
            && Store.DeleteSighting(after, sighting, duck) == after
            && OnlyNoticesOf(db.notifications, after.notifications, sighting)
  {
    var after := Store.DeleteSighting(db, sighting, duck);
    assert Store.DeleteSighting(after, sighting, duck).notifications == after.notifications;
  }

  lemma SightingsBounded(codec: Codec.DuckCodec, db: Db)
    requires Codec.Valid(codec) && Good(codec, db)
    ensures forall s | s in db.sightings :: s < db.next.sighting
  {
    hide DucksOk, Dense, FlocksOk, UsersOk, CommentsOk, FollowsOk, NoticesOk, ForeignKeys;
  }

  // ----- Comments and follows ----------------------------------------------------------------

  /** A comment gets a fresh identity, and removing that identity undoes it. */
  lemma CommentEffect(codec: Codec.DuckCodec, db: Db, duck: Id, user: Id, body: string)
    requires Codec.Valid(codec) && Good(codec, db) && Store.AddComment(db, duck, user, body).Ok?
    ensures var after := Store.AddComment(db, duck, user, body).value;
            && db.next.comment !in db.comments
            && Store.DeleteComment(after, db.next.comment, duck).comments == db.comments
            && (Live(db.ducks, duck) && TextFits(Text.COMMENT_MAX, Some(body)) ==> Good(codec, after))
  {
    hide Good, TextFits, Live;
    if Live(db.ducks, duck) && TextFits(Text.COMMENT_MAX, Some(body)) {
      CommentsKeepGood(codec, db, duck, user, body, 0);
    }
    CommentFresh(codec, db);
    var after := Store.AddComment(db, duck, user, body).value;
    assert after.comments - {db.next.comment} == db.comments;
  }

  lemma CommentFresh(codec: Codec.DuckCodec, db: Db)
    requires Codec.Valid(codec) && Good(codec, db)
    ensures db.next.comment !in db.comments
  {
    hide DucksOk, Dense, FlocksOk, UsersOk, SightingsOk, FollowsOk, NoticesOk, ForeignKeys;
  }

  /** Followers are told of every later find of the duck by somebody else; those who are not, never. */
  lemma ToldIff(follows: set<(Id, Id)>, duck: Id, user: Id)
    ensures forall finder: Id, n: nat | user < n && finder != user ::
              user in Notified(follows, duck, finder, n) <==> (user, duck) in follows
  {
    hide Notified;
    forall finder: Id, n: nat | user < n && finder != user
      ensures user in Notified(follows, duck, finder, n) <==> (user, duck) in follows
    {
      NotifiedExactly(follows, duck, finder, n);
    }
  }

  // ----- The feed -------------------------------------------------------------------------------

  /** Nothing is left unread for the reader, everybody else has as much unread as before, earlier reading times
      are kept, and reading again changes nothing. */
  ghost predicate FeedRead(was: Db, db: Db, user: Id) {
    && (forall v: Viewer | v.id == user :: Unread(db, Some(v)) == 0)
    && (forall v: Viewer | v.id != user :: Unread(db, Some(v)) == Unread(was, Some(v)))
    && (forall n | n in was.notifications && was.notifications[n].readAt.Some? ::
          n in db.notifications && db.notifications[n] == was.notifications[n])
    && forall t :: Store.MarkAllRead(db, user, t) == db
  }

  lemma FeedReadEffect(codec: Codec.DuckCodec, db: Db, after: Db, user: Id, now: Time)
    requires Codec.Valid(codec) && Good(codec, db) && after == Store.MarkAllRead(db, user, now)
    ensures Good(codec, after) && FeedRead(db, after, user)
  {
    hide Good;
    MarkAllReadKeepsGood(codec, db, user, now);
    forall v: Viewer
      ensures Unread(after, Some(v)) == if v.id == user then 0 else Unread(db, Some(v))
    {
      UnreadCounts(db, v);
      UnreadCounts(after, v);
      assert UnreadOf(after, v.id) == if v.id == user then {} else UnreadOf(db, v.id);
    }
    forall t ensures Store.MarkAllRead(after, user, t) == after {
      assert Store.MarkAllRead(after, user, t).notifications == after.notifications;
    }
  }

  lemma UnreadCounts(db: Db, v: Viewer)
    ensures Unread(db, Some(v)) == |UnreadOf(db, v.id)|
  {
    assert UnreadOf(db, v.id)
           == set n | n in db.notifications && db.notifications[n].user == v.id && db.notifications[n].readAt.None?;
  }

  function UnreadOf(db: Db, user: Id): set<Id> {
    set n | n in db.notifications && db.notifications[n].user == user && db.notifications[n].readAt.None?
  }

  // ----- Accounts ---------------------------------------------------------------------------------

  /** `u` is the only account of the identity; it keeps its admin flag and what was known of it, takes what was
      sent, and no other account differs. */
  ghost predicate OneAccount(was: map<Id, UserRow>, users: map<Id, UserRow>, u: Id, issuer: string, subject: string,
                             displayName: Option<string>, email: Option<string>, grantAdmin: bool)
  {
    && (forall w :: w in users && users[w].issuer == issuer && users[w].subject == subject <==> w == u)
    && (forall w | w != u :: (w in users <==> w in was) && (w in users ==> users[w] == was[w]))
    && (u in was ==> was[u].issuer == issuer && was[u].subject == subject)
    && (users[u].isAdmin <==> grantAdmin || (u in was && was[u].isAdmin))
    && (users[u].displayName == if displayName.Some? || u !in was then displayName else was[u].displayName)
    && (users[u].email == if email.Some? || u !in was then email else was[u].email)
  }

  lemma RenewedIsOne(users: map<Id, UserRow>, u: Id, displayName: Option<string>, email: Option<string>,
                     grantAdmin: bool)
    requires UniqueUsers(users) && u in users
    ensures OneAccount(users, users[u := Renewed(users[u], displayName, email, grantAdmin)], u, users[u].issuer,
                       users[u].subject, displayName, email, grantAdmin)
  {
  }

  lemma AddedIsOne(users: map<Id, UserRow>, u: Id, issuer: string, subject: string, displayName: Option<string>,
                   email: Option<string>, grantAdmin: bool)
    requires u !in users && forall w | w in users :: !(users[w].issuer == issuer && users[w].subject == subject)
    ensures OneAccount(users, users[u := UserRow(issuer, subject, displayName, email, grantAdmin)], u, issuer, subject,
                       displayName, email, grantAdmin)
  {
  }

  lemma SignInEffect(codec: Codec.DuckCodec, db: Db, issuer: string, subject: string, displayName: Option<string>,
                     email: Option<string>, grantAdmin: bool)
    requires Codec.Valid(codec) && Good(codec, db)
    ensures OneAccount(db.users, Upsert(db, issuer, subject, displayName, email, grantAdmin).users,
                       AccountOf(db, issuer, subject), issuer, subject, displayName, email, grantAdmin)
  {
    hide Good, FindUser, OneAccount, Renewed, UniqueUsers;
    AccountsBelow(codec, db);
    match FindUser(db.users, issuer, subject, db.next.user)
    case Some(u) => RenewedIsOne(db.users, u, displayName, email, grantAdmin);
    case None => AddedIsOne(db.users, db.next.user, issuer, subject, displayName, email, grantAdmin);
  }

  /** `u` is the one account of the identity, and signing in once more with these claims changes no account. */
  ghost predicate SignedIn(was: Db, db: Db, u: Id, issuer: string, subject: string, displayName: Option<string>,
                           email: Option<string>, grantAdmin: bool)
  {
    && OneAccount(was.users, db.users, u, issuer, subject, displayName, email, grantAdmin)
    && Upsert(db, issuer, subject, displayName, email, grantAdmin).users == db.users
  }

  lemma SignInTwice(codec: Codec.DuckCodec, db: Db, after: Db, issuer: string, subject: string,
                    displayName: Option<string>, email: Option<string>, grantAdmin: bool)
    requires Codec.Valid(codec) && Good(codec, db)
    requires after == Upsert(db, issuer, subject, displayName, email, grantAdmin)
    ensures Good(codec, after)
    ensures SignedIn(db, after, AccountOf(db, issuer, subject), issuer, subject, displayName, email, grantAdmin)
  {
    hide Good, FindUser, Upsert, OneAccount, UniqueUsers, AccountOf;
    UpsertKeepsGood(codec, db, issuer, subject, displayName, email, grantAdmin);
    SignInEffect(codec, db, issuer, subject, displayName, email, grantAdmin);
    AccountsBelow(codec, after);
    UpsertSettles(after, AccountOf(db, issuer, subject), issuer, subject, displayName, email, grantAdmin);
  }

  lemma AccountsBelow(codec: Codec.DuckCodec, db: Db)
    requires Codec.Valid(codec) && Good(codec, db)
    ensures UniqueUsers(db.users) && forall u | u in db.users :: u < db.next.user
  {
    hide DucksOk, Dense, FlocksOk, SightingsOk, CommentsOk, FollowsOk, NoticesOk, ForeignKeys, UniqueUsers;
  }

  /** The account a sign-in finds or makes. */
  function AccountOf(db: Db, issuer: string, subject: string): Id {
    var found := FindUser(db.users, issuer, subject, db.next.user);
    if found.Some? then found.value else db.next.user
  }

  lemma UpsertSettles(db: Db, u: Id, issuer: string, subject: string, displayName: Option<string>,
                      email: Option<string>, grantAdmin: bool)
    requires exists was :: OneAccount(was, db.users, u, issuer, subject, displayName, email, grantAdmin)
    requires forall w | w in db.users :: w < db.next.user
    ensures Upsert(db, issuer, subject, displayName, email, grantAdmin).users == db.users
  {
    hide FindUser;
    assert FindUser(db.users, issuer, subject, db.next.user) == Some(u);
    assert Renewed(db.users[u], displayName, email, grantAdmin) == db.users[u];
    assert db.users[u := db.users[u]] == db.users;
  }
}
