/** What every request about a scanned duck is answered, and what the tables say afterwards, read off the rows of
    the duck, its flock and its talk. */
module Answers {
  import opened Wrappers
  import opened Schema
  import opened Store
  import opened Invariants
  import opened Handlers
  import opened Hiding
  import opened Safety
  import opened Permissions
  import Effects
  import Funnel
  import Codes
  import Codec
  import Text

  // ----- The scanned duck ------------------------------------------------------------------

  lemma Scanned(codec: Codec.DuckCodec, db: Db, viewer: Option<Viewer>, raw: string, d: Id)
    requires Codec.Valid(codec) && Good(codec, db) && Scans(db, raw, d)
    ensures var r := ResolveAny(codec, db, raw);
            && r.Found? && r.duck.id == d && ReadDuck(d, db.ducks[d]) == Ok(r.duck)
            && r.duck.code == db.ducks[d].code && r.duck.deletedAt == db.ducks[d].deletedAt
            && r.duck.commentsLockedAt == db.ducks[d].commentsLockedAt
            && (r.duck.lifecycle.Sailing? <==> db.ducks[d].setSailAt.Some?)
            && (r.duck.lifecycle.Allocated? <==> db.ducks[d].originatedAt.None?)
            && (IsOwner(viewer, r.flock) <==> Owns(db, viewer, d))
            && (viewer.Some? ==> (CanModerate(viewer.value, r.flock) <==> Moderates(db, viewer.value, d)))
  {
    hide Good, ResolveAny, ReadDuck, Codes.ParseDuck, Hidden, Owns;
    Funnel.StoredCodeResolves(codec, db, raw, d);
    ResolvedRow(codec, db, raw);
    Funnel.DuckReadsBack(codec, db, d);
    FoundIsHiddenIff(codec, db, viewer, raw);
  }

  /** What a defined duck's row says of it. */
  function Stored(r: DuckRow): Details
    requires r.originatedAt.Some? && r.description.Some? && r.photoKey.Some? && r.photoType.Some?
  {
    Details(r.originatedAt.value, Text.Trim(r.description.value), Said(r.name),
            PhotoRef(r.photoKey.value, r.photoType.value))
  }

  lemma StoredDetails(d: Id, r: DuckRow)
    requires ReadDuck(d, r).Ok? && !ReadDuck(d, r).value.lifecycle.Allocated?
    ensures r.originatedAt.Some? && r.description.Some? && r.photoKey.Some? && r.photoType.Some?
    ensures ReadDuck(d, r).value.lifecycle
            == if r.setSailAt.Some? then Sailing(Stored(r), r.setSailAt.value) else Staged(Stored(r))
  {
    hide Text.Trim, Codes.ParseDuck;
  }

  // ----- A request that reaches no duck ------------------------------------------------------

  /** Whoever is not signed in is sent to sign in by every request that needs a session; a code that is nobody's is
      not found. */
  lemma {:induction false} NoDuckAnswer(codec: Codec.DuckCodec, db: Db, viewer: Option<Viewer>, raw: string,
                                        request: Request, now: Time)
    requires Codec.Valid(codec) && Good(codec, db)
    ensures var page := request.ViewPage? || request.QrPng? || request.OriginPhoto? || request.SightingPhoto?;
            && (viewer.None? && !page ==> Serve(codec, db, viewer, raw, request, now) == (LoginFirst, db))
            && ((viewer.Some? || page) && (forall d | d in db.ducks :: !Scans(db, raw, d)) ==>
                  Serve(codec, db, viewer, raw, request, now) == (NotFound, db))
  {
    hide Good, ResolveAny, Codes.ParseDuck, GuardOpen, GuardMember, Scans;
    if forall d | d in db.ducks :: !Scans(db, raw, d) {
      NothingScanned(codec, db, raw);
    }
  }

  // ----- Moderation --------------------------------------------------------------------------

  /** Deleting: for the flock's owner and the admins the duck is marked deleted, keeping an earlier mark; nobody else
      learns that it exists. */
  lemma {:induction false} DeleteAnswer(codec: Codec.DuckCodec, db: Db, v: Viewer, raw: string, d: Id, now: Time)
    requires Codec.Valid(codec) && Good(codec, db) && Scans(db, raw, d)
    ensures var row := db.ducks[d];
            Serve(codec, db, Some(v), raw, DeleteDuck, now)
            == if Moderates(db, v, d)
               then (if Owns(db, Some(v), d) then OWNER_DELETED else ADMIN_DELETED,
                     if row.deletedAt.Some? then db
                     else db.(ducks := db.ducks[d := row.(deletedAt := Some(now))]))
               else (NotFound, db)
  {
    hide Good, ResolveAny, Owns, Codes.ParseDuck;
    Scanned(codec, db, Some(v), raw, d);
    PerformOne(db, WDeleted(d, true), if Owns(db, Some(v), d) then OWNER_DELETED else ADMIN_DELETED, now);
    assert db.ducks[d := db.ducks[d]] == db.ducks;
  }

  /** Restoring: the mark is off. */
  lemma {:induction false} RestoreAnswer(codec: Codec.DuckCodec, db: Db, v: Viewer, raw: string, d: Id, now: Time)
    requires Codec.Valid(codec) && Good(codec, db) && Scans(db, raw, d)
    ensures Serve(codec, db, Some(v), raw, RestoreDuck, now)
            == if Moderates(db, v, d)
               then (RESTORED, db.(ducks := db.ducks[d := db.ducks[d].(deletedAt := None)]))
               else (NotFound, db)
  {
    hide Good, ResolveAny, Owns, Codes.ParseDuck;
    Scanned(codec, db, Some(v), raw, d);
    PerformOne(db, WDeleted(d, false), RESTORED, now);
  }

  /** Locking and unlocking the comments of a duck that is not deleted. */
  lemma {:induction false} LockAnswer(codec: Codec.DuckCodec, db: Db, v: Viewer, raw: string, d: Id, locked: bool,
                                      now: Time)
    requires Codec.Valid(codec) && Good(codec, db) && Scans(db, raw, d)
    ensures var row := db.ducks[d];
            var mark := if !locked then None
                        else if row.commentsLockedAt.Some? then row.commentsLockedAt else Some(now);
            Serve(codec, db, Some(v), raw, LockComments(locked), now)
            == if Moderates(db, v, d) && row.deletedAt.None?
               then (Redirect("/d/" + row.code), db.(ducks := db.ducks[d := row.(commentsLockedAt := mark)]))
               else (NotFound, db)
  {
    hide Good, ResolveAny, Owns, Codes.ParseDuck;
    Scanned(codec, db, Some(v), raw, d);
    PerformOne(db, WLocked(d, locked), DuckUrl(db.ducks[d].code), now);
  }

  /** Removing a comment of a duck on show; one of another duck stays. */
  lemma {:induction false} RemoveCommentAnswer(codec: Codec.DuckCodec, db: Db, v: Viewer, raw: string, d: Id, c: Id,
                                               now: Time)
    requires Codec.Valid(codec) && Good(codec, db) && Scans(db, raw, d)
    ensures var own := c in db.comments && db.comments[c].duck == d;
            Serve(codec, db, Some(v), raw, RemoveComment(c), now)
            == if Moderates(db, v, d) && OnShow(db, d)
               then (Redirect("/d/" + db.ducks[d].code), if own then db.(comments := db.comments - {c}) else db)
               else (NotFound, db)
  {
    hide Good, ResolveAny, Owns, Codes.ParseDuck;
    Scanned(codec, db, Some(v), raw, d);
    PerformOne(db, WDropComment(c, d), DuckUrl(db.ducks[d].code), now);
  }

  /** Removing a sighting of a duck on show together with its notices; of another duck's sighting the notices only. */
  lemma {:induction false} RemoveSightingAnswer(codec: Codec.DuckCodec, db: Db, v: Viewer, raw: string, d: Id, s: Id,
                                                now: Time)
    requires Codec.Valid(codec) && Good(codec, db) && Scans(db, raw, d)
    ensures var (response, after) := Serve(codec, db, Some(v), raw, RemoveSighting(s), now);
            if Moderates(db, v, d) && OnShow(db, d) then
              && response == Redirect("/d/" + db.ducks[d].code)
              && after == db.(sightings := after.sightings, notifications := after.notifications)
              && (forall t :: t in after.sightings <==>
                                t in db.sightings && !(t == s && db.sightings[s].duck == d))
              && (forall t | t in after.sightings :: after.sightings[t] == db.sightings[t])
              && (forall n :: n in after.notifications <==>
                                n in db.notifications && db.notifications[n].sighting != s)
              && (forall n | n in after.notifications :: after.notifications[n] == db.notifications[n])
            else response == NotFound && after == db
  {
    hide Good, ResolveAny, Owns, Codes.ParseDuck, Store.DeleteSighting;
    Scanned(codec, db, Some(v), raw, d);
    PerformOne(db, WDropSighting(s, d), DuckUrl(db.ducks[d].code), now);
    SightingRemoved(db, s, d);
  }

  lemma SightingRemoved(db: Db, s: Id, d: Id)
    ensures var after := Store.DeleteSighting(db, s, d);
            && after == db.(sightings := after.sightings, notifications := after.notifications)
            && (forall t :: t in after.sightings <==> t in db.sightings && !(t == s && db.sightings[s].duck == d))
            && (forall t | t in after.sightings :: after.sightings[t] == db.sightings[t])
            && (forall n :: n in after.notifications <==> n in db.notifications && db.notifications[n].sighting != s)
            && (forall n | n in after.notifications :: after.notifications[n] == db.notifications[n])
  {
  }

  // ----- Following and setting sail ------------------------------------------------------------

  lemma FollowersExist(codec: Codec.DuckCodec, db: Db)
    requires Codec.Valid(codec) && Good(codec, db)
    ensures forall p | p in db.follows :: p.0 in db.users
  {
    hide DucksOk, Dense, FlocksOk, UsersOk, CommentsOk, SightingsOk, FollowsOk, NoticesOk, FlockKeys, DuckKeys,
      SightingKeys, CommentKeys, NoticeKeys;
  }

  /** Following a duck on show; an account gone since sign-in is a server error that changes nothing. */
  lemma {:induction false} FollowAnswer(codec: Codec.DuckCodec, db: Db, v: Viewer, raw: string, d: Id, now: Time)
    requires Codec.Valid(codec) && Good(codec, db) && Scans(db, raw, d)
    ensures Serve(codec, db, Some(v), raw, StartFollowing, now)
            == if !OnShow(db, d) then (NotFound, db)
               else if v.id !in db.users then (ServerError, db)
               else (Redirect("/d/" + db.ducks[d].code), db.(follows := db.follows + {(v.id, d)}))
  {
    hide Good, ResolveAny, Owns, Codes.ParseDuck;
    Scanned(codec, db, Some(v), raw, d);
    FollowersExist(codec, db);
    PerformOne(db, WFollow(v.id, d), DuckUrl(db.ducks[d].code), now);
    if (v.id, d) in db.follows {
      assert db.follows + {(v.id, d)} == db.follows;
    }
  }

  lemma {:induction false} UnfollowAnswer(codec: Codec.DuckCodec, db: Db, v: Viewer, raw: string, d: Id, now: Time)
    requires Codec.Valid(codec) && Good(codec, db) && Scans(db, raw, d)
    ensures Serve(codec, db, Some(v), raw, StopFollowing, now)
            == if !OnShow(db, d) then (NotFound, db)
               else (Redirect("/d/" + db.ducks[d].code), db.(follows := db.follows - {(v.id, d)}))
  {
    hide Good, ResolveAny, Owns, Codes.ParseDuck;
    Scanned(codec, db, Some(v), raw, d);
    PerformOne(db, WUnfollow(v.id, d), DuckUrl(db.ducks[d].code), now);
  }

  /** The owner's order to set sail moves a staged duck and no other; he is congratulated either way. */
  lemma {:induction false} SailAnswer(codec: Codec.DuckCodec, db: Db, v: Viewer, raw: string, d: Id, now: Time)
    requires Codec.Valid(codec) && Good(codec, db) && Scans(db, raw, d)
    ensures var row := db.ducks[d];
            Serve(codec, db, Some(v), raw, SetSailing, now)
            == if !Owns(db, Some(v), d) || row.deletedAt.Some? then (NotFound, db)
               else (Redirect("/d/" + row.code + "?m=" + SET_SAIL),
                     if row.originatedAt.Some? && row.setSailAt.None?
                     then db.(ducks := db.ducks[d := row.(setSailAt := Some(now))]) else db)
  {
    hide Good, ResolveAny, Owns, Codes.ParseDuck;
    Scanned(codec, db, Some(v), raw, d);
    PerformOne(db, WSail(d), DuckFlash(db.ducks[d].code, SET_SAIL), now);
  }

  // ----- Forms -----------------------------------------------------------------------------------

  lemma LogDecision(codec: Codec.DuckCodec, db: Db, v: Viewer, raw: string, d: Id, request: Request, now: Time)
    requires Codec.Valid(codec) && Good(codec, db) && Scans(db, raw, d) && request.LogFind?
    ensures Decide(codec, db, Some(v), raw, request, now)
            == if !OnShow(db, d) then Respond(NotFound)
               else if !WellFormedFind(db, request, now) then Respond(BadRequest)
               else Act([WLog(FoundRow(db, v, d, request, now))], DuckFlash(db.ducks[d].code, RECORDED))
  {
    hide Good, ResolveAny, Owns, Text.Parse, Field, ReadText, Codes.ParseDuck, Said;
    Scanned(codec, db, Some(v), raw, d);
    OptionalField(Text.NOTE_MAX, request.note);
  }

  /** A find is stored exactly when the duck is on show and the form is well formed; a malformed one is refused and a
      duck not on show is not found, with nothing changed either way. */
  lemma {:induction false} LogAnswer(codec: Codec.DuckCodec, db: Db, v: Viewer, raw: string, d: Id, request: Request,
                                     now: Time)
    requires Codec.Valid(codec) && Good(codec, db) && Scans(db, raw, d) && request.LogFind?
    ensures var (response, after) := Serve(codec, db, Some(v), raw, request, now);
            if !OnShow(db, d) then response == NotFound && after == db
            else if !WellFormedFind(db, request, now) then response == BadRequest && after == db
            else if v.id !in db.users then response == ServerError && after == db
            else
              && response == Redirect("/d/" + db.ducks[d].code + "?m=" + RECORDED)
              && LogSighting(db, FoundRow(db, v, d, request, now)) == Ok(after)
              && db.next.sighting !in db.sightings
              && after == db.(sightings := db.sightings[db.next.sighting := FoundRow(db, v, d, request, now)],
                              follows := db.follows + {(v.id, d)},
                              notifications := after.notifications,
                              next := after.next)
  {
    hide Good, Codes.ParseDuck, Decide, PerformAll, WellFormedFind, FoundRow, Append, Notified, Notices;
    LogDecision(codec, db, v, raw, d, request, now);
    SightingIdFresh(codec, db);
    if OnShow(db, d) && WellFormedFind(db, request, now) {
      FoundRowRefs(db, v, d, request, now);
      PerformOne(db, WLog(FoundRow(db, v, d, request, now)), DuckFlash(db.ducks[d].code, RECORDED), now);
    }
  }

  lemma FoundRowRefs(db: Db, v: Viewer, d: Id, request: Request, now: Time)
    requires request.LogFind? && WellFormedFind(db, request, now)
    ensures var row := FoundRow(db, v, d, request, now);
            row.duck == d && row.vessel in db.vessels && row.user == v.id
  {
  }

  /** The column values a definition leaves. */
  function DefinedAs(row: DuckRow, x: Details, sail: bool, now: Time): DuckRow {
    row.(originatedAt := Some(now), description := Some(x.description), name := x.name,
         photoKey := Some(x.photo.key), photoType := Some(x.photo.contentType),
         setSailAt := if sail then Some(now) else None)
  }

  /** A definition is stored exactly when the owner sends a well-formed one for an allocated duck of his. */
  lemma {:induction false} OriginateAnswer(codec: Codec.DuckCodec, db: Db, v: Viewer, raw: string, d: Id,
                                           request: Request, now: Time)
    requires Codec.Valid(codec) && Good(codec, db) && Scans(db, raw, d) && request.Originate?
    ensures var row := db.ducks[d];
            Serve(codec, db, Some(v), raw, request, now)
            == if !Owns(db, Some(v), d) || row.deletedAt.Some? then (NotFound, db)
               else if row.originatedAt.Some? then (Redirect("/d/" + row.code), db)
               else if !WellFormedDefinition(request) then (BadRequest, db)
               else (Redirect("/d/" + row.code + "?m=" + if request.alsoSail then DEFINED_AND_SET_SAIL else DEFINED),
                     db.(ducks := db.ducks[d := DefinedAs(row, DetailsOf(request, now), request.alsoSail, now)]))
  {
    hide Good, ResolveAny, Owns, Codes.ParseDuck, PerformAll, Text.Parse, Field, ReadText, Said;
    Scanned(codec, db, Some(v), raw, d);
    RequiredField(Text.DESCRIPTION_MAX, request.description);
    OptionalField(Text.DUCK_NAME_MAX, request.name);
    if db.ducks[d].originatedAt.None? && WellFormedDefinition(request) {
      AllocatedIsEmpty(codec, db, d);
      var x := DetailsOf(request, now);
      StageThenSail(db, d, x.description, x.name, x.photo, request.alsoSail,
                    DuckFlash(db.ducks[d].code, if request.alsoSail then DEFINED_AND_SET_SAIL else DEFINED), now);
    }
  }

  /** A comment is stored, trimmed, exactly when the duck is on show, its comments are open, and there is something
      of at most 2000 characters to store. */
  lemma {:induction false} CommentAnswer(codec: Codec.DuckCodec, db: Db, v: Viewer, raw: string, d: Id, body: string,
                                         now: Time)
    requires Codec.Valid(codec) && Good(codec, db) && Scans(db, raw, d)
    ensures db.next.comment !in db.comments
    ensures Serve(codec, db, Some(v), raw, PostComment(body), now)
            == if !OnShow(db, d) then (NotFound, db)
               else if db.ducks[d].commentsLockedAt.Some? || !(1 <= |Text.Trim(body)| <= 2000) then (BadRequest, db)
               else if v.id !in db.users then (ServerError, db)
               else (Redirect("/d/" + db.ducks[d].code),
                     db.(comments := db.comments[db.next.comment := CommentRow(d, v.id, Text.Trim(body))],
                         next := db.next.(comment := db.next.comment + 1)))
  {
    hide Good, ResolveAny, Owns, Codes.ParseDuck, Text.Trim;
    Scanned(codec, db, Some(v), raw, d);
    Effects.CommentFresh(codec, db);
    PerformOne(db, WComment(d, v.id, Text.Trim(body)), DuckUrl(db.ducks[d].code), now);
  }

  // ----- Pages and pictures ------------------------------------------------------------------------

  function UnreadBy(db: Db, viewer: Option<Viewer>): nat {
    if viewer.None? then 0 else |Effects.UnreadOf(db, viewer.value.id)|
  }

  lemma UnreadIs(db: Db, viewer: Option<Viewer>)
    ensures Unread(db, viewer) == UnreadBy(db, viewer)
  {
    if viewer.Some? {
      Effects.UnreadCounts(db, viewer.value);
    }
  }

  /** The page of a sailing duck: its details, every find and comment of this duck and of no other, each with its
      author's name, and how the viewer stands to it. */
  ghost predicate Shows(db: Db, viewer: Option<Viewer>, d: Id, view: PageView)
    requires d in db.ducks
  {
    var row := db.ducks[d];
    && row.originatedAt.Some? && row.description.Some? && row.photoKey.Some? && row.photoType.Some?
    && view.code == row.code && view.details == Stored(row) && row.setSailAt == Some(view.since)
    && (view.isOwner <==> Owns(db, viewer, d))
    && (view.canModerate <==> viewer.Some? && Moderates(db, viewer.value, d))
    && (view.isFollowing <==> viewer.Some? && (viewer.value.id, d) in db.follows)
    && (view.commentsLocked <==> row.commentsLockedAt.Some?)
    && (forall s :: s in view.sightings <==> s in db.sightings && db.sightings[s].duck == d)
    && (forall s | s in view.sightings ::
          db.sightings[s].user in db.users
          && view.sightings[s] == (db.sightings[s], db.users[db.sightings[s].user].displayName))
    && (forall c :: c in view.comments <==> c in db.comments && db.comments[c].duck == d)
    && (forall c | c in view.comments ::
          db.comments[c].user in db.users
          && view.comments[c] == (db.comments[c], db.users[db.comments[c].user].displayName))
    && view.unread == UnreadBy(db, viewer)
  }

  lemma TalkHasAuthors(codec: Codec.DuckCodec, db: Db)
    requires Codec.Valid(codec) && Good(codec, db)
    ensures forall s | s in db.sightings :: db.sightings[s].user in db.users && db.sightings[s].vessel in db.vessels
    ensures forall c | c in db.comments :: db.comments[c].user in db.users
  {
    hide DucksOk, Dense, FlocksOk, UsersOk, CommentsOk, SightingsOk, FollowsOk, NoticesOk, FlockKeys, DuckKeys,
      FollowKeys, NoticeKeys;
    assert forall s | s in db.sightings :: SightingRefs(db.ducks, db.vessels, db.users, db.sightings[s]);
  }

  lemma HistoryShown(codec: Codec.DuckCodec, db: Db, d: Id)
    requires Codec.Valid(codec) && Good(codec, db)
    ensures var (found, said) := (SightingsOf(db, d), CommentsOf(db, d));
            && (forall s :: s in found <==> s in db.sightings && db.sightings[s].duck == d)
            && (forall s | s in found ::
                  db.sightings[s].user in db.users
                  && found[s] == (db.sightings[s], db.users[db.sightings[s].user].displayName))
            && (forall c :: c in said <==> c in db.comments && db.comments[c].duck == d)
            && (forall c | c in said ::
                  db.comments[c].user in db.users
                  && said[c] == (db.comments[c], db.users[db.comments[c].user].displayName))
  {
    hide Good;
    TalkHasAuthors(codec, db);
  }

  /** Viewing a duck: everybody sees the page of a duck on show; the owner of one that has not sailed gets the form
      or the staged page; nobody else finds anything, and nothing is written. */
  lemma {:induction false} PageAnswer(codec: Codec.DuckCodec, db: Db, viewer: Option<Viewer>, raw: string, d: Id,
                                      now: Time)
    requires Codec.Valid(codec) && Good(codec, db) && Scans(db, raw, d)
    ensures var row := db.ducks[d];
            var (response, after) := Serve(codec, db, viewer, raw, ViewPage, now);
            && after == db
            && (if row.deletedAt.Some? then response == NotFound
                else if row.setSailAt.Some? then response.DuckPage? && Shows(db, viewer, d, response.view)
                else if !Owns(db, viewer, d) then response == NotFound
                else if row.originatedAt.None? then response == OriginationForm(row.code, UnreadBy(db, viewer))
                else
                  && row.description.Some? && row.photoKey.Some? && row.photoType.Some?
                  && response == StagedPage(row.code, Stored(row), UnreadBy(db, viewer)))
  {
    hide Good, ResolveAny, Owns, Codes.ParseDuck, SightingsOf, CommentsOf, HistoryReads, Unread, ReadDuck, Stored,
      IsOwner, CanModerate, Moderates, Serve, Shows;
    ViewIsPage(codec, db, viewer, raw, now);
    Scanned(codec, db, viewer, raw, d);
    if !ResolveAny(codec, db, raw).duck.lifecycle.Allocated? {
      StoredDetails(d, db.ducks[d]);
    }
    UnreadIs(db, viewer);
    if OnShow(db, d) {
      SailingPage(codec, db, viewer, raw, d);
    }
  }

  lemma ViewIsPage(codec: Codec.DuckCodec, db: Db, viewer: Option<Viewer>, raw: string, now: Time)
    requires Codec.Valid(codec)
    ensures Serve(codec, db, viewer, raw, ViewPage, now) == (GuardPage(codec, db, viewer, raw), db)
  {
    hide ResolveAny, SightingsOf, CommentsOf, HistoryReads, Unread, IsOwner, CanModerate;
  }

  lemma SailingPage(codec: Codec.DuckCodec, db: Db, viewer: Option<Viewer>, raw: string, d: Id)
    requires Codec.Valid(codec) && Good(codec, db) && Scans(db, raw, d) && OnShow(db, d)
    ensures var response := GuardPage(codec, db, viewer, raw);
            response.DuckPage? && Shows(db, viewer, d, response.view)
  {
    hide Good, ResolveAny, Owns, Codes.ParseDuck, SightingsOf, CommentsOf, HistoryReads, Unread, ReadDuck, Stored,
      IsOwner, CanModerate, Moderates;
    Scanned(codec, db, viewer, raw, d);
    StoredDetails(d, db.ducks[d]);
    Funnel.HistoryReadable(codec, db, d);
    HistoryShown(codec, db, d);
    UnreadIs(db, viewer);
  }

  /** The printable label: of a duck on show for everybody, of an undeleted one for its owner. */
  lemma {:induction false} LabelAnswer(codec: Codec.DuckCodec, db: Db, viewer: Option<Viewer>, raw: string, d: Id,
                                       now: Time)
    requires Codec.Valid(codec) && Good(codec, db) && Scans(db, raw, d)
    ensures Serve(codec, db, viewer, raw, QrPng, now)
            == (if OnShow(db, d) || (Owns(db, viewer, d) && db.ducks[d].deletedAt.None?)
                then Label(db.ducks[d].code) else NotFound,
                db)
  {
    hide Good, ResolveAny, Owns, Codes.ParseDuck, ReadDuck, IsOwner, GuardPage;
    Scanned(codec, db, viewer, raw, d);
  }

  /** The photo of the definition, under the same rule once there is one. */
  lemma {:induction false} OriginPhotoAnswer(codec: Codec.DuckCodec, db: Db, viewer: Option<Viewer>, raw: string, d: Id,
                                             now: Time)
    requires Codec.Valid(codec) && Good(codec, db) && Scans(db, raw, d)
    ensures var row := db.ducks[d];
            var (response, after) := Serve(codec, db, viewer, raw, OriginPhoto, now);
            && after == db
            && (if OnShow(db, d) || (Owns(db, viewer, d) && row.deletedAt.None? && row.originatedAt.Some?)
                then row.photoKey.Some? && row.photoType.Some?
                     && response == Photo(PhotoRef(row.photoKey.value, row.photoType.value))
                else response == NotFound)
  {
    hide Good, ResolveAny, Owns, Codes.ParseDuck, ReadDuck, IsOwner, GuardPage;
    Scanned(codec, db, viewer, raw, d);
    if !ResolveAny(codec, db, raw).duck.lifecycle.Allocated? {
      StoredDetails(d, db.ducks[d]);
    }
  }

  /** The photo of a find, through the page of its own duck only and while that duck is on show. */
  lemma {:induction false} SightingPhotoAnswer(codec: Codec.DuckCodec, db: Db, viewer: Option<Viewer>, raw: string,
                                               d: Id, s: Id, now: Time)
    requires Codec.Valid(codec) && Good(codec, db) && Scans(db, raw, d)
    ensures var (response, after) := Serve(codec, db, viewer, raw, SightingPhoto(s), now);
            && after == db
            && (if OnShow(db, d) && s in db.sightings && db.sightings[s].duck == d && db.sightings[s].photoKey.Some?
                then db.sightings[s].photoType.Some?
                     && response == Photo(PhotoRef(db.sightings[s].photoKey.value, db.sightings[s].photoType.value))
                else response == NotFound)
  {
    hide Good, ResolveAny, Owns, Codes.ParseDuck, ReadDuck, IsOwner, GuardPage, ReadSighting;
    Scanned(codec, db, viewer, raw, d);
    if s in db.sightings {
      Funnel.SightingReadsBack(codec, db, s);
      SightingPhotoStored(s, db.sightings[s]);
    }
  }

  lemma SightingPhotoStored(s: Id, r: SightingRow)
    requires ReadSighting(s, r).Ok?
    ensures r.photoKey.Some? <==> r.photoType.Some?
    ensures ReadSighting(s, r).value.duck == r.duck
    ensures ReadSighting(s, r).value.photo
            == if r.photoKey.Some? && r.photoType.Some? then Some(PhotoRef(r.photoKey.value, r.photoType.value))
               else None
  {
    hide ReadText;
  }

  // ----- Requests in a row ---------------------------------------------------------------------------

  /** A moderator who deletes a duck takes its page away from everybody, the owner included; restoring it brings the
      old tables back unless it had been deleted before. */
  lemma {:induction false} DeletedUntilRestored(codec: Codec.DuckCodec, db: Db, v: Viewer, raw: string, d: Id,
                                                viewer: Option<Viewer>, scanned: string, first: Time, now: Time)
    requires Codec.Valid(codec) && Good(codec, db) && Scans(db, raw, d) && Scans(db, scanned, d) && Moderates(db, v, d)
    ensures var deleted := Serve(codec, db, Some(v), raw, DeleteDuck, first).1;
            var restored := Serve(codec, deleted, Some(v), raw, RestoreDuck, now).1;
            && Serve(codec, deleted, viewer, scanned, ViewPage, now) == (NotFound, deleted)
            && restored == db.(ducks := db.ducks[d := db.ducks[d].(deletedAt := None)])
            && (restored == db <==> db.ducks[d].deletedAt.None?)
  {
    hide Good, Serve, Codes.ParseDuck;
    DeleteAnswer(codec, db, v, raw, d, first);
    var deleted := Serve(codec, db, Some(v), raw, DeleteDuck, first).1;
    assert deleted == SetDeleted(db, d, true, first) by {
      assert db.ducks[d := db.ducks[d]] == db.ducks;
    }
    MarksKeepGood(codec, db, d, true, first);
    PageAnswer(codec, deleted, viewer, scanned, d, now);
    RestoreAnswer(codec, deleted, v, raw, d, now);
    assert deleted.ducks[d := deleted.ducks[d].(deletedAt := None)] == db.ducks[d := db.ducks[d].(deletedAt := None)];
    if db.ducks[d].deletedAt.None? {
      assert db.ducks[d := db.ducks[d]] == db.ducks;
    } else {
      assert db.ducks[d := db.ducks[d].(deletedAt := None)][d] != db.ducks[d];
    }
  }
}
