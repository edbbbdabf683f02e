/** Who may do what on a duck page, read off the tables; and that what a form said is what is stored. */
module Permissions {
  import opened Wrappers
  import opened Schema
  import opened Store
  import opened Invariants
  import opened Handlers
  import opened Hiding
  import opened Runs
  import opened Safety
  import DuckGuarantees
  import Funnel
  import Codes
  import Codec
  import Text

  // ----- The access table ----------------------------------------------------------------

  /** The scanned text spells the code of duck `d`. */
  predicate Scans(db: Db, raw: string, d: Id) {
    d in db.ducks && Codes.ParseDuck(raw) == Ok(db.ducks[d].code)
  }

  predicate Moderates(db: Db, v: Viewer, d: Id)
    requires d in db.ducks
  {
    v.isAdmin || Owns(db, Some(v), d)
  }

  predicate OnShow(db: Db, d: Id)
    requires d in db.ducks
  {
    db.ducks[d].setSailAt.Some? && db.ducks[d].deletedAt.None?
  }

  /** Which member may send which request about a duck, in terms of its row and its flock's. */
  predicate May(db: Db, v: Viewer, d: Id, request: Request)
    requires d in db.ducks
  {
    var r := db.ducks[d];
    match request
    case Originate(_, _, _, _) => Owns(db, Some(v), d) && r.deletedAt.None? && r.originatedAt.None?
    case SetSailing => Owns(db, Some(v), d) && r.deletedAt.None?
    case LogFind(_, _, _, _, _, _) => OnShow(db, d)
    case StartFollowing => OnShow(db, d)
    case StopFollowing => OnShow(db, d)
    case PostComment(_) => OnShow(db, d) && r.commentsLockedAt.None?
    case DeleteDuck => Moderates(db, v, d)
    case RestoreDuck => Moderates(db, v, d)
    case LockComments(_) => Moderates(db, v, d) && r.deletedAt.None?
    case RemoveComment(_) => Moderates(db, v, d) && OnShow(db, d)
    case RemoveSighting(_) => Moderates(db, v, d) && OnShow(db, d)
    case _ => false
  }

  /** The write is about duck `d`, signed by the viewer, and what the request asks for. */
  predicate Concerns(w: Write, v: Viewer, d: Id, request: Request) {
    match w
    case WStage(e, _, _, _) => e == d && request.Originate?
    case WSail(e) => e == d && (request.SetSailing? || (request.Originate? && request.alsoSail))
    case WLog(row) => row.duck == d && row.user == v.id && request.LogFind?
    case WComment(e, u, _) => e == d && u == v.id && request.PostComment?
    case WDeleted(e, deleted) => e == d && request == (if deleted then DeleteDuck else RestoreDuck)
    case WLocked(e, locked) => e == d && request == LockComments(locked)
    case WDropComment(c, e) => e == d && request == RemoveComment(c)
    case WDropSighting(s, e) => e == d && request == RemoveSighting(s)
    case WFollow(u, e) => e == d && u == v.id && request.StartFollowing?
    case WUnfollow(u, e) => e == d && u == v.id && request.StopFollowing?
  }

  // ----- What makes a form well formed ----------------------------------------------------------

  /** What a form field says: its text without outer white space, or nothing when it was left blank. */
  function Said(raw: Option<string>): Option<string> {
    if raw.None? || Text.Trim(raw.value) == "" then None else Some(Text.Trim(raw.value))
  }

  predicate Within(max: nat, said: Option<string>) {
    said.Some? ==> |said.value| <= max
  }

  /** An optional field is taken exactly when it is short enough, as what it says. */
  lemma OptionalField(max: nat, raw: Option<string>)
    ensures ReadText(max, Field(raw), "form").Ok? <==> Within(max, Said(raw))
    ensures Within(max, Said(raw)) ==> ReadText(max, Field(raw), "form") == Ok(Said(raw))
  {
    hide Text.Trim;
  }

  /** A required field must also say something. */
  lemma RequiredField(max: nat, raw: Option<string>)
    ensures Field(raw).Some? && Text.Parse(max, Field(raw).value).Ok? <==> Said(raw).Some? && Within(max, Said(raw))
    ensures Said(raw).Some? && Within(max, Said(raw)) ==> Text.Parse(max, Field(raw).value) == Ok(Said(raw).value)
  {
    hide Text.Trim;
  }

  /** A definition needs a photo and a description of at most 2000 characters; a name has at most 80. */
  predicate WellFormedDefinition(request: Request)
    requires request.Originate?
  {
    && request.photo.Some?
    && Said(request.description).Some? && |Said(request.description).value| <= 2000
    && Within(80, Said(request.name))
  }

  /** A find names a known vessel, was seen within the last 60 days and at most 18 hours ahead, has a note of at
      most 2000 characters, and has both coordinates, on the globe, or neither. */
  predicate WellFormedFind(db: Db, request: Request, now: Time)
    requires request.LogFind?
  {
    && request.vessel in db.vessels
    && (request.seenAt.Some? ==> now - 60 * 86400 <= request.seenAt.value <= now + 18 * 3600)
    && Within(2000, Said(request.note))
    && (request.latitude.Some? <==> request.longitude.Some?)
    && (request.latitude.Some? ==>
          -90.0 <= request.latitude.value <= 90.0 && -180.0 <= request.longitude.value <= 180.0)
  }

  /** Nothing is wrong with the form, if the request has one. */
  predicate WellFormed(db: Db, request: Request, now: Time) {
    match request
    case Originate(_, _, _, _) => WellFormedDefinition(request)
    case LogFind(_, _, _, _, _, _) => WellFormedFind(db, request, now)
    case PostComment(body) => 1 <= |Text.Trim(body)| <= 2000
    case _ => true
  }

  // ----- Who acts -------------------------------------------------------------------------------

  lemma ScannedDuck(codec: Codec.DuckCodec, db: Db, viewer: Viewer, raw: string, d: Id)
    requires Codec.Valid(codec) && Good(codec, db) && Scans(db, raw, d)
    ensures var r := ResolveAny(codec, db, raw);
            && r.Found? && r.duck.id == d
            && (r.duck.lifecycle.Sailing? <==> db.ducks[d].setSailAt.Some?)
            && (r.duck.lifecycle.Allocated? <==> db.ducks[d].originatedAt.None?)
            && r.duck.deletedAt == db.ducks[d].deletedAt
            && r.duck.commentsLockedAt == db.ducks[d].commentsLockedAt
            && (IsOwner(Some(viewer), r.flock) <==> Owns(db, Some(viewer), d))
            && r.duck.code == db.ducks[d].code
  {
    hide Good, ResolveAny, ReadDuck, Codes.ParseDuck, Hidden, Owns;
    Funnel.StoredCodeResolves(codec, db, raw, d);
    ResolvedRow(codec, db, raw);
    Funnel.DuckReadsBack(codec, db, d);
    FoundIsHiddenIff(codec, db, Some(viewer), raw);
  }

  lemma NothingScanned(codec: Codec.DuckCodec, db: Db, raw: string)
    requires Codec.Valid(codec) && Good(codec, db) && forall d | d in db.ducks :: !Scans(db, raw, d)
    ensures ResolveAny(codec, db, raw).Missing?
  {
    hide Good, ResolveAny, Codes.ParseDuck, Funnel.NaiveLookup;
    Funnel.ScanFunnel(codec, db, raw);
    forall d | d in db.ducks ensures Codes.ParseDuck(raw) != Ok(db.ducks[d].code) {
      assert !Scans(db, raw, d);
    }
  }

  /** What a member may do with the one duck that was scanned. */
  lemma MemberActsIff(codec: Codec.DuckCodec, db: Db, v: Viewer, raw: string, request: Request, now: Time, d: Id)
    requires Codec.Valid(codec) && Good(codec, db) && Scans(db, raw, d)
    ensures var decision := Decide(codec, db, Some(v), raw, request, now);
            && (decision.Act? <==> May(db, v, d, request) && WellFormed(db, request, now))
            && (May(db, v, d, request) && !WellFormed(db, request, now) ==> decision == Respond(BadRequest))
            && (decision.Act? ==> forall i | 0 <= i < |decision.writes| :: Concerns(decision.writes[i], v, d, request))
  {
    hide Good, ResolveAny, GuardOpen, Scans, Owns, Text.Trim, GuardOriginate, GuardLog, WellFormedDefinition,
      WellFormedFind;
    ScannedDuck(codec, db, v, raw, d);
    var r := ResolveAny(codec, db, raw);
    if request.Originate? {
      OriginateActsIff(v, r, request);
    } else if request.LogFind? {
      LogActsIff(db, v, r, request, now);
    }
  }

  lemma OriginateActsIff(v: Viewer, r: Resolved, request: Request)
    requires r.Found? && request.Originate?
    ensures var decision := GuardOriginate(v, r, request);
            && (decision.Act? <==>
                  IsOwner(Some(v), r.flock) && r.duck.lifecycle.Allocated? && WellFormedDefinition(request))
            && (IsOwner(Some(v), r.flock) && r.duck.lifecycle.Allocated? && !WellFormedDefinition(request) ==>
                  decision == Respond(BadRequest))
            && (decision.Act? ==>
                  forall i | 0 <= i < |decision.writes| :: Concerns(decision.writes[i], v, r.duck.id, request))
  {
    hide Text.Parse, ReadText, Field, Said;
    FormFields(request);
  }

  lemma LogActsIff(db: Db, v: Viewer, r: Resolved, request: Request, now: Time)
    requires r.Found? && request.LogFind?
    ensures var decision := GuardLog(db, v, r, request, now);
            && (decision.Act? <==> WellFormedFind(db, request, now))
            && (!decision.Act? ==> decision == Respond(BadRequest))
            && (decision.Act? ==>
                  forall i | 0 <= i < |decision.writes| :: Concerns(decision.writes[i], v, r.duck.id, request))
  {
    hide ReadText, Field, Said;
    FormFields(request);
  }

  lemma FormFields(request: Request)
    ensures request.Originate? ==>
              && (Field(request.description).Some?
                  && Text.Parse(Text.DESCRIPTION_MAX, Field(request.description).value).Ok?
                  <==> Said(request.description).Some? && Within(2000, Said(request.description)))
              && (ReadText(Text.DUCK_NAME_MAX, Field(request.name), "form").Ok? <==> Within(80, Said(request.name)))
    ensures request.LogFind? ==>
              (ReadText(Text.NOTE_MAX, Field(request.note), "form").Ok? <==> Within(2000, Said(request.note)))
  {
    hide Text.Trim, Field, Said, ReadText;
    match request
    case Originate(description, name, _, _) =>
      RequiredField(Text.DESCRIPTION_MAX, description);
      OptionalField(Text.DUCK_NAME_MAX, name);
    case LogFind(_, _, note, _, _, _) => OptionalField(Text.NOTE_MAX, note);
    case _ =>
  }

  /** A request acts exactly when a member sends it, well formed, about a scanned duck it is allowed for; a malformed
      form is turned down; and every write concerns that duck and that member and does what was asked. */
  lemma ActsExactlyWhenAllowed(codec: Codec.DuckCodec, db: Db, viewer: Option<Viewer>, raw: string, request: Request,
                               now: Time)
    requires Codec.Valid(codec) && Good(codec, db)
    ensures var decision := Decide(codec, db, viewer, raw, request, now);
            && (decision.Act? ==> viewer.Some? && exists d | d in db.ducks ::
                  Scans(db, raw, d) && May(db, viewer.value, d, request) && WellFormed(db, request, now)
                  && forall i | 0 <= i < |decision.writes| ::
                       Concerns(decision.writes[i], viewer.value, d, request))
            && (viewer.Some? && (exists d | d in db.ducks :: Scans(db, raw, d) && May(db, viewer.value, d, request)) ==>
                  if WellFormed(db, request, now) then decision.Act? else decision == Respond(BadRequest))
  {
    hide Good, ResolveAny, GuardOpen, Scans, Owns, Codes.ParseDuck, May, Concerns, GuardMember, WellFormed;
    if viewer.Some? {
      if d :| d in db.ducks && Scans(db, raw, d) {
        forall e | e in db.ducks && Scans(db, raw, e) ensures e == d {
          ScannedDuck(codec, db, viewer.value, raw, e);
          ScannedDuck(codec, db, viewer.value, raw, d);
        }
        ScannedDuck(codec, db, viewer.value, raw, d);
        MemberActsIff(codec, db, viewer.value, raw, request, now, d);
      } else {
        NothingScanned(codec, db, raw);
      }
    }
  }

  // ----- What was sent is what is stored ------------------------------------------------------

  /** The details a well-formed definition spells out. */
  function DetailsOf(request: Request, now: Time): Details
    requires request.Originate? && WellFormedDefinition(request)
  {
    Details(now, Said(request.description).value, Said(request.name), request.photo.value)
  }

  lemma DefinitionEffect(codec: Codec.DuckCodec, db: Db, v: Viewer, raw: string, d: Id, request: Request, now: Time)
    requires Codec.Valid(codec) && Good(codec, db) && Scans(db, raw, d)
    requires request.Originate? && May(db, v, d, request) && WellFormedDefinition(request)
    ensures db.ducks[d].setSailAt.None?
    ensures var x := DetailsOf(request, now);
            Serve(codec, db, Some(v), raw, request, now).1
            == db.(ducks := db.ducks[d := Defined(db.ducks[d], x.description, x.name, x.photo, request.alsoSail, now)])
  {
    hide Good, ResolveAny, Owns, Text.Parse, Field, Codes.ParseDuck, ReadText, Said;
    ScannedDuck(codec, db, v, raw, d);
    RequiredField(Text.DESCRIPTION_MAX, request.description);
    OptionalField(Text.DUCK_NAME_MAX, request.name);
    var x := DetailsOf(request, now);
    var r := ResolveAny(codec, db, raw);
    AllocatedIsEmpty(codec, db, d);
    StageThenSail(db, d, x.description, x.name, x.photo, request.alsoSail,
                  DuckFlash(r.duck.code, if request.alsoSail then DEFINED_AND_SET_SAIL else DEFINED), now);
  }

  /** An owner's well-formed definition of an allocated duck reads back as exactly what the form said, staged
      or already sailing as asked, and touches no other duck. */
  lemma {:induction false} DefinitionReadsBack(codec: Codec.DuckCodec, db: Db, v: Viewer, raw: string, d: Id,
                                               request: Request, now: Time)
    requires Codec.Valid(codec) && Good(codec, db) && Scans(db, raw, d)
    requires request.Originate? && May(db, v, d, request) && WellFormedDefinition(request)
    ensures var after := Serve(codec, db, Some(v), raw, request, now).1;
            && d in after.ducks && after == db.(ducks := db.ducks[d := after.ducks[d]])
            && ReadDuck(d, after.ducks[d]).Ok?
            && ReadDuck(d, after.ducks[d]).value.lifecycle
               == if request.alsoSail then Sailing(DetailsOf(request, now), now) else Staged(DetailsOf(request, now))
  {
    hide Good, Serve, Owns, Text.Parse, Field, Codes.ParseDuck, ReadText, ReadDuck, Said;
    DefinitionEffect(codec, db, v, raw, d, request, now);
    var x := DetailsOf(request, now);
    RequiredField(Text.DESCRIPTION_MAX, request.description);
    OptionalField(Text.DUCK_NAME_MAX, request.name);
    Text.ParseIdempotent(Text.DESCRIPTION_MAX, Field(request.description).value);
    ReadTextStable(Text.DUCK_NAME_MAX, Field(request.name));
    DefinedRowReads(codec, db, d, x.description, x.name, x.photo, request.alsoSail, now);
  }

  lemma AllocatedIsEmpty(codec: Codec.DuckCodec, db: Db, d: Id)
    requires Codec.Valid(codec) && Good(codec, db) && d in db.ducks && db.ducks[d].originatedAt.None?
    ensures db.ducks[d].setSailAt.None?
  {
    hide Good;
    DuckReadsOf(codec, db, d);
  }

  function Defined(r: DuckRow, description: string, name: Option<string>, photo: PhotoRef, sail: bool, now: Time)
    : DuckRow
  {
    r.(originatedAt := Some(now), description := Some(description), name := name, photoKey := Some(photo.key),
       photoType := Some(photo.contentType), setSailAt := if sail then Some(now) else r.setSailAt)
  }

  lemma StageThenSail(db: Db, d: Id, description: string, name: Option<string>, photo: PhotoRef, sail: bool,
                      response: Response, now: Time)
    requires d in db.ducks && db.ducks[d].originatedAt.None? && db.ducks[d].setSailAt.None?
    ensures var writes := if sail then [WStage(d, description, name, photo), WSail(d)]
                          else [WStage(d, description, name, photo)];
            PerformAll(db, writes, response, now)
            == (response, db.(ducks := db.ducks[d := Defined(db.ducks[d], description, name, photo, sail, now)]))
  {
    var stage := WStage(d, description, name, photo);
    var mid := Store.Stage(db, d, description, name, photo, now);
    PerformOne(db, stage, response, now);
    PerformOne(mid, WSail(d), response, now);
    assert [stage, WSail(d)][1..] == [WSail(d)];
    assert db.ducks[d := mid.ducks[d]][d := Defined(db.ducks[d], description, name, photo, true, now)]
           == db.ducks[d := Defined(db.ducks[d], description, name, photo, true, now)];
  }

  lemma ReadTextStable(max: nat, raw: Option<string>)
    requires ReadText(max, raw, "form").Ok?
    ensures ReadText(max, ReadText(max, raw, "form").value, "duck") == Ok(ReadText(max, raw, "form").value)
    ensures ReadText(max, ReadText(max, raw, "form").value, "sighting") == Ok(ReadText(max, raw, "form").value)
  {
    hide Text.Parse;
    if raw.Some? {
      Text.ParseIdempotent(max, raw.value);
    }
  }

  lemma DefinedRowReads(codec: Codec.DuckCodec, db: Db, d: Id, description: string, name: Option<string>,
                        photo: PhotoRef, sail: bool, now: Time)
    requires Codec.Valid(codec) && Good(codec, db) && d in db.ducks && db.ducks[d].setSailAt.None?
    requires Text.Parse(Text.DESCRIPTION_MAX, description) == Ok(description)
    requires ReadText(Text.DUCK_NAME_MAX, name, "duck") == Ok(name)
    ensures var duck := ReadDuck(d, Defined(db.ducks[d], description, name, photo, sail, now));
            && duck.Ok?
            && duck.value.lifecycle
               == var details := Details(now, description, name, photo);
                  if sail then Sailing(details, now) else Staged(details)
  {
    hide Good, Text.Parse, ReadText, Codes.ParseDuck;
    Funnel.DuckReadsBack(codec, db, d);
  }

  /** The row a well-formed find becomes. */
  function FoundRow(db: Db, v: Viewer, d: Id, request: Request, now: Time): SightingRow
    requires request.LogFind? && WellFormedFind(db, request, now)
  {
    SightingRow(d, request.vessel, v.id, if request.seenAt.Some? then request.seenAt.value else now,
                Said(request.note),
                if request.photo.Some? then Some(request.photo.value.key) else None,
                if request.photo.Some? then Some(request.photo.value.contentType) else None,
                request.latitude, request.longitude)
  }

  lemma FindDecision(codec: Codec.DuckCodec, db: Db, v: Viewer, raw: string, d: Id, request: Request, now: Time)
    requires Codec.Valid(codec) && Good(codec, db) && Scans(db, raw, d)
    requires request.LogFind? && OnShow(db, d) && WellFormedFind(db, request, now)
    ensures Decide(codec, db, Some(v), raw, request, now)
            == Act([WLog(FoundRow(db, v, d, request, now))], DuckFlash(db.ducks[d].code, RECORDED))
  {
    hide Good, ResolveAny, Owns, Text.Parse, Field, ReadText, Codes.ParseDuck, Said;
    ScannedDuck(codec, db, v, raw, d);
    OptionalField(Text.NOTE_MAX, request.note);
  }

  lemma FoundRowReads(db: Db, v: Viewer, d: Id, request: Request, now: Time, sid: Id)
    requires request.LogFind? && WellFormedFind(db, request, now)
    ensures ReadSighting(sid, FoundRow(db, v, d, request, now))
            == Ok(Sighting(sid, d, request.vessel, v.id,
                           if request.seenAt.Some? then request.seenAt.value else now,
                           Said(request.note), request.photo,
                           if request.latitude.Some?
                           then Some(Coordinates(request.latitude.value, request.longitude.value)) else None))
  {
    hide ReadText, Field, Said;
    OptionalField(Text.NOTE_MAX, request.note);
    ReadTextStable(Text.NOTE_MAX, Field(request.note));
  }

  /** A well-formed find on a duck on show reads back as exactly what the form said, under a fresh identity. */
  lemma FindReadsBack(codec: Codec.DuckCodec, db: Db, v: Viewer, raw: string, d: Id, request: Request, now: Time)
    requires Codec.Valid(codec) && Good(codec, db) && Scans(db, raw, d) && v.id in db.users
    requires request.LogFind? && OnShow(db, d) && WellFormedFind(db, request, now)
    ensures var after := Serve(codec, db, Some(v), raw, request, now).1;
            var sid := db.next.sighting;
            && sid !in db.sightings && sid in after.sightings && after.sightings - {sid} == db.sightings
            && ReadSighting(sid, after.sightings[sid])
               == Ok(Sighting(sid, d, request.vessel, v.id,
                              if request.seenAt.Some? then request.seenAt.value else now,
                              Said(request.note), request.photo,
                              if request.latitude.Some?
                              then Some(Coordinates(request.latitude.value, request.longitude.value)) else None))
  {
    hide Good, Codes.ParseDuck, Decide, PerformAll, ReadSighting, Said, Append, Notified, Notices;
    var row := FoundRow(db, v, d, request, now);
    SightingIdFresh(codec, db);
    FindDecision(codec, db, v, raw, d, request, now);
    PerformOne(db, WLog(row), DuckFlash(db.ducks[d].code, RECORDED), now);
    FoundRowReads(db, v, d, request, now, db.next.sighting);
  }

  lemma SightingIdFresh(codec: Codec.DuckCodec, db: Db)
    requires Codec.Valid(codec) && Good(codec, db)
    ensures db.next.sighting !in db.sightings
  {
    hide DucksOk, Dense, FlocksOk, UsersOk, CommentsOk, FollowsOk, NoticesOk, ForeignKeys;
  }

  // ----- Removing a sighting from another duck's page --------------------------------------------

  /** A moderator of one duck who names a sighting of another one is sent back as if all went well: the
      sighting stays, every notice of it is gone, and nothing changed exactly when it had notified nobody. */
  lemma {:induction false} WrongPageDropsNotices(codec: Codec.DuckCodec, db: Db, v: Viewer, raw: string, d: Id, s: Id,
                                                 now: Time)
    requires Codec.Valid(codec) && Good(codec, db) && Scans(db, raw, d) && Moderates(db, v, d) && OnShow(db, d)
    requires s in db.sightings && db.sightings[s].duck != d
    ensures var (response, after) := Serve(codec, db, Some(v), raw, RemoveSighting(s), now);
            && response == DuckUrl(db.ducks[d].code)
            && after.sightings == db.sightings
            && (forall n :: n in after.notifications <==> n in db.notifications && db.notifications[n].sighting != s)
            && (forall n | n in after.notifications :: after.notifications[n] == db.notifications[n])
            && (after == db <==> forall n | n in db.notifications :: db.notifications[n].sighting != s)
  {
    hide Good, ResolveAny, Owns, Codes.ParseDuck, DuckUrl;
    ScannedDuck(codec, db, v, raw, d);
    PerformOne(db, WDropSighting(s, d), DuckUrl(db.ducks[d].code), now);
    DuckGuarantees.WrongDuckIsNoOpIff(db, s, d);
  }

  // ----- What one call undoes ----------------------------------------------------------------------

  /** Restoring undoes a soft deletion of a duck that was not deleted, and nothing else was touched. */
  lemma RestoreUndoesDelete(db: Db, d: Id, first: Time, now: Time)
    ensures SetDeleted(SetDeleted(db, d, true, first), d, false, now) == db
            <==> d !in db.ducks || db.ducks[d].deletedAt.None?
  {
    if d in db.ducks {
      var back := SetDeleted(SetDeleted(db, d, true, first), d, false, now);
      assert back.ducks == db.ducks[d := db.ducks[d].(deletedAt := None)];
      assert db.ducks[d := db.ducks[d]] == db.ducks;
      assert back.ducks[d].deletedAt.None?;
    }
  }

  /** Signing in leaves exactly one account per (issuer, subject): it keeps its identity and its admin flag,
      a missing name or address does not erase a known one, and nobody else's account changes. */
  lemma SignInKeepsOneAccount(codec: Codec.DuckCodec, db: Db, issuer: string, subject: string,
                              displayName: Option<string>, email: Option<string>, grantAdmin: bool)
    requires Codec.Valid(codec) && Good(codec, db)
    ensures var after := Upsert(db, issuer, subject, displayName, email, grantAdmin).users;
            exists u | u in after ::
              && after[u].issuer == issuer && after[u].subject == subject
              && (forall w | w in after && after[w].issuer == issuer && after[w].subject == subject :: w == u)
              && (forall w | w in after && w != u :: w in db.users && after[w] == db.users[w])
              && (forall w | w in db.users && w != u :: w in after)
              && (u in db.users ==> db.users[u].issuer == issuer && db.users[u].subject == subject)
              && (after[u].isAdmin <==> grantAdmin || (u in db.users && db.users[u].isAdmin))
              && (u in db.users && displayName.None? ==> after[u].displayName == db.users[u].displayName)
              && (u in db.users && email.None? ==> after[u].email == db.users[u].email)
              && (displayName.Some? ==> after[u].displayName == displayName)
              && (email.Some? ==> after[u].email == email)
  {
    hide DucksOk, Dense, FlocksOk, SightingsOk, CommentsOk, FollowsOk, NoticesOk, ForeignKeys, FindUser;
    var u := if FindUser(db.users, issuer, subject, db.next.user).Some?
             then FindUser(db.users, issuer, subject, db.next.user).value else db.next.user;
    var after := Upsert(db, issuer, subject, displayName, email, grantAdmin).users;
    assert u in after && after[u].issuer == issuer && after[u].subject == subject;
  }
}
