/** The duck page: the scan funnel, then per request a guard on what was read and the writes it leads to. */
module Handlers {
  import opened Wrappers
  import opened Schema
  import opened Store
  import Codes
  import Codec
  import Text

  datatype Viewer = Viewer(id: Id, isAdmin: bool)

  // ----- The scan funnel -----------------------------------------------------------

  datatype Resolved =
    | Found(duck: Duck, flock: FlockRow)
    | Missing
    | CodeMismatch
    | Broken

  function ReadFlock(r: FlockRow): Result<FlockRow, RepoError> {
    match Codes.ParseFlock(r.code)
    case Err(_) => Err(Corrupt("flock"))
    case Ok(code) =>
      match ReadText(Text.LABEL_MAX, r.flockLabel, "flock")
      case Err(e) => Err(e)
      case Ok(flockLabel) => Ok(r.(code := code, flockLabel := flockLabel))
  }

  /** Parse, find the flock by prefix, decrypt to a number, find the row, compare the stored code. */
  function ResolveAny(codec: Codec.DuckCodec, db: Db, raw: string): Resolved
    requires Codec.Valid(codec)
  {
    match Codes.ParseDuck(raw)
    case Err(_) => Missing
    case Ok(code) =>
      Codes.ParseAcceptsSpellings(raw, code);
      match FindFlock(db.flocks, Codes.FlockOf(code), db.next.flock)
      case None => Missing
      case Some(f) =>
        match ReadFlock(db.flocks[f])
        case Err(_) => Broken
        case Ok(flock) =>
          match Codec.Decode(codec, flock.generation, code)
          case Err(_) => Missing
          case Ok(seqNo) =>
            match FindDuck(db.ducks, f, seqNo, db.next.duck)
            case None => Missing
            case Some(d) =>
              match ReadDuck(d, db.ducks[d])
              case Err(_) => Broken
              case Ok(duck) => if duck.code != code then CodeMismatch else Found(duck, flock)
  }

  /** As above, hiding soft-deleted ducks. */
  function Resolve(codec: Codec.DuckCodec, db: Db, raw: string): Resolved
    requires Codec.Valid(codec)
  {
    var r := ResolveAny(codec, db, raw);
    if r.Found? && r.duck.deletedAt.Some? then Missing else r
  }

  function ResolveSailing(codec: Codec.DuckCodec, db: Db, raw: string): Resolved
    requires Codec.Valid(codec)
  {
    var r := Resolve(codec, db, raw);
    if r.Found? && !r.duck.lifecycle.Sailing? then Missing else r
  }

  // ----- Requests, writes, responses ---------------------------------------------------

  datatype Request =
    | ViewPage
    | Originate(description: Option<string>, name: Option<string>, photo: Option<PhotoRef>, alsoSail: bool)
    | SetSailing
    | LogFind(vessel: Id, seenAt: Option<Time>, note: Option<string>, photo: Option<PhotoRef>,
              latitude: Option<real>, longitude: Option<real>)
    | PostComment(body: string)
    | DeleteDuck
    | RestoreDuck
    | LockComments(locked: bool)
    | RemoveComment(comment: Id)
    | RemoveSighting(sighting: Id)
    | StartFollowing
    | StopFollowing
    | QrPng
    | OriginPhoto
    | SightingPhoto(sighting: Id)

  /** One repository call, carrying the identities the handler read earlier. */
  datatype Write =
    | WStage(duck: Id, description: string, name: Option<string>, photo: PhotoRef)
    | WSail(duck: Id)
    | WLog(row: SightingRow)
    | WComment(duck: Id, user: Id, body: string)
    | WDeleted(duck: Id, deleted: bool)
    | WLocked(duck: Id, locked: bool)
    | WDropComment(comment: Id, duck: Id)
    | WDropSighting(sighting: Id, duck: Id)
    | WFollow(user: Id, duck: Id)
    | WUnfollow(user: Id, duck: Id)

  datatype PageView = PageView(code: string, details: Details, since: Time, isOwner: bool, canModerate: bool,
                               isFollowing: bool, commentsLocked: bool,
                               sightings: map<Id, (SightingRow, Option<string>)>,
                               comments: map<Id, (CommentRow, Option<string>)>, unread: nat)

  datatype Response =
    | NotFound
    | LoginFirst
    | BadRequest
    | ServerError
    | Redirect(to: string)
    | OriginationForm(code: string, unread: nat)
    | StagedPage(code: string, details: Details, unread: nat)
    | DuckPage(view: PageView)
    | Label(code: string)
    | Photo(ref: PhotoRef)

  /** What a handler decides from what it read: answer at once, or write and then answer. */
  datatype Decision = Respond(response: Response) | Act(writes: seq<Write>, response: Response)

  predicate IsOwner(viewer: Option<Viewer>, flock: FlockRow) {
    viewer.Some? && viewer.value.id == flock.owner
  }

  predicate CanModerate(viewer: Viewer, flock: FlockRow) {
    viewer.isAdmin || viewer.id == flock.owner
  }

  function Unread(db: Db, viewer: Option<Viewer>): nat {
    if viewer.None? then 0
    else |set n | n in db.notifications
                  && db.notifications[n].user == viewer.value.id && db.notifications[n].readAt.None?|
  }

  function NameOf(users: map<Id, UserRow>, u: Id): Option<string> {
    if u in users then users[u].displayName else None
  }

  function SightingsOf(db: Db, d: Id): map<Id, (SightingRow, Option<string>)> {
    map s | s in db.sightings && db.sightings[s].duck == d && db.sightings[s].user in db.users
            && db.sightings[s].vessel in db.vessels
      :: (db.sightings[s], NameOf(db.users, db.sightings[s].user))
  }

  function CommentsOf(db: Db, d: Id): map<Id, (CommentRow, Option<string>)> {
    map c | c in db.comments && db.comments[c].duck == d && db.comments[c].user in db.users
      :: (db.comments[c], NameOf(db.users, db.comments[c].user))
  }

  /** A stored pair of coordinates out of range makes the history unreadable. */
  predicate HistoryReads(db: Db, d: Id) {
    forall s | s in db.sightings && db.sightings[s].duck == d
               && db.sightings[s].latitude.Some? && db.sightings[s].longitude.Some? ::
      NewCoordinates(db.sightings[s].latitude.value, db.sightings[s].longitude.value).Some?
  }

  /** A form field left blank counts as absent. */
  function Field(raw: Option<string>): Option<string> {
    if raw.Some? && Text.Trim(raw.value) == "" then None else raw
  }

  function DuckUrl(code: string): Response {
    Redirect("/d/" + code)
  }

  /** Back to the duck page with a flash message. */
  function DuckFlash(code: string, message: string): Response {
    Redirect("/d/" + code + "?m=" + message)
  }

  const SET_SAIL := "Bon+voyage!"
  const DEFINED := "Duck+defined.+Scan+its+sticker+when+it%27s+in+place+to+set+sail."
  const DEFINED_AND_SET_SAIL := "Duck+defined+and+set+sail.+Bon+voyage!"
  const RECORDED := "Find+recorded!"

  const OWNER_DELETED := Redirect("/me/flocks?m=Duck+deleted.+You+can+restore+it+here.")
  const ADMIN_DELETED := Redirect("/?m=Duck+deleted")
  const RESTORED := Redirect("/me/flocks?m=Duck+restored")

  const DAY: int := 86400
  const HOUR: int := 3600

  predicate InWindow(seenAt: Time, now: Time) {
    now - 60 * DAY <= seenAt <= now + 18 * HOUR
  }

  function GuardPage(codec: Codec.DuckCodec, db: Db, viewer: Option<Viewer>, raw: string): Response
    requires Codec.Valid(codec)
  {
    match Resolve(codec, db, raw)
    case Missing => NotFound
    case CodeMismatch => NotFound
    case Broken => ServerError
    case Found(duck, flock) =>
      match duck.lifecycle
      case Allocated => if IsOwner(viewer, flock) then OriginationForm(duck.code, Unread(db, viewer)) else NotFound
      case Staged(details) =>
        if IsOwner(viewer, flock) then StagedPage(duck.code, details, Unread(db, viewer)) else NotFound
      case Sailing(details, since) =>
        if !HistoryReads(db, duck.id) then ServerError
        else
          DuckPage(PageView(
            duck.code, details, since, IsOwner(viewer, flock),
            viewer.Some? && CanModerate(viewer.value, flock),
            viewer.Some? && (viewer.value.id, duck.id) in db.follows,
            duck.commentsLockedAt.Some?, SightingsOf(db, duck.id), CommentsOf(db, duck.id), Unread(db, viewer)))
  }

  function GuardOriginate(viewer: Viewer, r: Resolved, request: Request): Decision
    requires r.Found? && request.Originate?
  {
    if !IsOwner(Some(viewer), r.flock) then Respond(NotFound)
    else if !r.duck.lifecycle.Allocated? then Respond(DuckUrl(r.duck.code))
    else
      match Field(request.description)
      case None => Respond(BadRequest)
      case Some(raw) =>
        match Text.Parse(Text.DESCRIPTION_MAX, raw)
        case Err(_) => Respond(BadRequest)
        case Ok(description) =>
          match ReadText(Text.DUCK_NAME_MAX, Field(request.name), "form")
          case Err(_) => Respond(BadRequest)
          case Ok(name) =>
            if request.photo.None? then Respond(BadRequest)
            else
              var stage := WStage(r.duck.id, description, name, request.photo.value);
              if request.alsoSail
              then Act([stage, WSail(r.duck.id)], DuckFlash(r.duck.code, DEFINED_AND_SET_SAIL))
              else Act([stage], DuckFlash(r.duck.code, DEFINED))
  }

  function GuardLog(db: Db, viewer: Viewer, r: Resolved, request: Request, now: Time): Decision
    requires r.Found? && request.LogFind?
  {
    if request.vessel !in db.vessels then Respond(BadRequest)
    else
      var seenAt := if request.seenAt.Some? then request.seenAt.value else now;
      if request.seenAt.Some? && !InWindow(seenAt, now) then Respond(BadRequest)
      else
        match ReadText(Text.NOTE_MAX, Field(request.note), "form")
        case Err(_) => Respond(BadRequest)
        case Ok(note) =>
          if request.latitude.Some? != request.longitude.Some? then Respond(BadRequest)
          else if request.latitude.Some?
                  && NewCoordinates(request.latitude.value, request.longitude.value).None? then Respond(BadRequest)
          else
            var photo := request.photo;
            Act([WLog(SightingRow(r.duck.id, request.vessel, viewer.id, seenAt, note,
                                  if photo.Some? then Some(photo.value.key) else None,
                                  if photo.Some? then Some(photo.value.contentType) else None,
                                  request.latitude, request.longitude))],
                DuckFlash(r.duck.code, RECORDED))
  }

  /** Which resolution step a request starts from. */
  function ResolveFor(codec: Codec.DuckCodec, db: Db, raw: string, request: Request): Resolved
    requires Codec.Valid(codec)
  {
    match request
    case DeleteDuck => ResolveAny(codec, db, raw)
    case RestoreDuck => ResolveAny(codec, db, raw)
    case ViewPage => Resolve(codec, db, raw)
    case Originate(_, _, _, _) => Resolve(codec, db, raw)
    case SetSailing => Resolve(codec, db, raw)
    case LockComments(_) => Resolve(codec, db, raw)
    case QrPng => Resolve(codec, db, raw)
    case OriginPhoto => Resolve(codec, db, raw)
    case _ => ResolveSailing(codec, db, raw)
  }

  function GuardSightingPhoto(db: Db, duck: Duck, sighting: Id): Response {
    if sighting !in db.sightings then NotFound
    else
      match ReadSighting(sighting, db.sightings[sighting])
      case Err(_) => ServerError
      case Ok(s) => if s.duck != duck.id || s.photo.None? then NotFound else Photo(s.photo.value)
  }

  /** Requests anybody may send. */
  function GuardOpen(codec: Codec.DuckCodec, db: Db, viewer: Option<Viewer>, raw: string, request: Request,
                     r: Resolved): Response
    requires Codec.Valid(codec) && r.Found?
  {
    match request
    case QrPng =>
      if r.duck.lifecycle.Sailing? || IsOwner(viewer, r.flock) then Label(r.duck.code) else NotFound
    case OriginPhoto =>
      if (r.duck.lifecycle.Sailing? || IsOwner(viewer, r.flock)) && !r.duck.lifecycle.Allocated?
      then Photo(r.duck.lifecycle.details.photo) else NotFound
    case SightingPhoto(s) => GuardSightingPhoto(db, r.duck, s)
    case _ => GuardPage(codec, db, viewer, raw)
  }

  /** Requests that need a session. */
  function GuardMember(db: Db, viewer: Viewer, request: Request, r: Resolved, now: Time): Decision
    requires r.Found?
  {
    var url := DuckUrl(r.duck.code);
    var d := r.duck.id;
    match request
    case Originate(_, _, _, _) => GuardOriginate(viewer, r, request)
    case SetSailing =>
      if IsOwner(Some(viewer), r.flock) then Act([WSail(d)], DuckFlash(r.duck.code, SET_SAIL)) else Respond(NotFound)
    case LogFind(_, _, _, _, _, _) => GuardLog(db, viewer, r, request, now)
    case PostComment(raw) =>
      if r.duck.commentsLockedAt.Some? then Respond(BadRequest)
      else
        (match Text.Parse(Text.COMMENT_MAX, raw)
         case Err(_) => Respond(BadRequest)
         case Ok(body) => Act([WComment(d, viewer.id, body)], url))
    case DeleteDuck =>
      if CanModerate(viewer, r.flock)
      then Act([WDeleted(d, true)], if viewer.id == r.flock.owner then OWNER_DELETED else ADMIN_DELETED)
      else Respond(NotFound)
    case RestoreDuck =>
      if CanModerate(viewer, r.flock) then Act([WDeleted(d, false)], RESTORED) else Respond(NotFound)
    case LockComments(locked) =>
      if CanModerate(viewer, r.flock) then Act([WLocked(d, locked)], url) else Respond(NotFound)
    case RemoveComment(c) =>
      if CanModerate(viewer, r.flock) then Act([WDropComment(c, d)], url) else Respond(NotFound)
    case RemoveSighting(s) =>
      if CanModerate(viewer, r.flock) then Act([WDropSighting(s, d)], url) else Respond(NotFound)
    case StartFollowing => Act([WFollow(viewer.id, d)], url)
    case StopFollowing => Act([WUnfollow(viewer.id, d)], url)
    case _ => Respond(NotFound)
  }

  predicate IsOpen(request: Request) {
    request.ViewPage? || request.QrPng? || request.OriginPhoto? || request.SightingPhoto?
  }

  /** A handler up to its first write. */
  function Decide(codec: Codec.DuckCodec, db: Db, viewer: Option<Viewer>, raw: string, request: Request, now: Time)
    : Decision
    requires Codec.Valid(codec)
  {
    if !IsOpen(request) && viewer.None? then Respond(LoginFirst)
    else
      match ResolveFor(codec, db, raw, request)
      case Missing => Respond(NotFound)
      case CodeMismatch => Respond(NotFound)
      case Broken => Respond(ServerError)
      case Found(duck, flock) =>
        if IsOpen(request) then Respond(GuardOpen(codec, db, viewer, raw, request, Found(duck, flock)))
        else GuardMember(db, viewer.value, request, Found(duck, flock), now)
  }

  // ----- Performing the writes ------------------------------------------------------------

  function Perform(db: Db, w: Write, now: Time): Result<Db, RepoError> {
    match w
    case WStage(d, description, name, photo) => Ok(Stage(db, d, description, name, photo, now))
    case WSail(d) => Ok(SetSail(db, d, now))
    case WLog(row) => LogSighting(db, row)
    case WComment(d, u, body) => AddComment(db, d, u, body)
    case WDeleted(d, deleted) => Ok(SetDeleted(db, d, deleted, now))
    case WLocked(d, locked) => Ok(SetCommentsLocked(db, d, locked, now))
    case WDropComment(c, d) => Ok(DeleteComment(db, c, d))
    case WDropSighting(s, d) => Ok(DeleteSighting(db, s, d))
    case WFollow(u, d) => Follow(db, u, d)
    case WUnfollow(u, d) => Ok(Unfollow(db, u, d))
  }

  /** The remaining writes of a handler; the first failure ends it with a server error. */
  function PerformAll(db: Db, writes: seq<Write>, response: Response, now: Time): (Response, Db)
    decreases |writes|
  {
    if writes == [] then (response, db)
    else
      match Perform(db, writes[0], now)
      case Err(_) => (ServerError, db)
      case Ok(after) => PerformAll(after, writes[1..], response, now)
  }

  /** A whole request served without interruption. */
  function Serve(codec: Codec.DuckCodec, db: Db, viewer: Option<Viewer>, raw: string, request: Request, now: Time)
    : (Response, Db)
    requires Codec.Valid(codec)
  {
    match Decide(codec, db, viewer, raw, request, now)
    case Respond(response) => (response, db)
    case Act(writes, response) => PerformAll(db, writes, response, now)
  }
}
