/** The database: one map per table keyed by its identity column, the declared constraints,
    and the conversions from raw rows back to domain entities. */
module Schema {
  import opened Wrappers
  import Codes
  import Text

  type Id = nat
  type Time = int

  // ----- Rows ---------------------------------------------------------------

  datatype UserRow = UserRow(issuer: string, subject: string, displayName: Option<string>,
                             email: Option<string>, isAdmin: bool)

  datatype FlockRow = FlockRow(code: string, generation: nat, owner: Id, flockLabel: Option<string>)

  datatype DuckRow = DuckRow(code: string, flock: Id, seqNo: int,
                             name: Option<string>, description: Option<string>,
                             originatedAt: Option<Time>, setSailAt: Option<Time>,
                             deletedAt: Option<Time>, commentsLockedAt: Option<Time>,
                             photoKey: Option<string>, photoType: Option<string>)

  datatype SightingRow = SightingRow(duck: Id, vessel: Id, user: Id, seenAt: Time, note: Option<string>,
                                     photoKey: Option<string>, photoType: Option<string>,
                                     latitude: Option<real>, longitude: Option<real>)

  datatype CommentRow = CommentRow(duck: Id, user: Id, body: string)

  datatype NotificationRow = NotificationRow(user: Id, duck: Id, sighting: Id, readAt: Option<Time>)

  /** The next value of each identity sequence; identities are never handed out twice. */
  datatype Ids = Ids(user: Id, flock: Id, duck: Id, sighting: Id, comment: Id, notification: Id)

  datatype Db = Db(users: map<Id, UserRow>, flocks: map<Id, FlockRow>, ducks: map<Id, DuckRow>,
                   sightings: map<Id, SightingRow>, comments: map<Id, CommentRow>,
                   follows: set<(Id, Id)>, notifications: map<Id, NotificationRow>,
                   vessels: set<Id>, next: Ids)

  datatype Violation = ForeignKey | Unique

  datatype RepoError = Sql(violation: Violation) | Corrupt(table: string) | FlockFull

  // ----- Declared constraints -----------------------------------------------

  predicate DuckChecks(r: DuckRow) {
    && Codes.IsSeq(r.seqNo)
    && (r.originatedAt.None? <==> r.photoKey.None?)
    && (r.originatedAt.None? <==> r.description.None?)
    && (r.photoKey.None? <==> r.photoType.None?)
    && (r.setSailAt.None? || r.originatedAt.Some?)
  }

  predicate SightingChecks(r: SightingRow) {
    && (r.photoKey.None? <==> r.photoType.None?)
    && (r.latitude.None? <==> r.longitude.None?)
    && (r.latitude.None? || (-90.0 <= r.latitude.value <= 90.0 && -180.0 <= r.longitude.value <= 180.0))
  }

  predicate Checks(db: Db) {
    && (forall d | d in db.ducks :: DuckChecks(db.ducks[d]))
    && (forall s | s in db.sightings :: SightingChecks(db.sightings[s]))
  }

  predicate SightingRefs(ducks: map<Id, DuckRow>, vessels: set<Id>, users: map<Id, UserRow>, r: SightingRow) {
    r.duck in ducks && r.vessel in vessels && r.user in users
  }

  predicate NoticeRefs(users: map<Id, UserRow>, ducks: map<Id, DuckRow>, sightings: map<Id, SightingRow>,
                       r: NotificationRow)
  {
    r.user in users && r.duck in ducks && r.sighting in sightings
  }

  predicate FlockKeys(flocks: map<Id, FlockRow>, users: map<Id, UserRow>) {
    forall f | f in flocks :: flocks[f].owner in users
  }

  predicate DuckKeys(ducks: map<Id, DuckRow>, flocks: map<Id, FlockRow>) {
    forall d | d in ducks :: ducks[d].flock in flocks
  }

  predicate SightingKeys(sightings: map<Id, SightingRow>, ducks: map<Id, DuckRow>, vessels: set<Id>,
                         users: map<Id, UserRow>)
  {
    forall s | s in sightings :: SightingRefs(ducks, vessels, users, sightings[s])
  }

  predicate CommentKeys(comments: map<Id, CommentRow>, ducks: map<Id, DuckRow>, users: map<Id, UserRow>) {
    forall c | c in comments :: comments[c].duck in ducks && comments[c].user in users
  }

  predicate FollowKeys(follows: set<(Id, Id)>, users: map<Id, UserRow>, ducks: map<Id, DuckRow>) {
    forall p | p in follows :: p.0 in users && p.1 in ducks
  }

  predicate NoticeKeys(notices: map<Id, NotificationRow>, users: map<Id, UserRow>, ducks: map<Id, DuckRow>,
                       sightings: map<Id, SightingRow>)
  {
    forall n | n in notices :: NoticeRefs(users, ducks, sightings, notices[n])
  }

  /** Every REFERENCES clause of the schema. */
  predicate ForeignKeys(db: Db) {
    && FlockKeys(db.flocks, db.users)
    && DuckKeys(db.ducks, db.flocks)
    && SightingKeys(db.sightings, db.ducks, db.vessels, db.users)
    && CommentKeys(db.comments, db.ducks, db.users)
    && FollowKeys(db.follows, db.users, db.ducks)
    && NoticeKeys(db.notifications, db.users, db.ducks, db.sightings)
  }

  predicate UniqueDucks(ducks: map<Id, DuckRow>) {
    forall d, e | d in ducks && e in ducks && d != e :: !DucksClash(ducks[d], ducks[e])
  }

  /** UNIQUE (flock_id, flock_seq) or UNIQUE (code) would refuse the pair. */
  predicate DucksClash(a: DuckRow, b: DuckRow) {
    a.code == b.code || (a.flock == b.flock && a.seqNo == b.seqNo)
  }

  predicate UniqueFlocks(flocks: map<Id, FlockRow>) {
    forall f, g | f in flocks && g in flocks && f != g :: flocks[f].code != flocks[g].code
  }

  predicate UniqueUsers(users: map<Id, UserRow>) {
    forall u, v | u in users && v in users && u != v ::
      users[u].issuer != users[v].issuer || users[u].subject != users[v].subject
  }

  /** Identity values lie below the sequence that hands them out. */
  predicate IdsBounded(db: Db) {
    && (forall u | u in db.users :: u < db.next.user)
    && (forall f | f in db.flocks :: f < db.next.flock)
    && (forall d | d in db.ducks :: d < db.next.duck)
    && (forall s | s in db.sightings :: s < db.next.sighting)
    && (forall c | c in db.comments :: c < db.next.comment)
    && (forall n | n in db.notifications :: n < db.next.notification)
  }

  // ----- Entities and row readback -------------------------------------------

  datatype PhotoRef = PhotoRef(key: string, contentType: string)

  datatype Details = Details(definedAt: Time, description: string, name: Option<string>, photo: PhotoRef)

  datatype Lifecycle = Allocated | Staged(details: Details) | Sailing(details: Details, since: Time)

  datatype Duck = Duck(id: Id, code: string, flock: Id, seqNo: nat, lifecycle: Lifecycle,
                       deletedAt: Option<Time>, commentsLockedAt: Option<Time>)

  datatype Coordinates = Coordinates(latitude: real, longitude: real)

  datatype Sighting = Sighting(id: Id, duck: Id, vessel: Id, user: Id, seenAt: Time, note: Option<string>,
                               photo: Option<PhotoRef>, coordinates: Option<Coordinates>)

  function ReadText(max: nat, raw: Option<string>, table: string): Result<Option<string>, RepoError> {
    match raw
    case None => Ok(None)
    case Some(t) =>
      match Text.Parse(max, t)
      case Ok(parsed) => Ok(Some(parsed))
      case Err(_) => Err(Corrupt(table))
  }

  function ReadLifecycle(r: DuckRow): Result<Lifecycle, RepoError> {
    match (r.originatedAt, r.setSailAt, r.description, r.photoKey, r.photoType)
    case (None, None, None, None, None) => Ok(Allocated)
    case (Some(definedAt), sailed, Some(description), Some(key), Some(contentType)) =>
      (match Text.Parse(Text.DESCRIPTION_MAX, description)
       case Err(_) => Err(Corrupt("duck"))
       case Ok(parsed) =>
         match ReadText(Text.DUCK_NAME_MAX, r.name, "duck")
         case Err(e) => Err(e)
         case Ok(name) =>
           var details := Details(definedAt, parsed, name, PhotoRef(key, contentType));
           match sailed
           case None => Ok(Staged(details))
           case Some(since) => Ok(Sailing(details, since)))
    case _ => Err(Corrupt("duck"))
  }

  function ReadDuck(id: Id, r: DuckRow): Result<Duck, RepoError> {
    match ReadLifecycle(r)
    case Err(e) => Err(e)
    case Ok(lifecycle) =>
      match Codes.ParseDuck(r.code)
      case Err(_) => Err(Corrupt("duck"))
      case Ok(code) =>
        match Codes.NewSeq(if r.seqNo < 0 then 0 else r.seqNo)
        case Err(_) => Err(Corrupt("duck"))
        case Ok(seqNo) =>
          Ok(Duck(id, code, r.flock, seqNo, lifecycle, r.deletedAt, r.commentsLockedAt))
  }

  function NewCoordinates(latitude: real, longitude: real): Option<Coordinates> {
    if -90.0 <= latitude <= 90.0 && -180.0 <= longitude <= 180.0
    then Some(Coordinates(latitude, longitude)) else None
  }

  function ReadSighting(id: Id, r: SightingRow): Result<Sighting, RepoError> {
    var corrupt := Err(Corrupt("sighting"));
    if r.photoKey.Some? != r.photoType.Some? || r.latitude.Some? != r.longitude.Some? then corrupt
    else
      var photo := if r.photoKey.Some? then Some(PhotoRef(r.photoKey.value, r.photoType.value)) else None;
      var coordinates :=
        if r.latitude.Some? then NewCoordinates(r.latitude.value, r.longitude.value) else None;
      if r.latitude.Some? && coordinates.None? then corrupt
      else
        match ReadText(Text.NOTE_MAX, r.note, "sighting")
        case Err(e) => Err(e)
        case Ok(note) => Ok(Sighting(id, r.duck, r.vessel, r.user, r.seenAt, note, photo, coordinates))
  }

  // ----- What the CHECK constraints buy --------------------------------------

  predicate TextFits(max: nat, t: Option<string>) {
    t.Some? ==> Text.Parse(max, t.value).Ok?
  }

  /** The lifecycle match has a case for exactly the column patterns the CHECKs allow. */
  lemma {:induction false} ReadDuckSucceedsIff(id: Id, r: DuckRow)
    ensures ReadDuck(id, r).Ok? <==>
            && DuckChecks(r)
            && (r.originatedAt.Some? ==> TextFits(Text.DESCRIPTION_MAX, r.description)
                                         && TextFits(Text.DUCK_NAME_MAX, r.name))
            && Codes.ParseDuck(r.code).Ok?
  {
    hide Codes.ParseDuck, Text.Parse;
  }

  lemma {:induction false} ReadSightingSucceedsIff(id: Id, r: SightingRow)
    ensures ReadSighting(id, r).Ok? <==> SightingChecks(r) && TextFits(Text.NOTE_MAX, r.note)
  {
    hide Text.Parse;
  }
}
