/** The running system: one database, any number of handlers and mint transactions in flight, and every
    interleaving of their steps as a sequence of events. */
module Runs {
  import opened Wrappers
  import opened Schema
  import opened Store
  import opened Minting
  import opened Cascade
  import opened Invariants
  import opened Handlers
  import opened Evolution
  import Codes
  import Codec
  import Text

  // ----- State -------------------------------------------------------------------------

  /** A mint transaction: waiting for the advisory lock of its flock, holding it, having read the
      high-water mark, having inserted its rows (invisible to others until commit). */
  datatype Phase = Waiting | Locked | HaveMax(max: nat) | Inserted(entries: seq<Entry>)

  datatype Task =
    | Mint(flock: Id, code: string, generation: nat, count: nat, phase: Phase)
    | Acting(writes: seq<Write>)

  datatype System = System(db: Db, tasks: map<Id, Task>)

  predicate HoldsLock(task: Task, f: Id) {
    task.Mint? && task.flock == f && !task.phase.Waiting?
  }

  predicate HasInserted(task: Task) {
    task.Mint? && task.phase.Inserted?
  }

  // ----- Events ------------------------------------------------------------------------

  datatype Event =
    | LogIn(issuer: string, subject: string, displayName: Option<string>, email: Option<string>, grantAdmin: bool)
    | NewFlock(owner: Id, rawLabel: Option<string>, draws: seq<string>)
    | BeginMint(task: Id, user: Id, flock: Id, count: nat)
    | TakeLock(task: Id)
    | ReadMax(task: Id)
    | InsertRows(task: Id)
    | Commit(task: Id)
    | Abort(task: Id)
    | Arrive(task: Id, viewer: Option<Viewer>, raw: string, request: Request, now: Time)
    | DoWrite(task: Id, now: Time)
    | ReadFeed(user: Id, now: Time)
    | HardDeleteFlock(flock: Id)
    | HardDeleteUser(user: Id)

  datatype Outcome = Full | Refused(violation: Violation) | Inserts(entries: seq<Entry>)

  /** What the INSERT of a mint meets: committed rows and the uncommitted rows of every other mint. */
  function InsertOutcome(codec: Codec.DuckCodec, sys: System, t: Id): Outcome
    requires Codec.Valid(codec) && t in sys.tasks
    requires sys.tasks[t].Mint? && sys.tasks[t].phase.HaveMax? && Codes.IsFlockCode(sys.tasks[t].code)
  {
    var m := sys.tasks[t];
    match Allocate(Encoder(codec, m.generation, m.code), m.phase.max + 1, m.count)
    case None => Full
    case Some(entries) =>
      if m.flock !in sys.db.flocks then Refused(ForeignKey)
      else if InsertClashes(sys.db.ducks, Minted(m.flock, entries)) || ClashesWithOthers(sys, t, entries)
      then Refused(Unique)
      else Inserts(entries)
  }

  predicate ClashesWithOthers(sys: System, t: Id, entries: seq<Entry>)
    requires t in sys.tasks && sys.tasks[t].Mint?
  {
    exists o | o in sys.tasks && o != t && HasInserted(sys.tasks[o]) ::
      RowsClash(Minted(sys.tasks[o].flock, sys.tasks[o].phase.entries), Minted(sys.tasks[t].flock, entries))
  }

  predicate RowsClash(a: seq<DuckRow>, b: seq<DuckRow>) {
    exists i, j | 0 <= i < |a| && 0 <= j < |b| :: DucksClash(a[i], b[j])
  }

  function Finish(sys: System, t: Id): System {
    sys.(tasks := sys.tasks - {t})
  }

  function CommitRows(db: Db, flock: Id, entries: seq<Entry>): Db {
    db.(ducks := Append(db.ducks, db.next.duck, Minted(flock, entries)),
        next := db.next.(duck := db.next.duck + |entries|))
  }

  /** A flock row referenced by uncommitted ducks cannot be deleted. */
  predicate FlockBusy(sys: System, f: Id) {
    exists t | t in sys.tasks && HasInserted(sys.tasks[t]) :: sys.tasks[t].flock == f
  }

  predicate OwnerBusy(sys: System, u: Id) {
    exists f | f in sys.db.flocks && FlockBusy(sys, f) :: sys.db.flocks[f].owner == u
  }

  function StepMint(codec: Codec.DuckCodec, sys: System, t: Id, e: Event): System
    requires Codec.Valid(codec) && t in sys.tasks && sys.tasks[t].Mint?
  {
    var m := sys.tasks[t];
    match e
    case TakeLock(_) =>
      if m.phase.Waiting? && forall o | o in sys.tasks :: !HoldsLock(sys.tasks[o], m.flock)
      then sys.(tasks := sys.tasks[t := m.(phase := Locked)]) else sys
    case ReadMax(_) =>
      if m.phase.Locked?
      then sys.(tasks := sys.tasks[t := m.(phase := HaveMax(MaxSeq(sys.db.ducks, m.flock, sys.db.next.duck)))]) else sys
    case InsertRows(_) =>
      if !m.phase.HaveMax? || !Codes.IsFlockCode(m.code) then sys
      else
        (match InsertOutcome(codec, sys, t)
         case Inserts(entries) => sys.(tasks := sys.tasks[t := m.(phase := Inserted(entries))])
         case _ => Finish(sys, t))
    case Commit(_) =>
      if m.phase.Inserted? then Finish(sys.(db := CommitRows(sys.db, m.flock, m.phase.entries)), t) else sys
    case _ => sys
  }

  function Step(codec: Codec.DuckCodec, sys: System, e: Event): System
    requires Codec.Valid(codec)
  {
    match e
    case LogIn(issuer, subject, displayName, email, grantAdmin) =>
      sys.(db := Upsert(sys.db, issuer, subject, displayName, email, grantAdmin))
    case NewFlock(owner, rawLabel, draws) =>
      var flockLabel := ReadText(Text.LABEL_MAX, Field(rawLabel), "form");
      if flockLabel.Err? || |draws| != MAX_DRAWS || exists i | 0 <= i < |draws| :: !Codes.IsFlockCode(draws[i])
      then sys
      else sys.(db := CreateFlock(sys.db, owner, codec.current, flockLabel.value, draws).1)
    case BeginMint(t, user, f, count) =>
      if t in sys.tasks || f !in sys.db.flocks || sys.db.flocks[f].owner != user || count == 0
         || !Codes.IsFlockCode(sys.db.flocks[f].code) then sys
      else
        var flock := sys.db.flocks[f];
        if Codec.Encode(codec, flock.generation, flock.code, 1).Err? then sys
        else sys.(tasks := sys.tasks[t := Mint(f, flock.code, flock.generation, count, Waiting)])
    case Arrive(t, viewer, raw, request, now) =>
      if t in sys.tasks then sys
      else
        (match Decide(codec, sys.db, viewer, raw, request, now)
         case Respond(_) => sys
         case Act(writes, _) => sys.(tasks := sys.tasks[t := Acting(writes)]))
    case DoWrite(t, now) =>
      if t !in sys.tasks || !sys.tasks[t].Acting? then sys
      else if sys.tasks[t].writes == [] then Finish(sys, t)
      else
        (match Perform(sys.db, sys.tasks[t].writes[0], now)
         case Err(_) => Finish(sys, t)
         case Ok(after) => System(after, sys.tasks[t := Acting(sys.tasks[t].writes[1..])]))
    case ReadFeed(user, now) => sys.(db := MarkAllRead(sys.db, user, now))
    case HardDeleteFlock(f) => if FlockBusy(sys, f) then sys else sys.(db := DeleteFlock(sys.db, f).1)
    case HardDeleteUser(u) => if OwnerBusy(sys, u) then sys else sys.(db := DeleteUser(sys.db, u).1)
    case Abort(t) => Finish(sys, t)
    case TakeLock(t) => if t in sys.tasks && sys.tasks[t].Mint? then StepMint(codec, sys, t, e) else sys
    case ReadMax(t) => if t in sys.tasks && sys.tasks[t].Mint? then StepMint(codec, sys, t, e) else sys
    case InsertRows(t) => if t in sys.tasks && sys.tasks[t].Mint? then StepMint(codec, sys, t, e) else sys
    case Commit(t) => if t in sys.tasks && sys.tasks[t].Mint? then StepMint(codec, sys, t, e) else sys
  }

  /** The state after a schedule. */
  function Run(codec: Codec.DuckCodec, sys: System, events: seq<Event>): System
    requires Codec.Valid(codec)
    decreases |events|
  {
    if events == [] then sys else Run(codec, Step(codec, sys, events[0]), events[1..])
  }

  function Start(vessels: set<Id>): System {
    System(Empty(vessels), map[])
  }

  // ----- The invariant --------------------------------------------------------------------

  /** A duck read as sailing by a handler: gone since, or still sailing. */
  predicate SailingToken(db: Db, d: Id) {
    d < db.next.duck && (d in db.ducks ==> Live(db.ducks, d))
  }

  predicate WriteOk(db: Db, w: Write) {
    match w
    case WStage(_, description, name, _) =>
      TextFits(Text.DESCRIPTION_MAX, Some(description)) && TextFits(Text.DUCK_NAME_MAX, name)
    case WLog(row) => SightingChecks(row) && TextFits(Text.NOTE_MAX, row.note) && SailingToken(db, row.duck)
    case WComment(d, _, body) => TextFits(Text.COMMENT_MAX, Some(body)) && SailingToken(db, d)
    case WFollow(_, d) => SailingToken(db, d)
    case _ => true
  }

  ghost predicate Planned(codec: Codec.DuckCodec, db: Db, m: Task)
    requires Codec.Valid(codec) && m.Mint? && m.phase.Inserted? && Codes.IsFlockCode(m.code)
  {
    && m.flock in db.flocks
    && Allocate(Encoder(codec, m.generation, m.code), MaxSeq(db.ducks, m.flock, db.next.duck) + 1, m.count)
       == Some(m.phase.entries)
  }

  ghost predicate MintOk(codec: Codec.DuckCodec, db: Db, m: Task)
    requires Codec.Valid(codec) && m.Mint?
  {
    && Codes.IsFlockCode(m.code) && m.generation in codec.ciphers
    && m.flock < db.next.flock
    && (m.flock in db.flocks ==> db.flocks[m.flock].code == m.code && db.flocks[m.flock].generation == m.generation)
    && (m.phase.HaveMax? && m.flock in db.flocks ==> m.phase.max == MaxSeq(db.ducks, m.flock, db.next.duck))
    && (m.phase.Inserted? ==> Planned(codec, db, m))
  }

  ghost predicate TaskOk(codec: Codec.DuckCodec, db: Db, task: Task)
    requires Codec.Valid(codec)
  {
    match task
    case Acting(writes) => forall i | 0 <= i < |writes| :: WriteOk(db, writes[i])
    case Mint(_, _, _, _, _) => MintOk(codec, db, task)
  }

  ghost predicate TasksOk(codec: Codec.DuckCodec, db: Db, tasks: map<Id, Task>)
    requires Codec.Valid(codec)
  {
    forall t | t in tasks :: TaskOk(codec, db, tasks[t])
  }

  /** The advisory lock excludes: one holder per flock. */
  predicate Exclusive(tasks: map<Id, Task>) {
    forall t, o | t in tasks && o in tasks && t != o && tasks[t].Mint? && !tasks[t].phase.Waiting? ::
      !HoldsLock(tasks[o], tasks[t].flock)
  }

  ghost predicate Inv(codec: Codec.DuckCodec, sys: System)
    requires Codec.Valid(codec)
  {
    Good(codec, sys.db) && TasksOk(codec, sys.db, sys.tasks) && Exclusive(sys.tasks)
  }
}
