/** Hard deletion of a user or a flock: an ordered list of DELETE statements, each checked
    against every foreign key as it ends, inside one transaction. */
module Cascade {
  import opened Wrappers
  import opened Schema

  // ----- The statements ---------------------------------------------------------

  datatype Delete =
    | NotificationsTo(user: Id)
    | NotificationsOfSightingsBy(user: Id)
    | NotificationsOnDucksOf(user: Id)
    | FollowsBy(user: Id)
    | FollowsOnDucksOf(user: Id)
    | CommentsBy(user: Id)
    | CommentsOnDucksOf(user: Id)
    | SightingsBy(user: Id)
    | SightingsOnDucksOf(user: Id)
    | DucksOf(user: Id)
    | FlocksOf(user: Id)
    | Account(user: Id)
    | NotificationsInFlock(flock: Id)
    | FollowsInFlock(flock: Id)
    | CommentsInFlock(flock: Id)
    | SightingsInFlock(flock: Id)
    | DucksInFlock(flock: Id)
    | Flock(flock: Id)

  /** `USING duck d, flock f WHERE x.duck_id = d.id AND d.flock_id = f.id AND f.owner_user_id = u`. */
  predicate OnDuckOf(db: Db, u: Id, duck: Id) {
    exists d, f | d in db.ducks && f in db.flocks ::
      d == duck && db.ducks[d].flock == f && db.flocks[f].owner == u
  }

  predicate InFlockOf(db: Db, u: Id, flock: Id) {
    exists f | f in db.flocks :: f == flock && db.flocks[f].owner == u
  }

  predicate OnDuckIn(db: Db, flock: Id, duck: Id) {
    exists d | d in db.ducks :: d == duck && db.ducks[d].flock == flock
  }

  predicate SightedBy(db: Db, u: Id, sighting: Id) {
    exists s | s in db.sightings :: s == sighting && db.sightings[s].user == u
  }

  /** The identities a statement on a table with an identity column matches. */
  function Matching(db: Db, s: Delete): set<Id> {
    match s
    case NotificationsTo(u) => set n | n in db.notifications && db.notifications[n].user == u
    case NotificationsOfSightingsBy(u) =>
      set n | n in db.notifications && SightedBy(db, u, db.notifications[n].sighting)
    case NotificationsOnDucksOf(u) => set n | n in db.notifications && OnDuckOf(db, u, db.notifications[n].duck)
    case NotificationsInFlock(f) => set n | n in db.notifications && OnDuckIn(db, f, db.notifications[n].duck)
    case CommentsBy(u) => set c | c in db.comments && db.comments[c].user == u
    case CommentsOnDucksOf(u) => set c | c in db.comments && OnDuckOf(db, u, db.comments[c].duck)
    case CommentsInFlock(f) => set c | c in db.comments && OnDuckIn(db, f, db.comments[c].duck)
    case SightingsBy(u) => set x | x in db.sightings && db.sightings[x].user == u
    case SightingsOnDucksOf(u) => set x | x in db.sightings && OnDuckOf(db, u, db.sightings[x].duck)
    case SightingsInFlock(f) => set x | x in db.sightings && OnDuckIn(db, f, db.sightings[x].duck)
    case DucksOf(u) => set d | d in db.ducks && InFlockOf(db, u, db.ducks[d].flock)
    case DucksInFlock(f) => set d | d in db.ducks && db.ducks[d].flock == f
    case FlocksOf(u) => set f | f in db.flocks && db.flocks[f].owner == u
    case Flock(f) => set g | g in db.flocks && g == f
    case Account(u) => set v | v in db.users && v == u && !db.users[v].isAdmin
    case _ => {}
  }

  /** The follow table has no identity column: its rows are matched themselves. */
  function MatchingFollows(db: Db, s: Delete): set<(Id, Id)> {
    match s
    case FollowsBy(u) => set p | p in db.follows && p.0 == u
    case FollowsOnDucksOf(u) => set p | p in db.follows && OnDuckOf(db, u, p.1)
    case FollowsInFlock(f) => set p | p in db.follows && OnDuckIn(db, f, p.1)
    case _ => {}
  }

  datatype Table = Notifications | Follows | Comments | Sightings | Ducks | Flocks | Users

  function TableOf(s: Delete): Table {
    match s
    case NotificationsTo(_) => Notifications
    case NotificationsOfSightingsBy(_) => Notifications
    case NotificationsOnDucksOf(_) => Notifications
    case NotificationsInFlock(_) => Notifications
    case FollowsBy(_) => Follows
    case FollowsOnDucksOf(_) => Follows
    case FollowsInFlock(_) => Follows
    case CommentsBy(_) => Comments
    case CommentsOnDucksOf(_) => Comments
    case CommentsInFlock(_) => Comments
    case SightingsBy(_) => Sightings
    case SightingsOnDucksOf(_) => Sightings
    case SightingsInFlock(_) => Sightings
    case DucksOf(_) => Ducks
    case DucksInFlock(_) => Ducks
    case FlocksOf(_) => Flocks
    case Flock(_) => Flocks
    case Account(_) => Users
  }

  /** The database without the rows a statement matches. */
  function Exec(db: Db, s: Delete): Db {
    match TableOf(s)
    case Notifications => db.(notifications := db.notifications - Matching(db, s))
    case Follows => db.(follows := db.follows - MatchingFollows(db, s))
    case Comments => db.(comments := db.comments - Matching(db, s))
    case Sightings => db.(sightings := db.sightings - Matching(db, s))
    case Ducks => db.(ducks := db.ducks - Matching(db, s))
    case Flocks => db.(flocks := db.flocks - Matching(db, s))
    case Users => db.(users := db.users - Matching(db, s))
  }

  /** Statements in order; the first that leaves a dangling reference aborts the transaction. */
  function RunChecked(db: Db, statements: seq<Delete>): Option<Db>
    decreases |statements|
  {
    if statements == [] then Some(db)
    else
      var after := Exec(db, statements[0]);
      if ForeignKeys(after) then RunChecked(after, statements[1..]) else None
  }

  function UserCascade(u: Id): seq<Delete> {
    [NotificationsTo(u), NotificationsOfSightingsBy(u), NotificationsOnDucksOf(u)]
    + [FollowsBy(u), FollowsOnDucksOf(u), CommentsBy(u), CommentsOnDucksOf(u)]
    + [SightingsBy(u), SightingsOnDucksOf(u)]
    + [DucksOf(u), FlocksOf(u), Account(u)]
  }

  function FlockCascade(f: Id): seq<Delete> {
    [NotificationsInFlock(f), FollowsInFlock(f), CommentsInFlock(f), SightingsInFlock(f)]
    + [DucksInFlock(f), Flock(f)]
  }

  // ----- Photo keys: the SELECTs ---------------------------------------------------

  /** `JOIN t ON t.id = key`, scanning the identities below `n`. */
  function JoinOn<R>(table: map<Id, R>, key: Id, n: nat): seq<Id> {
    if n == 0 then []
    else JoinOn(table, key, n - 1) + (if n - 1 in table && n - 1 == key then [n - 1] else [])
  }

  /** A LEFT JOIN keeps the left row, with a null partner, when nothing matches. */
  function LeftJoinOn<R>(table: map<Id, R>, key: Option<Id>, n: nat): seq<Option<Id>> {
    var matches := if key.None? then [] else JoinOn(table, key.value, n);
    if matches == [] then [None] else seq(|matches|, i requires 0 <= i < |matches| => Some(matches[i]))
  }

  function KeyOf(key: Option<string>): seq<string> {
    if key.Some? then [key.value] else []
  }

  /** Keys emitted for one sighting joined to `ducks` and, through each, to its flock. */
  function UserSightingRows(db: Db, u: Id, r: SightingRow, ducks: seq<Option<Id>>): seq<string> {
    if ducks == [] then []
    else
      var d := ducks[0];
      var flock := if d.Some? && d.value in db.ducks then Some(db.ducks[d.value].flock) else None;
      UserFlockRows(db, u, r, LeftJoinOn(db.flocks, flock, db.next.flock))
      + UserSightingRows(db, u, r, ducks[1..])
  }

  function UserFlockRows(db: Db, u: Id, r: SightingRow, flocks: seq<Option<Id>>): seq<string> {
    if flocks == [] then []
    else
      var f := flocks[0];
      var owned := f.Some? && f.value in db.flocks && db.flocks[f.value].owner == u;
      (if r.user == u || owned then KeyOf(r.photoKey) else [])
      + UserFlockRows(db, u, r, flocks[1..])
  }

  function UserSightingKey(db: Db, u: Id, s: Id): seq<string> {
    if s !in db.sightings then []
    else
      var r := db.sightings[s];
      UserSightingRows(db, u, r, LeftJoinOn(db.ducks, Some(r.duck), db.next.duck))
  }

  function UserSightingKeys(db: Db, u: Id, n: nat): seq<string> {
    if n == 0 then [] else UserSightingKeys(db, u, n - 1) + UserSightingKey(db, u, n - 1)
  }

  function UserDuckRows(db: Db, u: Id, r: DuckRow, flocks: seq<Id>): seq<string> {
    if flocks == [] then []
    else
      (if flocks[0] in db.flocks && db.flocks[flocks[0]].owner == u then KeyOf(r.photoKey) else [])
      + UserDuckRows(db, u, r, flocks[1..])
  }

  function UserDuckKey(db: Db, u: Id, d: Id): seq<string> {
    if d !in db.ducks then []
    else UserDuckRows(db, u, db.ducks[d], JoinOn(db.flocks, db.ducks[d].flock, db.next.flock))
  }

  function UserDuckKeys(db: Db, u: Id, n: nat): seq<string> {
    if n == 0 then [] else UserDuckKeys(db, u, n - 1) + UserDuckKey(db, u, n - 1)
  }

  function UserPhotoKeys(db: Db, u: Id): seq<string> {
    UserSightingKeys(db, u, db.next.sighting) + UserDuckKeys(db, u, db.next.duck)
  }

  function FlockSightingRows(db: Db, f: Id, r: SightingRow, ducks: seq<Id>): seq<string> {
    if ducks == [] then []
    else
      (if ducks[0] in db.ducks && db.ducks[ducks[0]].flock == f then KeyOf(r.photoKey) else [])
      + FlockSightingRows(db, f, r, ducks[1..])
  }

  function FlockSightingKey(db: Db, f: Id, s: Id): seq<string> {
    if s !in db.sightings then []
    else FlockSightingRows(db, f, db.sightings[s], JoinOn(db.ducks, db.sightings[s].duck, db.next.duck))
  }

  function FlockSightingKeys(db: Db, f: Id, n: nat): seq<string> {
    if n == 0 then [] else FlockSightingKeys(db, f, n - 1) + FlockSightingKey(db, f, n - 1)
  }

  function FlockDuckKey(db: Db, f: Id, d: Id): seq<string> {
    if d in db.ducks && db.ducks[d].flock == f then KeyOf(db.ducks[d].photoKey) else []
  }

  function FlockDuckKeys(db: Db, f: Id, n: nat): seq<string> {
    if n == 0 then [] else FlockDuckKeys(db, f, n - 1) + FlockDuckKey(db, f, n - 1)
  }

  function FlockPhotoKeys(db: Db, f: Id): seq<string> {
    FlockSightingKeys(db, f, db.next.sighting) + FlockDuckKeys(db, f, db.next.duck)
  }

  // ----- The two transactions ---------------------------------------------------------

  /** No account row removed means the transaction is dropped and nothing happened. */
  function DeleteUser(db: Db, u: Id): (Result<Option<seq<string>>, RepoError>, Db) {
    match RunChecked(db, UserCascade(u))
    case None => (Err(Sql(ForeignKey)), db)
    case Some(after) =>
      if after.users == db.users then (Ok(None), db) else (Ok(Some(UserPhotoKeys(db, u))), after)
  }

  function DeleteFlock(db: Db, f: Id): (Result<Option<seq<string>>, RepoError>, Db) {
    match RunChecked(db, FlockCascade(f))
    case None => (Err(Sql(ForeignKey)), db)
    case Some(after) => (Ok(if f in db.flocks then Some(FlockPhotoKeys(db, f)) else None), after)
  }

  // ----- One simultaneous filter ----------------------------------------------------------

  predicate OwnsFlock(flocks: map<Id, FlockRow>, u: Id, f: Id) {
    f in flocks && flocks[f].owner == u
  }

  predicate OwnsDuck(ducks: map<Id, DuckRow>, flocks: map<Id, FlockRow>, u: Id, d: Id) {
    d in ducks && OwnsFlock(flocks, u, ducks[d].flock)
  }

  predicate Sighted(sightings: map<Id, SightingRow>, u: Id, s: Id) {
    s in sightings && sightings[s].user == u
  }

  function UsersWithout(db: Db, u: Id): map<Id, UserRow> {
    map v | v in db.users && !(v == u && !db.users[v].isAdmin) :: db.users[v]
  }

  function FlocksWithout(db: Db, u: Id): map<Id, FlockRow> {
    map f | f in db.flocks && db.flocks[f].owner != u :: db.flocks[f]
  }

  function DucksWithout(db: Db, u: Id): map<Id, DuckRow> {
    map d | d in db.ducks && !OwnsDuck(db.ducks, db.flocks, u, d) :: db.ducks[d]
  }

  function SightingsWithout(db: Db, u: Id): map<Id, SightingRow> {
    map s | s in db.sightings && db.sightings[s].user != u && !OwnsDuck(db.ducks, db.flocks, u, db.sightings[s].duck)
      :: db.sightings[s]
  }

  function CommentsWithout(db: Db, u: Id): map<Id, CommentRow> {
    map c | c in db.comments && db.comments[c].user != u && !OwnsDuck(db.ducks, db.flocks, u, db.comments[c].duck)
      :: db.comments[c]
  }

  function FollowsWithout(db: Db, u: Id): set<(Id, Id)> {
    set p | p in db.follows && p.0 != u && !OwnsDuck(db.ducks, db.flocks, u, p.1)
  }

  predicate OutlivesUser(db: Db, u: Id, r: NotificationRow) {
    r.user != u && !Sighted(db.sightings, u, r.sighting) && !OwnsDuck(db.ducks, db.flocks, u, r.duck)
  }

  function NoticesWithout(db: Db, u: Id): map<Id, NotificationRow> {
    map n | n in db.notifications && OutlivesUser(db, u, db.notifications[n]) :: db.notifications[n]
  }

  /** Every trace of `u`, removed from all tables at once. */
  function WithoutUser(db: Db, u: Id): Db {
    db.(users := UsersWithout(db, u), flocks := FlocksWithout(db, u), ducks := DucksWithout(db, u),
        sightings := SightingsWithout(db, u), comments := CommentsWithout(db, u),
        follows := FollowsWithout(db, u), notifications := NoticesWithout(db, u))
  }

  /** What the user cascade needs: a notice that outlives the notice deletions does not name a
      sighting that the sighting deletions remove. */
  predicate UserCascadeClosed(db: Db, u: Id) {
    forall n | n in db.notifications && OutlivesUser(db, u, db.notifications[n])
               && db.notifications[n].sighting in db.sightings ::
      !OwnsDuck(db.ducks, db.flocks, u, db.sightings[db.notifications[n].sighting].duck)
  }

  /** Every notice is about the duck of the sighting it names. */
  predicate NoticesAgree(db: Db) {
    forall n | n in db.notifications && db.notifications[n].sighting in db.sightings ::
      db.notifications[n].duck == db.sightings[db.notifications[n].sighting].duck
  }

  // ----- The user cascade is the filter -----------------------------------------------------

  lemma {:induction false} RunAppend(db: Db, a: seq<Delete>, b: seq<Delete>)
    ensures RunChecked(db, a + b)
            == match RunChecked(db, a) case None => None case Some(mid) => RunChecked(mid, b)
    decreases |a|
  {
    hide Exec, ForeignKeys;
    if a == [] {
      assert a + b == b;
    } else {
      assert (a + b)[0] == a[0] && (a + b)[1..] == a[1..] + b;
      if ForeignKeys(Exec(db, a[0])) {
        RunAppend(Exec(db, a[0]), a[1..], b);
      }
    }
  }

  lemma JoinsAreLookups(db: Db, u: Id)
    ensures forall d :: OnDuckOf(db, u, d) <==> OwnsDuck(db.ducks, db.flocks, u, d)
    ensures forall s :: SightedBy(db, u, s) <==> Sighted(db.sightings, u, s)
    ensures forall f :: InFlockOf(db, u, f) <==> OwnsFlock(db.flocks, u, f)
  {
  }

  lemma RunOne(db: Db, s: Delete)
    ensures RunChecked(db, [s]) == if ForeignKeys(Exec(db, s)) then Some(Exec(db, s)) else None
  {
    hide Exec, ForeignKeys;
    assert [s][1..] == [];
  }

  lemma RunCons(db: Db, s: Delete, rest: seq<Delete>, after: Db)
    requires after == Exec(db, s)
    ensures RunChecked(db, [s] + rest) == if ForeignKeys(after) then RunChecked(after, rest) else None
  {
    hide Exec, ForeignKeys;
    RunOne(db, s);
    RunAppend(db, [s], rest);
  }

  // One lemma per statement of the user cascade: what it does to its table.

  lemma NoticeStatements(db: Db, u: Id)
    ensures var d1 := Exec(db, NotificationsTo(u));
            var d2 := Exec(d1, NotificationsOfSightingsBy(u));
            var d3 := Exec(d2, NotificationsOnDucksOf(u));
            && d1 == db.(notifications := d1.notifications) && d1.notifications.Keys <= db.notifications.Keys
            && d2 == db.(notifications := d2.notifications) && d2.notifications.Keys <= db.notifications.Keys
            && d3 == db.(notifications := NoticesWithout(db, u))
            && (forall n | n in d1.notifications :: d1.notifications[n] == db.notifications[n])
            && (forall n | n in d2.notifications :: d2.notifications[n] == db.notifications[n])
  {
    hide OnDuckOf, SightedBy, InFlockOf, OwnsDuck, Sighted;
    var d1 := Exec(db, NotificationsTo(u));
    var d2 := Exec(d1, NotificationsOfSightingsBy(u));
    JoinsAreLookups(d1, u);
    JoinsAreLookups(d2, u);
    assert Exec(d2, NotificationsOnDucksOf(u)).notifications == NoticesWithout(db, u);
  }

  lemma ShrinkNotices(db: Db, m: map<Id, NotificationRow>)
    requires ForeignKeys(db) && m.Keys <= db.notifications.Keys && forall n | n in m :: m[n] == db.notifications[n]
    ensures ForeignKeys(db.(notifications := m))
  {
    hide FlockKeys, DuckKeys, SightingKeys, CommentKeys, FollowKeys, NoticeRefs;
  }

  lemma NoticesStage(db: Db, u: Id, rest: seq<Delete>)
    requires ForeignKeys(db)
    ensures RunChecked(db, [NotificationsTo(u)]
                           + ([NotificationsOfSightingsBy(u)] + ([NotificationsOnDucksOf(u)] + rest)))
            == RunChecked(db.(notifications := NoticesWithout(db, u)), rest)
    ensures ForeignKeys(db.(notifications := NoticesWithout(db, u)))
  {
    hide Exec, ForeignKeys, RunChecked, OutlivesUser;
    NoticeStatements(db, u);
    var d1 := Exec(db, NotificationsTo(u));
    var d2 := Exec(d1, NotificationsOfSightingsBy(u));
    var d3 := Exec(d2, NotificationsOnDucksOf(u));
    ShrinkNotices(db, d1.notifications);
    ShrinkNotices(db, d2.notifications);
    ShrinkNotices(db, NoticesWithout(db, u));
    RunCons(d2, NotificationsOnDucksOf(u), rest, d3);
    RunCons(d1, NotificationsOfSightingsBy(u), [NotificationsOnDucksOf(u)] + rest, d2);
    RunCons(db, NotificationsTo(u), [NotificationsOfSightingsBy(u)] + ([NotificationsOnDucksOf(u)] + rest), d1);
  }

  lemma FollowsByStatement(db: Db, u: Id)
    ensures Exec(db, FollowsBy(u)) == db.(follows := set p | p in db.follows && p.0 != u)
  {
    assert db.follows - MatchingFollows(db, FollowsBy(u)) == set p | p in db.follows && p.0 != u;
  }

  lemma FollowsOnDucksStatement(db: Db, u: Id)
    ensures Exec(db, FollowsOnDucksOf(u))
            == db.(follows := set p | p in db.follows && !OwnsDuck(db.ducks, db.flocks, u, p.1))
  {
    hide OnDuckOf, SightedBy, InFlockOf, OwnsDuck;
    JoinsAreLookups(db, u);
    assert db.follows - MatchingFollows(db, FollowsOnDucksOf(u))
           == set p | p in db.follows && !OwnsDuck(db.ducks, db.flocks, u, p.1);
  }

  lemma FollowStatements(db: Db, u: Id)
    ensures var d1 := Exec(db, FollowsBy(u));
            && d1 == db.(follows := d1.follows) && d1.follows <= db.follows
            && Exec(d1, FollowsOnDucksOf(u)) == db.(follows := FollowsWithout(db, u))
  {
    hide Exec, OwnsDuck;
    var d1 := Exec(db, FollowsBy(u));
    FollowsByStatement(db, u);
    FollowsOnDucksStatement(d1, u);
    assert Exec(d1, FollowsOnDucksOf(u)).follows == FollowsWithout(db, u);
  }

  lemma ShrinkFollows(db: Db, follows: set<(Id, Id)>)
    requires ForeignKeys(db) && follows <= db.follows
    ensures ForeignKeys(db.(follows := follows))
  {
    hide FlockKeys, DuckKeys, SightingKeys, CommentKeys, NoticeKeys;
  }

  lemma FollowsStage(db: Db, u: Id, rest: seq<Delete>)
    requires ForeignKeys(db)
    ensures RunChecked(db, [FollowsBy(u)] + ([FollowsOnDucksOf(u)] + rest))
            == RunChecked(db.(follows := FollowsWithout(db, u)), rest)
    ensures ForeignKeys(db.(follows := FollowsWithout(db, u)))
  {
    hide Exec, ForeignKeys, RunChecked;
    FollowStatements(db, u);
    var d1 := Exec(db, FollowsBy(u));
    var d2 := Exec(d1, FollowsOnDucksOf(u));
    ShrinkFollows(db, d1.follows);
    ShrinkFollows(db, FollowsWithout(db, u));
    RunCons(d1, FollowsOnDucksOf(u), rest, d2);
    RunCons(db, FollowsBy(u), [FollowsOnDucksOf(u)] + rest, d1);
  }

  lemma CommentStatements(db: Db, u: Id)
    ensures var d1 := Exec(db, CommentsBy(u));
            && d1 == db.(comments := d1.comments) && d1.comments.Keys <= db.comments.Keys
            && (forall c | c in d1.comments :: d1.comments[c] == db.comments[c])
            && Exec(d1, CommentsOnDucksOf(u)) == db.(comments := CommentsWithout(db, u))
  {
    hide OnDuckOf, SightedBy, InFlockOf, OwnsDuck;
    var d1 := Exec(db, CommentsBy(u));
    JoinsAreLookups(d1, u);
    assert Exec(d1, CommentsOnDucksOf(u)).comments == CommentsWithout(db, u);
  }

  lemma ShrinkComments(db: Db, m: map<Id, CommentRow>)
    requires ForeignKeys(db) && m.Keys <= db.comments.Keys && forall c | c in m :: m[c] == db.comments[c]
    ensures ForeignKeys(db.(comments := m))
  {
    hide FlockKeys, DuckKeys, SightingKeys, FollowKeys, NoticeKeys;
  }

  lemma CommentsStage(db: Db, u: Id, rest: seq<Delete>)
    requires ForeignKeys(db)
    ensures RunChecked(db, [CommentsBy(u)] + ([CommentsOnDucksOf(u)] + rest))
            == RunChecked(db.(comments := CommentsWithout(db, u)), rest)
    ensures ForeignKeys(db.(comments := CommentsWithout(db, u)))
  {
    hide Exec, ForeignKeys, RunChecked, OwnsDuck;
    CommentStatements(db, u);
    var d1 := Exec(db, CommentsBy(u));
    var d2 := Exec(d1, CommentsOnDucksOf(u));
    ShrinkComments(db, d1.comments);
    ShrinkComments(db, CommentsWithout(db, u));
    RunCons(d1, CommentsOnDucksOf(u), rest, d2);
    RunCons(db, CommentsBy(u), [CommentsOnDucksOf(u)] + rest, d1);
  }

  lemma SightingsByStatement(db: Db, u: Id)
    ensures Exec(db, SightingsBy(u))
            == db.(sightings := map s | s in db.sightings && db.sightings[s].user != u :: db.sightings[s])
  {
    assert db.sightings - Matching(db, SightingsBy(u))
           == map s | s in db.sightings && db.sightings[s].user != u :: db.sightings[s];
  }

  lemma SightingsOnDucksStatement(db: Db, u: Id)
    ensures Exec(db, SightingsOnDucksOf(u))
            == db.(sightings := map s | s in db.sightings && !OwnsDuck(db.ducks, db.flocks, u, db.sightings[s].duck)
                                  :: db.sightings[s])
  {
    hide OnDuckOf, SightedBy, InFlockOf, OwnsDuck;
    JoinsAreLookups(db, u);
    assert db.sightings - Matching(db, SightingsOnDucksOf(u))
           == map s | s in db.sightings && !OwnsDuck(db.ducks, db.flocks, u, db.sightings[s].duck) :: db.sightings[s];
  }

  lemma SightingStatements(db: Db, u: Id)
    ensures var d1 := Exec(db, SightingsBy(u));
            && d1 == db.(sightings := d1.sightings)
            && (forall s :: s in d1.sightings <==> s in db.sightings && !Sighted(db.sightings, u, s))
            && (forall s | s in d1.sightings :: d1.sightings[s] == db.sightings[s])
            && Exec(d1, SightingsOnDucksOf(u)) == db.(sightings := SightingsWithout(db, u))
  {
    hide Exec, OwnsDuck;
    var d1 := Exec(db, SightingsBy(u));
    SightingsByStatement(db, u);
    SightingsOnDucksStatement(d1, u);
    assert Exec(d1, SightingsOnDucksOf(u)).sightings == SightingsWithout(db, u);
  }

  lemma ShrinkSightings(db: Db, m: map<Id, SightingRow>)
    requires ForeignKeys(db) && m.Keys <= db.sightings.Keys && forall s | s in m :: m[s] == db.sightings[s]
    ensures ForeignKeys(db.(sightings := m)) <==> forall n | n in db.notifications :: db.notifications[n].sighting in m
  {
    hide FlockKeys, DuckKeys, CommentKeys, FollowKeys, SightingRefs;
    var after := db.(sightings := m);
    assert SightingKeys(after.sightings, db.ducks, db.vessels, db.users);
    assert forall n | n in db.notifications :: NoticeRefs(db.users, db.ducks, db.sightings, db.notifications[n]);
    if ForeignKeys(after) {
      assert forall n | n in db.notifications :: NoticeRefs(db.users, db.ducks, m, after.notifications[n]);
    }
  }

  /** The sighting deletions: the one place where the order of statements alone is not enough. */
  lemma SightingsStage(db: Db, u: Id, rest: seq<Delete>)
    requires ForeignKeys(db)
    requires forall n | n in db.notifications :: OutlivesUser(db, u, db.notifications[n])
    ensures var after := db.(sightings := SightingsWithout(db, u));
            && RunChecked(db, [SightingsBy(u)] + ([SightingsOnDucksOf(u)] + rest))
               == (if UserCascadeClosed(db, u) then RunChecked(after, rest) else None)
            && (UserCascadeClosed(db, u) ==> ForeignKeys(after))
  {
    NoticesNameSightings(db);
    hide Exec, ForeignKeys, RunChecked, OwnsDuck, NoticeKeys;
    SightingStatements(db, u);
    var d1 := Exec(db, SightingsBy(u));
    var d2 := Exec(d1, SightingsOnDucksOf(u));
    ShrinkSightings(db, d1.sightings);
    ShrinkSightings(db, SightingsWithout(db, u));
    RunCons(d1, SightingsOnDucksOf(u), rest, d2);
    RunCons(db, SightingsBy(u), [SightingsOnDucksOf(u)] + rest, d1);
  }

  lemma NoticesNameSightings(db: Db)
    requires ForeignKeys(db)
    ensures forall n | n in db.notifications :: db.notifications[n].sighting in db.sightings
  {
    assert forall n | n in db.notifications :: NoticeRefs(db.users, db.ducks, db.sightings, db.notifications[n]);
  }

  lemma DucksStatement(db: Db, u: Id)
    ensures Exec(db, DucksOf(u)) == db.(ducks := DucksWithout(db, u))
  {
    hide InFlockOf, OwnsFlock, OnDuckOf, SightedBy;
    JoinsAreLookups(db, u);
    assert db.ducks - Matching(db, DucksOf(u)) == DucksWithout(db, u);
  }

  lemma FlocksStatement(db: Db, u: Id)
    ensures Exec(db, FlocksOf(u)) == db.(flocks := FlocksWithout(db, u))
  {
    assert db.flocks - Matching(db, FlocksOf(u)) == FlocksWithout(db, u);
  }

  lemma AccountStatement(db: Db, u: Id)
    ensures Exec(db, Account(u)) == db.(users := UsersWithout(db, u))
  {
    assert db.users - Matching(db, Account(u)) == UsersWithout(db, u);
  }

  lemma OwnershipStatements(db: Db, u: Id)
    ensures var d1 := Exec(db, DucksOf(u));
            var d2 := Exec(d1, FlocksOf(u));
            var d3 := Exec(d2, Account(u));
            && d1 == db.(ducks := DucksWithout(db, u))
            && d2 == d1.(flocks := FlocksWithout(db, u))
            && d3 == d2.(users := UsersWithout(db, u))
  {
    hide Exec, DucksWithout;
    var d1 := Exec(db, DucksOf(u));
    var d2 := Exec(d1, FlocksOf(u));
    DucksStatement(db, u);
    FlocksStatement(d1, u);
    AccountStatement(d2, u);
  }

  /** Nothing left hangs off the user or the user's ducks. */
  predicate Unreferenced(db: Db, u: Id) {
    && (forall n | n in db.notifications :: OutlivesUser(db, u, db.notifications[n]))
    && (forall s | s in db.sightings ::
          db.sightings[s].user != u && !OwnsDuck(db.ducks, db.flocks, u, db.sightings[s].duck))
    && (forall c | c in db.comments ::
          db.comments[c].user != u && !OwnsDuck(db.ducks, db.flocks, u, db.comments[c].duck))
    && (forall p | p in db.follows :: p.0 != u && !OwnsDuck(db.ducks, db.flocks, u, p.1))
  }

  lemma DucksRemovable(db: Db, u: Id)
    requires ForeignKeys(db) && Unreferenced(db, u)
    ensures ForeignKeys(db.(ducks := DucksWithout(db, u)))
  {
    hide FlockKeys, OwnsDuck, Sighted;
  }

  lemma FlocksRemovable(db: Db, u: Id)
    requires ForeignKeys(db)
    requires forall d | d in db.ducks :: !OwnsDuck(db.ducks, db.flocks, u, d)
    ensures ForeignKeys(db.(flocks := FlocksWithout(db, u)))
  {
    hide SightingKeys, CommentKeys, FollowKeys, NoticeKeys;
  }

  lemma UserRemovable(db: Db, u: Id, users: map<Id, UserRow>)
    requires ForeignKeys(db)
    requires forall v | v in db.users && v != u :: v in users
    requires forall f | f in db.flocks :: db.flocks[f].owner != u
    requires forall n | n in db.notifications :: db.notifications[n].user != u
    requires forall s | s in db.sightings :: db.sightings[s].user != u
    requires forall c | c in db.comments :: db.comments[c].user != u
    requires forall p | p in db.follows :: p.0 != u
    ensures ForeignKeys(db.(users := users))
  {
    hide DuckKeys;
  }

  lemma OwnershipStage(db: Db, u: Id)
    requires ForeignKeys(db) && Unreferenced(db, u)
    ensures var end := db.(ducks := DucksWithout(db, u), flocks := FlocksWithout(db, u), users := UsersWithout(db, u));
            RunChecked(db, [DucksOf(u)] + ([FlocksOf(u)] + [Account(u)])) == Some(end) && ForeignKeys(end)
  {
    hide Exec, ForeignKeys, RunChecked;
    OwnershipStatements(db, u);
    var d1 := Exec(db, DucksOf(u));
    var d2 := Exec(d1, FlocksOf(u));
    var d3 := Exec(d2, Account(u));
    DucksRemovable(db, u);
    FlocksRemovable(d1, u);
    UserRemovable(d2, u, d3.users);
    RunOne(d2, Account(u));
    RunCons(d1, FlocksOf(u), [Account(u)], d2);
    RunCons(db, DucksOf(u), [FlocksOf(u)] + [Account(u)], d1);
  }

  /** The tables after each group of statements. */
  function AfterStage(db: Db, u: Id, k: nat): Db {
    var d1 := db.(notifications := NoticesWithout(db, u));
    if k == 1 then d1
    else
      var d2 := d1.(follows := FollowsWithout(d1, u));
      if k == 2 then d2
      else
        var d3 := d2.(comments := CommentsWithout(d2, u));
        if k == 3 then d3 else d3.(sightings := SightingsWithout(d3, u))
  }

  lemma NoticeStagesCompose(db: Db, u: Id)
    ensures var e := AfterStage(db, u, 3);
            && (forall n | n in e.notifications :: OutlivesUser(e, u, e.notifications[n]))
            && (UserCascadeClosed(e, u) <==> UserCascadeClosed(db, u))
  {
    hide OwnsDuck;
    var e := AfterStage(db, u, 3);
    assert forall n | n in e.notifications ::
        OutlivesUser(db, u, db.notifications[n]) && OutlivesUser(e, u, e.notifications[n]);
    if UserCascadeClosed(e, u) {
      forall n | n in db.notifications && OutlivesUser(db, u, db.notifications[n])
                 && db.notifications[n].sighting in db.sightings
        ensures !OwnsDuck(db.ducks, db.flocks, u, db.sightings[db.notifications[n].sighting].duck)
      {
        assert n in e.notifications;
      }
    }
  }

  lemma StagesCompose(db: Db, u: Id)
    ensures var d := AfterStage(db, u, 4);
            && Unreferenced(d, u)
            && d.(ducks := DucksWithout(d, u), flocks := FlocksWithout(d, u), users := UsersWithout(d, u))
               == WithoutUser(db, u)
  {
    hide OwnsDuck;
    var d := AfterStage(db, u, 4);
    assert DucksWithout(d, u) == DucksWithout(db, u);
    assert FlocksWithout(d, u) == FlocksWithout(db, u);
    assert UsersWithout(d, u) == UsersWithout(db, u);
    assert d.comments == CommentsWithout(db, u) && d.follows == FollowsWithout(db, u);
    assert d.sightings == SightingsWithout(db, u);
  }

  lemma UserCascadeSplit(u: Id)
    ensures UserCascade(u)
            == [NotificationsTo(u)] + ([NotificationsOfSightingsBy(u)] + ([NotificationsOnDucksOf(u)]
               + ([FollowsBy(u)] + ([FollowsOnDucksOf(u)] + ([CommentsBy(u)] + ([CommentsOnDucksOf(u)]
               + ([SightingsBy(u)] + ([SightingsOnDucksOf(u)] + ([DucksOf(u)] + ([FlocksOf(u)] + [Account(u)]))))))))))
  {
  }

  /** Twelve statements, checked one by one, equal one simultaneous filter, exactly when no surviving
      notice names a sighting on one of the user's ducks. */
  lemma {:induction false} UserCascadeIsFilter(db: Db, u: Id)
    requires ForeignKeys(db)
    ensures RunChecked(db, UserCascade(u))
            == if UserCascadeClosed(db, u) then Some(WithoutUser(db, u)) else None
    ensures UserCascadeClosed(db, u) ==> ForeignKeys(WithoutUser(db, u))
  {
    hide ForeignKeys, RunChecked, UserCascadeClosed, OutlivesUser, Unreferenced, UserCascade, WithoutUser,
      NoticesWithout, FollowsWithout, CommentsWithout, SightingsWithout, DucksWithout, FlocksWithout, UsersWithout;
    var own := [DucksOf(u)] + ([FlocksOf(u)] + [Account(u)]);
    var sight := [SightingsBy(u)] + ([SightingsOnDucksOf(u)] + own);
    var talk := [CommentsBy(u)] + ([CommentsOnDucksOf(u)] + sight);
    var track := [FollowsBy(u)] + ([FollowsOnDucksOf(u)] + talk);
    UserCascadeSplit(u);
    StagesCompose(db, u);
    NoticeStagesCompose(db, u);
    NoticesStage(db, u, track);
    FollowsStage(AfterStage(db, u, 1), u, talk);
    CommentsStage(AfterStage(db, u, 2), u, sight);
    SightingsStage(AfterStage(db, u, 3), u, own);
    if UserCascadeClosed(db, u) {
      OwnershipStage(AfterStage(db, u, 4), u);
    }
  }

  lemma AgreementCloses(db: Db, u: Id)
    requires NoticesAgree(db)
    ensures UserCascadeClosed(db, u)
  {
  }

  lemma AccountGoesIff(db: Db, u: Id)
    ensures WithoutUser(db, u).users == db.users <==> u !in db.users || db.users[u].isAdmin
  {
    if u in db.users && !db.users[u].isAdmin {
      assert u !in WithoutUser(db, u).users;
    }
  }

  /** Deleting a user: the filter and the orphaned keys for an ordinary account, nothing at all
      for an admin or an absent one. */
  lemma DeleteUserIsFilter(db: Db, u: Id)
    requires ForeignKeys(db) && NoticesAgree(db)
    ensures DeleteUser(db, u)
            == if u in db.users && !db.users[u].isAdmin
               then (Ok(Some(UserPhotoKeys(db, u))), WithoutUser(db, u)) else (Ok(None), db)
    ensures ForeignKeys(DeleteUser(db, u).1)
  {
    hide ForeignKeys, RunChecked, UserCascadeClosed, NoticesAgree, UserCascade, WithoutUser;
    AgreementCloses(db, u);
    UserCascadeIsFilter(db, u);
    AccountGoesIff(db, u);
  }

  // ----- The flock cascade is the filter ------------------------------------------------------

  predicate InFlock(ducks: map<Id, DuckRow>, f: Id, d: Id) {
    d in ducks && ducks[d].flock == f
  }

  function NoticesOutside(db: Db, f: Id): map<Id, NotificationRow> {
    map n | n in db.notifications && !InFlock(db.ducks, f, db.notifications[n].duck) :: db.notifications[n]
  }

  function FollowsOutside(db: Db, f: Id): set<(Id, Id)> {
    set p | p in db.follows && !InFlock(db.ducks, f, p.1)
  }

  function CommentsOutside(db: Db, f: Id): map<Id, CommentRow> {
    map c | c in db.comments && !InFlock(db.ducks, f, db.comments[c].duck) :: db.comments[c]
  }

  function SightingsOutside(db: Db, f: Id): map<Id, SightingRow> {
    map s | s in db.sightings && !InFlock(db.ducks, f, db.sightings[s].duck) :: db.sightings[s]
  }

  function DucksOutside(db: Db, f: Id): map<Id, DuckRow> {
    map d | d in db.ducks && db.ducks[d].flock != f :: db.ducks[d]
  }

  function WithoutFlock(db: Db, f: Id): Db {
    db.(flocks := db.flocks - {f}, ducks := DucksOutside(db, f), sightings := SightingsOutside(db, f),
        comments := CommentsOutside(db, f), follows := FollowsOutside(db, f), notifications := NoticesOutside(db, f))
  }

  predicate FlockCascadeClosed(db: Db, f: Id) {
    forall n | n in db.notifications && !InFlock(db.ducks, f, db.notifications[n].duck)
               && db.notifications[n].sighting in db.sightings ::
      !InFlock(db.ducks, f, db.sightings[db.notifications[n].sighting].duck)
  }

  lemma FlockJoins(db: Db, f: Id)
    ensures forall d :: OnDuckIn(db, f, d) <==> InFlock(db.ducks, f, d)
  {
  }

  lemma FlockNoticeStatement(db: Db, f: Id)
    ensures Exec(db, NotificationsInFlock(f)) == db.(notifications := NoticesOutside(db, f))
  {
    hide OnDuckIn, InFlock;
    FlockJoins(db, f);
    assert db.notifications - Matching(db, NotificationsInFlock(f)) == NoticesOutside(db, f);
  }

  lemma FlockFollowStatement(db: Db, f: Id)
    ensures Exec(db, FollowsInFlock(f)) == db.(follows := FollowsOutside(db, f))
  {
    hide OnDuckIn, InFlock;
    FlockJoins(db, f);
    assert db.follows - MatchingFollows(db, FollowsInFlock(f)) == FollowsOutside(db, f);
  }

  lemma FlockCommentStatement(db: Db, f: Id)
    ensures Exec(db, CommentsInFlock(f)) == db.(comments := CommentsOutside(db, f))
  {
    hide OnDuckIn, InFlock;
    FlockJoins(db, f);
    assert db.comments - Matching(db, CommentsInFlock(f)) == CommentsOutside(db, f);
  }

  lemma FlockStatements(db: Db, f: Id)
    ensures Exec(db, NotificationsInFlock(f)) == db.(notifications := NoticesOutside(db, f))
    ensures Exec(db, FollowsInFlock(f)) == db.(follows := FollowsOutside(db, f))
    ensures Exec(db, CommentsInFlock(f)) == db.(comments := CommentsOutside(db, f))
  {
    hide *;
    FlockNoticeStatement(db, f);
    FlockFollowStatement(db, f);
    FlockCommentStatement(db, f);
  }

  lemma FlockSightingStatement(db: Db, f: Id)
    ensures Exec(db, SightingsInFlock(f)) == db.(sightings := SightingsOutside(db, f))
  {
    hide OnDuckIn, InFlock;
    FlockJoins(db, f);
    assert db.sightings - Matching(db, SightingsInFlock(f)) == SightingsOutside(db, f);
  }

  lemma FlockRowStatements(db: Db, f: Id)
    ensures Exec(db, SightingsInFlock(f)) == db.(sightings := SightingsOutside(db, f))
    ensures Exec(db, DucksInFlock(f)) == db.(ducks := DucksOutside(db, f))
    ensures Exec(db, Flock(f)) == db.(flocks := db.flocks - {f})
  {
    hide Exec, OnDuckIn, Matching, SightingsOutside, DucksOutside, InFlock;
    FlockSightingStatement(db, f);
    FlockDuckStatement(db, f);
    FlockItselfStatement(db, f);
  }

  lemma FlockDuckStatement(db: Db, f: Id)
    ensures Exec(db, DucksInFlock(f)) == db.(ducks := DucksOutside(db, f))
  {
    assert db.ducks - Matching(db, DucksInFlock(f)) == DucksOutside(db, f);
  }

  lemma FlockItselfStatement(db: Db, f: Id)
    ensures Exec(db, Flock(f)) == db.(flocks := db.flocks - {f})
  {
    assert db.flocks - Matching(db, Flock(f)) == db.flocks - {f};
  }

  predicate FlockUnreferenced(db: Db, f: Id) {
    && (forall n | n in db.notifications :: !InFlock(db.ducks, f, db.notifications[n].duck))
    && (forall s | s in db.sightings :: !InFlock(db.ducks, f, db.sightings[s].duck))
    && (forall c | c in db.comments :: !InFlock(db.ducks, f, db.comments[c].duck))
    && (forall p | p in db.follows :: !InFlock(db.ducks, f, p.1))
  }

  lemma FlockDucksRemovable(db: Db, f: Id)
    requires ForeignKeys(db) && FlockUnreferenced(db, f)
    ensures ForeignKeys(db.(ducks := DucksOutside(db, f)))
    ensures ForeignKeys(db.(ducks := DucksOutside(db, f), flocks := db.flocks - {f}))
  {
    hide FlockKeys;
    assert FlockKeys(db.flocks - {f}, db.users) by {
      FewerFlocks(db, f);
    }
  }

  lemma FewerFlocks(db: Db, f: Id)
    requires FlockKeys(db.flocks, db.users)
    ensures FlockKeys(db.flocks - {f}, db.users)
  {
  }

  lemma FlockTail(db: Db, f: Id)
    requires ForeignKeys(db) && FlockUnreferenced(db, f)
    ensures var end := db.(ducks := DucksOutside(db, f), flocks := db.flocks - {f});
            RunChecked(db, [DucksInFlock(f)] + [Flock(f)]) == Some(end) && ForeignKeys(end)
  {
    hide ForeignKeys, RunChecked, DucksOutside, FlockUnreferenced, Exec;
    FlockRowStatements(db, f);
    FlockDucksRemovable(db, f);
    var d1 := db.(ducks := DucksOutside(db, f));
    FlockRowStatements(d1, f);
    RunOne(d1, Flock(f));
    RunCons(db, DucksInFlock(f), [Flock(f)], d1);
  }

  function FlockStage(db: Db, f: Id): Db {
    db.(notifications := NoticesOutside(db, f), follows := FollowsOutside(db, f), comments := CommentsOutside(db, f))
  }

  lemma FlockTalk(db: Db, f: Id, rest: seq<Delete>)
    requires ForeignKeys(db)
    ensures RunChecked(db, [NotificationsInFlock(f)] + ([FollowsInFlock(f)] + ([CommentsInFlock(f)] + rest)))
            == RunChecked(FlockStage(db, f), rest)
    ensures ForeignKeys(FlockStage(db, f))
  {
    hide Exec, ForeignKeys, RunChecked, InFlock;
    var d1 := db.(notifications := NoticesOutside(db, f));
    var d2 := d1.(follows := FollowsOutside(d1, f));
    var d3 := d2.(comments := CommentsOutside(d2, f));
    FlockStatements(db, f);
    FlockStatements(d1, f);
    FlockStatements(d2, f);
    ShrinkNotices(db, d1.notifications);
    ShrinkFollows(d1, d2.follows);
    ShrinkComments(d2, d3.comments);
    RunCons(d2, CommentsInFlock(f), rest, d3);
    RunCons(d1, FollowsInFlock(f), [CommentsInFlock(f)] + rest, d2);
    RunCons(db, NotificationsInFlock(f), [FollowsInFlock(f)] + ([CommentsInFlock(f)] + rest), d1);
    assert d3 == FlockStage(db, f);
  }

  lemma FlockSightings(db: Db, f: Id, rest: seq<Delete>)
    requires ForeignKeys(db)
    ensures var after := FlockStage(db, f).(sightings := SightingsOutside(db, f));
            && RunChecked(FlockStage(db, f), [SightingsInFlock(f)] + rest)
               == (if FlockCascadeClosed(db, f) then RunChecked(after, rest) else None)
            && (FlockCascadeClosed(db, f) ==> ForeignKeys(after))
  {
    NoticesNameSightings(db);
    hide Exec, RunChecked, InFlock, ForeignKeys;
    var e := FlockStage(db, f);
    var kept := SightingsOutside(db, f);
    FlockTalk(db, f, []);
    FlockRowStatements(e, f);
    assert SightingsOutside(e, f) == kept;
    ShrinkSightings(e, kept);
    assert FlockCascadeClosed(db, f) <==> forall n | n in e.notifications :: e.notifications[n].sighting in kept by {
      assert forall n | n in e.notifications :: db.notifications[n].sighting in db.sightings;
      if forall n | n in e.notifications :: e.notifications[n].sighting in kept {
        assert forall n | n in db.notifications && !InFlock(db.ducks, f, db.notifications[n].duck) ::
            n in e.notifications;
      }
    }
    RunCons(e, SightingsInFlock(f), rest, e.(sightings := kept));
  }

  /** Six statements equal one simultaneous filter, exactly when no notice about a duck elsewhere names
      a sighting of a duck in the flock. */
  lemma FlockCascadeIsFilter(db: Db, f: Id)
    requires ForeignKeys(db)
    ensures RunChecked(db, FlockCascade(f))
            == if FlockCascadeClosed(db, f) then Some(WithoutFlock(db, f)) else None
    ensures FlockCascadeClosed(db, f) ==> ForeignKeys(WithoutFlock(db, f))
  {
    hide ForeignKeys, RunChecked, FlockCascadeClosed, InFlock;
    var tail := [DucksInFlock(f)] + [Flock(f)];
    var talk := [SightingsInFlock(f)] + tail;
    assert FlockCascade(f) == [NotificationsInFlock(f)] + ([FollowsInFlock(f)] + ([CommentsInFlock(f)] + talk));
    FlockTalk(db, f, talk);
    FlockSightings(db, f, tail);
    if FlockCascadeClosed(db, f) {
      var e := FlockStage(db, f).(sightings := SightingsOutside(db, f));
      FlockTail(e, f);
      assert DucksOutside(e, f) == DucksOutside(db, f);
    }
  }

  lemma DeleteFlockIsFilter(db: Db, f: Id)
    requires ForeignKeys(db) && NoticesAgree(db)
    ensures DeleteFlock(db, f)
            == (Ok(if f in db.flocks then Some(FlockPhotoKeys(db, f)) else None), WithoutFlock(db, f))
    ensures ForeignKeys(WithoutFlock(db, f))
    ensures f !in db.flocks ==> WithoutFlock(db, f) == db
  {
    FlockAgreementCloses(db, f);
    AbsentFlock(db, f);
    hide ForeignKeys, RunChecked, FlockCascadeClosed, NoticesAgree, FlockCascade, WithoutFlock;
    FlockCascadeIsFilter(db, f);
  }

  lemma FlockAgreementCloses(db: Db, f: Id)
    requires NoticesAgree(db)
    ensures FlockCascadeClosed(db, f)
  {
  }

  lemma AbsentFlock(db: Db, f: Id)
    requires ForeignKeys(db)
    ensures f !in db.flocks ==> WithoutFlock(db, f) == db
  {
    if f !in db.flocks {
      assert forall d | d in db.ducks :: db.ducks[d].flock != f;
      assert db.flocks - {f} == db.flocks;
      assert DucksOutside(db, f) == db.ducks && SightingsOutside(db, f) == db.sightings;
      assert CommentsOutside(db, f) == db.comments && FollowsOutside(db, f) == db.follows;
      assert NoticesOutside(db, f) == db.notifications;
    }
  }
}
