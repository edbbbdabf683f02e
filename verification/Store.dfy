/** What each repository statement does to the database, as functions of the tables. */
module Store {
  import opened Wrappers
  import opened Schema
  import Codes
  import Profanity

  // ----- Lookups --------------------------------------------------------------

  /** The row a unique-column SELECT returns, scanning identities below `n`. */
  function FindFlock(flocks: map<Id, FlockRow>, code: string, n: nat): (r: Option<Id>)
    ensures r.Some? ==> r.value in flocks && flocks[r.value].code == code && r.value < n
    ensures r.None? ==> forall f | f in flocks && f < n :: flocks[f].code != code
  {
    if n == 0 then None
    else if n - 1 in flocks && flocks[n - 1].code == code then Some(n - 1)
    else FindFlock(flocks, code, n - 1)
  }

  function FindDuck(ducks: map<Id, DuckRow>, flock: Id, seqNo: int, n: nat): (r: Option<Id>)
    ensures r.Some? ==>
              r.value in ducks && ducks[r.value].flock == flock && ducks[r.value].seqNo == seqNo && r.value < n
    ensures r.None? ==> forall d | d in ducks && d < n :: !(ducks[d].flock == flock && ducks[d].seqNo == seqNo)
  {
    if n == 0 then None
    else if n - 1 in ducks && ducks[n - 1].flock == flock && ducks[n - 1].seqNo == seqNo then Some(n - 1)
    else FindDuck(ducks, flock, seqNo, n - 1)
  }

  function FindUser(users: map<Id, UserRow>, issuer: string, subject: string, n: nat): (r: Option<Id>)
    ensures r.Some? ==> r.value in users && users[r.value].issuer == issuer && users[r.value].subject == subject
    ensures r.None? ==> forall u | u in users && u < n :: !(users[u].issuer == issuer && users[u].subject == subject)
  {
    if n == 0 then None
    else if n - 1 in users && users[n - 1].issuer == issuer && users[n - 1].subject == subject then Some(n - 1)
    else FindUser(users, issuer, subject, n - 1)
  }

  /** `COALESCE(MAX(flock_seq), 0)` over the identities below `n`. */
  function MaxSeq(ducks: map<Id, DuckRow>, flock: Id, n: nat): (m: int)
    ensures m >= 0
    ensures forall d | d in ducks && d < n && ducks[d].flock == flock :: ducks[d].seqNo <= m
    ensures m > 0 ==> exists d | d in ducks && d < n :: ducks[d].flock == flock && ducks[d].seqNo == m
  {
    if n == 0 then 0
    else
      var rest := MaxSeq(ducks, flock, n - 1);
      if n - 1 in ducks && ducks[n - 1].flock == flock && ducks[n - 1].seqNo > rest
      then ducks[n - 1].seqNo else rest
  }

  /** Insert `rows` under consecutive identities. */
  function Append<R>(m: map<Id, R>, next: Id, rows: seq<R>): (r: map<Id, R>)
    ensures forall i :: i in r <==> i in m || next <= i < next + |rows|
    ensures forall i | i in r :: r[i] == if next <= i < next + |rows| then rows[i - next] else m[i]
    decreases |rows|
  {
    if rows == [] then m else Append(m[next := rows[0]], next + 1, rows[1..])
  }

  lemma {:induction false} AppendSplits<R>(m: map<Id, R>, next: Id, rows: seq<R>)
    requires forall i | i in m :: i < next
    ensures var r := Append(m, next, rows);
            && (forall i | i in m :: i in r && r[i] == m[i])
            && (forall k | 0 <= k < |rows| :: next + k in r && r[next + k] == rows[k])
            && (forall i | i in r && i < next :: i in m)
            && (forall i | i in r && i >= next :: i - next < |rows| && r[i] == rows[i - next])
  {
  }

  // ----- Users and flocks -------------------------------------------------------

  function Coalesce<T>(a: Option<T>, b: Option<T>): Option<T> {
    if a.Some? then a else b
  }

  /** A known account after signing in: what was sent replaces what was known, the admin flag only ever rises. */
  function Renewed(r: UserRow, displayName: Option<string>, email: Option<string>, grantAdmin: bool): UserRow {
    r.(displayName := Coalesce(displayName, r.displayName), email := Coalesce(email, r.email),
       isAdmin := r.isAdmin || grantAdmin)
  }

  function Upsert(db: Db, issuer: string, subject: string, displayName: Option<string>, email: Option<string>,
                  grantAdmin: bool): Db
  {
    match FindUser(db.users, issuer, subject, db.next.user)
    case Some(u) =>
      db.(users := db.users[u := Renewed(db.users[u], displayName, email, grantAdmin)],
          next := db.next.(user := db.next.user + 1))
    case None =>
      db.(users := db.users[db.next.user := UserRow(issuer, subject, displayName, email, grantAdmin)],
          next := db.next.(user := db.next.user + 1))
  }

  const MAX_DRAWS: nat := 64

  /** `INSERT ... ON CONFLICT (flock_code) DO NOTHING`, once per usable draw. The identity
      sequence advances even when the insert does nothing. */
  function CreateFlock(db: Db, owner: Id, generation: nat, flockLabel: Option<string>, draws: seq<string>)
    : (Result<Id, RepoError>, Db)
    decreases |draws|
  {
    if draws == [] then (Err(Corrupt("flock")), db)
    else if Profanity.Matches(draws[0]) then CreateFlock(db, owner, generation, flockLabel, draws[1..])
    else
      var id := db.next.flock;
      var burnt := db.(next := db.next.(flock := id + 1));
      if FindFlock(db.flocks, draws[0], id).Some? then CreateFlock(burnt, owner, generation, flockLabel, draws[1..])
      else if owner !in db.users then (Err(Sql(ForeignKey)), burnt)
      else (Ok(id), burnt.(flocks := db.flocks[id := FlockRow(draws[0], generation, owner, flockLabel)]))
  }

  /** A draw can be handed out: it is not rude and no flock has it. */
  predicate Usable(flocks: map<Id, FlockRow>, draw: string) {
    !Profanity.Matches(draw) && forall f | f in flocks :: flocks[f].code != draw
  }

  /** The position of the first usable draw. */
  function FirstUsable(flocks: map<Id, FlockRow>, draws: seq<string>): (k: Option<nat>)
    ensures k.Some? ==> k.value < |draws| && Usable(flocks, draws[k.value])
                        && forall j | 0 <= j < k.value :: !Usable(flocks, draws[j])
    ensures k.None? ==> forall j | 0 <= j < |draws| :: !Usable(flocks, draws[j])
  {
    if draws == [] then None
    else if Usable(flocks, draws[0]) then Some(0)
    else
      match FirstUsable(flocks, draws[1..])
      case None => None
      case Some(k) =>
        assert forall j | 0 < j < k + 1 :: draws[j] == draws[1..][j - 1];
        Some(k + 1)
  }

  /** What the draw loop leaves when its first usable draw, if any, is `prefix`: a new flock of an existing owner,
      or a failure that changes no flock; identities may be used up. */
  predicate Drew(db: Db, owner: Id, generation: nat, flockLabel: Option<string>, prefix: Option<string>,
                 r: Result<Id, RepoError>, after: Db)
  {
    && (r == Err(Corrupt("flock")) <==> prefix.None?)
    && (r == Err(Sql(ForeignKey)) <==> prefix.Some? && owner !in db.users)
    && (r.Ok? <==> prefix.Some? && owner in db.users)
    && (r.Ok? ==> r.value !in db.flocks && db.next.flock <= r.value < after.next.flock)
    && after == db.(flocks := if r.Ok? && prefix.Some?
                              then db.flocks[r.value := FlockRow(prefix.value, generation, owner, flockLabel)]
                              else db.flocks,
                    next := db.next.(flock := after.next.flock))
  }

  function FirstUsableDraw(flocks: map<Id, FlockRow>, draws: seq<string>): Option<string> {
    var k := FirstUsable(flocks, draws);
    if k.Some? then Some(draws[k.value]) else None
  }

  /** The draws give their first usable prefix to a new flock; they run out exactly when none is usable. */
  lemma {:induction false} DrawsGiveFirstUsable(db: Db, owner: Id, generation: nat, flockLabel: Option<string>,
                                                draws: seq<string>)
    requires forall f | f in db.flocks :: f < db.next.flock
    ensures var (r, after) := CreateFlock(db, owner, generation, flockLabel, draws);
            Drew(db, owner, generation, flockLabel, FirstUsableDraw(db.flocks, draws), r, after)
    decreases |draws|
  {
    hide Usable, CreateFlock, FirstUsable, FirstUsableDraw, Profanity.Matches, Drew;
    DrawStep(db, owner, generation, flockLabel, draws);
    FirstUsableStep(db.flocks, draws);
    DrewAtOnce(db, owner, generation, flockLabel, if draws == [] then "" else draws[0]);
    if draws != [] && !Usable(db.flocks, draws[0]) {
      var burnt := db.(next := db.next.(flock := db.next.flock + 1));
      var rest := CreateFlock(burnt, owner, generation, flockLabel, draws[1..]);
      DrawsGiveFirstUsable(db, owner, generation, flockLabel, draws[1..]);
      DrawsGiveFirstUsable(burnt, owner, generation, flockLabel, draws[1..]);
      DrewLater(db, owner, generation, flockLabel, FirstUsableDraw(db.flocks, draws[1..]), rest.0, rest.1);
    }
  }

  lemma FirstUsableStep(flocks: map<Id, FlockRow>, draws: seq<string>)
    ensures FirstUsableDraw(flocks, draws)
            == if draws == [] then None
               else if Usable(flocks, draws[0]) then Some(draws[0])
               else FirstUsableDraw(flocks, draws[1..])
  {
    hide Usable;
  }

  lemma DrewAtOnce(db: Db, owner: Id, generation: nat, flockLabel: Option<string>, draw: string)
    requires forall f | f in db.flocks :: f < db.next.flock
    ensures var (id, burnt) := (db.next.flock, db.(next := db.next.(flock := db.next.flock + 1)));
            && Drew(db, owner, generation, flockLabel, None, Err(Corrupt("flock")), db)
            && (owner !in db.users ==> Drew(db, owner, generation, flockLabel, Some(draw), Err(Sql(ForeignKey)), burnt))
            && (owner in db.users ==>
                  Drew(db, owner, generation, flockLabel, Some(draw), Ok(id),
                       burnt.(flocks := db.flocks[id := FlockRow(draw, generation, owner, flockLabel)])))
  {
  }

  lemma DrewLater(db: Db, owner: Id, generation: nat, flockLabel: Option<string>, prefix: Option<string>,
                  r: Result<Id, RepoError>, after: Db)
    requires Drew(db.(next := db.next.(flock := db.next.flock + 1)), owner, generation, flockLabel, prefix, r, after)
    ensures Drew(db, owner, generation, flockLabel, prefix, r, after)
  {
  }

  /** One turn of the draw loop. */
  lemma DrawStep(db: Db, owner: Id, generation: nat, flockLabel: Option<string>, draws: seq<string>)
    requires forall f | f in db.flocks :: f < db.next.flock
    ensures draws == [] ==> CreateFlock(db, owner, generation, flockLabel, draws) == (Err(Corrupt("flock")), db)
    ensures draws != [] ==>
              var (id, burnt) := (db.next.flock, db.(next := db.next.(flock := db.next.flock + 1)));
              CreateFlock(db, owner, generation, flockLabel, draws)
              == if Usable(db.flocks, draws[0]) then
                   if owner !in db.users then (Err(Sql(ForeignKey)), burnt)
                   else (Ok(id), burnt.(flocks := db.flocks[id := FlockRow(draws[0], generation, owner, flockLabel)]))
                 else CreateFlock(if Profanity.Matches(draws[0]) then db else burnt, owner, generation, flockLabel,
                                  draws[1..])
  {
    hide Profanity.Matches, Usable, FindFlock;
    if draws != [] {
      UsableDraw(db, draws[0]);
    }
  }

  lemma UsableDraw(db: Db, draw: string)
    requires forall f | f in db.flocks :: f < db.next.flock
    ensures Usable(db.flocks, draw)
            <==> !Profanity.Matches(draw) && FindFlock(db.flocks, draw, db.next.flock).None?
  {
    hide Profanity.Matches;
  }

  // ----- Minting ------------------------------------------------------------------

  type Entry = (nat, string)

  /** The allocation loop from `candidate` on: skip what `encode` refuses, stop at the ceiling. */
  function Allocate(encode: nat -> Option<string>, candidate: nat, count: nat): Option<seq<Entry>>
    decreases if candidate <= Codes.MAX_SEQ then Codes.MAX_SEQ + 1 - candidate else 0
  {
    if count == 0 then Some([])
    else if !Codes.IsSeq(candidate) then None
    else
      match encode(candidate)
      case None => Allocate(encode, candidate + 1, count)
      case Some(code) =>
        match Allocate(encode, candidate + 1, count - 1)
        case None => None
        case Some(rest) => Some([(candidate, code)] + rest)
  }

  function Minted(flock: Id, entries: seq<Entry>): (rows: seq<DuckRow>)
    ensures |rows| == |entries|
  {
    seq(|entries|, i requires 0 <= i < |entries| =>
      DuckRow(entries[i].1, flock, entries[i].0, None, None, None, None, None, None, None, None))
  }

  /** Whether inserting `rows` breaks a UNIQUE constraint, against the table or among themselves. */
  predicate InsertClashes(ducks: map<Id, DuckRow>, rows: seq<DuckRow>) {
    || (exists d, i | d in ducks && 0 <= i < |rows| :: DucksClash(ducks[d], rows[i]))
    || (exists i, j | 0 <= i < j < |rows| :: DucksClash(rows[i], rows[j]))
  }

  function InsertDucks(db: Db, flock: Id, rows: seq<DuckRow>): Result<Db, RepoError> {
    if rows != [] && flock !in db.flocks then Err(Sql(ForeignKey))
    else if InsertClashes(db.ducks, rows) then Err(Sql(Unique))
    else Ok(db.(ducks := Append(db.ducks, db.next.duck, rows),
                next := db.next.(duck := db.next.duck + |rows|)))
  }

  /** The whole mint transaction when nothing else runs. */
  function MintBatch(db: Db, flock: Id, count: nat, encode: nat -> Option<string>)
    : (Result<seq<Entry>, RepoError>, Db)
  {
    match Allocate(encode, MaxSeq(db.ducks, flock, db.next.duck) + 1, count)
    case None => (Err(FlockFull), db)
    case Some(entries) =>
      match InsertDucks(db, flock, Minted(flock, entries))
      case Err(e) => (Err(e), db)
      case Ok(after) => (Ok(entries), after)
  }

  // ----- A duck's row ---------------------------------------------------------------

  function Stage(db: Db, d: Id, description: string, name: Option<string>, photo: PhotoRef, now: Time): Db {
    if d in db.ducks && db.ducks[d].originatedAt.None? then
      db.(ducks := db.ducks[d := db.ducks[d].(originatedAt := Some(now), description := Some(description),
                                              name := name, photoKey := Some(photo.key),
                                              photoType := Some(photo.contentType))])
    else db
  }

  function SetSail(db: Db, d: Id, now: Time): Db {
    if d in db.ducks && db.ducks[d].originatedAt.Some? && db.ducks[d].setSailAt.None? then
      db.(ducks := db.ducks[d := db.ducks[d].(setSailAt := Some(now))])
    else db
  }

  /** Setting a mark keeps the time it was first set; clearing removes it. */
  function Mark(was: Option<Time>, on: bool, now: Time): Option<Time> {
    if !on then None else if was.Some? then was else Some(now)
  }

  function SetDeleted(db: Db, d: Id, deleted: bool, now: Time): Db {
    if d in db.ducks then
      db.(ducks := db.ducks[d := db.ducks[d].(deletedAt := Mark(db.ducks[d].deletedAt, deleted, now))])
    else db
  }

  function SetCommentsLocked(db: Db, d: Id, locked: bool, now: Time): Db {
    if d in db.ducks then
      db.(ducks := db.ducks[d := db.ducks[d].(commentsLockedAt := Mark(db.ducks[d].commentsLockedAt, locked, now))])
    else db
  }

  // ----- Sightings, comments, follows --------------------------------------------------

  /** The followers of `duck` other than the finder, among user identities below `n`. */
  function Notified(follows: set<(Id, Id)>, duck: Id, finder: Id, n: nat): seq<Id> {
    if n == 0 then []
    else if (n - 1, duck) in follows && n - 1 != finder then Notified(follows, duck, finder, n - 1) + [n - 1]
    else Notified(follows, duck, finder, n - 1)
  }

  function Notices(users: seq<Id>, duck: Id, sighting: Id): seq<NotificationRow> {
    seq(|users|, i requires 0 <= i < |users| => NotificationRow(users[i], duck, sighting, None))
  }

  /** One transaction: the sighting, a notice per other follower, then the finder follows. */
  function LogSighting(db: Db, r: SightingRow): Result<Db, RepoError> {
    if !SightingRefs(db.ducks, db.vessels, db.users, r) then Err(Sql(ForeignKey))
    else
      var sid := db.next.sighting;
      var rows := Notices(Notified(db.follows, r.duck, r.user, db.next.user), r.duck, sid);
      Ok(db.(sightings := db.sightings[sid := r],
             notifications := Append(db.notifications, db.next.notification, rows),
             follows := db.follows + {(r.user, r.duck)},
             next := db.next.(sighting := sid + 1, notification := db.next.notification + |rows|)))
  }

  /** Removes the notices of `sighting` whatever its duck, the sighting only when the duck matches. */
  function DeleteSighting(db: Db, sighting: Id, duck: Id): Db {
    db.(notifications := map n | n in db.notifications && db.notifications[n].sighting != sighting
                           :: db.notifications[n],
        sightings := if sighting in db.sightings && db.sightings[sighting].duck == duck
                     then db.sightings - {sighting} else db.sightings)
  }

  function AddComment(db: Db, duck: Id, user: Id, body: string): Result<Db, RepoError> {
    if duck !in db.ducks || user !in db.users then Err(Sql(ForeignKey))
    else Ok(db.(comments := db.comments[db.next.comment := CommentRow(duck, user, body)],
                next := db.next.(comment := db.next.comment + 1)))
  }

  function DeleteComment(db: Db, comment: Id, duck: Id): Db {
    if comment in db.comments && db.comments[comment].duck == duck
    then db.(comments := db.comments - {comment}) else db
  }

  function Follow(db: Db, user: Id, duck: Id): Result<Db, RepoError> {
    if (user, duck) in db.follows then Ok(db)
    else if user !in db.users || duck !in db.ducks then Err(Sql(ForeignKey))
    else Ok(db.(follows := db.follows + {(user, duck)}))
  }

  function Unfollow(db: Db, user: Id, duck: Id): Db {
    db.(follows := db.follows - {(user, duck)})
  }

  function MarkAllRead(db: Db, user: Id, now: Time): Db {
    db.(notifications := map n | n in db.notifications ::
          var r := db.notifications[n];
          if r.user == user && r.readAt.None? then r.(readAt := Some(now)) else r)
  }

  // ----- Facts about fan-out --------------------------------------------------------------

  /** Ascending, without repeats, and exactly the other followers. */
  lemma {:induction false} NotifiedExactly(follows: set<(Id, Id)>, duck: Id, finder: Id, n: nat)
    ensures var us := Notified(follows, duck, finder, n);
            && (forall i, j | 0 <= i < j < |us| :: us[i] < us[j])
            && (forall u :: u in us <==> u < n && (u, duck) in follows && u != finder)
  {
    if n > 0 {
      NotifiedExactly(follows, duck, finder, n - 1);
      var (us, before) := (Notified(follows, duck, finder, n), Notified(follows, duck, finder, n - 1));
      assert us == before || us == before + [n - 1];
      assert forall i | 0 <= i < |before| :: before[i] in before;
    }
  }

  // ----- The allocation loop, characterised --------------------------------------------------

  predicate Accepts(encode: nat -> Option<string>, s: nat) {
    encode(s).Some?
  }

  /** `entries` are the first acceptable numbers from `candidate` on: increasing, none skipped. */
  ghost predicate FirstAcceptable(encode: nat -> Option<string>, candidate: nat, entries: seq<Entry>) {
    && (forall i | 0 <= i < |entries| ::
          && candidate <= entries[i].0 <= Codes.MAX_SEQ
          && encode(entries[i].0) == Some(entries[i].1))
    && (forall i, j | 0 <= i < j < |entries| :: entries[i].0 < entries[j].0)
    && (forall s: nat | candidate <= s && entries != [] && s <= entries[|entries| - 1].0 && Accepts(encode, s) ::
          exists i | 0 <= i < |entries| :: entries[i].0 == s)
  }

  function Acceptable(encode: nat -> Option<string>, candidate: nat): set<nat> {
    set s: nat | candidate <= s <= Codes.MAX_SEQ && Accepts(encode, s)
  }

  lemma AcceptableStep(encode: nat -> Option<string>, candidate: nat)
    ensures candidate > Codes.MAX_SEQ ==> |Acceptable(encode, candidate)| == 0
    ensures candidate <= Codes.MAX_SEQ ==>
              |Acceptable(encode, candidate)|
              == |Acceptable(encode, candidate + 1)| + (if Accepts(encode, candidate) then 1 else 0)
  {
    var (here, later) := (Acceptable(encode, candidate), Acceptable(encode, candidate + 1));
    if candidate > Codes.MAX_SEQ {
      assert here == {};
    } else if Accepts(encode, candidate) {
      assert here == later + {candidate};
    } else {
      assert here == later;
    }
  }

  /** The loop reports a full flock exactly when fewer than `count` acceptable numbers are left. */
  lemma {:induction false} AllocateFullIff(encode: nat -> Option<string>, candidate: nat, count: nat)
    requires candidate >= 1
    ensures Allocate(encode, candidate, count).None? <==> |Acceptable(encode, candidate)| < count
    decreases if candidate <= Codes.MAX_SEQ then Codes.MAX_SEQ + 1 - candidate else 0
  {
    hide Allocate, Acceptable;
    AllocateStep(encode, candidate, count);
    AcceptableStep(encode, candidate);
    if count > 0 && candidate <= Codes.MAX_SEQ {
      AllocateFullIff(encode, candidate + 1, if encode(candidate).None? then count else count - 1);
    }
  }

  /** When it succeeds the loop yields exactly the first `count` acceptable numbers. */
  lemma {:induction false} AllocateIsFirst(encode: nat -> Option<string>, candidate: nat, count: nat)
    requires candidate >= 1
    ensures match Allocate(encode, candidate, count)
            case Some(entries) => |entries| == count && FirstAcceptable(encode, candidate, entries)
            case None => true
    decreases if candidate <= Codes.MAX_SEQ then Codes.MAX_SEQ + 1 - candidate else 0
  {
    hide Allocate, FirstAcceptable;
    AllocateStep(encode, candidate, count);
    if count == 0 {
      NothingAllocated(encode, candidate);
    } else if candidate <= Codes.MAX_SEQ {
      match encode(candidate)
      case None =>
        AllocateIsFirst(encode, candidate + 1, count);
        FirstAcceptableSkip(encode, candidate);
      case Some(code) =>
        AllocateIsFirst(encode, candidate + 1, count - 1);
        if Allocate(encode, candidate + 1, count - 1).Some? {
          FirstAcceptableCons(encode, candidate, code, Allocate(encode, candidate + 1, count - 1).value);
        }
    }
  }

  lemma NothingAllocated(encode: nat -> Option<string>, candidate: nat)
    ensures FirstAcceptable(encode, candidate, [])
  {
  }

  lemma FirstAcceptableSkip(encode: nat -> Option<string>, candidate: nat)
    requires encode(candidate).None?
    ensures forall entries :: FirstAcceptable(encode, candidate + 1, entries) ==>
              FirstAcceptable(encode, candidate, entries)
  {
  }

  lemma FirstAcceptableCons(encode: nat -> Option<string>, candidate: nat, code: string, rest: seq<Entry>)
    requires candidate <= Codes.MAX_SEQ && encode(candidate) == Some(code)
    requires FirstAcceptable(encode, candidate + 1, rest)
    ensures FirstAcceptable(encode, candidate, [(candidate, code)] + rest)
  {
    var entries := [(candidate, code)] + rest;
    forall s: nat | candidate <= s && s <= entries[|entries| - 1].0 && Accepts(encode, s)
      ensures exists i | 0 <= i < |entries| :: entries[i].0 == s
    {
      if s == candidate {
        assert entries[0].0 == s;
      } else {
        var i :| 0 <= i < |rest| && rest[i].0 == s;
        assert entries[i + 1].0 == s;
      }
    }
  }

  /** Minting `a` and then `b` allocates what minting `a + b` at once does. */
  lemma {:induction false} AllocateSplits(encode: nat -> Option<string>, candidate: nat, a: nat, b: nat)
    requires candidate >= 1 && a > 0
    ensures match Allocate(encode, candidate, a)
            case None => Allocate(encode, candidate, a + b).None?
            case Some(first) =>
              && |first| == a
              && match Allocate(encode, first[a - 1].0 + 1, b)
                 case None => Allocate(encode, candidate, a + b).None?
                 case Some(second) => Allocate(encode, candidate, a + b) == Some(first + second)
    decreases if candidate <= Codes.MAX_SEQ then Codes.MAX_SEQ + 1 - candidate else 0
  {
    hide Allocate;
    AllocateStep(encode, candidate, a);
    AllocateStep(encode, candidate, a + b);
    AllocateLength(encode, candidate, a);
    if candidate <= Codes.MAX_SEQ {
      match encode(candidate)
      case None =>
        AllocateSplits(encode, candidate + 1, a, b);
        assert Allocate(encode, candidate, a) == Allocate(encode, candidate + 1, a);
        assert Allocate(encode, candidate, a + b) == Allocate(encode, candidate + 1, a + b);
      case Some(code) =>
        if a > 1 {
          AllocateSplits(encode, candidate + 1, a - 1, b);
          AllocateLength(encode, candidate + 1, a - 1);
          var tail := Allocate(encode, candidate + 1, a - 1);
          if tail.Some? {
            assert ([(candidate, code)] + tail.value)[a - 1] == tail.value[a - 2];
            var second := Allocate(encode, tail.value[a - 2].0 + 1, b);
            if second.Some? {
              assert [(candidate, code)] + (tail.value + second.value)
                     == [(candidate, code)] + tail.value + second.value;
            }
          }
        } else {
          AllocateStep(encode, candidate + 1, 0);
          assert [(candidate, code)] + [] == [(candidate, code)];
          assert Allocate(encode, candidate, a) == Some([(candidate, code)]);
        }
    }
  }

  /** One turn of the loop. */
  lemma AllocateStep(encode: nat -> Option<string>, candidate: nat, count: nat)
    requires candidate >= 1
    ensures count == 0 ==> Allocate(encode, candidate, count) == Some([])
    ensures count > 0 && candidate > Codes.MAX_SEQ ==> Allocate(encode, candidate, count) == None
    ensures count > 0 && candidate <= Codes.MAX_SEQ ==>
              Allocate(encode, candidate, count)
              == match encode(candidate)
                 case None => Allocate(encode, candidate + 1, count)
                 case Some(code) =>
                   match Allocate(encode, candidate + 1, count - 1)
                   case None => None
                   case Some(rest) => Some([(candidate, code)] + rest)
  {
  }

  lemma AllocateLength(encode: nat -> Option<string>, candidate: nat, count: nat)
    requires candidate >= 1
    ensures Allocate(encode, candidate, count).Some? ==> |Allocate(encode, candidate, count).value| == count
  {
    AllocateIsFirst(encode, candidate, count);
  }
}
