/** Ducks that have not set sail, and soft-deleted ones, do not exist for anybody but their owner and the
    admins: erasing their rows changes no answer a viewer can get. */
module Hiding {
  import opened Wrappers
  import opened Schema
  import opened Store
  import opened Minting
  import opened Invariants
  import opened Handlers
  import opened Evolution
  import opened Runs
  import opened Safety
  import Funnel
  import Codes
  import Codec
  import Text

  predicate Owns(db: Db, viewer: Option<Viewer>, d: Id)
    requires d in db.ducks
  {
    viewer.Some? && db.ducks[d].flock in db.flocks && db.flocks[db.ducks[d].flock].owner == viewer.value.id
  }

  /** Not sailing, or soft-deleted, and somebody else's. */
  predicate Hidden(db: Db, viewer: Option<Viewer>, d: Id)
    requires d in db.ducks
  {
    (db.ducks[d].setSailAt.None? || db.ducks[d].deletedAt.Some?) && !Owns(db, viewer, d)
  }

  function VisibleDucks(db: Db, viewer: Option<Viewer>): map<Id, DuckRow> {
    map d | d in db.ducks && !Hidden(db, viewer, d) :: db.ducks[d]
  }

  /** The database with every hidden duck's row gone and nothing else touched. */
  function Erase(db: Db, viewer: Option<Viewer>): Db {
    db.(ducks := VisibleDucks(db, viewer))
  }

  predicate Ordinary(viewer: Option<Viewer>) {
    viewer.Some? ==> !viewer.value.isAdmin
  }

  // ----- Resolution ------------------------------------------------------------------------

  lemma FindVisible(codec: Codec.DuckCodec, db: Db, viewer: Option<Viewer>, f: Id, seqNo: int)
    requires Codec.Valid(codec) && Good(codec, db)
    ensures FindDuck(VisibleDucks(db, viewer), f, seqNo, db.next.duck)
            == match FindDuck(db.ducks, f, seqNo, db.next.duck)
               case None => None
               case Some(d) => if Hidden(db, viewer, d) then None else Some(d)
  {
    hide FlocksOk, DuckReads, DuckCoded, Dense, UsersOk, SightingsOk, CommentsOk, FollowsOk, NoticesOk, ForeignKeys,
      Hidden, FindDuck;
    var (all, seen) := (FindDuck(db.ducks, f, seqNo, db.next.duck),
                        FindDuck(VisibleDucks(db, viewer), f, seqNo, db.next.duck));
    if seen.Some? {
      assert all.Some?;
      assert DucksClash(db.ducks[all.value], db.ducks[seen.value]);
    } else if all.Some? {
      VisibleRow(db, viewer, all.value);
    }
  }

  /** A found duck comes with the flock its row names. */
  lemma FoundFlock(codec: Codec.DuckCodec, db: Db, raw: string)
    requires Codec.Valid(codec) && Good(codec, db) && ResolveAny(codec, db, raw).Found?
    ensures var r := ResolveAny(codec, db, raw);
            && r.duck.id in db.ducks && db.ducks[r.duck.id].flock in db.flocks
            && r.flock.owner == db.flocks[db.ducks[r.duck.id].flock].owner
  {
    hide Good, Codes.ParseDuck, ResolveAny, ReadDuck, ReadFlock, FlockReads, Funnel.FindByCode;
    var r := ResolveAny(codec, db, raw);
    Funnel.ScanFunnel(codec, db, raw);
    ResolvedRow(codec, db, raw);
    var row := db.ducks[r.duck.id];
    Funnel.DuckReadsBack(codec, db, r.duck.id);
    Funnel.DuckRowFacts(codec, db, r.duck.id);
    assert Funnel.NaiveLookup(db, raw) == Found(r.duck, ReadFlock(db.flocks[row.flock]).value);
    Funnel.FlockReadsBack(codec, db.flocks[row.flock]);
  }

  /** What a scan finds is hidden exactly when it is not sailing or deleted, and not the viewer's. */
  lemma {:induction false} FoundIsHiddenIff(codec: Codec.DuckCodec, db: Db, viewer: Option<Viewer>, raw: string)
    requires Codec.Valid(codec) && Good(codec, db) && ResolveAny(codec, db, raw).Found?
    ensures var r := ResolveAny(codec, db, raw);
            && r.duck.id in db.ducks
            && (Owns(db, viewer, r.duck.id) <==> IsOwner(viewer, r.flock))
            && (Hidden(db, viewer, r.duck.id)
                <==> (!r.duck.lifecycle.Sailing? || r.duck.deletedAt.Some?) && !IsOwner(viewer, r.flock))
  {
    hide Good, ResolveAny, ReadDuck;
    ResolvedRow(codec, db, raw);
    FoundFlock(codec, db, raw);
  }

  /** Erasing makes the scan miss hidden ducks and leaves every other scan alone. */
  lemma EraseResolve(codec: Codec.DuckCodec, db: Db, viewer: Option<Viewer>, raw: string)
    requires Codec.Valid(codec) && Good(codec, db)
    ensures var (r, e) := (ResolveAny(codec, db, raw), ResolveAny(codec, Erase(db, viewer), raw));
            match r
            case Found(duck, _) => duck.id in db.ducks && (if Hidden(db, viewer, duck.id) then e.Missing? else e == r)
            case Missing => e.Missing?
            case _ => false
  {
    hide Good, Codes.ParseDuck, Codec.Decode, ReadDuck, ReadFlock, FindFlock, FindDuck, Hidden, VisibleDucks,
      Codes.FlockOf,
      Codes.IsDuckCode, Codes.Spells, Funnel.NaiveLookup;
    Funnel.ScanFunnel(codec, db, raw);
    if Codes.ParseDuck(raw).Ok? {
      var code := Codes.ParseDuck(raw).value;
      Codes.ParseAcceptsSpellings(raw, code);
      var found := FindFlock(db.flocks, Codes.FlockOf(code), db.next.flock);
      if found.Some? && ReadFlock(db.flocks[found.value]).Ok? {
        var seqNo := Codec.Decode(codec, ReadFlock(db.flocks[found.value]).value.generation, code);
        if seqNo.Ok? {
          FindVisible(codec, db, viewer, found.value, seqNo.value);
          var d := FindDuck(db.ducks, found.value, seqNo.value, db.next.duck);
          if d.Some? {
            Funnel.DuckReadsBack(codec, db, d.value);
            VisibleRow(db, viewer, d.value);
          }
        }
      }
    }
  }

  lemma VisibleRow(db: Db, viewer: Option<Viewer>, d: Id)
    requires d in db.ducks
    ensures d in VisibleDucks(db, viewer) <==> !Hidden(db, viewer, d)
    ensures d in VisibleDucks(db, viewer) ==> VisibleDucks(db, viewer)[d] == db.ducks[d]
  {
    hide Hidden;
  }

  // ----- One request ----------------------------------------------------------------------------

  /** A viewer who reaches a hidden duck is turned away as if it did not exist. */
  lemma {:induction false} HiddenIsNotFound(codec: Codec.DuckCodec, db: Db, viewer: Option<Viewer>, raw: string,
                                            request: Request, now: Time)
    requires Codec.Valid(codec) && Ordinary(viewer)
    requires var r := ResolveAny(codec, db, raw);
             r.Missing?
             || (r.Found? && (!r.duck.lifecycle.Sailing? || r.duck.deletedAt.Some?) && !IsOwner(viewer, r.flock))
    ensures Decide(codec, db, viewer, raw, request, now)
            == Respond(if !IsOpen(request) && viewer.None? then LoginFirst else NotFound)
  {
    hide ResolveAny, GuardLog, HistoryReads, SightingsOf, CommentsOf, Unread;
  }

  lemma EraseKeepsReads(db: Db, viewer: Option<Viewer>, d: Id)
    ensures var e := Erase(db, viewer);
            && SightingsOf(e, d) == SightingsOf(db, d) && CommentsOf(e, d) == CommentsOf(db, d)
            && Unread(e, viewer) == Unread(db, viewer) && HistoryReads(e, d) == HistoryReads(db, d)
  {
    hide VisibleDucks;
  }

  lemma EraseGuardPage(codec: Codec.DuckCodec, db: Db, viewer: Option<Viewer>, raw: string)
    requires Codec.Valid(codec)
    requires ResolveAny(codec, Erase(db, viewer), raw) == ResolveAny(codec, db, raw)
    ensures GuardPage(codec, Erase(db, viewer), viewer, raw) == GuardPage(codec, db, viewer, raw)
  {
    hide ResolveAny, SightingsOf, CommentsOf, Unread, HistoryReads, Erase, IsOwner, CanModerate;
    if ResolveAny(codec, db, raw).Found? {
      EraseKeepsReads(db, viewer, ResolveAny(codec, db, raw).duck.id);
      EraseKeepsFollows(db, viewer);
    }
  }

  lemma EraseKeepsFollows(db: Db, viewer: Option<Viewer>)
    ensures Erase(db, viewer).follows == db.follows
  {
  }

  lemma EraseGuardOpen(codec: Codec.DuckCodec, db: Db, viewer: Option<Viewer>, raw: string, request: Request,
                       r: Resolved)
    requires Codec.Valid(codec) && r.Found?
    requires ResolveAny(codec, Erase(db, viewer), raw) == ResolveAny(codec, db, raw)
    ensures GuardOpen(codec, Erase(db, viewer), viewer, raw, request, r)
            == GuardOpen(codec, db, viewer, raw, request, r)
  {
    hide ResolveAny, VisibleDucks, GuardPage, ReadSighting, IsOwner;
    EraseGuardPage(codec, db, viewer, raw);
  }

  lemma EraseGuardMember(db: Db, v: Viewer, request: Request, r: Resolved, now: Time)
    requires r.Found?
    ensures GuardMember(Erase(db, Some(v)), v, request, r, now) == GuardMember(db, v, request, r, now)
  {
    hide VisibleDucks, GuardOriginate, InWindow, ReadText, CanModerate, IsOwner, Text.Parse, NewCoordinates, Field;
  }

  /** What a handler reads besides the resolved duck is not erased. */
  lemma EraseGuard(codec: Codec.DuckCodec, db: Db, viewer: Option<Viewer>, raw: string, request: Request, now: Time)
    requires Codec.Valid(codec)
    requires ResolveAny(codec, Erase(db, viewer), raw) == ResolveAny(codec, db, raw)
    ensures Decide(codec, Erase(db, viewer), viewer, raw, request, now) == Decide(codec, db, viewer, raw, request, now)
  {
    hide ResolveAny, GuardOpen, GuardMember, Erase;
    var r := ResolveFor(codec, db, raw, request);
    if r.Found? {
      EraseGuardOpen(codec, db, viewer, raw, request, r);
      if viewer.Some? {
        EraseGuardMember(db, viewer.value, request, r, now);
      }
    }
  }

  /** The decision of a handler does not depend on hidden ducks. */
  lemma EraseDecide(codec: Codec.DuckCodec, db: Db, viewer: Option<Viewer>, raw: string, request: Request, now: Time)
    requires Codec.Valid(codec) && Good(codec, db) && Ordinary(viewer)
    ensures Decide(codec, Erase(db, viewer), viewer, raw, request, now) == Decide(codec, db, viewer, raw, request, now)
  {
    hide Good, ResolveAny, Decide, Erase, Hidden, IsOwner;
    EraseResolve(codec, db, viewer, raw);
    var (r, e) := (ResolveAny(codec, db, raw), ResolveAny(codec, Erase(db, viewer), raw));
    if r.Found? {
      FoundIsHiddenIff(codec, db, viewer, raw);
    }
    if e == r {
      EraseGuard(codec, db, viewer, raw, request, now);
    } else {
      HiddenIsNotFound(codec, db, viewer, raw, request, now);
      HiddenIsNotFound(codec, Erase(db, viewer), viewer, raw, request, now);
    }
  }

  // ----- Writes -----------------------------------------------------------------------------------

  /** The write is aimed at a duck the viewer can see, and changes the row of none but his own. */
  predicate Reaches(db: Db, viewer: Option<Viewer>, w: Write) {
    match w
    case WStage(d, _, _, _) => d in db.ducks && Owns(db, viewer, d)
    case WSail(d) => d in db.ducks && Owns(db, viewer, d)
    case WDeleted(d, _) => d in db.ducks && Owns(db, viewer, d)
    case WLocked(d, _) => d in db.ducks && Owns(db, viewer, d)
    case WLog(row) => row.duck in db.ducks && !Hidden(db, viewer, row.duck)
    case WComment(d, _, _) => d in db.ducks && !Hidden(db, viewer, d)
    case WFollow(_, d) => d in db.ducks && !Hidden(db, viewer, d)
    case _ => true
  }

  lemma OwnRowErase(db: Db, viewer: Option<Viewer>, d: Id, r: DuckRow)
    requires d in db.ducks && Owns(db, viewer, d) && r.flock == db.ducks[d].flock
    ensures VisibleDucks(db.(ducks := db.ducks[d := r]), viewer) == VisibleDucks(db, viewer)[d := r]
    ensures d in VisibleDucks(db, viewer) && VisibleDucks(db, viewer)[d] == db.ducks[d]
  {
  }

  lemma SameRowsErase(a: Db, b: Db, viewer: Option<Viewer>)
    requires a.ducks == b.ducks && a.flocks == b.flocks
    ensures VisibleDucks(a, viewer) == VisibleDucks(b, viewer)
  {
  }

  predicate ChangesRow(w: Write) {
    w.WStage? || w.WSail? || w.WDeleted? || w.WLocked?
  }

  lemma RowWriteErase(db: Db, viewer: Option<Viewer>, w: Write, now: Time)
    requires Reaches(db, viewer, w) && ChangesRow(w)
    ensures Perform(db, w, now).Ok? && Perform(Erase(db, viewer), w, now).Ok?
    ensures Perform(Erase(db, viewer), w, now).value == Erase(Perform(db, w, now).value, viewer)
  {
    hide VisibleDucks, Hidden, Owns;
    OwnRowErase(db, viewer, w.duck, Perform(db, w, now).value.ducks[w.duck]);
  }

  lemma TalkWriteErase(db: Db, viewer: Option<Viewer>, w: Write, now: Time)
    requires Reaches(db, viewer, w) && !ChangesRow(w)
    ensures var (done, erased) := (Perform(db, w, now), Perform(Erase(db, viewer), w, now));
            done.Ok? == erased.Ok?
            && (done.Ok? ==> done.value.ducks == db.ducks && done.value.flocks == db.flocks
                             && erased.value == done.value.(ducks := VisibleDucks(db, viewer)))
  {
    hide VisibleDucks, Append, Notified, Notices, Hidden, Owns;
    match w
    case WLog(row) => VisibleRow(db, viewer, row.duck);
    case WComment(d, _, _) => VisibleRow(db, viewer, d);
    case WFollow(_, d) => VisibleRow(db, viewer, d);
    case _ =>
  }

  lemma PerformErase(db: Db, viewer: Option<Viewer>, w: Write, now: Time)
    requires Reaches(db, viewer, w)
    ensures var (done, erased) := (Perform(db, w, now), Perform(Erase(db, viewer), w, now));
            done.Ok? == erased.Ok? && (done.Ok? ==> erased.value == Erase(done.value, viewer))
  {
    hide VisibleDucks, Perform, Reaches;
    if ChangesRow(w) {
      RowWriteErase(db, viewer, w, now);
    } else {
      TalkWriteErase(db, viewer, w, now);
      SameRowsIfDone(db, Perform(db, w, now), viewer);
    }
  }

  lemma SameRowsIfDone(db: Db, done: Result<Db, RepoError>, viewer: Option<Viewer>)
    requires done.Ok? ==> done.value.ducks == db.ducks && done.value.flocks == db.flocks
    ensures done.Ok? ==> VisibleDucks(done.value, viewer) == VisibleDucks(db, viewer)
  {
    if done.Ok? {
      SameRowsErase(done.value, db, viewer);
    }
  }

  lemma ReachesKept(db: Db, viewer: Option<Viewer>, w: Write, now: Time, later: Write)
    requires Reaches(db, viewer, w) && Reaches(db, viewer, later) && Perform(db, w, now).Ok?
    ensures Reaches(Perform(db, w, now).value, viewer, later)
  {
    hide Append, Notified, Notices, SightingRefs;
  }

  /** What a handler decides to write reaches. */
  lemma DecidedWritesReach(codec: Codec.DuckCodec, db: Db, viewer: Option<Viewer>, raw: string, request: Request,
                           now: Time)
    requires Codec.Valid(codec) && Good(codec, db) && Ordinary(viewer)
    ensures var d := Decide(codec, db, viewer, raw, request, now);
            d.Act? ==> forall i | 0 <= i < |d.writes| :: Reaches(db, viewer, d.writes[i])
  {
    hide Good, ResolveAny, GuardOpen, Hidden, Owns, InWindow, ReadText, Text.Parse, NewCoordinates, Field;
    if ResolveAny(codec, db, raw).Found? {
      FoundIsHiddenIff(codec, db, viewer, raw);
      OwnedIsVisible(db, viewer, ResolveAny(codec, db, raw).duck.id);
    }
  }

  lemma OwnedIsVisible(db: Db, viewer: Option<Viewer>, d: Id)
    requires d in db.ducks
    ensures Owns(db, viewer, d) ==> !Hidden(db, viewer, d)
  {
  }

  lemma {:induction false} PerformAllErase(codec: Codec.DuckCodec, db: Db, viewer: Option<Viewer>, writes: seq<Write>,
                                           response: Response, now: Time)
    requires Codec.Valid(codec) && Good(codec, db)
    requires forall i | 0 <= i < |writes| :: Reaches(db, viewer, writes[i]) && WriteOk(db, writes[i])
    ensures var (done, erased) := (PerformAll(db, writes, response, now),
                                   PerformAll(Erase(db, viewer), writes, response, now));
            erased.0 == done.0 && erased.1 == Erase(done.1, viewer) && Good(codec, done.1)
    decreases |writes|
  {
    hide Good, Perform, Reaches, WriteOk, Erase, Evolves;
    if writes != [] {
      PerformErase(db, viewer, writes[0], now);
      if Perform(db, writes[0], now).Ok? {
        var after := Perform(db, writes[0], now).value;
        PerformKeepsGood(codec, db, writes[0], now);
        PerformEvolves(db, writes[0], now);
        forall i | 0 <= i < |writes[1..]|
          ensures Reaches(after, viewer, writes[1..][i]) && WriteOk(after, writes[1..][i])
        {
          ReachesKept(db, viewer, writes[0], now, writes[i + 1]);
          WriteOkKept(db, after, writes[i + 1]);
        }
        PerformAllErase(codec, after, viewer, writes[1..], response, now);
      }
    }
  }

  /** One request: the same answer, and the same change to what remains. */
  lemma {:induction false} ServeErase(codec: Codec.DuckCodec, db: Db, viewer: Option<Viewer>, raw: string,
                                      request: Request, now: Time)
    requires Codec.Valid(codec) && Good(codec, db) && Ordinary(viewer)
    ensures var (seen, erased) := (Serve(codec, db, viewer, raw, request, now),
                                   Serve(codec, Erase(db, viewer), viewer, raw, request, now));
            erased.0 == seen.0 && erased.1 == Erase(seen.1, viewer) && Good(codec, seen.1)
  {
    hide Good, Decide, Reaches, WriteOk, Erase, PerformAll;
    EraseDecide(codec, db, viewer, raw, request, now);
    DecidedWritesReach(codec, db, viewer, raw, request, now);
    DecidedWritesOk(codec, db, viewer, raw, request, now);
    match Decide(codec, db, viewer, raw, request, now)
    case Respond(_) =>
    case Act(writes, response) => PerformAllErase(codec, db, viewer, writes, response, now);
  }

  // ----- Whole visits ---------------------------------------------------------------------------------

  datatype Visit = Visit(raw: string, request: Request, now: Time)

  /** Everything one viewer sees over a sequence of requests, and the database left behind. */
  function Session(codec: Codec.DuckCodec, db: Db, viewer: Option<Viewer>, visits: seq<Visit>): (seq<Response>, Db)
    requires Codec.Valid(codec)
    decreases |visits|
  {
    if visits == [] then ([], db)
    else
      var (response, after) := Serve(codec, db, viewer, visits[0].raw, visits[0].request, visits[0].now);
      var (rest, end) := Session(codec, after, viewer, visits[1..]);
      ([response] + rest, end)
  }

  /** Nothing a viewer who is no admin asks of any duck page, reading or writing, in any number of requests,
      tells a database from the same database without the hidden ducks. */
  lemma {:induction false} HiddenDucksDoNotShow(codec: Codec.DuckCodec, db: Db, viewer: Option<Viewer>,
                                                visits: seq<Visit>)
    requires Codec.Valid(codec) && Good(codec, db) && Ordinary(viewer)
    ensures Session(codec, Erase(db, viewer), viewer, visits).0 == Session(codec, db, viewer, visits).0
    ensures Session(codec, Erase(db, viewer), viewer, visits).1 == Erase(Session(codec, db, viewer, visits).1, viewer)
    decreases |visits|
  {
    hide Good, Serve, Erase;
    if visits != [] {
      ServeErase(codec, db, viewer, visits[0].raw, visits[0].request, visits[0].now);
      HiddenDucksDoNotShow(codec, Serve(codec, db, viewer, visits[0].raw, visits[0].request, visits[0].now).1, viewer,
                           visits[1..]);
    }
  }

  /** The restriction to viewers who are no admins is needed: an admin can tell a hidden duck from none. */
  lemma {:induction false} AdminsSeeHiddenDucks(codec: Codec.DuckCodec, db: Db, viewer: Viewer, raw: string, now: Time)
    requires Codec.Valid(codec) && Good(codec, db) && viewer.isAdmin
    requires ResolveAny(codec, db, raw).Found?
    requires var d := ResolveAny(codec, db, raw).duck.id; d in db.ducks && Hidden(db, Some(viewer), d)
    ensures Serve(codec, db, Some(viewer), raw, DeleteDuck, now).0.Redirect?
    ensures Serve(codec, Erase(db, Some(viewer)), Some(viewer), raw, DeleteDuck, now).0 == NotFound
  {
    hide Good, ResolveAny, Hidden, Erase, SetDeleted;
    EraseResolve(codec, db, Some(viewer), raw);
    PerformOne(db, WDeleted(ResolveAny(codec, db, raw).duck.id, true),
               if viewer.id == ResolveAny(codec, db, raw).flock.owner then OWNER_DELETED else ADMIN_DELETED, now);
  }

  lemma PerformOne(db: Db, w: Write, response: Response, now: Time)
    ensures PerformAll(db, [w], response, now)
            == if Perform(db, w, now).Ok? then (response, Perform(db, w, now).value) else (ServerError, db)
  {
    hide Perform;
    assert [w][1..] == [];
  }
}
