/** Who has a prefix over time: one flock while its row stays, and possibly another one, printing the same
    codes, once the row was hard-deleted. */
module Prefixes {
  import opened Wrappers
  import opened Schema
  import opened Store
  import opened Minting
  import opened Cascade
  import opened Invariants
  import opened Handlers
  import opened Evolution
  import opened Runs
  import opened Safety
  import opened Reachability
  import opened MintGuarantees
  import opened Sequential
  import Funnel
  import Codes
  import Codec
  import Text

  // ----- When a flock goes -------------------------------------------------------------------

  /** The event is a hard deletion of flock `f`, alone or with its owner, that is carried out. */
  predicate Removes(sys: System, e: Event, f: Id) {
    match e
    case HardDeleteFlock(g) => g == f && !FlockBusy(sys, f)
    case HardDeleteUser(u) =>
      && f in sys.db.flocks && sys.db.flocks[f].owner == u && u in sys.db.users && !sys.db.users[u].isAdmin
      && !OwnerBusy(sys, u)
    case _ => false
  }

  /** Some event of the schedule hard-deletes flock `f`. */
  predicate Removed(codec: Codec.DuckCodec, sys: System, events: seq<Event>, f: Id)
    requires Codec.Valid(codec)
    decreases |events|
  {
    events != [] && (Removes(sys, events[0], f) || Removed(codec, Step(codec, sys, events[0]), events[1..], f))
  }

  lemma DeletionStep(codec: Codec.DuckCodec, sys: System, e: Event, f: Id)
    requires Codec.Valid(codec) && Inv(codec, sys) && f in sys.db.flocks
    requires e.HardDeleteFlock? || e.HardDeleteUser?
    ensures f in Step(codec, sys, e).db.flocks <==> !Removes(sys, e, f)
  {
    hide Good, TasksOk, Exclusive, DeleteFlock, DeleteUser, FlockBusy, OwnerBusy, ForeignKeys, Checks, IdsBounded,
      NoticesAgree, UniqueDucks, UniqueFlocks, UniqueUsers, Upsert, CreateFlock, MarkAllRead, Decide, Perform, StepMint,
      DucksWithout, SightingsWithout, CommentsWithout, FollowsWithout, NoticesWithout, UsersWithout, DucksOutside,
      SightingsOutside, CommentsOutside, FollowsOutside, NoticesOutside, Codes.IsFlockCode, Codec.Encode;
    GoodMeetsSchema(codec, sys.db);
    match e
    case HardDeleteFlock(g) => DeleteFlockIsFilter(sys.db, g);
    case HardDeleteUser(u) => DeleteUserIsFilter(sys.db, u);
  }

  lemma OtherStepKeepsFlock(codec: Codec.DuckCodec, sys: System, e: Event, f: Id)
    requires Codec.Valid(codec) && Inv(codec, sys) && f in sys.db.flocks
    requires !e.HardDeleteFlock? && !e.HardDeleteUser?
    ensures f in Step(codec, sys, e).db.flocks && !Removes(sys, e, f)
  {
    hide Good, TasksOk, Exclusive, Upsert, MarkAllRead, DeleteFlock, DeleteUser, FlockBusy, OwnerBusy, Perform, Decide,
      InsertOutcome, Append, CreateFlock, ReadText, Field, Codes.IsFlockCode, Codec.Encode, MaxSeq;
    match e
    case LogIn(issuer, subject, displayName, email, grantAdmin) =>
      UpsertGentle(sys.db, issuer, subject, displayName, email, grantAdmin);
    case NewFlock(owner, rawLabel, draws) =>
      var flockLabel := ReadText(Text.LABEL_MAX, Field(rawLabel), "form");
      if flockLabel.Ok? {
        CreateFlockGentle(sys.db, owner, codec.current, flockLabel.value, draws);
      }
    case DoWrite(t, now) =>
      if t in sys.tasks && sys.tasks[t].Acting? && sys.tasks[t].writes != [] {
        PerformGentle(sys.db, sys.tasks[t].writes[0], now);
      }
    case ReadFeed(user, now) => FeedKeepsFlocks(sys.db, user, now);
    case _ =>
  }

  lemma FeedKeepsFlocks(db: Db, user: Id, now: Time)
    ensures MarkAllRead(db, user, now).flocks == db.flocks
  {
  }

  /** A flock is gone after a schedule exactly when an event of the schedule hard-deleted it. */
  lemma {:induction false} FlockGoneIff(codec: Codec.DuckCodec, sys: System, events: seq<Event>, f: Id)
    requires Codec.Valid(codec) && Inv(codec, sys) && f in sys.db.flocks
    ensures f !in Run(codec, sys, events).db.flocks <==> Removed(codec, sys, events, f)
    decreases |events|
  {
    hide Inv, Step, Removes, Evolves;
    if events != [] {
      var next := Step(codec, sys, events[0]);
      StepKeepsInv(codec, sys, events[0]);
      if events[0].HardDeleteFlock? || events[0].HardDeleteUser? {
        DeletionStep(codec, sys, events[0], f);
      } else {
        OtherStepKeepsFlock(codec, sys, events[0], f);
      }
      if f in next.db.flocks {
        FlockGoneIff(codec, next, events[1..], f);
      } else {
        GoneForGood(codec, sys, next, events[1..], f);
      }
    }
  }

  lemma GoneForGood(codec: Codec.DuckCodec, sys: System, next: System, events: seq<Event>, f: Id)
    requires Codec.Valid(codec) && Inv(codec, sys) && Inv(codec, next) && Evolves(sys.db, next.db)
    requires f in sys.db.flocks && f !in next.db.flocks
    ensures f !in Run(codec, next, events).db.flocks
  {
    hide Good, TasksOk, Exclusive, Run, DucksEvolve;
    MintGuarantees.FlockRow(codec, sys.db, f);
    RunKeepsInv(codec, next, events);
  }

  lemma SamePrefixSameFlock(codec: Codec.DuckCodec, a: Db, b: Db, f: Id, g: Id)
    requires Codec.Valid(codec) && Good(codec, a) && Good(codec, b) && Evolves(a, b)
    requires f in a.flocks && f in b.flocks && g in b.flocks && a.flocks[f].code == b.flocks[g].code
    ensures f == g
  {
    hide Good, DucksEvolve;
    MintGuarantees.FlockRow(codec, a, f);
    PrefixesUnique(codec, b);
  }

  /** Between any two moments of any schedule a prefix passes from one flock to another exactly when the first
      was hard-deleted in between: a flock keeps its prefix to itself as long as its row stays. */
  lemma {:induction false} PrefixBelongsToOneFlock(codec: Codec.DuckCodec, vessels: set<Id>, past: seq<Event>,
                                                   more: seq<Event>, f: Id, g: Id)
    requires Codec.Valid(codec)
    requires f in Run(codec, Start(vessels), past).db.flocks
    requires g in Run(codec, Run(codec, Start(vessels), past), more).db.flocks
    requires Run(codec, Start(vessels), past).db.flocks[f].code
             == Run(codec, Run(codec, Start(vessels), past), more).db.flocks[g].code
    ensures f != g <==> Removed(codec, Run(codec, Start(vessels), past), more, f)
  {
    hide Good, TasksOk, Exclusive, Run, Removed, Evolves;
    var a := Run(codec, Start(vessels), past);
    ReachableInv(codec, vessels, past);
    RunKeepsInv(codec, a, more);
    FlockGoneIff(codec, a, more, f);
    if f in Run(codec, a, more).db.flocks {
      SamePrefixSameFlock(codec, a.db, Run(codec, a, more).db, f, g);
    }
  }

  // ----- Stickers that come back --------------------------------------------------------------

  /** A hard deletion of `f`, a new flock, and an uninterrupted mint of as many ducks as `f` had. */
  function Reissue(f: Id, owner: Id, draws: seq<string>, t: Id, g: Id, count: nat): seq<Event> {
    [HardDeleteFlock(f)] + ([NewFlock(owner, None, draws)] + MintingAlone(t, owner, g, count))
  }

  lemma DeletionAlone(codec: Codec.DuckCodec, sys: System, f: Id)
    requires Codec.Valid(codec) && Inv(codec, sys) && !FlockBusy(sys, f)
    ensures Step(codec, sys, HardDeleteFlock(f)) == System(WithoutFlock(sys.db, f), sys.tasks)
  {
    hide Good, TasksOk, Exclusive, DeleteFlock, DeleteUser, FlockBusy, OwnerBusy, ForeignKeys, Checks, IdsBounded,
      NoticesAgree, UniqueDucks, UniqueFlocks, UniqueUsers, Upsert, CreateFlock, MarkAllRead, Decide, Perform, StepMint,
      WithoutFlock, Codes.IsFlockCode, Codec.Encode;
    GoodMeetsSchema(codec, sys.db);
    DeleteFlockIsFilter(sys.db, f);
  }

  lemma NewFlockAlone(codec: Codec.DuckCodec, sys: System, owner: Id, draws: seq<string>)
    requires Codec.Valid(codec) && |draws| == MAX_DRAWS && forall i | 0 <= i < |draws| :: Codes.IsFlockCode(draws[i])
    ensures Step(codec, sys, NewFlock(owner, None, draws))
            == System(CreateFlock(sys.db, owner, codec.current, None, draws).1, sys.tasks)
  {
    hide Upsert, CreateFlock, MarkAllRead, DeleteFlock, DeleteUser, FlockBusy, OwnerBusy, Decide, StepMint, Perform,
      Codec.Encode, Codes.IsFlockCode;
  }

  lemma NewFlockUnlocked(codec: Codec.DuckCodec, sys: System, g: Id)
    requires Codec.Valid(codec) && Inv(codec, sys) && g >= sys.db.next.flock
    ensures Unlocked(sys.tasks, g)
  {
    hide Good, TasksOk, Exclusive;
    forall o | o in sys.tasks ensures !HoldsLock(sys.tasks[o], g) {
      if sys.tasks[o].Mint? {
        TaskOf(codec, sys, o);
      }
    }
  }

  function CodedNumbers(codec: Codec.DuckCodec, g: nat, code: string, ids: set<nat>): set<(int, string)>
    requires Codec.Valid(codec) && Codes.IsFlockCode(code)
    requires forall s | s in ids :: MintCode(codec, g, code, s).Some?
  {
    set s | s in ids :: (s, MintCode(codec, g, code, s).value)
  }

  lemma {:induction false} CodedNumbersCount(codec: Codec.DuckCodec, g: nat, code: string, ids: set<nat>)
    requires Codec.Valid(codec) && Codes.IsFlockCode(code)
    requires forall s | s in ids :: MintCode(codec, g, code, s).Some?
    ensures |CodedNumbers(codec, g, code, ids)| <= |ids|
    decreases |ids|
  {
    hide MintCode, Codes.IsFlockCode;
    if ids == {} {
      assert CodedNumbers(codec, g, code, ids) == {};
    } else {
      var s :| s in ids;
      var rest := ids - {s};
      CodedNumbersCount(codec, g, code, rest);
      assert CodedNumbers(codec, g, code, ids)
             == CodedNumbers(codec, g, code, rest) + {(s, MintCode(codec, g, code, s).value)};
    }
  }

  lemma SubsetSize<T>(a: set<T>, b: set<T>)
    requires a <= b
    ensures |a| <= |b|
  {
    assert b == a + (b - a);
  }

  /** A flock never holds more codes than its prefix and key can print. */
  lemma EnoughNumbers(codec: Codec.DuckCodec, g: nat, code: string, high: nat)
    requires Codec.Valid(codec) && Codes.IsFlockCode(code)
    ensures |PrintableUpTo(codec, g, code, high)| <= |Acceptable(Encoder(codec, g, code), 1)|
  {
    hide Codec.Encode, Codes.IsFlockCode;
    var encode := Encoder(codec, g, code);
    var all := Acceptable(encode, 1);
    CodedNumbersCount(codec, g, code, all);
    var printable := PrintableUpTo(codec, g, code, high);
    forall x | x in printable ensures x in CodedNumbers(codec, g, code, all) {
      assert Accepts(encode, x.0);
    }
    SubsetSize(printable, CodedNumbers(codec, g, code, all));
  }

  lemma NoNumberYet(codec: Codec.DuckCodec, db: Db, g: Id)
    requires Codec.Valid(codec) && Good(codec, db) && RowsOf(db.ducks, g) == {}
    ensures MaxSeq(db.ducks, g, db.next.duck) == 0
  {
    hide Good;
    forall d | d in db.ducks ensures db.ducks[d].flock != g {
      assert d !in RowsOf(db.ducks, g);
    }
  }

  /** Minting in a flock without ducks as many as a flock of the same prefix and key holds prints the same codes. */
  lemma RemintPrintsSame(codec: Codec.DuckCodec, was: Db, f: Id, db: Db, owner: Id, g: Id, count: nat)
    requires Codec.Valid(codec) && Good(codec, was) && Good(codec, db) && f in was.flocks && g in db.flocks
    requires db.flocks[g].code == was.flocks[f].code && db.flocks[g].generation == was.flocks[f].generation
    requires db.flocks[g].owner == owner && RowsOf(db.ducks, g) == {} && count == |RowsOf(was.ducks, f)|
    ensures var after := MintRequest(codec, db, owner, g, count).1;
            && Good(codec, after) && after.flocks == db.flocks && after.next.flock == db.next.flock
            && Printed(after.ducks, g) == Printed(was.ducks, f)
            && forall e | e in RowsOf(after.ducks, g) :: e >= db.next.duck
  {
    hide Good, MintRequest, Printed, PrintableUpTo, MaxSeq, RowsOf, ReadDuck, FirstAcceptable, Acceptable, Encoder,
      UniqueDucks, Codes.IsFlockCode;
    var (gen, code) := (was.flocks[f].generation, was.flocks[f].code);
    var high := MaxSeq(was.ducks, f, was.next.duck);
    FlockContents(codec, was, f);
    DistinctRows(codec, was);
    PrintedCount(was.ducks, f);
    NoNumberYet(codec, db, g);
    EnoughNumbers(codec, gen, code, high);
    MintRequestOutcome(codec, db, owner, g, count);
    var (r, after) := MintRequest(codec, db, owner, g, count);
    assert r.Ok?;
    DuckRowsBounded(codec, db);
    MintedRowsOf(db, after, g, r.value);
    FlockContents(codec, after, g);
    DistinctRows(codec, after);
    PrintedCount(after.ducks, g);
    var now := MaxSeq(after.ducks, g, after.next.duck);
    if high <= now {
      PrintableGrows(codec, gen, code, high, now);
      SameSize(Printed(was.ducks, f), Printed(after.ducks, g));
    } else {
      PrintableGrows(codec, gen, code, now, high);
      SameSize(Printed(after.ducks, g), Printed(was.ducks, f));
    }
  }

  lemma ReadKeepsFlock(d: Id, r: DuckRow)
    ensures ReadDuck(d, r).Ok? ==> ReadDuck(d, r).value.flock == r.flock
  {
    hide ReadLifecycle, Codes.ParseDuck;
  }

  lemma MintedRowsOf(db: Db, after: Db, g: Id, entries: seq<Entry>)
    requires RowsOf(db.ducks, g) == {} && Hatched(db, after, g, entries)
    ensures |RowsOf(after.ducks, g)| == |entries|
    ensures forall e | e in RowsOf(after.ducks, g) :: e >= db.next.duck
  {
    hide ReadDuck;
    var base := db.next.duck;
    forall d | d in after.ducks ensures d in RowsOf(after.ducks, g) <==> d in Block(base, |entries|) {
      if d in db.ducks {
        assert d !in RowsOf(db.ducks, g);
      } else {
        var k := d - base;
        assert ReadDuck(base + k, after.ducks[base + k])
               == Ok(Duck(base + k, entries[k].1, g, entries[k].0, Allocated, None, None));
        ReadKeepsFlock(d, after.ducks[d]);
      }
    }
    assert RowsOf(after.ducks, g) == Block(base, |entries|);
  }

  /** A scanned code that a flock prints resolves to a duck of that flock. */
  lemma PrintedCodeResolves(codec: Codec.DuckCodec, db: Db, g: Id, x: (int, string))
    requires Codec.Valid(codec) && Good(codec, db) && x in Printed(db.ducks, g)
    ensures var r := ResolveAny(codec, db, x.1);
            r.Found? && r.duck.id in RowsOf(db.ducks, g) && r.duck.flock == g && r.duck.code == x.1
  {
    hide Good, ResolveAny, ReadDuck, Codes.ParseDuck, Codes.IsDuckCode, Codec.Decode, Codes.FlockOf;
    var e :| e in db.ducks && db.ducks[e].flock == g && (db.ducks[e].seqNo, db.ducks[e].code) == x;
    Funnel.StoredCode(codec, db, e);
    Codes.PrintedFormsParse(x.1);
    Funnel.StoredCodeResolves(codec, db, x.1, e);
    ResolvedRow(codec, db, x.1);
    Funnel.DuckReadsBack(codec, db, e);
  }

  lemma FreshFlock(codec: Codec.DuckCodec, sys: System, f: Id, owner: Id, draws: seq<string>)
    requires Codec.Valid(codec) && Inv(codec, sys) && f in sys.db.flocks && !FlockBusy(sys, f) && owner in sys.db.users
    requires |draws| == MAX_DRAWS && forall i | 0 <= i < |draws| :: Codes.IsFlockCode(draws[i])
    requires var k := FirstUsable(WithoutFlock(sys.db, f).flocks, draws);
             k.Some? && draws[k.value] == sys.db.flocks[f].code
    ensures var r := CreateFlock(WithoutFlock(sys.db, f), owner, codec.current, None, draws).0;
            var after := Run(codec, sys, [HardDeleteFlock(f)] + [NewFlock(owner, None, draws)]);
            && r.Ok? && r.value >= sys.db.next.flock > f && Inv(codec, after) && after.tasks == sys.tasks
            && r.value in after.db.flocks
            && after.db.flocks[r.value] == FlockRow(sys.db.flocks[f].code, codec.current, owner, None)
            && RowsOf(after.db.ducks, r.value) == {} && after.db.next.duck == sys.db.next.duck
            && Unlocked(after.tasks, r.value)
  {
    hide Good, TasksOk, Exclusive, Step, Run, CreateFlock, FirstUsable, RowsOf, FlockBusy, DucksOutside,
      SightingsOutside, CommentsOutside, FollowsOutside, NoticesOutside, Codes.IsFlockCode, Evolves, Unlocked;
    var s1 := System(WithoutFlock(sys.db, f), sys.tasks);
    ScheduleCons(codec, sys, HardDeleteFlock(f), [NewFlock(owner, None, draws)]);
    DeletionAlone(codec, sys, f);
    StepKeepsInv(codec, sys, HardDeleteFlock(f));
    ScheduleOne(codec, s1, NewFlock(owner, None, draws));
    NewFlockAlone(codec, s1, owner, draws);
    StepKeepsInv(codec, s1, NewFlock(owner, None, draws));
    MintGuarantees.FlockRow(codec, sys.db, f);
    FlocksBelow(codec, s1.db);
    DrawsGiveFirstUsable(s1.db, owner, codec.current, None, draws);
    var g := CreateFlock(s1.db, owner, codec.current, None, draws).0.value;
    NewFlockUnlocked(codec, s1, g);
    UnbornFlockHasNoRows(codec, s1.db, g);
  }

  lemma FlocksBelow(codec: Codec.DuckCodec, db: Db)
    requires Codec.Valid(codec) && Good(codec, db)
    ensures forall f | f in db.flocks :: f < db.next.flock
  {
    hide DucksOk, Dense, UsersOk, ForeignKeys, SightingsOk, CommentsOk, FollowsOk, NoticesOk, FlockReads, UniqueFlocks;
  }

  predicate Reissuable(codec: Codec.DuckCodec, sys: System, f: Id, owner: Id, draws: seq<string>) {
    && f in sys.db.flocks && !FlockBusy(sys, f) && sys.db.flocks[f].generation == codec.current
    && RowsOf(sys.db.ducks, f) != {} && owner in sys.db.users
    && |draws| == MAX_DRAWS && (forall i | 0 <= i < |draws| :: Codes.IsFlockCode(draws[i]))
    && var k := FirstUsable(WithoutFlock(sys.db, f).flocks, draws);
       k.Some? && draws[k.value] == sys.db.flocks[f].code
  }

  lemma ReissuePrintsSame(codec: Codec.DuckCodec, sys: System, f: Id, owner: Id, draws: seq<string>, t: Id, g: Id)
    requires Codec.Valid(codec) && Inv(codec, sys) && Reissuable(codec, sys, f, owner, draws) && t !in sys.tasks
    requires CreateFlock(WithoutFlock(sys.db, f), owner, codec.current, None, draws).0 == Ok(g)
    ensures var after := Run(codec, sys, Reissue(f, owner, draws, t, g, |RowsOf(sys.db.ducks, f)|));
            && Good(codec, after.db) && after.tasks == sys.tasks
            && g != f && g in after.db.flocks && after.db.flocks[g].code == sys.db.flocks[f].code
            && Printed(after.db.ducks, g) == Printed(sys.db.ducks, f)
            && forall e | e in RowsOf(after.db.ducks, g) :: e >= sys.db.next.duck
  {
    hide Good, TasksOk, Exclusive, Step, Run, CreateFlock, FirstUsable, RowsOf, FlockBusy, WithoutFlock, MintRequest,
      MintingAlone, Printed, Unlocked, Codes.IsFlockCode;
    var count := |RowsOf(sys.db.ducks, f)|;
    var opening := [HardDeleteFlock(f)] + [NewFlock(owner, None, draws)];
    var mid := Run(codec, sys, opening);
    FreshFlock(codec, sys, f, owner, draws);
    assert Reissue(f, owner, draws, t, g, count) == opening + MintingAlone(t, owner, g, count);
    ScheduleAppend(codec, sys, opening, MintingAlone(t, owner, g, count));
    MintsAlone(codec, mid, t, owner, g, count);
    RemintPrintsSame(codec, sys.db, f, mid.db, owner, g, count);
  }

  /** In any state, hard-deleting a flock, drawing its prefix again under the same key, and minting as many
      ducks makes every old sticker resolve to a newer duck of the other flock. */
  lemma {:induction false} PrefixComesBack(codec: Codec.DuckCodec, sys: System, f: Id, owner: Id, draws: seq<string>,
                                           t: Id, g: Id)
    requires Codec.Valid(codec) && Inv(codec, sys) && Reissuable(codec, sys, f, owner, draws) && t !in sys.tasks
    requires g == NewIdentity(codec, sys.db, f, owner, draws)
    ensures var after := Run(codec, sys, Reissue(f, owner, draws, t, g, |RowsOf(sys.db.ducks, f)|)).db;
            && g != f && g in after.flocks && after.flocks[g].code == sys.db.flocks[f].code
            && forall d | d in sys.db.ducks && sys.db.ducks[d].flock == f ::
                 var r := ResolveAny(codec, after, sys.db.ducks[d].code);
                 r.Found? && r.duck.flock == g && r.duck.id != d && r.duck.id >= sys.db.next.duck
  {
    hide Good, TasksOk, Exclusive, Run, CreateFlock, FirstUsable, RowsOf, FlockBusy, WithoutFlock, ResolveAny,
      Reissue, Printed, Codes.IsFlockCode;
    FreshFlock(codec, sys, f, owner, draws);
    ReissuePrintsSame(codec, sys, f, owner, draws, t, g);
    var after := Run(codec, sys, Reissue(f, owner, draws, t, g, |RowsOf(sys.db.ducks, f)|)).db;
    DuckRowsBounded(codec, sys.db);
    forall d | d in sys.db.ducks && sys.db.ducks[d].flock == f
      ensures var r := ResolveAny(codec, after, sys.db.ducks[d].code);
              r.Found? && r.duck.flock == g && r.duck.id >= sys.db.next.duck
    {
      InPrinted(sys.db.ducks, f, d);
      PrintedCodeResolves(codec, after, g, (sys.db.ducks[d].seqNo, sys.db.ducks[d].code));
    }
  }

  /** The identity the new flock gets after the deletion of `f`. */
  function NewIdentity(codec: Codec.DuckCodec, db: Db, f: Id, owner: Id, draws: seq<string>): Id {
    var r := CreateFlock(WithoutFlock(db, f), owner, codec.current, None, draws).0;
    if r.Ok? then r.value else 0
  }

  lemma InPrinted(ducks: map<Id, DuckRow>, f: Id, d: Id)
    requires d in ducks && ducks[d].flock == f
    ensures (ducks[d].seqNo, ducks[d].code) in Printed(ducks, f)
  {
  }
}
