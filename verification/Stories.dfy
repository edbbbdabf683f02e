/** Worked schedules from the empty registry that end where a promise is broken: a comment on a locked duck,
    a sticker that resolves to another flock's duck, and notices lost to a removal on another duck's page.
    They hold for every codec that prints the first code of the prefixes used; the plain one does. */
module Stories {
  import opened Wrappers
  import opened Schema
  import opened Store
  import opened Minting
  import opened Cascade
  import opened Invariants
  import opened Handlers
  import opened Runs
  import opened Safety
  import opened Reachability
  import opened MintGuarantees
  import opened Sequential
  import opened Permissions
  import opened Prefixes
  import opened Locks
  import Hiding
  import DuckGuarantees
  import Funnel
  import PlainCodec
  import Codes
  import Codec
  import Profanity
  import Text

  const FIRST := "000"
  const SECOND := "001"

  /** The prefix can be drawn, and its first number gets a code. */
  predicate Prints(codec: Codec.DuckCodec, prefix: string)
    requires Codec.Valid(codec)
  {
    Codes.IsFlockCode(prefix) && !Profanity.Matches(prefix) && MintCode(codec, codec.current, prefix, 1).Some?
  }

  function FirstCode(codec: Codec.DuckCodec, prefix: string): string
    requires Codec.Valid(codec) && Prints(codec, prefix)
  {
    MintCode(codec, codec.current, prefix, 1).value
  }

  /** Some codec does print both prefixes. */
  lemma {:induction false} StoriesApply()
    ensures Codec.Valid(PlainCodec.PLAIN)
    ensures Prints(PlainCodec.PLAIN, FIRST) && Prints(PlainCodec.PLAIN, SECOND)
  {
    hide Profanity.Matches, MintCode, Codes.IsFlockCode;
    PlainCodec.PlainPrints(FIRST);
    PlainCodec.PlainPrints(SECOND);
    PlainCodec.NumeralIsPrefix(FIRST);
    PlainCodec.NumeralIsPrefix(SECOND);
  }

  // ----- An owner with one duck on show ------------------------------------------------------

  const ISSUER := "issuer"

  function Member(u: Id): Viewer {
    Viewer(u, false)
  }

  function Draws(prefix: string): (draws: seq<string>)
    ensures |draws| == MAX_DRAWS && forall i | 0 <= i < MAX_DRAWS :: draws[i] == prefix
  {
    seq(MAX_DRAWS, i => prefix)
  }

  const DEFINITION := Originate(Some("D"), None, Some(PhotoRef("k", "t")), true)

  lemma DefinitionIsWellFormed()
    ensures WellFormedDefinition(DEFINITION)
    ensures DetailsOf(DEFINITION, 0) == Details(0, "D", None, PhotoRef("k", "t"))
    ensures Text.Parse(Text.COMMENT_MAX, "D") == Ok("D")
  {
    assert Text.TrimStart("D") == "D" && Text.TrimEnd("D") == "D";
  }

  /** Somebody signs in, draws a flock, mints one duck, and sets it sailing. */
  function Settle(subject: string, prefix: string, code: string, next: Ids): seq<Event> {
    [LogIn(ISSUER, subject, None, None, false)]
    + ([NewFlock(next.user, None, Draws(prefix))]
       + (MintingAlone(0, next.user, next.flock, 1)
          + Serving(0, Some(Member(next.user)), code, DEFINITION, 0)))
  }

  function SailingRow(code: string, f: Id): DuckRow {
    DuckRow(code, f, 1, None, Some("D"), Some(0), Some(0), None, None, Some("k"), Some("t"))
  }

  function WithAccount(db: Db, subject: string): Db {
    db.(users := db.users[db.next.user := UserRow(ISSUER, subject, None, None, false)],
        next := db.next.(user := db.next.user + 1))
  }

  function WithFlock(db: Db, r: FlockRow): Db {
    db.(flocks := db.flocks[db.next.flock := r], next := db.next.(flock := db.next.flock + 1))
  }

  function WithDuck(db: Db, r: DuckRow): Db {
    db.(ducks := db.ducks[db.next.duck := r], next := db.next.(duck := db.next.duck + 1))
  }

  function Settled(codec: Codec.DuckCodec, db: Db, subject: string, prefix: string): Db
    requires Codec.Valid(codec) && Prints(codec, prefix)
  {
    WithDuck(WithFlock(WithAccount(db, subject), FlockRow(prefix, codec.current, db.next.user, None)),
             SailingRow(FirstCode(codec, prefix), db.next.flock))
  }

  predicate Newcomer(db: Db, subject: string, prefix: string) {
    && (forall u | u in db.users :: !(db.users[u].issuer == ISSUER && db.users[u].subject == subject))
    && (forall f | f in db.flocks :: db.flocks[f].code != prefix)
  }

  lemma SignsUp(codec: Codec.DuckCodec, db: Db, subject: string)
    requires Codec.Valid(codec)
    requires forall u | u in db.users :: !(db.users[u].issuer == ISSUER && db.users[u].subject == subject)
    ensures Step(codec, System(db, map[]), LogIn(ISSUER, subject, None, None, false))
            == System(WithAccount(db, subject), map[])
  {
    hide FindUser, CreateFlock, MarkAllRead, DeleteFlock, DeleteUser, FlockBusy, OwnerBusy, Decide, StepMint, Perform,
      Codec.Encode, Codes.IsFlockCode, ReadText, Field;
  }

  lemma DrawsFlock(codec: Codec.DuckCodec, db: Db, owner: Id, prefix: string)
    requires Codec.Valid(codec) && Good(codec, db) && Prints(codec, prefix) && owner in db.users
    requires forall f | f in db.flocks :: db.flocks[f].code != prefix
    ensures Step(codec, System(db, map[]), NewFlock(owner, None, Draws(prefix)))
            == System(WithFlock(db, FlockRow(prefix, codec.current, owner, None)), map[])
  {
    hide Good, Step, CreateFlock, Profanity.Matches, MintCode, Codes.IsFlockCode;
    FlocksBelow(codec, db);
    NewFlockAlone(codec, System(db, map[]), owner, Draws(prefix));
    DrawStep(db, owner, codec.current, None, Draws(prefix));
  }

  lemma RequestCommits(codec: Codec.DuckCodec, db: Db, user: Id, f: Id, count: nat)
    requires Codec.Valid(codec) && Good(codec, db) && MintRequest(codec, db, user, f, count).0.Ok?
    ensures MintRequest(codec, db, user, f, count).1
            == CommitRows(db, f, MintRequest(codec, db, user, f, count).0.value)
  {
    hide Good, MaxSeq, Allocate, Encoder, Store.MintBatch, CommitRows, Codes.IsFlockCode, Codec.Encode;
    MintSucceedsIff(codec, db, f, count);
  }

  lemma MintsFirst(codec: Codec.DuckCodec, db: Db, f: Id, user: Id, prefix: string)
    requires Codec.Valid(codec) && Inv(codec, System(db, map[])) && Prints(codec, prefix)
    requires f in db.flocks && db.flocks[f] == FlockRow(prefix, codec.current, user, None) && RowsOf(db.ducks, f) == {}
    ensures Run(codec, System(db, map[]), MintingAlone(0, user, f, 1))
            == System(WithDuck(db, Minted(f, [(1, FirstCode(codec, prefix))])[0]), map[])
  {
    hide Good, TasksOk, Exclusive, Run, Profanity.Matches, MintCode, Codes.IsFlockCode, MintRequest, MintingAlone,
      MaxSeq, RowsOf, Hatched;
    MintsAlone(codec, System(db, map[]), 0, user, f, 1);
    NoNumberYet(codec, db, f);
    MintRequestOutcome(codec, db, user, f, 1);
    var encode := Encoder(codec, codec.current, prefix);
    assert 1 in Acceptable(encode, 1) by {
      assert Accepts(encode, 1);
    }
    RequestCommits(codec, db, user, f, 1);
    var entries := MintRequest(codec, db, user, f, 1).0.value;
    assert Accepts(encode, 1);
    assert entries == [(1, FirstCode(codec, prefix))];
    AppendSingle(db.ducks, db.next.duck, Minted(f, entries)[0]);
    assert Minted(f, entries) == [Minted(f, entries)[0]];
  }

  lemma AppendSingle<R>(m: map<Id, R>, next: Id, row: R)
    ensures Append(m, next, [row]) == m[next := row]
  {
    assert [row][1..] == [];
  }

  lemma SetsSail(codec: Codec.DuckCodec, db: Db, d: Id, u: Id, f: Id, code: string)
    requires Codec.Valid(codec) && Good(codec, db) && d in db.ducks && db.ducks[d] == Minted(f, [(1, code)])[0]
    requires f in db.flocks && db.flocks[f].owner == u
    ensures Run(codec, System(db, map[]), Serving(0, Some(Member(u)), code, DEFINITION, 0))
            == System(db.(ducks := db.ducks[d := SailingRow(code, f)]), map[])
  {
    hide Good, Run, Serve, Serving, Codes.ParseDuck, WellFormedDefinition, DetailsOf;
    ServesAlone(codec, System(db, map[]), 0, Some(Member(u)), code, DEFINITION, 0);
    StoredCodeScans(codec, db, d);
    DefinitionIsWellFormed();
    DefinitionEffect(codec, db, Member(u), code, d, DEFINITION, 0);
  }

  lemma StoredCodeScans(codec: Codec.DuckCodec, db: Db, d: Id)
    requires Codec.Valid(codec) && Good(codec, db) && d in db.ducks
    ensures Scans(db, db.ducks[d].code, d)
  {
    hide Good, Codes.ParseDuck, Codes.IsDuckCode, Codec.Decode, Codes.FlockOf;
    Funnel.StoredCode(codec, db, d);
    Codes.PrintedFormsParse(db.ducks[d].code);
  }

  /** A newcomer settles: the schedule adds exactly an account, a flock and a duck on show. */
  lemma Settles(codec: Codec.DuckCodec, db: Db, subject: string, prefix: string)
    requires Codec.Valid(codec) && Inv(codec, System(db, map[]))
    requires Prints(codec, prefix) && Newcomer(db, subject, prefix)
    ensures var after := Run(codec, System(db, map[]), Settle(subject, prefix, FirstCode(codec, prefix), db.next));
            after == System(Settled(codec, db, subject, prefix), map[]) && Inv(codec, after)
  {
    hide Good, TasksOk, Exclusive, Run, Step, Serving, MintingAlone, Profanity.Matches, MintCode, Codes.IsFlockCode,
      RowsOf;
    var (u, f, d, code) := (db.next.user, db.next.flock, db.next.duck, FirstCode(codec, prefix));
    var start := System(db, map[]);
    var (mint, serve) := (MintingAlone(0, u, f, 1), Serving(0, Some(Member(u)), code, DEFINITION, 0));
    var (e1, e2) := (LogIn(ISSUER, subject, None, None, false), NewFlock(u, None, Draws(prefix)));
    var s1 := System(WithAccount(db, subject), map[]);
    var s2 := System(WithFlock(s1.db, FlockRow(prefix, codec.current, u, None)), map[]);
    var s3 := System(WithDuck(s2.db, Minted(f, [(1, code)])[0]), map[]);
    ScheduleCons(codec, start, e1, [e2] + (mint + serve));
    SignsUp(codec, db, subject);
    StepKeepsInv(codec, start, e1);
    ScheduleCons(codec, s1, e2, mint + serve);
    DrawsFlock(codec, s1.db, u, prefix);
    StepKeepsInv(codec, s1, e2);
    ScheduleAppend(codec, s2, mint, serve);
    UnbornFlockHasNoRows(codec, s1.db, f);
    SameDucksSameRows(s1.db.ducks, s2.db.ducks, f);
    MintsFirst(codec, s2.db, f, u, prefix);
    RunKeepsInv(codec, s2, mint);
    SetsSail(codec, s3.db, d, u, f, code);
    RunKeepsInv(codec, s3, serve);
    assert s3.db.ducks[d := SailingRow(code, f)] == db.ducks[d := SailingRow(code, f)];
  }

  lemma SameDucksSameRows(a: map<Id, DuckRow>, b: map<Id, DuckRow>, f: Id)
    requires a == b
    ensures RowsOf(a, f) == RowsOf(b, f)
  {
  }

  lemma Opens(codec: Codec.DuckCodec, vessels: set<Id>)
    requires Codec.Valid(codec) && Prints(codec, FIRST)
    ensures var db := Settled(codec, Empty(vessels), "anna", FIRST);
            && Run(codec, Start(vessels), Opening(codec)) == System(db, map[])
            && Inv(codec, System(db, map[])) && Scans(db, FirstCode(codec, FIRST), 1) && OnShow(db, 1)
            && Hiding.Owns(db, Some(Member(1)), 1)
  {
    hide Good, TasksOk, Exclusive, Run, Profanity.Matches, MintCode, Codes.IsFlockCode, Settle, Scans;
    StartIsInv(codec, vessels);
    Settles(codec, Empty(vessels), "anna", FIRST);
    StoredCodeScans(codec, Settled(codec, Empty(vessels), "anna", FIRST), 1);
  }

  function Opening(codec: Codec.DuckCodec): seq<Event>
    requires Codec.Valid(codec) && Prints(codec, FIRST)
  {
    Settle("anna", FIRST, FirstCode(codec, FIRST), Ids(1, 1, 1, 1, 1, 1))
  }

  // ----- A comment on a locked duck -----------------------------------------------------------

  /** A comment is checked, the duck is locked, the comment is written. */
  function CommentStory(codec: Codec.DuckCodec): seq<Event>
    requires Codec.Valid(codec) && Prints(codec, FIRST)
  {
    var code := FirstCode(codec, FIRST);
    Opening(codec)
    + ([Arrive(1, Some(Member(1)), code, PostComment("D"), 0)]
       + (Serving(2, Some(Member(1)), code, LockComments(true), 0) + [DoWrite(1, 0)]))
  }

  lemma CommentAccepted(codec: Codec.DuckCodec, db: Db, v: Viewer, raw: string, d: Id)
    requires Codec.Valid(codec) && Good(codec, db) && Scans(db, raw, d) && OnShow(db, d) && !CommentsLocked(db.ducks, d)
    ensures Decide(codec, db, Some(v), raw, PostComment("D"), 0)
            == Act([WComment(d, v.id, "D")], DuckUrl(db.ducks[d].code))
  {
    hide Good, ResolveAny, Hiding.Owns, Codes.ParseDuck, Text.Parse;
    ScannedDuck(codec, db, v, raw, d);
    DefinitionIsWellFormed();
  }

  lemma LockServed(codec: Codec.DuckCodec, db: Db, v: Viewer, raw: string, d: Id)
    requires Codec.Valid(codec) && Good(codec, db) && Scans(db, raw, d) && OnShow(db, d) && Hiding.Owns(db, Some(v), d)
    ensures Serve(codec, db, Some(v), raw, LockComments(true), 0).1 == SetCommentsLocked(db, d, true, 0)
    ensures CommentsLocked(SetCommentsLocked(db, d, true, 0).ducks, d)
  {
    hide Good, ResolveAny, Hiding.Owns, Codes.ParseDuck;
    ScannedDuck(codec, db, v, raw, d);
    Hiding.PerformOne(db, WLocked(d, true), DuckUrl(db.ducks[d].code), 0);
  }

  /** A schedule from the empty registry that leaves a comment on a locked duck. */
  lemma {:induction false} CommentOnLockedDuck(codec: Codec.DuckCodec, vessels: set<Id>)
    requires Codec.Valid(codec) && Prints(codec, FIRST)
    ensures var db := Run(codec, Start(vessels), CommentStory(codec)).db;
            exists c | c in db.comments :: CommentsLocked(db.ducks, db.comments[c].duck)
  {
    hide Good, TasksOk, Exclusive, Run, Step, Serving, Serve, Decide, Opening, Profanity.Matches, MintCode,
      Codes.IsFlockCode, Scans, Hiding.Owns;
    var (code, v) := (FirstCode(codec, FIRST), Member(1));
    var db := Settled(codec, Empty(vessels), "anna", FIRST);
    var e := Arrive(1, Some(v), code, PostComment("D"), 0);
    var lock := Serving(2, Some(v), code, LockComments(true), 0);
    var rest := [e] + (lock + [DoWrite(1, 0)]);
    Opens(codec, vessels);
    ScheduleAppend(codec, Start(vessels), Opening(codec), rest);
    ScheduleCons(codec, System(db, map[]), e, lock + [DoWrite(1, 0)]);
    CommentAccepted(codec, db, v, code, 1);
    ArrivalStep(codec, System(db, map[]), 1, Some(v), code, PostComment("D"), 0);
    var waiting := System(db, map[1 := Acting([WComment(1, 1, "D")])]);
    ScheduleAppend(codec, waiting, lock, [DoWrite(1, 0)]);
    ServesAlone(codec, waiting, 2, Some(v), code, LockComments(true), 0);
    LockServed(codec, db, v, code, 1);
    var locked := System(SetCommentsLocked(db, 1, true, 0), waiting.tasks);
    ScheduleOne(codec, locked, DoWrite(1, 0));
    CommentWrite(codec, locked, 1, 1, 1, "D", 0);
    assert Run(codec, Start(vessels), CommentStory(codec)) == Step(codec, locked, DoWrite(1, 0));
    assert 1 in Step(codec, locked, DoWrite(1, 0)).db.comments;
  }

  // ----- A sticker that changes hands ----------------------------------------------------------

  /** The flock is hard-deleted, its prefix drawn again, and one duck minted. */
  function StickerStory(codec: Codec.DuckCodec): seq<Event>
    requires Codec.Valid(codec) && Prints(codec, FIRST)
  {
    Opening(codec) + Reissue(1, 1, Draws(FIRST), 0, 2, 1)
  }

  lemma FirstDrawUsable(db: Db, prefix: string)
    requires !Profanity.Matches(prefix) && forall f | f in db.flocks :: db.flocks[f].code != prefix
    ensures FirstUsable(db.flocks, Draws(prefix)) == Some(0)
  {
    hide Profanity.Matches;
  }

  /** A schedule from the empty registry after which the first sticker resolves to another flock's duck. */
  lemma {:induction false} StickerChangesHands(codec: Codec.DuckCodec, vessels: set<Id>)
    requires Codec.Valid(codec) && Prints(codec, FIRST)
    ensures var (before, after) := (Run(codec, Start(vessels), Opening(codec)).db,
                                    Run(codec, Start(vessels), StickerStory(codec)).db);
            var (first, second) := (ResolveAny(codec, before, FirstCode(codec, FIRST)),
                                 ResolveAny(codec, after, FirstCode(codec, FIRST)));
            && first.Found? && second.Found? && first.duck.code == second.duck.code
            && first.duck.flock == 1 && second.duck.flock == 2 && first.duck.id != second.duck.id
  {
    hide Good, TasksOk, Exclusive, Run, Reissue, Opening, Profanity.Matches, MintCode, Codes.IsFlockCode, ResolveAny,
      FirstUsable, CreateFlock;
    var db := Settled(codec, Empty(vessels), "anna", FIRST);
    var sys := System(db, map[]);
    Opens(codec, vessels);
    ScheduleAppend(codec, Start(vessels), Opening(codec), Reissue(1, 1, Draws(FIRST), 0, 2, 1));
    OneRow(db, 1, 1);
    FirstDrawUsable(WithoutFlock(db, 1), FIRST);
    DrawStep(WithoutFlock(db, 1), 1, codec.current, None, Draws(FIRST));
    assert Reissuable(codec, sys, 1, 1, Draws(FIRST));
    assert NewIdentity(codec, db, 1, 1, Draws(FIRST)) == 2;
    PrefixComesBack(codec, sys, 1, 1, Draws(FIRST), 0, 2);
    StickerOf(codec, db, FirstCode(codec, FIRST), 1);
    RunKeepsInv(codec, sys, Reissue(1, 1, Draws(FIRST), 0, 2, 1));
    FoundCode(codec, Run(codec, sys, Reissue(1, 1, Draws(FIRST), 0, 2, 1)).db, FirstCode(codec, FIRST), db, 1);
  }

  lemma OneRow(db: Db, d: Id, f: Id)
    requires d in db.ducks && db.ducks[d].flock == f && forall e | e in db.ducks :: e == d
    ensures RowsOf(db.ducks, f) == {d}
  {
  }

  lemma StickerOf(codec: Codec.DuckCodec, db: Db, code: string, d: Id)
    requires Codec.Valid(codec) && Good(codec, db) && Scans(db, code, d)
    ensures var r := ResolveAny(codec, db, code);
            r.Found? && r.duck.id == d && r.duck.flock == db.ducks[d].flock
            && Codes.ParseDuck(code) == Ok(r.duck.code)
  {
    hide Good, ResolveAny, ReadDuck, Codes.ParseDuck;
    ScannedDuck(codec, db, Member(0), code, d);
    ResolvedRow(codec, db, code);
    Funnel.DuckReadsBack(codec, db, d);
  }

  lemma FoundCode(codec: Codec.DuckCodec, db: Db, code: string, was: Db, d: Id)
    requires Codec.Valid(codec) && Good(codec, db) && ResolveAny(codec, db, code).Found? && Scans(was, code, d)
    ensures ResolveAny(codec, db, code).duck.code == was.ducks[d].code
  {
    hide Good, ResolveAny, Codes.ParseDuck, Funnel.NaiveLookup;
    Funnel.ScanFunnel(codec, db, code);
    ResolvedRow(codec, db, code);
    var e :| e in db.ducks && db.ducks[e].code == Codes.ParseDuck(code).value;
    Funnel.StoredCodeResolves(codec, db, code, e);
  }

  // ----- Notices lost on another duck's page -----------------------------------------------------

  /** A second owner settles and follows his own duck; the first owner finds it. */
  function FindStory(codec: Codec.DuckCodec, vessel: Id): seq<Event>
    requires Codec.Valid(codec) && Prints(codec, FIRST) && Prints(codec, SECOND)
  {
    var code := FirstCode(codec, SECOND);
    Opening(codec)
    + (Settle("bert", SECOND, code, Ids(2, 2, 2, 1, 1, 1))
       + (Serving(0, Some(Member(2)), code, StartFollowing, 0) + Serving(0, Some(Member(1)), code, FindOn(vessel), 0)))
  }

  function FindOn(vessel: Id): Request {
    LogFind(vessel, None, None, None, None, None)
  }

  lemma FindIsWellFormed(db: Db, vessel: Id)
    requires vessel in db.vessels
    ensures WellFormedFind(db, FindOn(vessel), 0)
    ensures FoundRow(db, Member(1), 2, FindOn(vessel), 0) == SightingRow(2, vessel, 1, 0, None, None, None, None, None)
  {
  }

  lemma FollowServed(codec: Codec.DuckCodec, db: Db, v: Viewer, raw: string, d: Id)
    requires Codec.Valid(codec) && Good(codec, db) && Scans(db, raw, d) && OnShow(db, d) && v.id in db.users
    ensures Serve(codec, db, Some(v), raw, StartFollowing, 0).1 == db.(follows := db.follows + {(v.id, d)})
  {
    hide Good, ResolveAny, Hiding.Owns, Codes.ParseDuck;
    ScannedDuck(codec, db, v, raw, d);
    Hiding.PerformOne(db, WFollow(v.id, d), DuckUrl(db.ducks[d].code), 0);
    if (v.id, d) in db.follows {
      assert db.follows + {(v.id, d)} == db.follows;
    }
  }

  lemma FindServed(codec: Codec.DuckCodec, db: Db, raw: string, vessel: Id)
    requires Codec.Valid(codec) && Good(codec, db) && Scans(db, raw, 2) && OnShow(db, 2) && vessel in db.vessels
    requires 1 in db.users && (2, 2) in db.follows
    ensures var after := Serve(codec, db, Some(Member(1)), raw, FindOn(vessel), 0).1;
            && after.ducks == db.ducks && after.flocks == db.flocks && after.users == db.users
            && db.next.sighting in after.sightings && after.sightings[db.next.sighting].duck == 2
            && exists n | n in after.notifications ::
                 after.notifications[n].sighting == db.next.sighting && after.notifications[n].user == 2
  {
    hide Good, Scans, Decide, Append, Notified, Notices, PerformAll;
    FindIsWellFormed(db, vessel);
    FindDecision(codec, db, Member(1), raw, 2, FindOn(vessel), 0);
    var row := FoundRow(db, Member(1), 2, FindOn(vessel), 0);
    ScanInside(db, raw, 2);
    Hiding.PerformOne(db, WLog(row), DuckFlash(db.ducks[2].code, RECORDED), 0);
    DuckGuarantees.LogFansOut(codec, db, row);
  }

  lemma ScanInside(db: Db, raw: string, d: Id)
    requires Scans(db, raw, d)
    ensures d in db.ducks
  {
  }

  /** Both owners have settled. */
  function TwoOwners(codec: Codec.DuckCodec, vessels: set<Id>): Db
    requires Codec.Valid(codec) && Prints(codec, FIRST) && Prints(codec, SECOND)
  {
    Settled(codec, Settled(codec, Empty(vessels), "anna", FIRST), "bert", SECOND)
  }

  lemma BothSettle(codec: Codec.DuckCodec, vessels: set<Id>)
    requires Codec.Valid(codec) && Prints(codec, FIRST) && Prints(codec, SECOND)
    ensures var db := TwoOwners(codec, vessels);
            && Run(codec, Start(vessels),
                   Opening(codec) + Settle("bert", SECOND, FirstCode(codec, SECOND), Ids(2, 2, 2, 1, 1, 1)))
               == System(db, map[])
            && Inv(codec, System(db, map[]))
            && Scans(db, FirstCode(codec, FIRST), 1) && OnShow(db, 1) && Hiding.Owns(db, Some(Member(1)), 1)
            && Scans(db, FirstCode(codec, SECOND), 2) && OnShow(db, 2) && !Moderates(db, Member(1), 2)
            && db.users.Keys == {1, 2} && db.vessels == vessels && db.next.sighting == 1
  {
    hide Good, TasksOk, Exclusive, Run, Profanity.Matches, MintCode, Codes.IsFlockCode, Settle, Opening, Scans;
    var one := Settled(codec, Empty(vessels), "anna", FIRST);
    var db := TwoOwners(codec, vessels);
    Opens(codec, vessels);
    ScheduleAppend(codec, Start(vessels), Opening(codec), Settle("bert", SECOND, FirstCode(codec, SECOND), one.next));
    assert "anna"[0] != "bert"[0] && FIRST[2] != SECOND[2];
    Settles(codec, one, "bert", SECOND);
    StoredCodeScans(codec, db, 1);
    StoredCodeScans(codec, db, 2);
  }

  /** What the schedule up to the find leaves behind. */
  lemma FindHappens(codec: Codec.DuckCodec, vessels: set<Id>, vessel: Id)
    requires Codec.Valid(codec) && Prints(codec, FIRST) && Prints(codec, SECOND) && vessel in vessels
    ensures var sys := Run(codec, Start(vessels), FindStory(codec, vessel));
            var db := sys.db;
            && Inv(codec, sys) && sys.tasks == map[]
            && Scans(db, FirstCode(codec, FIRST), 1) && OnShow(db, 1) && Moderates(db, Member(1), 1)
            && 2 in db.ducks && !Moderates(db, Member(1), 2)
            && 1 in db.sightings && db.sightings[1].duck == 2
            && exists n | n in db.notifications :: db.notifications[n].sighting == 1 && db.notifications[n].user == 2
  {
    hide Good, TasksOk, Exclusive, Run, Serve, Serving, Profanity.Matches, MintCode, Codes.IsFlockCode, Settle, Opening,
      TwoOwners, Codes.ParseDuck;
    var (v1, v2, code) := (Member(1), Member(2), FirstCode(codec, SECOND));
    var db := TwoOwners(codec, vessels);
    var sys := System(db, map[]);
    var settle := Settle("bert", SECOND, code, Ids(2, 2, 2, 1, 1, 1));
    var (follow, find) := (Serving(0, Some(v2), code, StartFollowing, 0),
                           Serving(0, Some(v1), code, FindOn(vessel), 0));
    BothSettle(codec, vessels);
    assert FindStory(codec, vessel) == (Opening(codec) + settle) + (follow + find);
    ScheduleAppend(codec, Start(vessels), Opening(codec) + settle, follow + find);
    ScheduleAppend(codec, sys, follow, find);
    ServesAlone(codec, sys, 0, Some(v2), code, StartFollowing, 0);
    FollowServed(codec, db, v2, code, 2);
    RunKeepsInv(codec, sys, follow);
    var mid := db.(follows := db.follows + {(2, 2)});
    ServesAlone(codec, System(mid, map[]), 0, Some(v1), code, FindOn(vessel), 0);
    FindServed(codec, mid, code, vessel);
    RunKeepsInv(codec, System(mid, map[]), find);
  }

  /** A schedule from the empty registry in which the owner of one duck, removing through its page a sighting of
      a duck that is none of his, leaves the sighting and takes away its owner's notice. */
  lemma {:induction false} NoticesLostOnOtherPage(codec: Codec.DuckCodec, vessels: set<Id>, vessel: Id)
    requires Codec.Valid(codec) && Prints(codec, FIRST) && Prints(codec, SECOND) && vessel in vessels
    ensures var before := Run(codec, Start(vessels), FindStory(codec, vessel)).db;
            var removal := Serving(0, Some(Member(1)), FirstCode(codec, FIRST), RemoveSighting(1), 0);
            var after := Run(codec, Start(vessels), FindStory(codec, vessel) + removal).db;
            && 1 in before.sightings && before.sightings[1].duck == 2
            && 2 in before.ducks && !Moderates(before, Member(1), 2)
            && (exists n | n in before.notifications ::
                  before.notifications[n].sighting == 1 && before.notifications[n].user == 2)
            && after.sightings == before.sightings
            && forall n | n in after.notifications :: after.notifications[n].sighting != 1
  {
    hide Good, TasksOk, Exclusive, Run, Serve, Serving, Profanity.Matches, MintCode, FindStory, Codes.ParseDuck,
      Moderates;
    var removal := Serving(0, Some(Member(1)), FirstCode(codec, FIRST), RemoveSighting(1), 0);
    var sys := Run(codec, Start(vessels), FindStory(codec, vessel));
    FindHappens(codec, vessels, vessel);
    ScheduleAppend(codec, Start(vessels), FindStory(codec, vessel), removal);
    ServesAlone(codec, sys, 0, Some(Member(1)), FirstCode(codec, FIRST), RemoveSighting(1), 0);
    WrongPageDropsNotices(codec, sys.db, Member(1), FirstCode(codec, FIRST), 1, 1, 0);
  }
}
