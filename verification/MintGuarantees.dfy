/** Minting under every schedule of concurrent mints, handlers, flock creations and hard deletions. */
module MintGuarantees {
  import opened Wrappers
  import opened Schema
  import opened Store
  import opened Minting
  import opened Cascade
  import opened Invariants
  import opened Handlers
  import opened Evolution
  import opened Runs
  import opened Safety
  import opened Reachability
  import Funnel
  import Codes
  import Codec
  import Text

  lemma ReachableInv(codec: Codec.DuckCodec, vessels: set<Id>, events: seq<Event>)
    requires Codec.Valid(codec)
    ensures Inv(codec, Run(codec, Start(vessels), events))
  {
    hide Inv, Run;
    StartIsInv(codec, vessels);
    RunKeepsInv(codec, Start(vessels), events);
  }

  // ----- Mints never collide --------------------------------------------------------------

  lemma MintOutcomes(codec: Codec.DuckCodec, sys: System, t: Id)
    requires Codec.Valid(codec) && Inv(codec, sys) && t in sys.tasks
    requires sys.tasks[t].Mint? && sys.tasks[t].phase.HaveMax?
    ensures var m := sys.tasks[t];
            && Codes.IsFlockCode(m.code)
            && (InsertOutcome(codec, sys, t).Full?
                <==> |Acceptable(Encoder(codec, m.generation, m.code), m.phase.max + 1)| < m.count)
            && (m.flock in sys.db.flocks ==> !InsertOutcome(codec, sys, t).Refused?)
            && InsertOutcome(codec, sys, t) != Refused(Unique)
  {
    hide Good, TasksOk, Exclusive, Allocate, Encoder, Acceptable, InsertClashes, ClashesWithOthers, Minted, MaxSeq,
      Codes.IsFlockCode;
    var m := sys.tasks[t];
    LockedAlone(codec, sys, t);
    AllocateFullIff(Encoder(codec, m.generation, m.code), m.phase.max + 1, m.count);
    match Allocate(Encoder(codec, m.generation, m.code), m.phase.max + 1, m.count)
    case None =>
    case Some(entries) =>
      if m.flock in sys.db.flocks {
        PlannedNeverClash(codec, sys.db, m.flock, m.count, entries);
        OthersNeverClash(codec, sys, t, entries);
      }
  }

  /** Uncommitted rows of another mint belong to another flock, so no UNIQUE constraint sees them. */
  lemma OthersNeverClash(codec: Codec.DuckCodec, sys: System, t: Id, entries: seq<Entry>)
    requires Codec.Valid(codec) && Inv(codec, sys) && t in sys.tasks
    requires sys.tasks[t].Mint? && sys.tasks[t].phase.HaveMax? && Codes.IsFlockCode(sys.tasks[t].code)
    requires sys.tasks[t].flock in sys.db.flocks
    requires Allocate(Encoder(codec, sys.tasks[t].generation, sys.tasks[t].code), sys.tasks[t].phase.max + 1,
                      sys.tasks[t].count) == Some(entries)
    ensures !ClashesWithOthers(sys, t, entries)
  {
    hide Good, TasksOk, Exclusive, Allocate, Encoder, RowsClash, Minted, MaxSeq, Codes.IsFlockCode;
    LockedAlone(codec, sys, t);
    forall o | o in sys.tasks && o != t && HasInserted(sys.tasks[o])
      ensures !RowsClash(Minted(sys.tasks[o].flock, sys.tasks[o].phase.entries), Minted(sys.tasks[t].flock, entries))
    {
      LockedAlone(codec, sys, o);
      assert HoldsLock(sys.tasks[o], sys.tasks[o].flock);
      PlansNeverClash(codec, sys.db, sys.tasks[o].flock, sys.tasks[o].count, sys.tasks[o].phase.entries,
                      sys.tasks[t].flock, sys.tasks[t].count, entries);
    }
  }

  /** Plans for two different flocks share neither a code nor a (flock, number) pair. */
  lemma {:induction false} PlansNeverClash(codec: Codec.DuckCodec, db: Db, f: Id, m: nat, a: seq<Entry>, g: Id, n: nat,
                                           b: seq<Entry>)
    requires Codec.Valid(codec) && Good(codec, db) && f in db.flocks && g in db.flocks && f != g
    requires Codes.IsFlockCode(db.flocks[f].code) && Codes.IsFlockCode(db.flocks[g].code)
    requires Allocate(Encoder(codec, db.flocks[f].generation, db.flocks[f].code),
                      MaxSeq(db.ducks, f, db.next.duck) + 1, m) == Some(a)
    requires Allocate(Encoder(codec, db.flocks[g].generation, db.flocks[g].code),
                      MaxSeq(db.ducks, g, db.next.duck) + 1, n) == Some(b)
    ensures !RowsClash(Minted(f, a), Minted(g, b))
  {
    hide Good, MintCode, Allocate, Encoder, Minted, DuckReads, DuckCoded, DucksClash, MaxSeq, UniqueFlocks,
      Codes.IsFlockCode;
    PrefixesUnique(codec, db);
    MintedRowsCoded(codec, db.flocks, f, MaxSeq(db.ducks, f, db.next.duck), m, a);
    MintedRowsCoded(codec, db.flocks, g, MaxSeq(db.ducks, g, db.next.duck), n, b);
    var (ra, rb) := (Minted(f, a), Minted(g, b));
    forall i, j | 0 <= i < |ra| && 0 <= j < |rb| ensures !DucksClash(ra[i], rb[j]) {
      CodedRowsClash(codec, db.flocks, ra[i], rb[j]);
    }
  }

  lemma PrefixesUnique(codec: Codec.DuckCodec, db: Db)
    requires Codec.Valid(codec) && Good(codec, db)
    ensures UniqueFlocks(db.flocks)
  {
    hide DucksOk, Dense, UsersOk, SightingsOk, CommentsOk, FollowsOk, NoticesOk, ForeignKeys, UniqueFlocks;
  }

  /** What a mint has inserted is new: its rows' codes and numbers differ from each other and from those of every
      stored duck. */
  ghost predicate Fresh(ducks: map<Id, DuckRow>, f: Id, entries: seq<Entry>) {
    && (forall i, j | 0 <= i < j < |entries| :: entries[i].0 != entries[j].0 && entries[i].1 != entries[j].1)
    && (forall d, i | d in ducks && 0 <= i < |entries| ::
          ducks[d].code != entries[i].1 && !(ducks[d].flock == f && ducks[d].seqNo == entries[i].0))
  }

  lemma NoClashIsFresh(ducks: map<Id, DuckRow>, f: Id, entries: seq<Entry>)
    requires !InsertClashes(ducks, Minted(f, entries))
    ensures Fresh(ducks, f, entries)
  {
    var rows := Minted(f, entries);
    forall i, j | 0 <= i < j < |entries| ensures entries[i].0 != entries[j].0 && entries[i].1 != entries[j].1 {
      assert !DucksClash(rows[i], rows[j]);
    }
    forall d, i | d in ducks && 0 <= i < |entries|
      ensures ducks[d].code != entries[i].1 && !(ducks[d].flock == f && ducks[d].seqNo == entries[i].0)
    {
      assert !DucksClash(ducks[d], rows[i]);
    }
  }

  lemma NoClashNoSharedCode(f: Id, a: seq<Entry>, g: Id, b: seq<Entry>)
    requires !RowsClash(Minted(f, a), Minted(g, b))
    ensures forall i, j | 0 <= i < |a| && 0 <= j < |b| :: a[i].1 != b[j].1
  {
    forall i, j | 0 <= i < |a| && 0 <= j < |b| ensures a[i].1 != b[j].1 {
      assert !DucksClash(Minted(f, a)[i], Minted(g, b)[j]);
    }
  }

  /** After every schedule: rows a mint has inserted but not committed are new to the table, belong to a stored flock,
      and share neither flock nor code with the uncommitted rows of any other mint. */
  lemma {:induction false} UncommittedRowsDiffer(codec: Codec.DuckCodec, vessels: set<Id>, events: seq<Event>, t: Id)
    requires Codec.Valid(codec) && t in Run(codec, Start(vessels), events).tasks
    requires var m := Run(codec, Start(vessels), events).tasks[t]; m.Mint? && m.phase.Inserted?
    ensures var sys := Run(codec, Start(vessels), events);
            var m := sys.tasks[t];
            && m.flock in sys.db.flocks && Fresh(sys.db.ducks, m.flock, m.phase.entries)
            && forall o | o in sys.tasks && o != t && sys.tasks[o].Mint? && sys.tasks[o].phase.Inserted? ::
                 && sys.tasks[o].flock != m.flock
                 && forall i, j | 0 <= i < |m.phase.entries| && 0 <= j < |sys.tasks[o].phase.entries| ::
                      m.phase.entries[i].1 != sys.tasks[o].phase.entries[j].1
  {
    hide Good, TasksOk, Exclusive, Run, Allocate, Encoder, RowsClash, InsertClashes, Fresh, MaxSeq, Codes.IsFlockCode;
    var sys := Run(codec, Start(vessels), events);
    var m := sys.tasks[t];
    ReachableInv(codec, vessels, events);
    LockedAlone(codec, sys, t);
    PlannedNeverClash(codec, sys.db, m.flock, m.count, m.phase.entries);
    NoClashIsFresh(sys.db.ducks, m.flock, m.phase.entries);
    forall o | o in sys.tasks && o != t && sys.tasks[o].Mint? && sys.tasks[o].phase.Inserted?
      ensures sys.tasks[o].flock != m.flock
      ensures forall i, j | 0 <= i < |m.phase.entries| && 0 <= j < |sys.tasks[o].phase.entries| ::
                m.phase.entries[i].1 != sys.tasks[o].phase.entries[j].1
    {
      var other := sys.tasks[o];
      LockedAlone(codec, sys, o);
      assert !HoldsLock(other, m.flock);
      PlansNeverClash(codec, sys.db, m.flock, m.count, m.phase.entries, other.flock, other.count, other.phase.entries);
      NoClashNoSharedCode(m.flock, m.phase.entries, other.flock, other.phase.entries);
    }
  }

  /** After every schedule: at most one mint holds a flock's lock; the INSERT of a mint that has read the
      maximum never meets a UNIQUE violation, meets none at all while its flock exists, and the mint gives
      up as full exactly when too few acceptable numbers are left above the flock's true high-water mark. */
  lemma MintsNeverCollide(codec: Codec.DuckCodec, vessels: set<Id>, events: seq<Event>, t: Id)
    requires Codec.Valid(codec) && t in Run(codec, Start(vessels), events).tasks
    ensures var sys := Run(codec, Start(vessels), events);
            var m := sys.tasks[t];
            && UniqueDucks(sys.db.ducks) && UniqueFlocks(sys.db.flocks)
            && (m.Mint? && !m.phase.Waiting? ==>
                  forall o | o in sys.tasks && o != t :: !HoldsLock(sys.tasks[o], m.flock))
            && (m.Mint? && m.phase.HaveMax? ==>
                  && Codes.IsFlockCode(m.code)
                  && InsertOutcome(codec, sys, t) != Refused(Unique)
                  && (m.flock in sys.db.flocks ==>
                        && !InsertOutcome(codec, sys, t).Refused?
                        && (InsertOutcome(codec, sys, t).Full?
                            <==> |Acceptable(Encoder(codec, m.generation, m.code),
                                             MaxSeq(sys.db.ducks, m.flock, sys.db.next.duck) + 1)| < m.count)))
  {
    hide Good, TasksOk, Exclusive, Run, Acceptable, InsertOutcome, Encoder, MaxSeq, UniqueDucks, UniqueFlocks,
      UniqueUsers,
      ForeignKeys, Checks, IdsBounded, NoticesAgree, Codes.IsFlockCode;
    var sys := Run(codec, Start(vessels), events);
    ReachableInv(codec, vessels, events);
    GoodMeetsSchema(codec, sys.db);
    var m := sys.tasks[t];
    if m.Mint? && !m.phase.Waiting? {
      LockedAlone(codec, sys, t);
      if m.phase.HaveMax? {
        MintOutcomes(codec, sys, t);
      }
    }
  }

  // ----- Which numbers a flock holds -----------------------------------------------------------

  function RowsOf(ducks: map<Id, DuckRow>, f: Id): set<Id> {
    set d | d in ducks && ducks[d].flock == f
  }

  /** The printed contents of a flock: its numbers and their codes. */
  function Printed(ducks: map<Id, DuckRow>, f: Id): set<(int, string)> {
    set d | d in ducks && ducks[d].flock == f :: (ducks[d].seqNo, ducks[d].code)
  }

  /** The acceptable numbers up to `high`, with the codes they encode to. */
  function PrintableUpTo(codec: Codec.DuckCodec, g: nat, code: string, high: nat): set<(int, string)>
    requires Codec.Valid(codec) && Codes.IsFlockCode(code)
  {
    set s: nat | 1 <= s <= high && MintCode(codec, g, code, s).Some? :: (s, MintCode(codec, g, code, s).value)
  }

  /** A flock holds exactly the acceptable numbers up to its high-water mark. */
  lemma {:induction false} FlockContents(codec: Codec.DuckCodec, db: Db, f: Id)
    requires Codec.Valid(codec) && Good(codec, db) && f in db.flocks
    ensures Codes.IsFlockCode(db.flocks[f].code)
    ensures Printed(db.ducks, f)
            == PrintableUpTo(codec, db.flocks[f].generation, db.flocks[f].code, MaxSeq(db.ducks, f, db.next.duck))
  {
    hide Good, MintCode, Codes.IsFlockCode, MaxSeq, FlockReads;
    FlockRow(codec, db, f);
    var (g, code, max) := (db.flocks[f].generation, db.flocks[f].code, MaxSeq(db.ducks, f, db.next.duck));
    forall d | d in db.ducks && db.ducks[d].flock == f
      ensures 1 <= db.ducks[d].seqNo <= max && MintCode(codec, g, code, db.ducks[d].seqNo) == Some(db.ducks[d].code)
    {
      NumberOfRow(codec, db, d);
    }
    forall s: nat | 1 <= s <= max && MintCode(codec, g, code, s).Some?
      ensures (s, MintCode(codec, g, code, s).value) in Printed(db.ducks, f)
    {
      NumberHasRow(codec, db, f, s);
    }
  }

  lemma FlockRow(codec: Codec.DuckCodec, db: Db, f: Id)
    requires Codec.Valid(codec) && Good(codec, db) && f in db.flocks
    ensures Codes.IsFlockCode(db.flocks[f].code) && db.flocks[f].generation in codec.ciphers && f < db.next.flock
  {
    hide DucksOk, Dense, UsersOk, SightingsOk, CommentsOk, FollowsOk, NoticesOk, ForeignKeys, UniqueFlocks,
      Codes.IsFlockCode;
  }

  lemma NumberOfRow(codec: Codec.DuckCodec, db: Db, d: Id)
    requires Codec.Valid(codec) && Good(codec, db) && d in db.ducks
    ensures var r := db.ducks[d];
            && r.flock in db.flocks && Codes.IsFlockCode(db.flocks[r.flock].code)
            && 1 <= r.seqNo <= MaxSeq(db.ducks, r.flock, db.next.duck)
            && MintCode(codec, db.flocks[r.flock].generation, db.flocks[r.flock].code, r.seqNo) == Some(r.code)
  {
    hide Good, MintCode, DuckReads, FlockReads;
    Funnel.DuckRowFacts(codec, db, d);
    Funnel.StoredCode(codec, db, d);
  }

  lemma NumberHasRow(codec: Codec.DuckCodec, db: Db, f: Id, s: nat)
    requires Codec.Valid(codec) && Good(codec, db) && f in db.flocks && Codes.IsFlockCode(db.flocks[f].code)
    requires s <= MaxSeq(db.ducks, f, db.next.duck)
    requires MintCode(codec, db.flocks[f].generation, db.flocks[f].code, s).Some?
    ensures exists d | d in db.ducks :: db.ducks[d].flock == f && db.ducks[d].seqNo == s
              && db.ducks[d].code == MintCode(codec, db.flocks[f].generation, db.flocks[f].code, s).value
  {
    hide MintCode, DucksOk, Dense, UsersOk, FlocksOk, SightingsOk, CommentsOk, FollowsOk, NoticesOk, ForeignKeys,
      MaxSeq,
      Codes.IsFlockCode;
    NumbersBelowMax(codec, db, f, MaxSeq(db.ducks, f, db.next.duck), s);
    var d :| d in db.ducks && db.ducks[d].flock == f && db.ducks[d].seqNo == s;
    NumberOfRow(codec, db, d);
  }

  // ----- Schedule independence -----------------------------------------------------------------

  /** How many ducks an event commits to flock `f`. */
  function CommittedBy(sys: System, e: Event, f: Id): nat {
    if e.Commit? && e.task in sys.tasks && HasInserted(sys.tasks[e.task]) && sys.tasks[e.task].flock == f
    then sys.tasks[e.task].count else 0
  }

  /** The sum of the counts of the mints that a schedule commits to flock `f`. */
  function Committed(codec: Codec.DuckCodec, sys: System, events: seq<Event>, f: Id): nat
    requires Codec.Valid(codec)
    decreases |events|
  {
    if events == [] then 0
    else CommittedBy(sys, events[0], f) + Committed(codec, Step(codec, sys, events[0]), events[1..], f)
  }

  lemma GentleRows(a: Db, b: Db, f: Id)
    requires Gentle(a, b)
    ensures RowsOf(b.ducks, f) == RowsOf(a.ducks, f)
  {
  }

  lemma DropRows(a: Db, b: Db, f: Id)
    requires DropsFlocks(a, b) && f in b.flocks
    ensures RowsOf(b.ducks, f) == RowsOf(a.ducks, f)
  {
  }

  lemma AbsentFlockHasNoRows(codec: Codec.DuckCodec, db: Db, f: Id)
    requires Codec.Valid(codec) && Good(codec, db) && f !in db.flocks
    ensures RowsOf(db.ducks, f) == {}
  {
    hide Good;
    DuckFlocksExist(codec, db);
  }

  function Block(base: nat, n: nat): (r: set<nat>)
    ensures forall i :: i in r <==> base <= i < base + n
    ensures |r| == n
  {
    if n == 0 then {} else Block(base, n - 1) + {base + n - 1}
  }

  lemma CommitRowsOf(ducks: map<Id, DuckRow>, base: Id, rows: seq<DuckRow>, g: Id, f: Id)
    requires forall d | d in ducks :: d < base
    requires forall i | 0 <= i < |rows| :: rows[i].flock == g
    ensures |RowsOf(Append(ducks, base, rows), f)| == |RowsOf(ducks, f)| + (if f == g then |rows| else 0)
  {
    hide Append;
    var after := Append(ducks, base, rows);
    AppendSplits(ducks, base, rows);
    if f == g {
      assert RowsOf(after, f) == RowsOf(ducks, f) + Block(base, |rows|);
    } else {
      assert RowsOf(after, f) == RowsOf(ducks, f);
    }
  }

  /** Every event but a commit leaves the rows of a surviving flock in place. */
  lemma OtherStepRows(codec: Codec.DuckCodec, sys: System, e: Event, f: Id)
    requires Codec.Valid(codec) && Inv(codec, sys) && !e.Commit?
    requires f in Step(codec, sys, e).db.flocks
    ensures RowsOf(Step(codec, sys, e).db.ducks, f) == RowsOf(sys.db.ducks, f)
  {
    hide Good, TasksOk, Exclusive, Upsert, MarkAllRead, DeleteFlock, DeleteUser, FlockBusy, OwnerBusy, Perform, Decide,
      InsertOutcome, Append, CreateFlock, Gentle, DropsFlocks, RowsOf, ForeignKeys, Checks, IdsBounded, NoticesAgree,
      WithoutUser, WithoutFlock, ReadText, Field, Codes.IsFlockCode, Codec.Encode, MaxSeq;
    match e
    case LogIn(issuer, subject, displayName, email, grantAdmin) =>
      UpsertGentle(sys.db, issuer, subject, displayName, email, grantAdmin);
      GentleRows(sys.db, Step(codec, sys, e).db, f);
    case NewFlock(owner, rawLabel, draws) =>
      var flockLabel := ReadText(Text.LABEL_MAX, Field(rawLabel), "form");
      if flockLabel.Ok? {
        CreateFlockGentle(sys.db, owner, codec.current, flockLabel.value, draws);
        GentleRows(sys.db, CreateFlock(sys.db, owner, codec.current, flockLabel.value, draws).1, f);
      }
    case DoWrite(t, now) =>
      if t in sys.tasks && sys.tasks[t].Acting? && sys.tasks[t].writes != [] {
        var w := sys.tasks[t].writes[0];
        PerformGentle(sys.db, w, now);
        if Perform(sys.db, w, now).Ok? {
          GentleRows(sys.db, Perform(sys.db, w, now).value, f);
        }
      }
    case ReadFeed(user, now) => FeedRows(sys.db, user, now);
    case HardDeleteFlock(g) =>
      GoodMeetsSchema(codec, sys.db);
      DeleteFlockIsFilter(sys.db, g);
      DropsOfFlock(codec, sys.db, g);
      if !FlockBusy(sys, g) {
        DropRows(sys.db, WithoutFlock(sys.db, g), f);
      }
    case HardDeleteUser(u) =>
      GoodMeetsSchema(codec, sys.db);
      DeleteUserIsFilter(sys.db, u);
      DropsOfUser(codec, sys.db, u);
      if !OwnerBusy(sys, u) && u in sys.db.users && !sys.db.users[u].isAdmin {
        DropRows(sys.db, WithoutUser(sys.db, u), f);
      }
    case _ =>
  }

  lemma UpsertGentle(db: Db, issuer: string, subject: string, displayName: Option<string>, email: Option<string>,
                     grantAdmin: bool)
    ensures Gentle(db, Upsert(db, issuer, subject, displayName, email, grantAdmin))
  {
    hide FindUser;
  }

  lemma FeedRows(db: Db, user: Id, now: Time)
    ensures MarkAllRead(db, user, now).ducks == db.ducks
  {
  }

  lemma CommitStepRows(codec: Codec.DuckCodec, sys: System, t: Id, f: Id)
    requires Codec.Valid(codec) && Inv(codec, sys)
    ensures |RowsOf(Step(codec, sys, Commit(t)).db.ducks, f)|
            == |RowsOf(sys.db.ducks, f)| + CommittedBy(sys, Commit(t), f)
  {
    hide Good, TasksOk, Exclusive, Append, RowsOf, Codes.IsFlockCode, MaxSeq, Allocate, Encoder;
    DuckRowsBounded(codec, sys.db);
    if t in sys.tasks && HasInserted(sys.tasks[t]) {
      var m := sys.tasks[t];
      LockedAlone(codec, sys, t);
      AllocateLength(Encoder(codec, m.generation, m.code), MaxSeq(sys.db.ducks, m.flock, sys.db.next.duck) + 1,
        m.count);
      CommitRowsOf(sys.db.ducks, sys.db.next.duck, Minted(m.flock, m.phase.entries), m.flock, f);
    }
  }

  /** Only flocks whose identity was handed out can be committed to. */
  lemma CommitsToExisting(codec: Codec.DuckCodec, sys: System, e: Event, f: Id)
    requires Codec.Valid(codec) && Inv(codec, sys) && f >= sys.db.next.flock
    ensures CommittedBy(sys, e, f) == 0
  {
    hide Good, TasksOk, Exclusive;
    if CommittedBy(sys, e, f) != 0 {
      LockedAlone(codec, sys, e.task);
    }
  }

  lemma UnbornFlockHasNoRows(codec: Codec.DuckCodec, db: Db, f: Id)
    requires Codec.Valid(codec) && Good(codec, db) && f >= db.next.flock
    ensures RowsOf(db.ducks, f) == {}
  {
    hide ForeignKeys, DucksOk, Dense, UsersOk, SightingsOk, CommentsOk, FollowsOk, NoticesOk, FlockReads, RowsOf;
    AbsentFlockHasNoRows(codec, db, f);
  }

  /** A flock that is there at the end holds the rows it had plus one per duck committed to it since. */
  lemma {:induction false} MintedAddsUp(codec: Codec.DuckCodec, sys: System, events: seq<Event>, f: Id)
    requires Codec.Valid(codec) && Inv(codec, sys)
    requires f in Run(codec, sys, events).db.flocks
    ensures |RowsOf(Run(codec, sys, events).db.ducks, f)|
            == |RowsOf(sys.db.ducks, f)| + Committed(codec, sys, events, f)
    decreases |events|
  {
    hide Inv, Step, Evolves, RowsOf, CommittedBy, Good;
    if events != [] {
      var next := Step(codec, sys, events[0]);
      StepKeepsInv(codec, sys, events[0]);
      RunKeepsInv(codec, next, events[1..]);
      MintedAddsUp(codec, next, events[1..], f);
      StepRows(codec, sys, events[0], Run(codec, next, events[1..]).db, f);
    }
  }

  lemma StepRows(codec: Codec.DuckCodec, sys: System, e: Event, later: Db, f: Id)
    requires Codec.Valid(codec) && Inv(codec, sys) && f in later.flocks && Evolves(Step(codec, sys, e).db, later)
    ensures |RowsOf(Step(codec, sys, e).db.ducks, f)| == |RowsOf(sys.db.ducks, f)| + CommittedBy(sys, e, f)
  {
    hide Good, TasksOk, Exclusive, Step, RowsOf;
    var next := Step(codec, sys, e);
    StepKeepsInv(codec, sys, e);
    if f !in next.db.flocks {
      assert f >= next.db.next.flock >= sys.db.next.flock;
      UnbornFlockHasNoRows(codec, next.db, f);
      UnbornFlockHasNoRows(codec, sys.db, f);
      CommitsToExisting(codec, sys, e, f);
    } else if e.Commit? {
      CommitStepRows(codec, sys, e.task, f);
    } else {
      OtherStepRows(codec, sys, e, f);
    }
  }

  lemma DistinctRows(codec: Codec.DuckCodec, db: Db)
    requires Codec.Valid(codec) && Good(codec, db)
    ensures UniqueDucks(db.ducks)
  {
    hide Dense, UsersOk, FlocksOk, SightingsOk, CommentsOk, FollowsOk, NoticesOk, ForeignKeys, DuckReads, DuckCoded,
      UniqueDucks;
  }

  function Labels(ducks: map<Id, DuckRow>, ids: set<Id>): set<(int, string)>
    requires forall d | d in ids :: d in ducks
  {
    set d | d in ids :: (ducks[d].seqNo, ducks[d].code)
  }

  lemma {:induction false} LabelsCount(ducks: map<Id, DuckRow>, ids: set<Id>)
    requires (forall d | d in ids :: d in ducks) && UniqueDucks(ducks)
    ensures |Labels(ducks, ids)| == |ids|
  {
    if ids != {} {
      var d :| d in ids;
      var rest := ids - {d};
      LabelsCount(ducks, rest);
      assert Labels(ducks, ids) == Labels(ducks, rest) + {(ducks[d].seqNo, ducks[d].code)};
    }
  }

  lemma PrintedCount(ducks: map<Id, DuckRow>, f: Id)
    requires UniqueDucks(ducks)
    ensures |Printed(ducks, f)| == |RowsOf(ducks, f)|
  {
    LabelsCount(ducks, RowsOf(ducks, f));
    assert Printed(ducks, f) == Labels(ducks, RowsOf(ducks, f));
  }

  /** After every schedule a flock prints exactly its first acceptable numbers, as many as the committed
      mints of the schedule asked for in total. */
  lemma FlockIsFirstAcceptable(codec: Codec.DuckCodec, vessels: set<Id>, events: seq<Event>, f: Id)
    requires Codec.Valid(codec) && f in Run(codec, Start(vessels), events).db.flocks
    ensures var db := Run(codec, Start(vessels), events).db;
            && Codes.IsFlockCode(db.flocks[f].code)
            && Printed(db.ducks, f)
               == PrintableUpTo(codec, db.flocks[f].generation, db.flocks[f].code, MaxSeq(db.ducks, f, db.next.duck))
            && |Printed(db.ducks, f)| == Committed(codec, Start(vessels), events, f)
  {
    hide Good, TasksOk, Exclusive, Run, Printed, PrintableUpTo, MaxSeq, RowsOf, Committed, UniqueDucks,
      Codes.IsFlockCode;
    var db := Run(codec, Start(vessels), events).db;
    StartIsInv(codec, vessels);
    RunKeepsInv(codec, Start(vessels), events);
    FlockContents(codec, db, f);
    DistinctRows(codec, db);
    PrintedCount(db.ducks, f);
    MintedAddsUp(codec, Start(vessels), events, f);
    NoRowsAtStart(vessels, f);
  }

  lemma NoRowsAtStart(vessels: set<Id>, f: Id)
    ensures RowsOf(Start(vessels).db.ducks, f) == {}
  {
  }

  lemma PrintableGrows(codec: Codec.DuckCodec, g: nat, code: string, low: nat, high: nat)
    requires Codec.Valid(codec) && Codes.IsFlockCode(code) && low <= high
    ensures PrintableUpTo(codec, g, code, low) <= PrintableUpTo(codec, g, code, high)
  {
    hide MintCode, Codes.IsFlockCode;
  }

  lemma SameSize<T>(a: set<T>, b: set<T>)
    requires a <= b && |a| == |b|
    ensures a == b
  {
    assert b == a + (b - a);
  }

  /** Two schedules, whatever their interleavings and however they split the work into batches, leave a
      flock with the same prefix and key with the same printed codes once they minted equally many. */
  lemma ScheduleIndependence(codec: Codec.DuckCodec, vessels: set<Id>, one: seq<Event>, f: Id, two: seq<Event>, g: Id)
    requires Codec.Valid(codec)
    requires f in Run(codec, Start(vessels), one).db.flocks && g in Run(codec, Start(vessels), two).db.flocks
    requires var (a, b) := (Run(codec, Start(vessels), one).db.flocks[f], Run(codec, Start(vessels), two).db.flocks[g]);
             a.code == b.code && a.generation == b.generation
    requires Committed(codec, Start(vessels), one, f) == Committed(codec, Start(vessels), two, g)
    ensures Printed(Run(codec, Start(vessels), one).db.ducks, f) == Printed(Run(codec, Start(vessels), two).db.ducks, g)
  {
    hide Run, Printed, PrintableUpTo, MaxSeq, Committed, Codes.IsFlockCode;
    FlockIsFirstAcceptable(codec, vessels, one, f);
    FlockIsFirstAcceptable(codec, vessels, two, g);
    var (a, b) := (Run(codec, Start(vessels), one).db, Run(codec, Start(vessels), two).db);
    var (i, j) := (MaxSeq(a.ducks, f, a.next.duck), MaxSeq(b.ducks, g, b.next.duck));
    if i <= j {
      PrintableGrows(codec, a.flocks[f].generation, a.flocks[f].code, i, j);
      SameSize(Printed(a.ducks, f), Printed(b.ducks, g));
    } else {
      PrintableGrows(codec, a.flocks[f].generation, a.flocks[f].code, j, i);
      SameSize(Printed(b.ducks, g), Printed(a.ducks, f));
    }
  }

  lemma {:induction false} AppendTwice<R>(m: map<Id, R>, base: Id, first: seq<R>, second: seq<R>)
    ensures Append(Append(m, base, first), base + |first|, second) == Append(m, base, first + second)
    decreases |first|
  {
    if first == [] {
      assert first + second == second;
    } else {
      AppendTwice(m[base := first[0]], base + 1, first[1..], second);
      assert (first + second)[0] == first[0] && (first + second)[1..] == first[1..] + second;
    }
  }

  // ----- What a newly minted duck is ----------------------------------------------------------

  /** The ducks `entries` of flock `f` are there under the next identities, each of them allocated, neither deleted
      nor closed to comments; no other row of any table is new, gone or different. */
  ghost predicate Hatched(was: Db, db: Db, f: Id, entries: seq<Entry>) {
    && db == was.(ducks := db.ducks, next := was.next.(duck := was.next.duck + |entries|))
    && (forall d :: d in db.ducks <==> d in was.ducks || was.next.duck <= d < was.next.duck + |entries|)
    && (forall d | d in was.ducks :: d < was.next.duck && d in db.ducks && db.ducks[d] == was.ducks[d])
    && (forall k | 0 <= k < |entries| ::
          var d := was.next.duck + k;
          d in db.ducks
          && ReadDuck(d, db.ducks[d]) == Ok(Duck(d, entries[k].1, f, entries[k].0, Allocated, None, None)))
  }

  lemma NewRowReads(codec: Codec.DuckCodec, g: nat, code: string, f: Id, e: Entry, d: Id)
    requires Codec.Valid(codec) && Codes.IsFlockCode(code) && MintCode(codec, g, code, e.0) == Some(e.1)
    ensures ReadDuck(d, DuckRow(e.1, f, e.0, None, None, None, None, None, None, None, None))
            == Ok(Duck(d, e.1, f, e.0, Allocated, None, None))
  {
    hide MintCode, Codes.ParseDuck, Codes.IsDuckCode, Codec.Encode, Codec.Decode, Codes.FlockOf;
    MintCodeShape(codec, g, code, e.0);
    Codes.PrintedFormsParse(e.1);
  }

  lemma CommittedRows(db: Db, f: Id, entries: seq<Entry>)
    requires forall d | d in db.ducks :: d < db.next.duck
    ensures var after := CommitRows(db, f, entries);
            && after == db.(ducks := after.ducks, next := db.next.(duck := db.next.duck + |entries|))
            && (forall d :: d in after.ducks <==> d in db.ducks || db.next.duck <= d < db.next.duck + |entries|)
            && (forall d | d in db.ducks :: after.ducks[d] == db.ducks[d])
            && (forall k | 0 <= k < |entries| ::
                  after.ducks[db.next.duck + k]
                  == DuckRow(entries[k].1, f, entries[k].0, None, None, None, None, None, None, None, None))
  {
    AppendSplits(db.ducks, db.next.duck, Minted(f, entries));
  }

  lemma {:induction false} PlannedHatch(codec: Codec.DuckCodec, db: Db, f: Id, count: nat, entries: seq<Entry>)
    requires Codec.Valid(codec) && Good(codec, db) && f in db.flocks && Codes.IsFlockCode(db.flocks[f].code)
    requires Allocate(Encoder(codec, db.flocks[f].generation, db.flocks[f].code),
                      MaxSeq(db.ducks, f, db.next.duck) + 1, count) == Some(entries)
    ensures Hatched(db, CommitRows(db, f, entries), f, entries)
  {
    hide Good, Allocate, Encoder, MintCode, MaxSeq, ReadDuck, CommitRows, Codes.IsFlockCode;
    var (g, code) := (db.flocks[f].generation, db.flocks[f].code);
    DuckRowsBounded(codec, db);
    PlannedEntries(codec, g, code, MaxSeq(db.ducks, f, db.next.duck), count, entries);
    CommittedRows(db, f, entries);
    var after := CommitRows(db, f, entries);
    forall k | 0 <= k < |entries|
      ensures var d := db.next.duck + k;
              d in after.ducks
              && ReadDuck(d, after.ducks[d]) == Ok(Duck(d, entries[k].1, f, entries[k].0, Allocated, None, None))
    {
      NewRowReads(codec, g, code, f, entries[k], db.next.duck + k);
    }
  }

  /** After every schedule, committing a mint adds exactly the ducks it inserted, as many as were asked for, and ends
      it; a mint that has not inserted yet commits nothing. */
  lemma {:induction false} CommitHatches(codec: Codec.DuckCodec, vessels: set<Id>, events: seq<Event>, t: Id)
    requires Codec.Valid(codec) && t in Run(codec, Start(vessels), events).tasks
    ensures var sys := Run(codec, Start(vessels), events);
            var after := Step(codec, sys, Commit(t));
            if sys.tasks[t].Mint? && sys.tasks[t].phase.Inserted? then
              && |sys.tasks[t].phase.entries| == sys.tasks[t].count
              && Hatched(sys.db, after.db, sys.tasks[t].flock, sys.tasks[t].phase.entries)
              && after.tasks == sys.tasks - {t}
            else after == sys
  {
    hide Good, TasksOk, Exclusive, Run, Allocate, Encoder, MaxSeq, CommitRows, Hatched, Codes.IsFlockCode, Codec.Encode,
      InsertOutcome;
    var sys := Run(codec, Start(vessels), events);
    ReachableInv(codec, vessels, events);
    if sys.tasks[t].Mint? && sys.tasks[t].phase.Inserted? {
      var m := sys.tasks[t];
      LockedAlone(codec, sys, t);
      PlannedHatch(codec, sys.db, m.flock, m.count, m.phase.entries);
      AllocateLength(Encoder(codec, m.generation, m.code), MaxSeq(sys.db.ducks, m.flock, sys.db.next.duck) + 1,
        m.count);
    }
  }

  lemma MintSucceedsIff(codec: Codec.DuckCodec, db: Db, f: Id, count: nat)
    requires Codec.Valid(codec) && Good(codec, db) && f in db.flocks && Codes.IsFlockCode(db.flocks[f].code)
    ensures var encode := Encoder(codec, db.flocks[f].generation, db.flocks[f].code);
            MintBatch(db, f, count, encode)
            == match Allocate(encode, MaxSeq(db.ducks, f, db.next.duck) + 1, count)
               case None => (Err(FlockFull), db)
               case Some(entries) => (Ok(entries), CommitRows(db, f, entries))
  {
    hide Good, Allocate, Encoder, Minted, MaxSeq, InsertClashes, Append, Codes.IsFlockCode;
    var encode := Encoder(codec, db.flocks[f].generation, db.flocks[f].code);
    match Allocate(encode, MaxSeq(db.ducks, f, db.next.duck) + 1, count)
    case None =>
    case Some(entries) => PlannedNeverClash(codec, db, f, count, entries);
  }

  /** One uninterrupted mint: the first acceptable numbers above the maximum, or a full flock and no change. */
  lemma {:induction false} MintBatchOutcome(codec: Codec.DuckCodec, db: Db, f: Id, count: nat)
    requires Codec.Valid(codec) && Good(codec, db) && f in db.flocks && Codes.IsFlockCode(db.flocks[f].code)
    ensures var encode := Encoder(codec, db.flocks[f].generation, db.flocks[f].code);
            var max := MaxSeq(db.ducks, f, db.next.duck);
            var (r, after) := MintBatch(db, f, count, encode);
            && Good(codec, after)
            && (r.Err? <==> |Acceptable(encode, max + 1)| < count)
            && (r.Err? ==> r.error == FlockFull && after == db)
            && (r.Ok? ==> |r.value| == count && FirstAcceptable(encode, max + 1, r.value)
                          && Hatched(db, after, f, r.value))
  {
    hide Good, Allocate, Encoder, MaxSeq, MintBatch, CommitRows, Acceptable, FirstAcceptable, Hatched,
      Codes.IsFlockCode;
    var encode := Encoder(codec, db.flocks[f].generation, db.flocks[f].code);
    var max := MaxSeq(db.ducks, f, db.next.duck);
    MintSucceedsIff(codec, db, f, count);
    AllocateFullIff(encode, max + 1, count);
    AllocateIsFirst(encode, max + 1, count);
    if Allocate(encode, max + 1, count).Some? {
      CommitKeepsGood(codec, db, f, count, Allocate(encode, max + 1, count).value);
      PlannedHatch(codec, db, f, count, Allocate(encode, max + 1, count).value);
    }
  }

  /** What an owner asking for `count` ducks gets: the next `count` numbers whose codes are not profane, or,
      with nothing changed, a full flock exactly when fewer are left. The key check never fails later. */
  lemma {:induction false} MintRequestOutcome(codec: Codec.DuckCodec, db: Db, user: Id, f: Id, count: nat)
    requires Codec.Valid(codec) && Good(codec, db)
    ensures var (r, after) := MintRequest(codec, db, user, f, count);
            && Good(codec, after)
            && (r == Err(NoSuchFlock) <==> !(f in db.flocks && db.flocks[f].owner == user))
            && (f in db.flocks && db.flocks[f].owner == user ==>
                  && Codes.IsFlockCode(db.flocks[f].code)
                  && var encode := Encoder(codec, db.flocks[f].generation, db.flocks[f].code);
                     var max := MaxSeq(db.ducks, f, db.next.duck);
                     && (r == Err(Failed(FlockFull)) <==> |Acceptable(encode, max + 1)| < count)
                     && (r.Ok? ==> |r.value| == count && FirstAcceptable(encode, max + 1, r.value)
                                   && Hatched(db, after, f, r.value))
                     && (r.Ok? || (r == Err(Failed(FlockFull)) && after == db)))
  {
    hide Good, Encoder, MaxSeq, Store.MintBatch, CommitRows, Acceptable, FirstAcceptable, Hatched, Codes.IsFlockCode,
      Codec.Encode;
    if f in db.flocks && db.flocks[f].owner == user {
      FlockRow(codec, db, f);
      KeyWorks(codec, db.flocks[f].generation, db.flocks[f].code);
      MintBatchOutcome(codec, db, f, count);
    }
  }

  lemma KeyWorks(codec: Codec.DuckCodec, g: nat, code: string)
    requires Codec.Valid(codec) && Codes.IsFlockCode(code) && g in codec.ciphers
    ensures Codec.Encode(codec, g, code, 1).Ok?
  {
  }

  lemma MaxOfAppend(ducks: map<Id, DuckRow>, base: Id, rows: seq<DuckRow>, f: Id)
    requires rows != [] && forall d | d in ducks :: d < base
    requires forall i | 0 <= i < |rows| :: rows[i].flock == f && rows[i].seqNo > MaxSeq(ducks, f, base)
    requires forall i, j | 0 <= i < j < |rows| :: rows[i].seqNo < rows[j].seqNo
    ensures MaxSeq(Append(ducks, base, rows), f, base + |rows|) == rows[|rows| - 1].seqNo
  {
    hide Append;
    var after := Append(ducks, base, rows);
    AppendSplits(ducks, base, rows);
    var last := base + |rows| - 1;
    assert after[last] == rows[|rows| - 1];
    forall d | d in after && after[d].flock == f ensures after[d].seqNo <= rows[|rows| - 1].seqNo {
      if d >= base {
        assert after[d] == rows[d - base];
      }
    }
  }

  lemma NewMax(codec: Codec.DuckCodec, db: Db, f: Id, count: nat, entries: seq<Entry>)
    requires Codec.Valid(codec) && Good(codec, db) && f in db.flocks && Codes.IsFlockCode(db.flocks[f].code)
            && count > 0
    requires Allocate(Encoder(codec, db.flocks[f].generation, db.flocks[f].code),
                      MaxSeq(db.ducks, f, db.next.duck) + 1, count) == Some(entries)
    ensures |entries| == count
    ensures MaxSeq(CommitRows(db, f, entries).ducks, f, CommitRows(db, f, entries).next.duck) == entries[count - 1].0
  {
    hide Good, Allocate, Encoder, Append, MaxSeq, MintCode, DuckReads, DuckCoded, Codes.IsFlockCode;
    var max := MaxSeq(db.ducks, f, db.next.duck);
    PlannedEntries(codec, db.flocks[f].generation, db.flocks[f].code, max, count, entries);
    MintedRowsCoded(codec, db.flocks, f, max, count, entries);
    DuckRowsBounded(codec, db);
    MaxOfAppend(db.ducks, db.next.duck, Minted(f, entries), f);
  }

  lemma CommitTwice(db: Db, f: Id, first: seq<Entry>, second: seq<Entry>)
    ensures CommitRows(CommitRows(db, f, first), f, second) == CommitRows(db, f, first + second)
  {
    hide Append;
    AppendTwice(db.ducks, db.next.duck, Minted(f, first), Minted(f, second));
    assert Minted(f, first) + Minted(f, second) == Minted(f, first + second);
  }

  /** Minting `a` ducks and then `b` more is minting `a + b` at once, down to the rows. */
  lemma {:induction false} MintTwiceIsMintOnce(codec: Codec.DuckCodec, db: Db, f: Id, a: nat, b: nat)
    requires Codec.Valid(codec) && Good(codec, db) && f in db.flocks && Codes.IsFlockCode(db.flocks[f].code) && a > 0
    ensures var encode := Encoder(codec, db.flocks[f].generation, db.flocks[f].code);
            var (first, mid) := MintBatch(db, f, a, encode);
            MintBatch(db, f, a + b, encode)
            == match first
               case Err(e) => (Err(FlockFull), db)
               case Ok(one) =>
                 match MintBatch(mid, f, b, encode)
                 case (Ok(two), after) => (Ok(one + two), after)
                 case (Err(_), _) => (Err(FlockFull), db)
  {
    hide Good, Allocate, Encoder, MaxSeq, MintBatch, CommitRows, Codes.IsFlockCode;
    var encode := Encoder(codec, db.flocks[f].generation, db.flocks[f].code);
    var max := MaxSeq(db.ducks, f, db.next.duck);
    MintSucceedsIff(codec, db, f, a);
    MintSucceedsIff(codec, db, f, a + b);
    AllocateSplits(encode, max + 1, a, b);
    match Allocate(encode, max + 1, a)
    case None =>
    case Some(one) =>
      var mid := CommitRows(db, f, one);
      NewMax(codec, db, f, a, one);
      CommitKeepsGood(codec, db, f, a, one);
      CommitKeepsFlocks(db, f, one);
      MintSucceedsIff(codec, mid, f, b);
      if Allocate(encode, one[a - 1].0 + 1, b).Some? {
        CommitTwice(db, f, one, Allocate(encode, one[a - 1].0 + 1, b).value);
      }
  }

  lemma CommitKeepsFlocks(db: Db, f: Id, entries: seq<Entry>)
    ensures CommitRows(db, f, entries).flocks == db.flocks
  {
  }
}
