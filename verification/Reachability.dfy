/** Every event keeps the invariant, so it holds after every schedule; and along a schedule ducks only
    move forward through their lifecycle. */
module Reachability {
  import opened Wrappers
  import opened Schema
  import opened Store
  import opened Minting
  import opened Cascade
  import opened Invariants
  import opened Handlers
  import opened Evolution
  import opened Runs
  import opened Safety
  import Codes
  import Codec
  import Text
  import Profanity

  // ----- Registry steps ----------------------------------------------------------------

  lemma {:induction false} CreateFlockGentle(db: Db, owner: Id, generation: nat, flockLabel: Option<string>,
                                             draws: seq<string>)
    ensures Gentle(db, CreateFlock(db, owner, generation, flockLabel, draws).1)
    decreases |draws|
  {
    hide Profanity.Matches, FindFlock;
    if draws != [] {
      var burnt := db.(next := db.next.(flock := db.next.flock + 1));
      CreateFlockGentle(db, owner, generation, flockLabel, draws[1..]);
      CreateFlockGentle(burnt, owner, generation, flockLabel, draws[1..]);
    }
  }

  lemma UpsertStep(codec: Codec.DuckCodec, sys: System, issuer: string, subject: string, displayName: Option<string>,
                   email: Option<string>, grantAdmin: bool)
    requires Codec.Valid(codec) && Inv(codec, sys)
    ensures var after := Upsert(sys.db, issuer, subject, displayName, email, grantAdmin);
            Inv(codec, System(after, sys.tasks)) && Evolves(sys.db, after)
  {
    hide Good, TasksOk, Exclusive, FindUser;
    UpsertKeepsGood(codec, sys.db, issuer, subject, displayName, email, grantAdmin);
    GentleStep(codec, sys.db, Upsert(sys.db, issuer, subject, displayName, email, grantAdmin), sys.tasks);
  }

  lemma NewFlockStep(codec: Codec.DuckCodec, sys: System, owner: Id, rawLabel: Option<string>, draws: seq<string>)
    requires Codec.Valid(codec) && Inv(codec, sys)
    ensures var after := Step(codec, sys, NewFlock(owner, rawLabel, draws));
            Inv(codec, after) && Evolves(sys.db, after.db)
  {
    hide Good, TasksOk, Exclusive, FindFlock, Evolves, ReadText, Field, CreateFlock, Gentle, Codes.IsFlockCode;
    EvolvesReflexive(sys.db);
    var flockLabel := ReadText(Text.LABEL_MAX, Field(rawLabel), "form");
    if flockLabel.Ok? && |draws| == MAX_DRAWS && forall i | 0 <= i < |draws| :: Codes.IsFlockCode(draws[i]) {
      FieldFits(Text.LABEL_MAX, rawLabel);
      CurrentKey(codec);
      CreateFlockKeepsGood(codec, sys.db, owner, codec.current, flockLabel.value, draws);
      CreateFlockEvolves(sys.db, owner, codec.current, flockLabel.value, draws);
      CreateFlockGentle(sys.db, owner, codec.current, flockLabel.value, draws);
      GentleStep(codec, sys.db, CreateFlock(sys.db, owner, codec.current, flockLabel.value, draws).1, sys.tasks);
    }
  }

  lemma CurrentKey(codec: Codec.DuckCodec)
    requires Codec.Valid(codec)
    ensures codec.current in codec.ciphers
  {
  }

  lemma FeedStep(codec: Codec.DuckCodec, sys: System, user: Id, now: Time)
    requires Codec.Valid(codec) && Inv(codec, sys)
    ensures var after := MarkAllRead(sys.db, user, now);
            Inv(codec, System(after, sys.tasks)) && Evolves(sys.db, after)
  {
    hide Good, TasksOk, Exclusive;
    MarkAllReadKeepsGood(codec, sys.db, user, now);
    GentleStep(codec, sys.db, MarkAllRead(sys.db, user, now), sys.tasks);
  }

  // ----- Hard deletion ------------------------------------------------------------------

  lemma DropsOfUser(codec: Codec.DuckCodec, db: Db, u: Id)
    requires Codec.Valid(codec) && Good(codec, db)
    ensures DropsFlocks(db, WithoutUser(db, u))
  {
    hide Good, SightingsWithout, CommentsWithout, FollowsWithout, NoticesWithout, UsersWithout;
    DuckFlocksExist(codec, db);
  }

  lemma DropsOfFlock(codec: Codec.DuckCodec, db: Db, f: Id)
    requires Codec.Valid(codec) && Good(codec, db)
    ensures DropsFlocks(db, WithoutFlock(db, f))
  {
    hide Good, SightingsOutside, CommentsOutside, FollowsOutside, NoticesOutside;
    DuckFlocksExist(codec, db);
  }

  lemma DeleteFlockStep(codec: Codec.DuckCodec, sys: System, f: Id)
    requires Codec.Valid(codec) && Inv(codec, sys) && !FlockBusy(sys, f)
    ensures var after := DeleteFlock(sys.db, f).1;
            Inv(codec, System(after, sys.tasks)) && Evolves(sys.db, after)
  {
    hide Good, TasksOk, Exclusive, ForeignKeys, NoticesAgree, Checks, IdsBounded, DropsFlocks, Evolves, DeleteFlock,
      DucksOutside, SightingsOutside, CommentsOutside, FollowsOutside, NoticesOutside;
    GoodMeetsSchema(codec, sys.db);
    DeleteFlockIsFilter(sys.db, f);
    WithoutFlockKeepsGood(codec, sys.db, f);
    WithoutFlockEvolves(sys.db, f);
    DropsOfFlock(codec, sys.db, f);
    InsertedFlocksExist(codec, sys.db, sys.tasks);
    DropStep(codec, sys.db, WithoutFlock(sys.db, f), sys.tasks);
  }

  lemma DeleteUserStep(codec: Codec.DuckCodec, sys: System, u: Id)
    requires Codec.Valid(codec) && Inv(codec, sys) && !OwnerBusy(sys, u)
    ensures var after := DeleteUser(sys.db, u).1;
            Inv(codec, System(after, sys.tasks)) && Evolves(sys.db, after)
  {
    hide Good, TasksOk, Exclusive, ForeignKeys, NoticesAgree, Checks, IdsBounded, DropsFlocks, Evolves, DeleteUser,
      DucksWithout, SightingsWithout, CommentsWithout, FollowsWithout, NoticesWithout;
    GoodMeetsSchema(codec, sys.db);
    DeleteUserIsFilter(sys.db, u);
    if u in sys.db.users && !sys.db.users[u].isAdmin {
      WithoutUserKeepsGood(codec, sys.db, u);
      WithoutUserEvolves(sys.db, u);
      DropsOfUser(codec, sys.db, u);
      InsertedFlocksExist(codec, sys.db, sys.tasks);
      BusyFlocksKept(sys, u);
      DropStep(codec, sys.db, WithoutUser(sys.db, u), sys.tasks);
    } else {
      EvolvesReflexive(sys.db);
    }
  }

  lemma BusyFlocksKept(sys: System, u: Id)
    requires !OwnerBusy(sys, u)
    requires forall t | t in sys.tasks && HasInserted(sys.tasks[t]) :: sys.tasks[t].flock in sys.db.flocks
    ensures forall t | t in sys.tasks && HasInserted(sys.tasks[t]) :: sys.tasks[t].flock in FlocksWithout(sys.db, u)
  {
    forall t | t in sys.tasks && HasInserted(sys.tasks[t])
      ensures sys.tasks[t].flock in FlocksWithout(sys.db, u)
    {
      assert FlockBusy(sys, sys.tasks[t].flock);
    }
  }

  // ----- Tasks come, go and move on --------------------------------------------------------

  lemma SetTask(codec: Codec.DuckCodec, sys: System, t: Id, task: Task)
    requires Codec.Valid(codec) && Inv(codec, sys) && TaskOk(codec, sys.db, task)
    requires task.Mint? && !task.phase.Waiting? ==>
               forall o | o in sys.tasks && o != t :: !HoldsLock(sys.tasks[o], task.flock)
    ensures Inv(codec, sys.(tasks := sys.tasks[t := task]))
  {
    hide Good, TaskOk;
  }

  lemma EndTask(codec: Codec.DuckCodec, sys: System, t: Id)
    requires Codec.Valid(codec) && Inv(codec, sys)
    ensures Inv(codec, Finish(sys, t))
  {
    hide Good, TaskOk;
  }

  lemma LockedAlone(codec: Codec.DuckCodec, sys: System, t: Id)
    requires Codec.Valid(codec) && Inv(codec, sys) && t in sys.tasks && sys.tasks[t].Mint?
            && !sys.tasks[t].phase.Waiting?
    ensures forall o | o in sys.tasks && o != t :: !HoldsLock(sys.tasks[o], sys.tasks[t].flock)
    ensures MintOk(codec, sys.db, sys.tasks[t])
  {
    hide Good, MintOk;
    assert TaskOk(codec, sys.db, sys.tasks[t]);
  }

  lemma BeginMintStep(codec: Codec.DuckCodec, sys: System, t: Id, user: Id, f: Id, count: nat)
    requires Codec.Valid(codec) && Inv(codec, sys)
    ensures Inv(codec, Step(codec, sys, BeginMint(t, user, f, count)))
  {
    hide Good, TasksOk, Exclusive, Codes.IsFlockCode, Codec.Encode, Upsert, CreateFlock, MarkAllRead, DeleteFlock,
      DeleteUser, FlockBusy, OwnerBusy, Perform, Decide, StepMint;
    var e := BeginMint(t, user, f, count);
    if Step(codec, sys, e) != sys {
      var flock := sys.db.flocks[f];
      EncodableGeneration(codec, flock.generation, flock.code);
      FlockBounded(codec, sys.db, f);
      SetTask(codec, sys, t, Mint(f, flock.code, flock.generation, count, Waiting));
    }
  }

  lemma EncodableGeneration(codec: Codec.DuckCodec, g: nat, code: string)
    requires Codec.Valid(codec) && Codes.IsFlockCode(code) && Codec.Encode(codec, g, code, 1).Ok?
    ensures g in codec.ciphers
  {
  }

  lemma FlockBounded(codec: Codec.DuckCodec, db: Db, f: Id)
    requires Codec.Valid(codec) && Good(codec, db) && f in db.flocks
    ensures f < db.next.flock
  {
    hide ForeignKeys, UsersOk, DucksOk, Dense, SightingsOk, CommentsOk, FollowsOk, NoticesOk, FlockReads;
  }

  lemma TakeLockStep(codec: Codec.DuckCodec, sys: System, t: Id)
    requires Codec.Valid(codec) && Inv(codec, sys)
    ensures Inv(codec, Step(codec, sys, TakeLock(t)))
  {
    hide Good, Exclusive, Codes.IsFlockCode, WriteOk, TasksOk;
    if Step(codec, sys, TakeLock(t)) != sys {
      TaskOf(codec, sys, t);
      SetTask(codec, sys, t, sys.tasks[t].(phase := Locked));
    }
  }

  lemma TaskOf(codec: Codec.DuckCodec, sys: System, t: Id)
    requires Codec.Valid(codec) && Inv(codec, sys) && t in sys.tasks
    ensures TaskOk(codec, sys.db, sys.tasks[t])
  {
    hide Good, TaskOk, Exclusive;
  }

  lemma ReadMaxStep(codec: Codec.DuckCodec, sys: System, t: Id)
    requires Codec.Valid(codec) && Inv(codec, sys)
    ensures Inv(codec, Step(codec, sys, ReadMax(t)))
  {
    hide Good, Exclusive, Codes.IsFlockCode, WriteOk, TasksOk, MaxSeq;
    if Step(codec, sys, ReadMax(t)) != sys {
      LockedAlone(codec, sys, t);
      var max := MaxSeq(sys.db.ducks, sys.tasks[t].flock, sys.db.next.duck);
      SetTask(codec, sys, t, sys.tasks[t].(phase := HaveMax(max)));
    }
  }

  lemma InsertStep(codec: Codec.DuckCodec, sys: System, t: Id)
    requires Codec.Valid(codec) && Inv(codec, sys)
    ensures Inv(codec, Step(codec, sys, InsertRows(t)))
  {
    hide Good, Exclusive, Codes.IsFlockCode, WriteOk, TasksOk, MaxSeq, Allocate, Encoder, InsertClashes,
      ClashesWithOthers,
      Minted;
    if Step(codec, sys, InsertRows(t)) != sys {
      LockedAlone(codec, sys, t);
      EndTask(codec, sys, t);
      match InsertOutcome(codec, sys, t)
      case Inserts(entries) => SetTask(codec, sys, t, sys.tasks[t].(phase := Inserted(entries)));
      case _ =>
    }
  }

  // ----- Commit --------------------------------------------------------------------------------

  lemma CommitNumbers(db: Db, f: Id, entries: seq<Entry>, tasks: map<Id, Task>)
    requires forall d | d in db.ducks :: d < db.next.duck
    requires forall o | o in tasks :: !HoldsLock(tasks[o], f)
    ensures LockedNumbersFixed(db, CommitRows(db, f, entries), tasks)
  {
    hide Append;
    AppendSplits(db.ducks, db.next.duck, Minted(f, entries));
  }

  lemma CommitStep(codec: Codec.DuckCodec, sys: System, t: Id)
    requires Codec.Valid(codec) && Inv(codec, sys)
    ensures Inv(codec, Step(codec, sys, Commit(t)))
    ensures Evolves(sys.db, Step(codec, sys, Commit(t)).db)
  {
    hide Good, Exclusive, Codes.IsFlockCode, WriteOk, TasksOk, MaxSeq, Allocate, Encoder, Evolves, Append, Minted,
      LockedNumbersFixed;
    EvolvesReflexive(sys.db);
    if Step(codec, sys, Commit(t)) != sys {
      var m := sys.tasks[t];
      var rest := Finish(sys, t);
      LockedAlone(codec, sys, t);
      EndTask(codec, sys, t);
      DuckRowsBounded(codec, sys.db);
      CommitKeepsGood(codec, sys.db, m.flock, m.count, m.phase.entries);
      AppendEvolves(sys.db, Minted(m.flock, m.phase.entries));
      CommitNumbers(sys.db, m.flock, m.phase.entries, rest.tasks);
      InsertedFlocksExist(codec, rest.db, rest.tasks);
      TasksOkKept(codec, sys.db, CommitRows(sys.db, m.flock, m.phase.entries), rest.tasks);
    }
  }

  // ----- Handlers --------------------------------------------------------------------------------

  lemma ArriveStep(codec: Codec.DuckCodec, sys: System, t: Id, viewer: Option<Viewer>, raw: string, request: Request,
                   now: Time)
    requires Codec.Valid(codec) && Inv(codec, sys)
    ensures Inv(codec, Step(codec, sys, Arrive(t, viewer, raw, request, now)))
  {
    hide Good, TasksOk, Exclusive, WriteOk, Decide;
    if Step(codec, sys, Arrive(t, viewer, raw, request, now)) != sys {
      DecidedWritesOk(codec, sys.db, viewer, raw, request, now);
      SetTask(codec, sys, t, Acting(Decide(codec, sys.db, viewer, raw, request, now).writes));
    }
  }

  lemma RowUpdateGentle(db: Db, d: Id, r: DuckRow)
    requires d in db.ducks && r.flock == db.ducks[d].flock && r.seqNo == db.ducks[d].seqNo
    ensures Gentle(db, db.(ducks := db.ducks[d := r]))
  {
  }

  lemma SameDucksGentle(a: Db, b: Db)
    requires a.ducks == b.ducks && a.flocks == b.flocks
    ensures Gentle(a, b)
  {
  }

  lemma PerformGentle(db: Db, w: Write, now: Time)
    ensures Perform(db, w, now).Ok? ==> Gentle(db, Perform(db, w, now).value)
  {
    hide Append, Notified, Notices, SightingRefs, Gentle;
    if Perform(db, w, now).Ok? {
      var after := Perform(db, w, now).value;
      if (w.WStage? || w.WSail? || w.WDeleted? || w.WLocked?) && after != db {
        RowUpdateGentle(db, w.duck, after.ducks[w.duck]);
      } else {
        SameDucksGentle(db, after);
      }
    }
  }

  lemma DoWriteStep(codec: Codec.DuckCodec, sys: System, t: Id, now: Time)
    requires Codec.Valid(codec) && Inv(codec, sys)
    ensures Inv(codec, Step(codec, sys, DoWrite(t, now)))
    ensures Evolves(sys.db, Step(codec, sys, DoWrite(t, now)).db)
  {
    hide Good, TasksOk, Exclusive, WriteOk, Perform, Evolves, Gentle;
    EvolvesReflexive(sys.db);
    EndTask(codec, sys, t);
    if t in sys.tasks && sys.tasks[t].Acting? && sys.tasks[t].writes != [] {
      var writes := sys.tasks[t].writes;
      TaskOf(codec, sys, t);
      var rest := Acting(writes[1..]);
      assert TaskOk(codec, sys.db, rest);
      SetTask(codec, sys, t, rest);
      if Perform(sys.db, writes[0], now).Ok? {
        var after := Perform(sys.db, writes[0], now).value;
        PerformKeepsGood(codec, sys.db, writes[0], now);
        PerformEvolves(sys.db, writes[0], now);
        PerformGentle(sys.db, writes[0], now);
        GentleStep(codec, sys.db, after, sys.tasks[t := rest]);
      }
    }
  }

  // ----- Any event, any schedule --------------------------------------------------------------------

  /** One event keeps the invariant, and moves the tables forward. */
  lemma {:induction false} StepKeepsInv(codec: Codec.DuckCodec, sys: System, e: Event)
    requires Codec.Valid(codec) && Inv(codec, sys)
    ensures Inv(codec, Step(codec, sys, e))
    ensures Evolves(sys.db, Step(codec, sys, e).db)
  {
    hide Inv, Evolves, Upsert, CreateFlock, MarkAllRead, DeleteFlock, DeleteUser, FlockBusy, OwnerBusy, Perform, Decide,
      InsertOutcome, Append;
    EvolvesReflexive(sys.db);
    match e
    case LogIn(issuer, subject, displayName, email, grantAdmin) =>
      UpsertStep(codec, sys, issuer, subject, displayName, email, grantAdmin);
    case NewFlock(owner, rawLabel, draws) => NewFlockStep(codec, sys, owner, rawLabel, draws);
    case BeginMint(t, user, f, count) => BeginMintStep(codec, sys, t, user, f, count);
    case TakeLock(t) => TakeLockStep(codec, sys, t);
    case ReadMax(t) => ReadMaxStep(codec, sys, t);
    case InsertRows(t) => InsertStep(codec, sys, t);
    case Commit(t) => CommitStep(codec, sys, t);
    case Abort(t) => EndTask(codec, sys, t);
    case Arrive(t, viewer, raw, request, now) => ArriveStep(codec, sys, t, viewer, raw, request, now);
    case DoWrite(t, now) => DoWriteStep(codec, sys, t, now);
    case ReadFeed(user, now) => FeedStep(codec, sys, user, now);
    case HardDeleteFlock(f) =>
      if !FlockBusy(sys, f) {
        DeleteFlockStep(codec, sys, f);
      }
    case HardDeleteUser(u) =>
      if !OwnerBusy(sys, u) {
        DeleteUserStep(codec, sys, u);
      }
  }

  lemma StartIsInv(codec: Codec.DuckCodec, vessels: set<Id>)
    requires Codec.Valid(codec)
    ensures Inv(codec, Start(vessels))
  {
    EmptyIsGood(codec, vessels);
    hide Good;
  }

  lemma {:induction false} RunKeepsInv(codec: Codec.DuckCodec, sys: System, events: seq<Event>)
    requires Codec.Valid(codec) && Inv(codec, sys)
    ensures Inv(codec, Run(codec, sys, events))
    ensures Evolves(sys.db, Run(codec, sys, events).db)
    decreases |events|
  {
    hide Inv, Step, Evolves;
    if events == [] {
      EvolvesReflexive(sys.db);
    } else {
      var next := Step(codec, sys, events[0]);
      StepKeepsInv(codec, sys, events[0]);
      RunKeepsInv(codec, next, events[1..]);
      EvolvesTransitive(sys.db, next.db, Run(codec, next, events[1..]).db);
    }
  }
}
