/** Requests and mints that nothing interrupts, as the events they are made of: the schedule then computes
    what the handler and the transaction compute in one go. */
module Sequential {
  import opened Wrappers
  import opened Schema
  import opened Store
  import opened Minting
  import opened Cascade
  import opened Invariants
  import opened Handlers
  import opened Runs
  import opened Safety
  import opened Reachability
  import opened MintGuarantees
  import Effects
  import Hiding
  import Codes
  import Codec
  import Text

  lemma {:induction false} ScheduleAppend(codec: Codec.DuckCodec, sys: System, a: seq<Event>, b: seq<Event>)
    requires Codec.Valid(codec)
    ensures Run(codec, sys, a + b) == Run(codec, Run(codec, sys, a), b)
    decreases |a|
  {
    hide Step;
    if a == [] {
      assert a + b == b;
    } else {
      assert (a + b)[0] == a[0] && (a + b)[1..] == a[1..] + b;
      ScheduleAppend(codec, Step(codec, sys, a[0]), a[1..], b);
    }
  }

  lemma ScheduleOne(codec: Codec.DuckCodec, sys: System, e: Event)
    requires Codec.Valid(codec)
    ensures Run(codec, sys, [e]) == Step(codec, sys, e)
  {
    hide Step;
    assert [e][1..] == [];
  }

  lemma ScheduleCons(codec: Codec.DuckCodec, sys: System, e: Event, rest: seq<Event>)
    requires Codec.Valid(codec)
    ensures Run(codec, sys, [e] + rest) == Run(codec, Step(codec, sys, e), rest)
  {
    hide Step;
    assert ([e] + rest)[1..] == rest;
  }

  // ----- A request ---------------------------------------------------------------------

  /** A request is its arrival and as many write steps as any handler takes. */
  function Serving(t: Id, viewer: Option<Viewer>, raw: string, request: Request, now: Time): seq<Event> {
    [Arrive(t, viewer, raw, request, now)] + ([DoWrite(t, now)] + ([DoWrite(t, now)] + [DoWrite(t, now)]))
  }

  lemma WriteStep(codec: Codec.DuckCodec, db: Db, tasks: map<Id, Task>, t: Id, now: Time)
    requires Codec.Valid(codec)
    ensures var sys := System(db, tasks);
            Step(codec, sys, DoWrite(t, now))
            == if t !in tasks || !tasks[t].Acting? then sys
               else if tasks[t].writes == [] then Finish(sys, t)
               else if Perform(db, tasks[t].writes[0], now).Err? then Finish(sys, t)
               else System(Perform(db, tasks[t].writes[0], now).value, tasks[t := Acting(tasks[t].writes[1..])])
  {
    hide Upsert, CreateFlock, MarkAllRead, DeleteFlock, DeleteUser, FlockBusy, OwnerBusy, Decide, StepMint, Perform,
      Codec.Encode, ReadText, Field, Codes.IsFlockCode;
  }

  lemma ArrivalStep(codec: Codec.DuckCodec, sys: System, t: Id, viewer: Option<Viewer>, raw: string, request: Request,
                    now: Time)
    requires Codec.Valid(codec) && t !in sys.tasks
    ensures Step(codec, sys, Arrive(t, viewer, raw, request, now))
            == match Decide(codec, sys.db, viewer, raw, request, now)
               case Respond(_) => sys
               case Act(writes, _) => sys.(tasks := sys.tasks[t := Acting(writes)])
  {
    hide Upsert, CreateFlock, MarkAllRead, DeleteFlock, DeleteUser, FlockBusy, OwnerBusy, Decide, StepMint, Perform,
      Codec.Encode, ReadText, Field, Codes.IsFlockCode;
  }

  /** Write steps of a task run alone perform its writes, up to the first failure. */
  lemma WritesRunAlone(codec: Codec.DuckCodec, db: Db, tasks: map<Id, Task>, t: Id, writes: seq<Write>, now: Time,
                       response: Response)
    requires Codec.Valid(codec) && t !in tasks && |writes| <= 2
    ensures var e := DoWrite(t, now);
            Run(codec, System(db, tasks[t := Acting(writes)]), [e] + ([e] + [e]))
            == System(PerformAll(db, writes, response, now).1, tasks)
  {
    hide Step, Perform, Run;
    var e := DoWrite(t, now);
    var start := System(db, tasks[t := Acting(writes)]);
    RunThree(codec, start, e);
    WriteStep(codec, db, tasks[t := Acting(writes)], t, now);
    assert tasks[t := Acting(writes)] - {t} == tasks;
    WriteStep(codec, db, tasks, t, now);
    if writes != [] && Perform(db, writes[0], now).Ok? {
      var mid := Perform(db, writes[0], now).value;
      var rest := writes[1..];
      assert tasks[t := Acting(writes)][t := Acting(rest)] == tasks[t := Acting(rest)];
      assert tasks[t := Acting(rest)] - {t} == tasks;
      WriteStep(codec, mid, tasks[t := Acting(rest)], t, now);
      WriteStep(codec, mid, tasks, t, now);
      if rest != [] {
        assert rest == [writes[1]] && rest[1..] == [];
        Hiding.PerformOne(mid, writes[1], response, now);
        if Perform(mid, writes[1], now).Ok? {
          var end := Perform(mid, writes[1], now).value;
          assert tasks[t := Acting(rest)][t := Acting([])] == tasks[t := Acting([])];
          assert tasks[t := Acting([])] - {t} == tasks;
          WriteStep(codec, end, tasks[t := Acting([])], t, now);
        }
      }
    }
  }

  lemma RunThree(codec: Codec.DuckCodec, sys: System, e: Event)
    requires Codec.Valid(codec)
    ensures Run(codec, sys, [e] + ([e] + [e])) == Step(codec, Step(codec, Step(codec, sys, e), e), e)
  {
    hide Step, Run;
    ScheduleCons(codec, sys, e, [e] + [e]);
    ScheduleCons(codec, Step(codec, sys, e), e, [e]);
    ScheduleOne(codec, Step(codec, Step(codec, sys, e), e), e);
  }

  lemma AtMostTwoWrites(codec: Codec.DuckCodec, db: Db, viewer: Option<Viewer>, raw: string, request: Request,
                        now: Time)
    requires Codec.Valid(codec) && Decide(codec, db, viewer, raw, request, now).Act?
    ensures 1 <= |Decide(codec, db, viewer, raw, request, now).writes| <= 2
  {
    hide ResolveAny, GuardOpen;
  }

  /** A request that nothing interrupts leaves the database its handler computes, and no task behind. */
  lemma {:induction false} ServesAlone(codec: Codec.DuckCodec, sys: System, t: Id, viewer: Option<Viewer>, raw: string,
                                       request: Request, now: Time)
    requires Codec.Valid(codec) && t !in sys.tasks
    ensures Run(codec, sys, Serving(t, viewer, raw, request, now))
            == System(Serve(codec, sys.db, viewer, raw, request, now).1, sys.tasks)
  {
    hide Step, Decide, PerformAll, Run;
    var e := DoWrite(t, now);
    ScheduleCons(codec, sys, Arrive(t, viewer, raw, request, now), [e] + ([e] + [e]));
    ArrivalStep(codec, sys, t, viewer, raw, request, now);
    match Decide(codec, sys.db, viewer, raw, request, now)
    case Respond(_) =>
      RunThree(codec, sys, e);
      WriteStep(codec, sys.db, sys.tasks, t, now);
    case Act(writes, response) =>
      AtMostTwoWrites(codec, sys.db, viewer, raw, request, now);
      WritesRunAlone(codec, sys.db, sys.tasks, t, writes, now, response);
  }

  // ----- A mint --------------------------------------------------------------------------

  function MintingAlone(t: Id, user: Id, f: Id, count: nat): seq<Event> {
    [BeginMint(t, user, f, count)] + ([TakeLock(t)] + ([ReadMax(t)] + ([InsertRows(t)] + [Commit(t)])))
  }

  predicate Unlocked(tasks: map<Id, Task>, f: Id) {
    forall o | o in tasks :: !HoldsLock(tasks[o], f)
  }

  lemma MintSteps(codec: Codec.DuckCodec, sys: System, t: Id)
    requires Codec.Valid(codec) && t in sys.tasks && sys.tasks[t].Mint?
    ensures Step(codec, sys, TakeLock(t)) == StepMint(codec, sys, t, TakeLock(t))
    ensures Step(codec, sys, ReadMax(t)) == StepMint(codec, sys, t, ReadMax(t))
    ensures Step(codec, sys, InsertRows(t)) == StepMint(codec, sys, t, InsertRows(t))
    ensures Step(codec, sys, Commit(t)) == StepMint(codec, sys, t, Commit(t))
  {
    hide StepMint, Upsert, CreateFlock, MarkAllRead, DeleteFlock, DeleteUser, FlockBusy, OwnerBusy, Decide, Perform,
      Codec.Encode, ReadText, Field, Codes.IsFlockCode;
  }

  lemma IdleMintSteps(codec: Codec.DuckCodec, sys: System, t: Id)
    requires Codec.Valid(codec) && t !in sys.tasks
    ensures Step(codec, sys, TakeLock(t)) == sys && Step(codec, sys, ReadMax(t)) == sys
    ensures Step(codec, sys, InsertRows(t)) == sys && Step(codec, sys, Commit(t)) == sys
  {
    hide StepMint, Upsert, CreateFlock, MarkAllRead, DeleteFlock, DeleteUser, FlockBusy, OwnerBusy, Decide, Perform,
      Codec.Encode, ReadText, Field, Codes.IsFlockCode;
  }

  lemma BeginStep(codec: Codec.DuckCodec, sys: System, t: Id, user: Id, f: Id, count: nat)
    requires Codec.Valid(codec) && Good(codec, sys.db) && t !in sys.tasks && count > 0
    ensures f in sys.db.flocks ==> Codes.IsFlockCode(sys.db.flocks[f].code)
    ensures Step(codec, sys, BeginMint(t, user, f, count))
            == if f in sys.db.flocks && sys.db.flocks[f].owner == user
               then
                 sys.(tasks := sys.tasks[t := Mint(f, sys.db.flocks[f].code, sys.db.flocks[f].generation, count,
                                                   Waiting)])
               else sys
  {
    hide Good, StepMint, Upsert, CreateFlock, MarkAllRead, DeleteFlock, DeleteUser, FlockBusy, OwnerBusy, Decide,
      Perform, Codec.Encode, ReadText, Field, Codes.IsFlockCode;
    if f in sys.db.flocks {
      MintGuarantees.FlockRow(codec, sys.db, f);
      KeyWorks(codec, sys.db.flocks[f].generation, sys.db.flocks[f].code);
    }
  }

  lemma LockStep(codec: Codec.DuckCodec, db: Db, tasks: map<Id, Task>, t: Id, m: Task)
    requires Codec.Valid(codec) && m.Mint? && m.phase.Waiting? && t !in tasks && Unlocked(tasks, m.flock)
    ensures Step(codec, System(db, tasks[t := m]), TakeLock(t)) == System(db, tasks[t := m.(phase := Locked)])
  {
    hide Step, InsertOutcome, MaxSeq, CommitRows;
    var sys := System(db, tasks[t := m]);
    MintSteps(codec, sys, t);
    assert sys.tasks[t := m.(phase := Locked)] == tasks[t := m.(phase := Locked)];
  }

  lemma ReadStep(codec: Codec.DuckCodec, db: Db, tasks: map<Id, Task>, t: Id, m: Task)
    requires Codec.Valid(codec) && m.Mint? && m.phase.Locked?
    ensures var max := MaxSeq(db.ducks, m.flock, db.next.duck);
            Step(codec, System(db, tasks[t := m]), ReadMax(t)) == System(db, tasks[t := m.(phase := HaveMax(max))])
  {
    hide Step, InsertOutcome, MaxSeq, CommitRows;
    var sys := System(db, tasks[t := m]);
    MintSteps(codec, sys, t);
    var next := m.(phase := HaveMax(MaxSeq(db.ducks, m.flock, db.next.duck)));
    assert sys.tasks[t := next] == tasks[t := next];
  }

  /** From the lock on, an uninterrupted mint commits the whole batch or gives up. */
  lemma LockedMintRuns(codec: Codec.DuckCodec, db: Db, tasks: map<Id, Task>, t: Id, f: Id, count: nat)
    requires Codec.Valid(codec) && t !in tasks && Unlocked(tasks, f) && f in db.flocks
    requires Codes.IsFlockCode(db.flocks[f].code)
    requires Inv(codec, System(db, tasks[t := Mint(f, db.flocks[f].code, db.flocks[f].generation, count, Waiting)]))
    ensures var m := Mint(f, db.flocks[f].code, db.flocks[f].generation, count, Waiting);
            Run(codec, System(db, tasks[t := m]), [TakeLock(t)] + ([ReadMax(t)] + ([InsertRows(t)] + [Commit(t)])))
            == System(Store.MintBatch(db, f, count, Encoder(codec, m.generation, m.code)).1, tasks)
  {
    hide Step, Run, Inv, MaxSeq, Encoder, Store.MintBatch, Codes.IsFlockCode, Unlocked;
    var m := Mint(f, db.flocks[f].code, db.flocks[f].generation, count, Waiting);
    var locked := m.(phase := Locked);
    var (s1, s2) := (System(db, tasks[t := m]), System(db, tasks[t := locked]));
    ScheduleCons(codec, s1, TakeLock(t), [ReadMax(t)] + ([InsertRows(t)] + [Commit(t)]));
    StepKeepsInv(codec, s1, TakeLock(t));
    LockStep(codec, db, tasks, t, m);
    ScheduleCons(codec, s2, ReadMax(t), [InsertRows(t)] + [Commit(t)]);
    StepKeepsInv(codec, s2, ReadMax(t));
    ReadStep(codec, db, tasks, t, locked);
    InsertAndCommit(codec, db, tasks, t, m.(phase := HaveMax(MaxSeq(db.ducks, f, db.next.duck))));
  }

  lemma InsertStepAlone(codec: Codec.DuckCodec, db: Db, tasks: map<Id, Task>, t: Id, m: Task)
    requires Codec.Valid(codec) && t !in tasks && ReadyToInsert(db, m) && Inv(codec, System(db, tasks[t := m]))
    ensures Step(codec, System(db, tasks[t := m]), InsertRows(t))
            == match Allocate(Encoder(codec, m.generation, m.code), m.phase.max + 1, m.count)
               case None => System(db, tasks)
               case Some(entries) => System(db, tasks[t := m.(phase := Inserted(entries))])
  {
    hide Step, Good, TasksOk, Exclusive, MaxSeq, Allocate, Encoder, InsertClashes, ClashesWithOthers, Minted,
      Codes.IsFlockCode, Acceptable;
    var sys := System(db, tasks[t := m]);
    MintSteps(codec, sys, t);
    MintOutcomes(codec, sys, t);
    assert sys.tasks - {t} == tasks;
    if Allocate(Encoder(codec, m.generation, m.code), m.phase.max + 1, m.count).Some? {
      var done := m.(phase := Inserted(Allocate(Encoder(codec, m.generation, m.code), m.phase.max + 1, m.count).value));
      assert sys.tasks[t := done] == tasks[t := done];
    }
  }

  /** A mint that holds its lock and has read the flock's true high-water mark. */
  predicate ReadyToInsert(db: Db, m: Task) {
    && m.Mint? && m.flock in db.flocks && m.phase == HaveMax(MaxSeq(db.ducks, m.flock, db.next.duck))
    && m.code == db.flocks[m.flock].code && m.generation == db.flocks[m.flock].generation && Codes.IsFlockCode(m.code)
  }

  lemma CommitAlone(codec: Codec.DuckCodec, db: Db, tasks: map<Id, Task>, t: Id, m: Task)
    requires Codec.Valid(codec) && t !in tasks && HasInserted(m)
    ensures Step(codec, System(db, tasks[t := m]), Commit(t)) == System(CommitRows(db, m.flock, m.phase.entries), tasks)
  {
    hide Step, CommitRows, InsertOutcome, MaxSeq;
    var sys := System(db, tasks[t := m]);
    MintSteps(codec, sys, t);
    assert sys.tasks - {t} == tasks;
  }

  lemma InsertAndCommit(codec: Codec.DuckCodec, db: Db, tasks: map<Id, Task>, t: Id, m: Task)
    requires Codec.Valid(codec) && t !in tasks && ReadyToInsert(db, m) && Inv(codec, System(db, tasks[t := m]))
    ensures Run(codec, System(db, tasks[t := m]), [InsertRows(t)] + [Commit(t)])
            == System(Store.MintBatch(db, m.flock, m.count, Encoder(codec, m.generation, m.code)).1, tasks)
  {
    hide Step, Run, Good, TasksOk, Exclusive, MaxSeq, Allocate, Encoder, CommitRows, Store.MintBatch, Codes.IsFlockCode;
    var s3 := System(db, tasks[t := m]);
    ScheduleCons(codec, s3, InsertRows(t), [Commit(t)]);
    ScheduleOne(codec, Step(codec, s3, InsertRows(t)), Commit(t));
    InsertStepAlone(codec, db, tasks, t, m);
    MintSucceedsIff(codec, db, m.flock, m.count);
    match Allocate(Encoder(codec, m.generation, m.code), m.phase.max + 1, m.count)
    case None => IdleMintSteps(codec, System(db, tasks), t);
    case Some(entries) => CommitAlone(codec, db, tasks, t, m.(phase := Inserted(entries)));
  }

  /** A mint that nothing interrupts does what the request does in one go. */
  lemma {:induction false} MintsAlone(codec: Codec.DuckCodec, sys: System, t: Id, user: Id, f: Id, count: nat)
    requires Codec.Valid(codec) && Inv(codec, sys) && t !in sys.tasks && Unlocked(sys.tasks, f) && count > 0
    ensures Run(codec, sys, MintingAlone(t, user, f, count))
            == System(MintRequest(codec, sys.db, user, f, count).1, sys.tasks)
  {
    hide Step, Run, Good, TasksOk, Exclusive, Encoder, Store.MintBatch, Codes.IsFlockCode, Codec.Encode;
    var rest := [TakeLock(t)] + ([ReadMax(t)] + ([InsertRows(t)] + [Commit(t)]));
    ScheduleCons(codec, sys, BeginMint(t, user, f, count), rest);
    BeginStep(codec, sys, t, user, f, count);
    if f in sys.db.flocks && sys.db.flocks[f].owner == user {
      StepKeepsInv(codec, sys, BeginMint(t, user, f, count));
      MintGuarantees.FlockRow(codec, sys.db, f);
      KeyWorks(codec, sys.db.flocks[f].generation, sys.db.flocks[f].code);
      LockedMintRuns(codec, sys.db, sys.tasks, t, f, count);
      MintBatchOutcome(codec, sys.db, f, count);
    } else {
      IdleMintSteps(codec, sys, t);
      ScheduleCons(codec, sys, TakeLock(t), [ReadMax(t)] + ([InsertRows(t)] + [Commit(t)]));
      ScheduleCons(codec, sys, ReadMax(t), [InsertRows(t)] + [Commit(t)]);
      ScheduleCons(codec, sys, InsertRows(t), [Commit(t)]);
      ScheduleOne(codec, sys, Commit(t));
    }
  }

  // ----- Events that are one statement ------------------------------------------------------

  lemma SingleSteps(codec: Codec.DuckCodec, sys: System, issuer: string, subject: string, displayName: Option<string>,
                    email: Option<string>, grantAdmin: bool, user: Id, now: Time)
    requires Codec.Valid(codec)
    ensures Step(codec, sys, LogIn(issuer, subject, displayName, email, grantAdmin))
            == sys.(db := Upsert(sys.db, issuer, subject, displayName, email, grantAdmin))
    ensures Step(codec, sys, ReadFeed(user, now)) == sys.(db := MarkAllRead(sys.db, user, now))
  {
    hide Upsert, MarkAllRead;
  }

  /** In a running system signing in touches only accounts, and leaves the one account of the identity with what was
      sent, what was known, and an admin flag that only rises. */
  lemma {:induction false} SignInEvent(codec: Codec.DuckCodec, sys: System, issuer: string, subject: string,
                                       displayName: Option<string>, email: Option<string>, grantAdmin: bool)
    requires Codec.Valid(codec) && Inv(codec, sys)
    ensures var after := Step(codec, sys, LogIn(issuer, subject, displayName, email, grantAdmin));
            && after.tasks == sys.tasks && after.db == sys.db.(users := after.db.users, next := after.db.next)
            && exists u | u in after.db.users ::
                 Effects.OneAccount(sys.db.users, after.db.users, u, issuer, subject, displayName, email, grantAdmin)
  {
    hide Good, TasksOk, Exclusive, Step, FindUser, Renewed, Effects.OneAccount;
    SingleSteps(codec, sys, issuer, subject, displayName, email, grantAdmin, 0, 0);
    Effects.SignInEffect(codec, sys.db, issuer, subject, displayName, email, grantAdmin);
    var after := Upsert(sys.db, issuer, subject, displayName, email, grantAdmin);
    assert Effects.AccountOf(sys.db, issuer, subject) in after.users;
  }

  /** In a running system reading the feed marks exactly the reader's unread notices, with the time of reading. */
  lemma {:induction false} FeedEvent(codec: Codec.DuckCodec, sys: System, user: Id, now: Time)
    requires Codec.Valid(codec)
    ensures var (was, after) := (sys.db, Step(codec, sys, ReadFeed(user, now)));
            && after.tasks == sys.tasks && after.db == was.(notifications := after.db.notifications)
            && after.db.notifications.Keys == was.notifications.Keys
            && forall n | n in was.notifications ::
                 after.db.notifications[n]
                 == if was.notifications[n].user == user && was.notifications[n].readAt.None?
                    then was.notifications[n].(readAt := Some(now)) else was.notifications[n]
  {
    hide Step;
    SingleSteps(codec, sys, "", "", None, None, false, user, now);
  }

  /** An aborted mint leaves no trace, and neither does a request that is given up before its next write. */
  lemma {:induction false} AbortEvent(codec: Codec.DuckCodec, sys: System, t: Id)
    requires Codec.Valid(codec)
    ensures Step(codec, sys, Abort(t)) == System(sys.db, sys.tasks - {t})
  {
    hide Upsert, CreateFlock, MarkAllRead, DeleteFlock, DeleteUser;
  }
}
