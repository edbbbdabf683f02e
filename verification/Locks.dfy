/** The comment lock over time, and the comment that was checked before the lock and written after it. */
module Locks {
  import opened Wrappers
  import opened Schema
  import opened Store
  import opened Cascade
  import opened Invariants
  import opened Handlers
  import opened Evolution
  import opened Runs
  import opened Safety
  import opened Reachability
  import opened MintGuarantees
  import opened Permissions
  import Funnel
  import Sequential
  import Profanity
  import Codes
  import Codec
  import Text

  predicate CommentsLocked(ducks: map<Id, DuckRow>, d: Id) {
    d in ducks && ducks[d].commentsLockedAt.Some?
  }

  /** Which write, if any, the event performs. */
  function Performing(sys: System, e: Event): Option<Write> {
    if e.DoWrite? && e.task in sys.tasks && sys.tasks[e.task].Acting? && sys.tasks[e.task].writes != []
    then Some(sys.tasks[e.task].writes[0]) else None
  }

  /** Whether duck `d` is locked after the event, by the writes alone. */
  function LockWritten(sys: System, e: Event, d: Id, was: bool): bool {
    var w := Performing(sys, e);
    if w.Some? && w.value.WLocked? && w.value.duck == d then w.value.locked else was
  }

  /** The lock as the last lock or unlock written by the schedule leaves it. */
  function LockAfter(codec: Codec.DuckCodec, sys: System, events: seq<Event>, d: Id, was: bool): bool
    requires Codec.Valid(codec)
    decreases |events|
  {
    if events == [] then was
    else LockAfter(codec, Step(codec, sys, events[0]), events[1..], d, LockWritten(sys, events[0], d, was))
  }

  /** Some event of the schedule locks duck `d`. */
  predicate EverLocks(codec: Codec.DuckCodec, sys: System, events: seq<Event>, d: Id)
    requires Codec.Valid(codec)
    decreases |events|
  {
    events != []
    && (Performing(sys, events[0]) == Some(WLocked(d, true))
        || EverLocks(codec, Step(codec, sys, events[0]), events[1..], d))
  }

  lemma {:induction false} UnlockedUnlessLocked(codec: Codec.DuckCodec, sys: System, events: seq<Event>, d: Id)
    requires Codec.Valid(codec) && !EverLocks(codec, sys, events, d)
    ensures !LockAfter(codec, sys, events, d, false)
    decreases |events|
  {
    hide Step, Performing;
    if events != [] {
      UnlockedUnlessLocked(codec, Step(codec, sys, events[0]), events[1..], d);
    }
  }

  // ----- The lock of a duck is what was last written ----------------------------------------

  lemma {:induction false} CreateFlockKeepsDucks(db: Db, owner: Id, generation: nat, flockLabel: Option<string>,
                                                 draws: seq<string>)
    ensures CreateFlock(db, owner, generation, flockLabel, draws).1.ducks == db.ducks
    decreases |draws|
  {
    hide Profanity.Matches, FindFlock;
    if draws != [] {
      CreateFlockKeepsDucks(db, owner, generation, flockLabel, draws[1..]);
      var burnt := db.(next := db.next.(flock := db.next.flock + 1));
      CreateFlockKeepsDucks(burnt, owner, generation, flockLabel, draws[1..]);
    }
  }

  lemma UpsertKeepsDucks(db: Db, issuer: string, subject: string, displayName: Option<string>, email: Option<string>,
                         grantAdmin: bool)
    ensures Upsert(db, issuer, subject, displayName, email, grantAdmin).ducks == db.ducks
  {
    hide FindUser;
  }

  lemma PerformLock(db: Db, w: Write, now: Time, d: Id)
    requires Perform(db, w, now).Ok? && d in db.ducks
    ensures var after := Perform(db, w, now).value;
            d in after.ducks
            && (CommentsLocked(after.ducks, d)
                <==> if w.WLocked? && w.duck == d then w.locked else CommentsLocked(db.ducks, d))
  {
    hide Append, Notified, Notices, SightingRefs;
  }

  lemma CommitLock(codec: Codec.DuckCodec, db: Db, f: Id, entries: seq<Entry>, d: Id)
    requires Codec.Valid(codec) && Good(codec, db) && d in db.ducks
    ensures CommentsLocked(CommitRows(db, f, entries).ducks, d) <==> CommentsLocked(db.ducks, d)
  {
    hide Good, Append;
    DuckRowsBounded(codec, db);
    AppendSplits(db.ducks, db.next.duck, Minted(f, entries));
  }

  lemma DeletionLock(codec: Codec.DuckCodec, sys: System, e: Event, d: Id)
    requires Codec.Valid(codec) && Inv(codec, sys) && (e.HardDeleteFlock? || e.HardDeleteUser?)
    requires d in sys.db.ducks && d in Step(codec, sys, e).db.ducks
    ensures CommentsLocked(Step(codec, sys, e).db.ducks, d) <==> CommentsLocked(sys.db.ducks, d)
  {
    hide Good, TasksOk, Exclusive, DeleteFlock, DeleteUser, FlockBusy, OwnerBusy, ForeignKeys, Checks, IdsBounded,
      NoticesAgree, UniqueDucks, UniqueFlocks, UniqueUsers, Upsert, CreateFlock, MarkAllRead, Decide, Perform, StepMint,
      SightingsWithout, CommentsWithout, FollowsWithout, NoticesWithout, UsersWithout, SightingsOutside,
      CommentsOutside, FollowsOutside, NoticesOutside, Codes.IsFlockCode, Codec.Encode;
    GoodMeetsSchema(codec, sys.db);
    match e
    case HardDeleteFlock(g) => DeleteFlockIsFilter(sys.db, g);
    case HardDeleteUser(u) => DeleteUserIsFilter(sys.db, u);
  }

  lemma StepLock(codec: Codec.DuckCodec, sys: System, e: Event, d: Id)
    requires Codec.Valid(codec) && Inv(codec, sys) && d in sys.db.ducks && d in Step(codec, sys, e).db.ducks
    ensures CommentsLocked(Step(codec, sys, e).db.ducks, d) <==> LockWritten(sys, e, d, CommentsLocked(sys.db.ducks, d))
  {
    hide Good, TasksOk, Exclusive, Upsert, MarkAllRead, DeleteFlock, DeleteUser, FlockBusy, OwnerBusy, Perform, Decide,
      InsertOutcome, CommitRows, CreateFlock, ReadText, Field, Codes.IsFlockCode, Codec.Encode, MaxSeq, CommentsLocked;
    match e
    case LogIn(issuer, subject, displayName, email, grantAdmin) =>
      UpsertKeepsDucks(sys.db, issuer, subject, displayName, email, grantAdmin);
    case NewFlock(owner, rawLabel, draws) =>
      var flockLabel := ReadText(Text.LABEL_MAX, Field(rawLabel), "form");
      if flockLabel.Ok? {
        CreateFlockKeepsDucks(sys.db, owner, codec.current, flockLabel.value, draws);
      }
    case DoWrite(t, now) =>
      if Performing(sys, e).Some? && Perform(sys.db, sys.tasks[t].writes[0], now).Ok? {
        PerformLock(sys.db, sys.tasks[t].writes[0], now, d);
      } else if Performing(sys, e).Some? {
        FailedWrite(sys.db, sys.tasks[t].writes[0], now);
      }
    case Commit(t) =>
      if t in sys.tasks && HasInserted(sys.tasks[t]) {
        CommitLock(codec, sys.db, sys.tasks[t].flock, sys.tasks[t].phase.entries, d);
      }
    case ReadFeed(user, now) => FeedRows(sys.db, user, now);
    case HardDeleteFlock(g) => DeletionLock(codec, sys, e, d);
    case HardDeleteUser(u) => DeletionLock(codec, sys, e, d);
    case _ =>
  }

  lemma FailedWrite(db: Db, w: Write, now: Time)
    requires Perform(db, w, now).Err?
    ensures !w.WLocked?
  {
  }

  /** The lock of a surviving duck is what the last lock or unlock of the schedule wrote. */
  lemma {:induction false} LockIsLastWritten(codec: Codec.DuckCodec, sys: System, events: seq<Event>, d: Id)
    requires Codec.Valid(codec) && Inv(codec, sys)
    requires d in sys.db.ducks && d in Run(codec, sys, events).db.ducks
    ensures CommentsLocked(Run(codec, sys, events).db.ducks, d)
            <==> LockAfter(codec, sys, events, d, CommentsLocked(sys.db.ducks, d))
    decreases |events|
  {
    hide Good, TasksOk, Exclusive, Step, LockWritten, CommentsLocked;
    if events != [] {
      var next := Step(codec, sys, events[0]);
      StepKeepsInv(codec, sys, events[0]);
      RunKeepsInv(codec, next, events[1..]);
      StillThere(codec, sys.db, next.db, Run(codec, next, events[1..]).db, d);
      StepLock(codec, sys, events[0], d);
      LockIsLastWritten(codec, next, events[1..], d);
    }
  }

  lemma StillThere(codec: Codec.DuckCodec, a: Db, b: Db, c: Db, d: Id)
    requires Codec.Valid(codec) && Good(codec, a) && Evolves(b, c) && a.next.duck <= b.next.duck
    requires d in a.ducks && d in c.ducks
    ensures d in b.ducks
  {
    hide Good;
    DuckRowsBounded(codec, a);
  }

  // ----- A waiting comment --------------------------------------------------------------------

  /** Only these events move a handler's task along or end it. */
  predicate Touches(e: Event, t: Id) {
    (e.DoWrite? || e.Abort?) && e.task == t
  }

  predicate LeavesAlone(events: seq<Event>, t: Id) {
    forall i | 0 <= i < |events| :: !Touches(events[i], t)
  }

  lemma StepKeepsTask(codec: Codec.DuckCodec, sys: System, e: Event, t: Id)
    requires Codec.Valid(codec) && t in sys.tasks && sys.tasks[t].Acting? && !Touches(e, t)
    ensures t in Step(codec, sys, e).tasks && Step(codec, sys, e).tasks[t] == sys.tasks[t]
  {
    hide Upsert, MarkAllRead, DeleteFlock, DeleteUser, FlockBusy, OwnerBusy, Perform, Decide, InsertOutcome, CommitRows,
      CreateFlock, ReadText, Field, Codes.IsFlockCode, Codec.Encode, MaxSeq, HoldsLock;
  }

  lemma {:induction false} RunKeepsTask(codec: Codec.DuckCodec, sys: System, events: seq<Event>, t: Id)
    requires Codec.Valid(codec) && t in sys.tasks && sys.tasks[t].Acting? && LeavesAlone(events, t)
    ensures t in Run(codec, sys, events).tasks && Run(codec, sys, events).tasks[t] == sys.tasks[t]
    decreases |events|
  {
    hide Step, Touches;
    if events != [] {
      StepKeepsTask(codec, sys, events[0], t);
      assert forall i | 0 <= i < |events[1..]| :: events[1..][i] == events[i + 1];
      RunKeepsTask(codec, Step(codec, sys, events[0]), events[1..], t);
    }
  }

  /** A comment about to be written was accepted on a duck on show and unlocked at that moment. */
  lemma CommentDecision(codec: Codec.DuckCodec, db: Db, v: Viewer, raw: string, text: string, now: Time)
    requires Codec.Valid(codec) && Good(codec, db)
    requires Decide(codec, db, Some(v), raw, PostComment(text), now).Act?
    ensures var r := ResolveAny(codec, db, raw);
            && r.Found? && r.duck.id in db.ducks && !CommentsLocked(db.ducks, r.duck.id)
            && Text.Parse(Text.COMMENT_MAX, text).Ok?
            && Decide(codec, db, Some(v), raw, PostComment(text), now).writes
               == [WComment(r.duck.id, v.id, Text.Parse(Text.COMMENT_MAX, text).value)]
  {
    hide Good, ResolveAny, Codes.ParseDuck, ReadDuck, Text.Parse;
    ResolvedRow(codec, db, raw);
    Funnel.DuckReadsBack(codec, db, ResolveAny(codec, db, raw).duck.id);
  }

  lemma CommentArrival(codec: Codec.DuckCodec, sys: System, t: Id, v: Viewer, raw: string, text: string, now: Time)
    requires Codec.Valid(codec) && Inv(codec, sys) && t !in sys.tasks
    requires t in Step(codec, sys, Arrive(t, Some(v), raw, PostComment(text), now)).tasks
    ensures var r := ResolveAny(codec, sys.db, raw);
            var next := Step(codec, sys, Arrive(t, Some(v), raw, PostComment(text), now));
            && r.Found? && r.duck.id in sys.db.ducks && !CommentsLocked(sys.db.ducks, r.duck.id)
            && Text.Parse(Text.COMMENT_MAX, text).Ok? && next.db == sys.db
            && next.tasks[t] == Acting([WComment(r.duck.id, v.id, Text.Parse(Text.COMMENT_MAX, text).value)])
  {
    hide Good, TasksOk, Exclusive, ResolveAny, Decide, Text.Parse, Step, CommentsLocked;
    Sequential.ArrivalStep(codec, sys, t, Some(v), raw, PostComment(text), now);
    CommentDecision(codec, sys.db, v, raw, text, now);
  }

  /** The comment lands exactly when duck and author still exist. */
  lemma CommentWrite(codec: Codec.DuckCodec, sys: System, t: Id, d: Id, u: Id, body: string, now: Time)
    requires Codec.Valid(codec) && t in sys.tasks && sys.tasks[t] == Acting([WComment(d, u, body)])
    ensures var after := Step(codec, sys, DoWrite(t, now)).db;
            after == if d in sys.db.ducks && u in sys.db.users
                     then sys.db.(comments := sys.db.comments[sys.db.next.comment := CommentRow(d, u, body)],
                                  next := sys.db.next.(comment := sys.db.next.comment + 1))
                     else sys.db
  {
    hide Upsert, CreateFlock, MarkAllRead, DeleteFlock, DeleteUser, FlockBusy, OwnerBusy, Decide, StepMint,
      Codec.Encode;
  }

  /** Whether the step from `a` to `b` stored a new comment on a duck whose comments are locked. */
  predicate LandsLocked(a: Db, b: Db, d: Id) {
    CommentsLocked(b.ducks, d) && exists c | c in b.comments :: c !in a.comments && b.comments[c].duck == d
  }

  lemma CommentsBelow(codec: Codec.DuckCodec, db: Db)
    requires Codec.Valid(codec) && Good(codec, db)
    ensures db.next.comment !in db.comments
  {
    hide DucksOk, Dense, FlocksOk, UsersOk, SightingsOk, FollowsOk, NoticesOk, ForeignKeys;
  }

  /** After any history, a comment that a handler has accepted and then, whatever else happens first, writes:
      it lands on a locked duck exactly when duck and author still exist and the last lock or unlock written in
      between was a lock. Without a lock in between it never does. */
  lemma {:induction false} CommentCrossesLockIff(codec: Codec.DuckCodec, vessels: set<Id>, past: seq<Event>, t: Id,
                                                 v: Viewer, raw: string, text: string, checkTime: Time,
                                                 more: seq<Event>, now: Time)
    requires Codec.Valid(codec) && t !in Run(codec, Start(vessels), past).tasks && LeavesAlone(more, t)
    requires t in Step(codec, Run(codec, Start(vessels), past),
                       Arrive(t, Some(v), raw, PostComment(text), checkTime)).tasks
    ensures var checked := Step(codec, Run(codec, Start(vessels), past),
                                Arrive(t, Some(v), raw, PostComment(text), checkTime));
            var before := Run(codec, checked, more);
            var after := Step(codec, before, DoWrite(t, now));
            var d := ResolveAny(codec, checked.db, raw).duck.id;
            && ResolveAny(codec, checked.db, raw).Found?
            && (LandsLocked(before.db, after.db, d)
                <==> d in before.db.ducks && v.id in before.db.users && LockAfter(codec, checked, more, d, false))
            && (!EverLocks(codec, checked, more, d) ==> !LandsLocked(before.db, after.db, d))
  {
    hide Good, TasksOk, Exclusive, Step, Run, ResolveAny, Text.Parse, LockAfter, EverLocks, CommentsLocked, LeavesAlone;
    var start := Run(codec, Start(vessels), past);
    var checked := Step(codec, start, Arrive(t, Some(v), raw, PostComment(text), checkTime));
    var before := Run(codec, checked, more);
    ReachableInv(codec, vessels, past);
    CommentArrival(codec, start, t, v, raw, text, checkTime);
    StepKeepsInv(codec, start, Arrive(t, Some(v), raw, PostComment(text), checkTime));
    RunKeepsInv(codec, checked, more);
    RunKeepsTask(codec, checked, more, t);
    var d := ResolveAny(codec, checked.db, raw).duck.id;
    CommentWrite(codec, before, t, d, v.id, Text.Parse(Text.COMMENT_MAX, text).value, now);
    CommentsBelow(codec, before.db);
    LockedExists(before.db.ducks, d);
    if d in before.db.ducks {
      LockIsLastWritten(codec, checked, more, d);
    }
    if !EverLocks(codec, checked, more, d) {
      UnlockedUnlessLocked(codec, checked, more, d);
    }
  }

  lemma LockedExists(ducks: map<Id, DuckRow>, d: Id)
    ensures CommentsLocked(ducks, d) ==> d in ducks
  {
  }
}
