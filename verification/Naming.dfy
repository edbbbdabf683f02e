/** Which prefixes and codes are handed out: no rude ones, ever. */
module Naming {
  import opened Wrappers
  import opened Schema
  import opened Store
  import opened Minting
  import opened Cascade
  import opened Invariants
  import opened Handlers
  import opened Runs
  import opened Reachability
  import opened MintGuarantees
  import opened Permissions
  import Funnel
  import Codes
  import Codec
  import Profanity
  import Text

  /** Some blocked word stands somewhere in the text, in any case. */
  predicate Rude(text: string) {
    exists k, i | 0 <= k < |Profanity.BLOCKED| && 0 <= i < |text| + 1 ::
      Profanity.Spelled(text, Profanity.BLOCKED[k], i)
  }

  lemma RudeIff(text: string)
    ensures Profanity.Matches(text) <==> Rude(text)
  {
    hide Profanity.Matches, Profanity.Spelled;
    Profanity.MatchesIff(text);
    if k, i: nat :| 0 <= k < |Profanity.BLOCKED| && Profanity.Spelled(text, Profanity.BLOCKED[k], i) {
      Profanity.SpelledFits(text, Profanity.BLOCKED[k], i);
    }
  }

  // ----- A new flock ------------------------------------------------------------------------

  /** The draw can be handed out. */
  predicate Free(flocks: map<Id, FlockRow>, draw: string) {
    !Rude(draw) && forall f | f in flocks :: flocks[f].code != draw
  }

  /** A new flock of `owner` under the first of the draws that is free, with the newest key and the label as sent. */
  ghost predicate Founded(was: map<Id, FlockRow>, flocks: map<Id, FlockRow>, codec: Codec.DuckCodec, owner: Id,
                          rawLabel: Option<string>, draws: seq<string>)
  {
    exists f: Id, k | 0 <= k < |draws| ::
      && f !in was && Free(was, draws[k]) && (forall j | 0 <= j < k :: !Free(was, draws[j]))
      && flocks == was[f := FlockRow(draws[k], codec.current, owner, Said(rawLabel))]
  }

  lemma FreeIsUsable(flocks: map<Id, FlockRow>)
    ensures forall draw :: Usable(flocks, draw) <==> Free(flocks, draw)
  {
    hide Profanity.Matches, Rude;
    forall draw ensures Profanity.Matches(draw) <==> Rude(draw) {
      RudeIff(draw);
    }
  }

  /** Creating a flock: with a fitting label, an existing owner and some free draw it is founded on the first free
      one; otherwise no flock changes. */
  lemma {:induction false} NewFlockIs(codec: Codec.DuckCodec, sys: System, owner: Id, rawLabel: Option<string>,
                                      draws: seq<string>)
    requires Codec.Valid(codec) && Inv(codec, sys)
    requires |draws| == 64 && forall i | 0 <= i < |draws| :: Codes.IsFlockCode(draws[i])
    ensures var after := Step(codec, sys, NewFlock(owner, rawLabel, draws));
            && after.tasks == sys.tasks && after.db == sys.db.(flocks := after.db.flocks, next := after.db.next)
            && (if Within(120, Said(rawLabel)) && owner in sys.db.users
                   && exists i | 0 <= i < |draws| :: Free(sys.db.flocks, draws[i])
                then Founded(sys.db.flocks, after.db.flocks, codec, owner, rawLabel, draws)
                else after.db.flocks == sys.db.flocks)
  {
    hide Good, TasksOk, Exclusive, CreateFlock, ReadText, Field, Said, FirstUsable, Codes.IsFlockCode, Free, Usable;
    NewFlockStepIs(codec, sys, owner, rawLabel, draws);
    OptionalField(Text.LABEL_MAX, rawLabel);
    FreeIsUsable(sys.db.flocks);
    if Within(120, Said(rawLabel)) {
      FlocksBelowNext(codec, sys.db);
      DrawsGiveFirstUsable(sys.db, owner, codec.current, Said(rawLabel), draws);
    }
  }

  lemma FlocksBelowNext(codec: Codec.DuckCodec, db: Db)
    requires Codec.Valid(codec) && Good(codec, db)
    ensures forall f | f in db.flocks :: f < db.next.flock
  {
    hide DucksOk, Dense, UsersOk, SightingsOk, CommentsOk, FollowsOk, NoticesOk, ForeignKeys, FlockReads, UniqueFlocks;
  }

  lemma NewFlockStepIs(codec: Codec.DuckCodec, sys: System, owner: Id, rawLabel: Option<string>, draws: seq<string>)
    requires Codec.Valid(codec)
    requires |draws| == 64 && forall i | 0 <= i < |draws| :: Codes.IsFlockCode(draws[i])
    ensures var flockLabel := ReadText(Text.LABEL_MAX, Field(rawLabel), "form");
            Step(codec, sys, NewFlock(owner, rawLabel, draws))
            == if flockLabel.Err? then sys
               else sys.(db := CreateFlock(sys.db, owner, codec.current, flockLabel.value, draws).1)
  {
    hide CreateFlock, ReadText, Field, Codes.IsFlockCode;
  }

  // ----- Nothing rude ---------------------------------------------------------------------------

  predicate Decent(flocks: map<Id, FlockRow>) {
    forall f | f in flocks :: !Rude(flocks[f].code)
  }

  predicate NoNew(was: map<Id, FlockRow>, flocks: map<Id, FlockRow>) {
    forall f | f in flocks :: f in was && flocks[f] == was[f]
  }

  lemma DeletionsBringNone(codec: Codec.DuckCodec, db: Db, f: Id, u: Id)
    requires Codec.Valid(codec) && Good(codec, db)
    ensures NoNew(db.flocks, DeleteFlock(db, f).1.flocks) && NoNew(db.flocks, DeleteUser(db, u).1.flocks)
  {
    hide Good, ForeignKeys, NoticesAgree, Checks, IdsBounded, UniqueDucks, UniqueFlocks, UniqueUsers, DeleteFlock,
      DeleteUser;
    GoodMeetsSchema(codec, db);
    DeleteFlockIsFilter(db, f);
    DeleteUserIsFilter(db, u);
  }

  /** Events other than creating a flock bring no new prefix. */
  lemma NoNewPrefix(codec: Codec.DuckCodec, sys: System, e: Event)
    requires Codec.Valid(codec) && Inv(codec, sys) && !e.NewFlock?
    ensures NoNew(sys.db.flocks, Step(codec, sys, e).db.flocks)
  {
    hide Good, TasksOk, Exclusive, Upsert, MarkAllRead, DeleteFlock, DeleteUser, FlockBusy, OwnerBusy, Perform, Decide,
      InsertOutcome, Append, ReadText, Field, Codes.IsFlockCode, Codec.Encode, MaxSeq;
    match e
    case LogIn(issuer, subject, displayName, email, grantAdmin) =>
      SignInKeepsFlocks(sys.db, issuer, subject, displayName, email, grantAdmin);
    case DoWrite(t, now) =>
      if t in sys.tasks && sys.tasks[t].Acting? && sys.tasks[t].writes != [] {
        WriteKeepsFlocks(sys.db, sys.tasks[t].writes[0], now);
      }
    case ReadFeed(user, now) => FeedKeeps(sys.db, user, now);
    case HardDeleteFlock(g) => DeletionsBringNone(codec, sys.db, g, 0);
    case HardDeleteUser(u) => DeletionsBringNone(codec, sys.db, 0, u);
    case _ =>
  }

  lemma SignInKeepsFlocks(db: Db, issuer: string, subject: string, displayName: Option<string>, email: Option<string>,
                          grantAdmin: bool)
    ensures Upsert(db, issuer, subject, displayName, email, grantAdmin).flocks == db.flocks
  {
    hide FindUser;
  }

  lemma FeedKeeps(db: Db, user: Id, now: Time)
    ensures MarkAllRead(db, user, now).flocks == db.flocks
  {
  }

  lemma WriteKeepsFlocks(db: Db, w: Write, now: Time)
    ensures Perform(db, w, now).Ok? ==> Perform(db, w, now).value.flocks == db.flocks
  {
    hide SightingRefs, Append, Notified, Notices;
  }

  lemma CreationIsDecent(codec: Codec.DuckCodec, sys: System, owner: Id, rawLabel: Option<string>, draws: seq<string>)
    requires Codec.Valid(codec) && Inv(codec, sys) && Decent(sys.db.flocks)
    ensures Decent(Step(codec, sys, NewFlock(owner, rawLabel, draws)).db.flocks)
  {
    hide Good, TasksOk, Exclusive, Rude, CreateFlock, ReadText, Field, Said, Codes.IsFlockCode;
    if |draws| == 64 && forall i | 0 <= i < |draws| :: Codes.IsFlockCode(draws[i]) {
      NewFlockIs(codec, sys, owner, rawLabel, draws);
    }
  }

  lemma {:induction false} PrefixesStayDecent(codec: Codec.DuckCodec, sys: System, events: seq<Event>)
    requires Codec.Valid(codec) && Inv(codec, sys) && Decent(sys.db.flocks)
    ensures Decent(Run(codec, sys, events).db.flocks)
    decreases |events|
  {
    hide Inv, Step, Rude;
    if events != [] {
      StepKeepsInv(codec, sys, events[0]);
      if events[0].NewFlock? {
        CreationIsDecent(codec, sys, events[0].owner, events[0].rawLabel, events[0].draws);
      } else {
        NoNewPrefix(codec, sys, events[0]);
      }
      PrefixesStayDecent(codec, Step(codec, sys, events[0]), events[1..]);
    }
  }

  /** After every schedule no flock's prefix and no duck's code holds a blocked word anywhere, in any case. */
  lemma {:induction false} NothingRude(codec: Codec.DuckCodec, vessels: set<Id>, events: seq<Event>)
    requires Codec.Valid(codec)
    ensures var db := Run(codec, Start(vessels), events).db;
            && (forall f | f in db.flocks :: !Rude(db.flocks[f].code))
            && (forall d | d in db.ducks :: !Rude(db.ducks[d].code))
  {
    hide Good, TasksOk, Exclusive, Run, Rude;
    var db := Run(codec, Start(vessels), events).db;
    StartIsInv(codec, vessels);
    ReachableInv(codec, vessels, events);
    PrefixesStayDecent(codec, Start(vessels), events);
    forall d | d in db.ducks ensures !Rude(db.ducks[d].code) {
      CodeIsDecent(codec, db, d);
    }
  }

  lemma CodeIsDecent(codec: Codec.DuckCodec, db: Db, d: Id)
    requires Codec.Valid(codec) && Good(codec, db) && d in db.ducks
    ensures !Rude(db.ducks[d].code)
  {
    hide Good, Codec.Encode, Profanity.Matches, Rude, Codes.IsFlockCode, DuckReads, FlockReads;
    Funnel.DuckRowFacts(codec, db, d);
    RudeIff(db.ducks[d].code);
  }

  // ----- When a flock is full ---------------------------------------------------------------------

  /** The numbers above `max` whose codes are decent. */
  function DecentNumbers(codec: Codec.DuckCodec, g: nat, prefix: string, max: nat): set<nat>
    requires Codec.Valid(codec) && Codes.IsFlockCode(prefix)
  {
    set s: nat | max < s <= 10000 && Codes.IsSeq(s) && Codec.Encode(codec, g, prefix, s).Ok?
                 && !Rude(Codec.Encode(codec, g, prefix, s).value)
  }

  lemma AcceptableIsDecent(codec: Codec.DuckCodec, g: nat, prefix: string, max: nat)
    requires Codec.Valid(codec) && Codes.IsFlockCode(prefix)
    ensures Acceptable(Encoder(codec, g, prefix), max + 1) == DecentNumbers(codec, g, prefix, max)
  {
    hide Codec.Encode, Profanity.Matches, Rude, Codes.IsFlockCode;
    var encode := Encoder(codec, g, prefix);
    forall s: nat ensures s in Acceptable(encode, max + 1) <==> s in DecentNumbers(codec, g, prefix, max) {
      if Codes.IsSeq(s) && Codec.Encode(codec, g, prefix, s).Ok? {
        RudeIff(Codec.Encode(codec, g, prefix, s).value);
      }
    }
  }

  /** An owner's request is refused as full exactly when fewer numbers up to 10000 than asked for are left above the
      flock's highest whose codes are not rude; otherwise it succeeds. */
  lemma {:induction false} FullIffFewLeft(codec: Codec.DuckCodec, db: Db, user: Id, f: Id, count: nat)
    requires Codec.Valid(codec) && Good(codec, db) && f in db.flocks && db.flocks[f].owner == user
    ensures Codes.IsFlockCode(db.flocks[f].code)
    ensures var left := DecentNumbers(codec, db.flocks[f].generation, db.flocks[f].code,
                                      MaxSeq(db.ducks, f, db.next.duck));
            MintRequest(codec, db, user, f, count).0.Ok? <==> |left| >= count
  {
    hide Good, Encoder, MaxSeq, MintRequest, Acceptable, FirstAcceptable, Hatched, DecentNumbers, Codes.IsFlockCode;
    MintRequestOutcome(codec, db, user, f, count);
    AcceptableIsDecent(codec, db.flocks[f].generation, db.flocks[f].code, MaxSeq(db.ducks, f, db.next.duck));
  }
}
