/** Every event keeps the invariant, so it holds after every schedule. */
module Safety {
  import opened Wrappers
  import opened Schema
  import opened Store
  import opened Minting
  import opened Cascade
  import opened Invariants
  import opened Handlers
  import opened Evolution
  import opened Runs
  import Funnel
  import Codes
  import Codec
  import Text

  // ----- What a mint inserts ---------------------------------------------------------------

  /** Facts about the entries allocated above the high-water mark. */
  lemma PlannedEntries(codec: Codec.DuckCodec, g: nat, code: string, max: nat, count: nat, entries: seq<Entry>)
    requires Codec.Valid(codec) && Codes.IsFlockCode(code)
    requires Allocate(Encoder(codec, g, code), max + 1, count) == Some(entries)
    ensures |entries| == count
    ensures forall i | 0 <= i < |entries| ::
              max < entries[i].0 <= Codes.MAX_SEQ && MintCode(codec, g, code, entries[i].0) == Some(entries[i].1)
    ensures forall i, j | 0 <= i < j < |entries| :: entries[i].0 < entries[j].0
    ensures forall i, s: nat | 0 <= i < |entries| && max < s <= entries[i].0 && MintCode(codec, g, code, s).Some? ::
              exists j | 0 <= j < |entries| :: entries[j].0 == s
  {
    hide MintCode, Allocate;
    var encode := Encoder(codec, g, code);
    AllocateIsFirst(encode, max + 1, count);
    forall i, s: nat | 0 <= i < |entries| && max < s <= entries[i].0 && MintCode(codec, g, code, s).Some?
      ensures exists j | 0 <= j < |entries| :: entries[j].0 == s
    {
      assert Accepts(encode, s);
      assert entries[i].0 <= entries[|entries| - 1].0;
    }
  }

  /** Two rows that carry their flocks' codes clash only by being the same number of the same flock. */
  lemma CodedRowsClash(codec: Codec.DuckCodec, flocks: map<Id, FlockRow>, a: DuckRow, b: DuckRow)
    requires Codec.Valid(codec) && UniqueFlocks(flocks)
    requires DuckCoded(codec, flocks, a) && DuckCoded(codec, flocks, b)
    ensures DucksClash(a, b) <==> a.flock == b.flock && a.seqNo == b.seqNo
  {
    hide MintCode;
    if a.code == b.code {
      var (f, g) := (flocks[a.flock], flocks[b.flock]);
      if a.flock != b.flock {
        assert f.code != g.code;
      }
      MintCodesDiffer(codec, f.generation, f.code, a.seqNo, g.generation, g.code, b.seqNo);
    }
  }

  lemma MintedRowsCoded(codec: Codec.DuckCodec, flocks: map<Id, FlockRow>, f: Id, max: nat, count: nat,
                        entries: seq<Entry>)
    requires Codec.Valid(codec) && f in flocks && Codes.IsFlockCode(flocks[f].code)
    requires Allocate(Encoder(codec, flocks[f].generation, flocks[f].code), max + 1, count) == Some(entries)
    ensures forall i | 0 <= i < |entries| ::
              var r := Minted(f, entries)[i];
              && r.flock == f && r.seqNo == entries[i].0 > max && r.setSailAt.None?
              && DuckReads(r) && DuckCoded(codec, flocks, r)
    ensures forall i, j | 0 <= i < j < |entries| :: Minted(f, entries)[i].seqNo < Minted(f, entries)[j].seqNo
  {
    hide MintCode, Allocate, Encoder;
    PlannedEntries(codec, flocks[f].generation, flocks[f].code, max, count, entries);
  }

  /** The rows a mint inserts never clash with committed rows or with each other. */
  lemma {:induction false} PlannedNeverClash(codec: Codec.DuckCodec, db: Db, f: Id, count: nat, entries: seq<Entry>)
    requires Codec.Valid(codec) && Good(codec, db) && f in db.flocks && Codes.IsFlockCode(db.flocks[f].code)
    requires Allocate(Encoder(codec, db.flocks[f].generation, db.flocks[f].code),
                      MaxSeq(db.ducks, f, db.next.duck) + 1, count) == Some(entries)
    ensures !InsertClashes(db.ducks, Minted(f, entries))
  {
    hide MintCode, Allocate, Encoder, Minted, DucksClash, DuckReads, Dense, UsersOk, SightingsOk, CommentsOk, FollowsOk,
      NoticesOk, ForeignKeys, DuckCoded, FlockReads, UniqueDucks, UniqueFlocks;
    var rows := Minted(f, entries);
    var max := MaxSeq(db.ducks, f, db.next.duck);
    MintedRowsCoded(codec, db.flocks, f, max, count, entries);
    forall d, i | d in db.ducks && 0 <= i < |rows| ensures !DucksClash(db.ducks[d], rows[i]) {
      CodedRowsClash(codec, db.flocks, db.ducks[d], rows[i]);
    }
    forall i, j | 0 <= i < j < |rows| ensures !DucksClash(rows[i], rows[j]) {
      CodedRowsClash(codec, db.flocks, rows[i], rows[j]);
    }
  }

  lemma CommitKeepsDense(codec: Codec.DuckCodec, db: Db, f: Id, count: nat, entries: seq<Entry>)
    requires Codec.Valid(codec) && Good(codec, db) && f in db.flocks && Codes.IsFlockCode(db.flocks[f].code)
    requires Allocate(Encoder(codec, db.flocks[f].generation, db.flocks[f].code),
                      MaxSeq(db.ducks, f, db.next.duck) + 1, count) == Some(entries)
    ensures Dense(codec, CommitRows(db, f, entries).ducks, db.flocks)
  {
    hide MintCode, Allocate, Encoder, DuckReads, UsersOk, SightingsOk, CommentsOk, FollowsOk, NoticesOk, ForeignKeys,
      FlocksOk, DucksOk, Codes.IsFlockCode, Minted, Append, Dense, HasSeq, MaxSeq, DuckCoded;
    var max := MaxSeq(db.ducks, f, db.next.duck);
    var rows := Minted(f, entries);
    PlannedEntries(codec, db.flocks[f].generation, db.flocks[f].code, max, count, entries);
    MintedRowsCoded(codec, db.flocks, f, max, count, entries);
    DuckRowsBounded(codec, db);
    forall i, s: nat | 0 <= i < |rows| && s <= rows[i].seqNo
                       && MintCode(codec, db.flocks[f].generation, db.flocks[f].code, s).Some?
      ensures HasSeq(db.ducks, f, s) || exists j | 0 <= j < |rows| :: rows[j].seqNo == s
    {
      if s > max {
        var j :| 0 <= j < |entries| && entries[j].0 == s;
        assert rows[j].seqNo == s;
      } else {
        NumbersBelowMax(codec, db, f, max, s);
      }
    }
    DenseAppend(codec, db.ducks, db.flocks, db.next.duck, f, rows);
  }

  lemma DenseAppend(codec: Codec.DuckCodec, ducks: map<Id, DuckRow>, flocks: map<Id, FlockRow>, base: Id, f: Id,
                    rows: seq<DuckRow>)
    requires Codec.Valid(codec) && Dense(codec, ducks, flocks) && f in flocks && Codes.IsFlockCode(flocks[f].code)
    requires forall d | d in ducks :: d < base
    requires forall i | 0 <= i < |rows| :: rows[i].flock == f
    requires forall i, s: nat | 0 <= i < |rows| && s <= rows[i].seqNo
                                && MintCode(codec, flocks[f].generation, flocks[f].code, s).Some? ::
               HasSeq(ducks, f, s) || exists j | 0 <= j < |rows| :: rows[j].seqNo == s
    ensures Dense(codec, Append(ducks, base, rows), flocks)
  {
    hide MintCode, Codes.IsFlockCode;
    hide Append;
    var after := Append(ducks, base, rows);
    AppendSplits(ducks, base, rows);
    forall g, s | HasSeq(ducks, g, s) ensures HasSeq(after, g, s) {
      var e :| e in ducks && ducks[e].flock == g && ducks[e].seqNo == s;
      assert e in after && after[e].flock == g && after[e].seqNo == s;
    }
    forall j | 0 <= j < |rows| ensures HasSeq(after, f, rows[j].seqNo) {
      assert after[base + j].flock == f && after[base + j].seqNo == rows[j].seqNo;
    }
    hide HasSeq;
  }

  lemma NumbersBelowMax(codec: Codec.DuckCodec, db: Db, f: Id, max: nat, s: nat)
    requires Codec.Valid(codec) && Dense(codec, db.ducks, db.flocks)
    requires f in db.flocks && Codes.IsFlockCode(db.flocks[f].code)
    requires max == MaxSeq(db.ducks, f, db.next.duck) && s <= max
    requires MintCode(codec, db.flocks[f].generation, db.flocks[f].code, s).Some?
    ensures HasSeq(db.ducks, f, s)
  {
    MintCodeShape(codec, db.flocks[f].generation, db.flocks[f].code, s);
    hide MintCode, Codes.IsFlockCode;
    var d :| d in db.ducks && d < db.next.duck && db.ducks[d].flock == f && db.ducks[d].seqNo == max;
  }

  lemma CommitKeepsRows(codec: Codec.DuckCodec, db: Db, f: Id, count: nat, entries: seq<Entry>)
    requires Codec.Valid(codec) && Good(codec, db) && f in db.flocks && Codes.IsFlockCode(db.flocks[f].code)
    requires Allocate(Encoder(codec, db.flocks[f].generation, db.flocks[f].code),
                      MaxSeq(db.ducks, f, db.next.duck) + 1, count) == Some(entries)
    ensures var after := CommitRows(db, f, entries);
            && DucksOk(codec, after.ducks, after.flocks, after.next.duck)
            && ForeignKeys(after)
            && forall x | Live(db.ducks, x) :: Live(after.ducks, x)
  {
    hide MintCode, Allocate, Encoder, Minted, DuckReads, Dense, UsersOk, SightingsOk, CommentsOk, FollowsOk,
      NoticesOk, ForeignKeys, DuckCoded, FlocksOk, DucksOk, MaxSeq, Append, InsertClashes, Live, Codes.IsFlockCode;
    PlannedNeverClash(codec, db, f, count, entries);
    MintedRowsCoded(codec, db.flocks, f, MaxSeq(db.ducks, f, db.next.duck), count, entries);
    DuckRowsBounded(codec, db);
    AppendRowsOk(codec, db, f, entries);
    MoreDucksKeys(db, f, Minted(f, entries));
  }

  lemma DuckRowsBounded(codec: Codec.DuckCodec, db: Db)
    requires Codec.Valid(codec) && Good(codec, db)
    ensures forall d | d in db.ducks :: d < db.next.duck
  {
    hide MintCode, DuckReads, Dense, UsersOk, SightingsOk, CommentsOk, FollowsOk, NoticesOk, ForeignKeys, FlocksOk;
  }

  lemma AppendRowsOk(codec: Codec.DuckCodec, db: Db, f: Id, entries: seq<Entry>)
    requires Codec.Valid(codec) && DucksOk(codec, db.ducks, db.flocks, db.next.duck)
    requires forall i | 0 <= i < |entries| ::
               DuckReads(Minted(f, entries)[i]) && DuckCoded(codec, db.flocks, Minted(f, entries)[i])
    requires !InsertClashes(db.ducks, Minted(f, entries))
    ensures var after := CommitRows(db, f, entries);
            DucksOk(codec, after.ducks, db.flocks, after.next.duck)
  {
    hide MintCode, Minted, DuckReads, DuckCoded, Append, UniqueDucks, InsertClashes;
    AppendSplits(db.ducks, db.next.duck, Minted(f, entries));
    AppendUnique(db.ducks, db.next.duck, Minted(f, entries));
  }

  lemma AppendUnique(ducks: map<Id, DuckRow>, base: Id, rows: seq<DuckRow>)
    requires UniqueDucks(ducks) && !InsertClashes(ducks, rows) && forall d | d in ducks :: d < base
    ensures UniqueDucks(Append(ducks, base, rows))
  {
    hide Append, DucksClash;
    var after := Append(ducks, base, rows);
    AppendSplits(ducks, base, rows);
    forall d, e | d in after && e in after && d < e ensures !DucksClash(after[d], after[e]) {
      if e < base {
        assert d in ducks && e in ducks;
      } else if d < base {
        assert d in ducks && after[e] == rows[e - base];
      } else {
        assert after[d] == rows[d - base] && after[e] == rows[e - base];
      }
    }
    ClashSymmetric(after);
  }

  lemma ClashSymmetric(ducks: map<Id, DuckRow>)
    requires forall d, e | d in ducks && e in ducks && d < e :: !DucksClash(ducks[d], ducks[e])
    ensures UniqueDucks(ducks)
  {
    forall d, e | d in ducks && e in ducks && d != e ensures !DucksClash(ducks[d], ducks[e]) {
      if e < d {
        assert !DucksClash(ducks[e], ducks[d]);
      }
    }
  }

  lemma MoreDucksKeys(db: Db, f: Id, rows: seq<DuckRow>)
    requires ForeignKeys(db) && f in db.flocks
    requires forall i | 0 <= i < |rows| :: rows[i].flock == f
    requires forall d | d in db.ducks :: d < db.next.duck
    ensures var after := db.(ducks := Append(db.ducks, db.next.duck, rows),
                             next := db.next.(duck := db.next.duck + |rows|));
            ForeignKeys(after) && forall x | Live(db.ducks, x) :: Live(after.ducks, x)
  {
    var after := Append(db.ducks, db.next.duck, rows);
    hide FlockKeys, Append;
    AppendSplits(db.ducks, db.next.duck, rows);
    assert forall n | n in db.notifications :: NoticeRefs(db.users, db.ducks, db.sightings, db.notifications[n]);
    assert forall s | s in db.sightings :: SightingRefs(db.ducks, db.vessels, db.users, db.sightings[s]);
  }

  /** Committing a planned mint keeps the database good. */
  lemma {:induction false} CommitKeepsGood(codec: Codec.DuckCodec, db: Db, f: Id, count: nat, entries: seq<Entry>)
    requires Codec.Valid(codec) && Good(codec, db) && f in db.flocks && Codes.IsFlockCode(db.flocks[f].code)
    requires Allocate(Encoder(codec, db.flocks[f].generation, db.flocks[f].code),
                      MaxSeq(db.ducks, f, db.next.duck) + 1, count) == Some(entries)
    ensures Good(codec, CommitRows(db, f, entries))
  {
    hide ForeignKeys, UsersOk, FlocksOk, DucksOk, Dense, SightingsOk, CommentsOk, FollowsOk, NoticesOk, Append, Minted,
      Allocate, Encoder, MaxSeq, Live;
    CommitKeepsRows(codec, db, f, count, entries);
    CommitKeepsDense(codec, db, f, count, entries);
    LiveGrows(db, CommitRows(db, f, entries).ducks);
  }

  // ----- What handlers decide -----------------------------------------------------------------

  /** A resolved duck is the readback of a live row. */
  lemma ResolvedRow(codec: Codec.DuckCodec, db: Db, raw: string)
    requires Codec.Valid(codec) && Good(codec, db) && ResolveAny(codec, db, raw).Found?
    ensures var duck := ResolveAny(codec, db, raw).duck;
            && duck.id in db.ducks && duck.id < db.next.duck
            && ReadDuck(duck.id, db.ducks[duck.id]) == Ok(duck)
            && (duck.lifecycle.Sailing? <==> db.ducks[duck.id].setSailAt.Some?)
            && duck.deletedAt == db.ducks[duck.id].deletedAt
            && duck.code == db.ducks[duck.id].code
  {
    hide Good, Codes.ParseDuck, ResolveAny, ReadDuck;
    Funnel.ScanFunnel(codec, db, raw);
    var d :| d in db.ducks && db.ducks[d].code == Codes.ParseDuck(raw).value;
    Funnel.StoredCodeResolves(codec, db, raw, d);
    Funnel.DuckReadsBack(codec, db, d);
    Funnel.DuckRowFacts(codec, db, d);
    Funnel.SeqFound(codec, db, d);
  }

  lemma ParsedFits(max: nat, raw: string)
    requires Text.Parse(max, raw).Ok?
    ensures TextFits(max, Some(Text.Parse(max, raw).value))
  {
    hide Text.Parse;
    Text.ParseIdempotent(max, raw);
  }

  lemma FieldFits(max: nat, raw: Option<string>)
    requires ReadText(max, Field(raw), "form").Ok?
    ensures TextFits(max, ReadText(max, Field(raw), "form").value)
  {
    hide Text.Parse, Text.Trim;
    if Field(raw).Some? {
      ParsedFits(max, Field(raw).value);
    }
  }

  lemma OriginateWritesOk(db: Db, viewer: Viewer, r: Resolved, request: Request)
    requires r.Found? && request.Originate?
    ensures var d := GuardOriginate(viewer, r, request);
            d.Act? ==> forall i | 0 <= i < |d.writes| :: WriteOk(db, d.writes[i])
  {
    hide Text.Parse, Field, TextFits, ReadText;
    if GuardOriginate(viewer, r, request).Act? {
      ParsedFits(Text.DESCRIPTION_MAX, Field(request.description).value);
      FieldFits(Text.DUCK_NAME_MAX, request.name);
    }
  }

  lemma LogWritesOk(db: Db, viewer: Viewer, r: Resolved, request: Request, now: Time)
    requires r.Found? && request.LogFind? && SailingToken(db, r.duck.id)
    ensures var d := GuardLog(db, viewer, r, request, now);
            d.Act? ==> forall i | 0 <= i < |d.writes| :: WriteOk(db, d.writes[i])
  {
    hide Text.Parse, Field, TextFits, ReadText, InWindow, SailingToken;
    if GuardLog(db, viewer, r, request, now).Act? {
      FieldFits(Text.NOTE_MAX, request.note);
    }
  }

  lemma MemberWritesOk(db: Db, viewer: Viewer, request: Request, r: Resolved, now: Time)
    requires r.Found?
    requires request.LogFind? || request.PostComment? || request.StartFollowing? ==> SailingToken(db, r.duck.id)
    ensures var d := GuardMember(db, viewer, request, r, now);
            d.Act? ==> forall i | 0 <= i < |d.writes| :: WriteOk(db, d.writes[i])
  {
    hide Text.Parse, TextFits, GuardOriginate, GuardLog, CanModerate, SailingToken;
    match request
    case Originate(_, _, _, _) => OriginateWritesOk(db, viewer, r, request);
    case LogFind(_, _, _, _, _, _) => LogWritesOk(db, viewer, r, request, now);
    case PostComment(raw) =>
      if Text.Parse(Text.COMMENT_MAX, raw).Ok? {
        ParsedFits(Text.COMMENT_MAX, raw);
      }
    case _ =>
  }

  /** Whatever a handler is about to write was legitimate when it looked. */
  lemma {:induction false} DecidedWritesOk(codec: Codec.DuckCodec, db: Db, viewer: Option<Viewer>, raw: string,
                                           request: Request, now: Time)
    requires Codec.Valid(codec) && Good(codec, db)
    ensures var d := Decide(codec, db, viewer, raw, request, now);
            d.Act? ==> forall i | 0 <= i < |d.writes| :: WriteOk(db, d.writes[i])
  {
    hide Good, ResolveAny, ReadDuck, GuardMember, GuardOpen, WriteOk;
    var r := ResolveFor(codec, db, raw, request);
    if r.Found? && !IsOpen(request) && viewer.Some? {
      ResolvedRow(codec, db, raw);
      MemberWritesOk(db, viewer.value, request, r, now);
    }
  }

  // ----- One write -------------------------------------------------------------------------------

  lemma {:induction false} PerformKeepsGood(codec: Codec.DuckCodec, db: Db, w: Write, now: Time)
    requires Codec.Valid(codec) && Good(codec, db) && WriteOk(db, w) && Perform(db, w, now).Ok?
    ensures Good(codec, Perform(db, w, now).value)
  {
    hide Good, TextFits, SightingChecks, SightingRefs, Notified, Notices, Append, Live;
    match w
    case WStage(d, description, name, photo) => StageKeepsGood(codec, db, d, description, name, photo, now);
    case WSail(d) => SetSailKeepsGood(codec, db, d, now);
    case WLog(row) =>
      assert SightingRefs(db.ducks, db.vessels, db.users, row);
      RefersToDuck(db, row);
      LogKeepsGood(codec, db, row);
    case WComment(d, u, body) => CommentsKeepGood(codec, db, d, u, body, 0);
    case WDeleted(d, on) => MarksKeepGood(codec, db, d, on, now);
    case WLocked(d, on) => MarksKeepGood(codec, db, d, on, now);
    case WDropComment(c, d) => DropCommentKeepsGood(codec, db, c, d);
    case WDropSighting(s, d) => DeleteSightingKeepsGood(codec, db, s, d);
    case WFollow(u, d) => FollowKeepsGood(codec, db, u, d);
    case WUnfollow(u, d) => FollowsKeepGood(codec, db, u, d);
  }

  lemma RefersToDuck(db: Db, r: SightingRow)
    requires SightingRefs(db.ducks, db.vessels, db.users, r)
    ensures r.duck in db.ducks
  {
  }

  lemma DropCommentKeepsGood(codec: Codec.DuckCodec, db: Db, c: Id, d: Id)
    requires Codec.Valid(codec) && Good(codec, db)
    ensures Good(codec, DeleteComment(db, c, d))
  {
    hide DucksOk, Dense, FlocksOk, UsersOk, SightingsOk, FollowsOk, NoticesOk, FlockKeys, DuckKeys, SightingKeys,
      FollowKeys, NoticeKeys, TextFits, Live;
  }

  lemma FollowKeepsGood(codec: Codec.DuckCodec, db: Db, u: Id, d: Id)
    requires Codec.Valid(codec) && Good(codec, db) && SailingToken(db, d) && Follow(db, u, d).Ok?
    ensures Good(codec, Follow(db, u, d).value)
  {
    hide Good;
    if (u, d) !in db.follows {
      FollowsKeepGood(codec, db, u, d);
    }
  }

  // ----- Tasks in flight ----------------------------------------------------------------------------

  /** What a step must leave alone: the numbers of the surviving flocks whose lock somebody holds. */
  predicate LockedNumbersFixed(a: Db, b: Db, tasks: map<Id, Task>) {
    forall t | t in tasks && tasks[t].Mint? && !tasks[t].phase.Waiting? && tasks[t].flock in b.flocks ::
      SameNumbers(a.ducks, b.ducks, tasks[t].flock)
  }

  predicate SameNumbers(a: map<Id, DuckRow>, b: map<Id, DuckRow>, f: Id) {
    NumbersKept(a, b, f) && NumbersKept(b, a, f)
  }

  lemma WriteOkKept(a: Db, b: Db, w: Write)
    requires WriteOk(a, w) && Evolves(a, b)
    ensures WriteOk(b, w)
  {
    hide TextFits, SightingChecks;
  }

  lemma MintOkKept(codec: Codec.DuckCodec, a: Db, b: Db, m: Task)
    requires Codec.Valid(codec) && m.Mint? && MintOk(codec, a, m) && Evolves(a, b)
    requires (forall d | d in a.ducks :: d < a.next.duck) && (forall d | d in b.ducks :: d < b.next.duck)
    requires m.phase.Waiting? || m.flock !in b.flocks || SameNumbers(a.ducks, b.ducks, m.flock)
    requires m.phase.Inserted? ==> m.flock in b.flocks
    ensures MintOk(codec, b, m)
  {
    hide Allocate, Encoder, MaxSeq, Codes.IsFlockCode, RowEvolves, NumbersKept;
    if m.flock in b.flocks && !m.phase.Waiting? {
      MaxSeqSame(a.ducks, a.next.duck, b.ducks, b.next.duck, m.flock);
    }
  }

  /** Tasks stay in order across a step that leaves locked numbers alone and spares flocks with
      uncommitted ducks. */
  lemma TasksOkKept(codec: Codec.DuckCodec, a: Db, b: Db, tasks: map<Id, Task>)
    requires Codec.Valid(codec) && Good(codec, a) && Good(codec, b) && TasksOk(codec, a, tasks)
    requires Evolves(a, b) && LockedNumbersFixed(a, b, tasks)
    requires forall t | t in tasks && HasInserted(tasks[t]) :: tasks[t].flock in b.flocks
    ensures TasksOk(codec, b, tasks)
  {
    hide Good, Evolves, MintOk, WriteOk, SameNumbers;
    DuckRowsBounded(codec, a);
    DuckRowsBounded(codec, b);
    forall t | t in tasks ensures TaskOk(codec, b, tasks[t]) {
      assert TaskOk(codec, a, tasks[t]);
      match tasks[t]
      case Acting(writes) =>
        forall i | 0 <= i < |writes| ensures WriteOk(b, writes[i]) {
          WriteOkKept(a, b, writes[i]);
        }
      case Mint(_, _, _, _, _) =>
        MintOkKept(codec, a, b, tasks[t]);
    }
  }

  // ----- Steps that only touch the database ------------------------------------------------------------

  /** Every duck keeps its flock and number, and no flock is lost. */
  ghost predicate Gentle(a: Db, b: Db) {
    && (forall f | f in a.flocks :: f in b.flocks)
    && (forall d :: d in a.ducks <==> d in b.ducks)
    && (forall d | d in a.ducks :: b.ducks[d].flock == a.ducks[d].flock && b.ducks[d].seqNo == a.ducks[d].seqNo)
  }

  lemma GentleKeepsNumbers(a: Db, b: Db, tasks: map<Id, Task>)
    requires Gentle(a, b)
    ensures LockedNumbersFixed(a, b, tasks)
  {
  }

  lemma InsertedFlocksExist(codec: Codec.DuckCodec, db: Db, tasks: map<Id, Task>)
    requires Codec.Valid(codec) && TasksOk(codec, db, tasks)
    ensures forall t | t in tasks && HasInserted(tasks[t]) :: tasks[t].flock in db.flocks
  {
    hide Allocate, Encoder, MaxSeq, WriteOk;
    forall t | t in tasks && HasInserted(tasks[t]) ensures tasks[t].flock in db.flocks {
      assert TaskOk(codec, db, tasks[t]);
    }
  }

  lemma GentleStep(codec: Codec.DuckCodec, a: Db, b: Db, tasks: map<Id, Task>)
    requires Codec.Valid(codec) && Inv(codec, System(a, tasks))
    requires Good(codec, b) && Evolves(a, b) && Gentle(a, b)
    ensures Inv(codec, System(b, tasks))
  {
    hide Good, TasksOk, Exclusive, Evolves, LockedNumbersFixed;
    GentleKeepsNumbers(a, b, tasks);
    InsertedFlocksExist(codec, a, tasks);
    TasksOkKept(codec, a, b, tasks);
  }

  /** Some flocks go, with exactly their ducks. */
  ghost predicate DropsFlocks(a: Db, b: Db) {
    && (forall f | f in b.flocks :: f in a.flocks)
    && (forall d :: d in b.ducks <==> d in a.ducks && a.ducks[d].flock in b.flocks)
    && (forall d | d in b.ducks :: b.ducks[d] == a.ducks[d])
  }

  lemma DropStep(codec: Codec.DuckCodec, a: Db, b: Db, tasks: map<Id, Task>)
    requires Codec.Valid(codec) && Inv(codec, System(a, tasks))
    requires Good(codec, b) && Evolves(a, b) && DropsFlocks(a, b)
    requires forall t | t in tasks && HasInserted(tasks[t]) :: tasks[t].flock in b.flocks
    ensures Inv(codec, System(b, tasks))
  {
    hide Good, TasksOk, Exclusive, Evolves;
    TasksOkKept(codec, a, b, tasks);
  }
}
