/** The scan funnel agrees with looking the printed string up directly. */
module Funnel {
  import opened Wrappers
  import opened Schema
  import opened Store
  import opened Minting
  import opened Invariants
  import opened Handlers
  import Codes
  import Codec
  import Text

  /** `SELECT ... WHERE code = $1`, scanning identities below `n`. */
  function FindByCode(ducks: map<Id, DuckRow>, code: string, n: nat): (r: Option<Id>)
    ensures r.Some? ==> r.value in ducks && ducks[r.value].code == code
    ensures r.None? ==> forall d | d in ducks && d < n :: ducks[d].code != code
  {
    if n == 0 then None
    else if n - 1 in ducks && ducks[n - 1].code == code then Some(n - 1)
    else FindByCode(ducks, code, n - 1)
  }

  /** The obvious lookup: find the row whose stored code is the scanned string. */
  function NaiveLookup(db: Db, raw: string): Resolved {
    match Codes.ParseDuck(raw)
    case Err(_) => Missing
    case Ok(code) =>
      match FindByCode(db.ducks, code, db.next.duck)
      case None => Missing
      case Some(d) =>
        match ReadDuck(d, db.ducks[d])
        case Err(_) => Broken
        case Ok(duck) =>
          if duck.flock !in db.flocks then Broken
          else
            match ReadFlock(db.flocks[duck.flock])
            case Err(_) => Broken
            case Ok(flock) => Found(duck, flock)
  }

  lemma FlockReadsBack(codec: Codec.DuckCodec, r: FlockRow)
    requires FlockReads(codec, r)
    ensures ReadFlock(r).Ok? && ReadFlock(r).value.code == r.code && ReadFlock(r).value.generation == r.generation
    ensures ReadFlock(r).value.owner == r.owner
  {
    Codes.CanonicalizePrinted(r.code);
  }

  lemma DuckRowFacts(codec: Codec.DuckCodec, db: Db, d: Id)
    requires Codec.Valid(codec) && Good(codec, db) && d in db.ducks
    ensures d < db.next.duck && DuckReads(db.ducks[d]) && DuckCoded(codec, db.flocks, db.ducks[d])
    ensures db.ducks[d].flock in db.flocks && FlockReads(codec, db.flocks[db.ducks[d].flock])
    ensures db.ducks[d].flock < db.next.flock
  {
    hide DuckReads, MintCode, Dense, UsersOk, SightingsOk, CommentsOk, FollowsOk, NoticesOk, FlockReads, ForeignKeys;
  }

  /** Every stored code is a valid code under its flock's prefix that decrypts to its number. */
  lemma {:induction false} StoredCode(codec: Codec.DuckCodec, db: Db, d: Id)
    requires Codec.Valid(codec) && Good(codec, db) && d in db.ducks
    ensures var r := db.ducks[d];
            && r.flock in db.flocks && Codes.IsSeq(r.seqNo)
            && Codes.IsDuckCode(r.code) && Codes.FlockOf(r.code) == db.flocks[r.flock].code
            && Codec.Decode(codec, db.flocks[r.flock].generation, r.code) == Ok(r.seqNo)
  {
    DuckRowFacts(codec, db, d);
    var r := db.ducks[d];
    MintCodeShape(codec, db.flocks[r.flock].generation, db.flocks[r.flock].code, r.seqNo);
  }

  /** No reachable duck row reads back as corrupt. */
  lemma {:induction false} DuckReadsBack(codec: Codec.DuckCodec, db: Db, d: Id)
    requires Codec.Valid(codec) && Good(codec, db) && d in db.ducks
    ensures var duck := ReadDuck(d, db.ducks[d]);
            && duck.Ok? && duck.value.id == d && duck.value.code == db.ducks[d].code
            && duck.value.flock == db.ducks[d].flock && duck.value.seqNo == db.ducks[d].seqNo
            && (duck.value.lifecycle.Sailing? <==> db.ducks[d].setSailAt.Some?)
            && (duck.value.lifecycle.Allocated? <==> db.ducks[d].originatedAt.None?)
            && duck.value.deletedAt == db.ducks[d].deletedAt
            && duck.value.commentsLockedAt == db.ducks[d].commentsLockedAt
  {
    hide Good, MintCode, Codes.IsDuckCode, Codec.Decode, Codes.ParseDuck, Codes.FlockOf, Text.Parse;
    StoredCode(codec, db, d);
    DuckRowFacts(codec, db, d);
    Codes.PrintedFormsParse(db.ducks[d].code);
    ReadDuckSucceedsIff(d, db.ducks[d]);
  }

  lemma FlockFound(codec: Codec.DuckCodec, db: Db, f: Id)
    requires Codec.Valid(codec) && Good(codec, db) && f in db.flocks
    ensures FindFlock(db.flocks, db.flocks[f].code, db.next.flock) == Some(f)
    ensures FlockReads(codec, db.flocks[f])
  {
    hide FlockReads, DucksOk, Dense, UsersOk, SightingsOk, CommentsOk, FollowsOk, NoticesOk, ForeignKeys;
  }

  lemma SeqFound(codec: Codec.DuckCodec, db: Db, d: Id)
    requires Codec.Valid(codec) && Good(codec, db) && d in db.ducks
    ensures FindDuck(db.ducks, db.ducks[d].flock, db.ducks[d].seqNo, db.next.duck) == Some(d)
    ensures FindByCode(db.ducks, db.ducks[d].code, db.next.duck) == Some(d)
  {
    hide FlocksOk, DuckReads, MintCode, Dense, UsersOk, SightingsOk, CommentsOk, FollowsOk, NoticesOk, ForeignKeys;
  }

  /** A stored code resolves to its own row. */
  lemma {:induction false} StoredCodeResolves(codec: Codec.DuckCodec, db: Db, raw: string, d: Id)
    requires Codec.Valid(codec) && Good(codec, db) && d in db.ducks && Codes.ParseDuck(raw) == Ok(db.ducks[d].code)
    ensures ResolveAny(codec, db, raw) == NaiveLookup(db, raw)
    ensures ResolveAny(codec, db, raw).Found? && ResolveAny(codec, db, raw).duck.id == d
  {
    hide Good, MintCode, Codes.IsDuckCode, Codec.Decode, Codes.ParseDuck, Codes.FlockOf, ReadDuck, ReadFlock,
      FindFlock, FindDuck, FindByCode, FlockReads, DuckReads;
    StoredCode(codec, db, d);
    DuckRowFacts(codec, db, d);
    FlockFound(codec, db, db.ducks[d].flock);
    FlockReadsBack(codec, db.flocks[db.ducks[d].flock]);
    SeqFound(codec, db, d);
    DuckReadsBack(codec, db, d);
  }

  /** A row reached by prefix and decrypted number stores the scanned code: the mismatch branch is dead. */
  lemma {:induction false} ReachedRowMatches(codec: Codec.DuckCodec, db: Db, code: string, f: Id, e: Id, s: nat)
    requires Codec.Valid(codec) && Good(codec, db) && Codes.IsDuckCode(code)
    requires f in db.flocks && db.flocks[f].code == Codes.FlockOf(code)
    requires Codec.Decode(codec, db.flocks[f].generation, code) == Ok(s)
    requires e in db.ducks && db.ducks[e].flock == f && db.ducks[e].seqNo == s
    ensures db.ducks[e].code == code
  {
    hide Good, Codes.IsDuckCode, Codec.Decode, Codec.Encode, Codes.FlockOf, DuckReads, FlockReads;
    DuckRowFacts(codec, db, e);
    MintCodeShape(codec, db.flocks[f].generation, db.flocks[f].code, s);
    Codec.EncodeDecode(codec, db.flocks[f].generation, code);
  }

  /** In a good database the funnel is the naive lookup; it never meets a mismatch or a corrupt row. */
  lemma {:induction false} ScanFunnel(codec: Codec.DuckCodec, db: Db, raw: string)
    requires Codec.Valid(codec) && Good(codec, db)
    ensures ResolveAny(codec, db, raw) == NaiveLookup(db, raw)
    ensures ResolveAny(codec, db, raw).Found? || ResolveAny(codec, db, raw).Missing?
    ensures ResolveAny(codec, db, raw).Found? <==>
              Codes.ParseDuck(raw).Ok? && exists d | d in db.ducks :: db.ducks[d].code == Codes.ParseDuck(raw).value
  {
    hide Good, Codes.ParseDuck;
    if Codes.ParseDuck(raw).Ok? {
      var code := Codes.ParseDuck(raw).value;
      if d :| d in db.ducks && db.ducks[d].code == code {
        StoredCodeResolves(codec, db, raw, d);
      } else {
        UnknownCodeMisses(codec, db, raw, code);
      }
    }
  }

  lemma UnknownCodeMisses(codec: Codec.DuckCodec, db: Db, raw: string, code: string)
    requires Codec.Valid(codec) && Good(codec, db) && Codes.ParseDuck(raw) == Ok(code)
    requires forall d | d in db.ducks :: db.ducks[d].code != code
    ensures ResolveAny(codec, db, raw).Missing? && NaiveLookup(db, raw).Missing?
  {
    hide Good, Codes.IsDuckCode, Codec.Decode, Codes.ParseDuck, Codes.FlockOf, ReadDuck, ReadFlock, FlockReads,
      Codes.Spells;
    Codes.ParseAcceptsSpellings(raw, code);
    var found := FindFlock(db.flocks, Codes.FlockOf(code), db.next.flock);
    if found.Some? {
      var f := found.value;
      FlockFound(codec, db, f);
      FlockReadsBack(codec, db.flocks[f]);
      var seqNo := Codec.Decode(codec, db.flocks[f].generation, code);
      if seqNo.Ok? {
        var e := FindDuck(db.ducks, f, seqNo.value, db.next.duck);
        if e.Some? {
          ReachedRowMatches(codec, db, code, f, e.value, seqNo.value);
        }
      }
    }
  }

  /** No reachable sighting row reads back as corrupt. */
  lemma {:induction false} SightingReadsBack(codec: Codec.DuckCodec, db: Db, s: Id)
    requires Codec.Valid(codec) && Good(codec, db) && s in db.sightings
    ensures ReadSighting(s, db.sightings[s]).Ok?
  {
    hide SightingChecks, TextFits, DucksOk, Dense, UsersOk, FlocksOk, CommentsOk, FollowsOk, NoticesOk, ForeignKeys;
    ReadSightingSucceedsIff(s, db.sightings[s]);
  }

  /** Nor does a duck page fail on stored coordinates. */
  lemma {:induction false} HistoryReadable(codec: Codec.DuckCodec, db: Db, d: Id)
    requires Codec.Valid(codec) && Good(codec, db)
    ensures HistoryReads(db, d)
  {
    hide TextFits, Live, DucksOk, Dense, UsersOk, FlocksOk, CommentsOk, FollowsOk, NoticesOk, ForeignKeys;
    assert forall s | s in db.sightings :: SightingChecks(db.sightings[s]);
  }
}
