/** How tables may change over time: identities are never reused, flocks never change, and a duck's
    row only moves forward through its lifecycle. */
module Evolution {
  import opened Wrappers
  import opened Schema
  import opened Store
  import opened Cascade
  import opened Handlers
  import Profanity

  /** Code, flock and number are fixed; details and sailing time are fixed once set. */
  predicate RowEvolves(a: DuckRow, b: DuckRow) {
    && b.code == a.code && b.flock == a.flock && b.seqNo == a.seqNo
    && (a.originatedAt.Some? ==>
          && b.originatedAt == a.originatedAt && b.description == a.description && b.name == a.name
          && b.photoKey == a.photoKey && b.photoType == a.photoType)
    && (a.setSailAt.Some? ==> b.setSailAt == a.setSailAt)
  }

  predicate DucksEvolve(a: map<Id, DuckRow>, next: Id, b: map<Id, DuckRow>) {
    forall d | d in b && d < next :: d in a && RowEvolves(a[d], b[d])
  }

  predicate FlocksEvolve(a: map<Id, FlockRow>, next: Id, b: map<Id, FlockRow>) {
    forall f | f in b && f < next :: f in a && b[f] == a[f]
  }

  predicate Evolves(a: Db, b: Db) {
    && a.next.duck <= b.next.duck && DucksEvolve(a.ducks, a.next.duck, b.ducks)
    && a.next.flock <= b.next.flock && FlocksEvolve(a.flocks, a.next.flock, b.flocks)
  }

  lemma EvolvesTransitive(a: Db, b: Db, c: Db)
    requires Evolves(a, b) && Evolves(b, c)
    ensures Evolves(a, c)
  {
  }

  lemma EvolvesReflexive(a: Db)
    ensures Evolves(a, a)
  {
  }

  // ----- Each operation ---------------------------------------------------------------

  lemma BurntFlockEvolves(db: Db)
    ensures Evolves(db, db.(next := db.next.(flock := db.next.flock + 1)))
  {
  }

  lemma AddFlockEvolves(db: Db, r: FlockRow)
    ensures Evolves(db, db.(flocks := db.flocks[db.next.flock := r], next := db.next.(flock := db.next.flock + 1)))
  {
  }

  lemma {:induction false} CreateFlockEvolves(db: Db, owner: Id, generation: nat, flockLabel: Option<string>,
                                              draws: seq<string>)
    ensures Evolves(db, CreateFlock(db, owner, generation, flockLabel, draws).1)
    decreases |draws|
  {
    hide Evolves, Profanity.Matches;
    EvolvesReflexive(db);
    if draws != [] {
      var burnt := db.(next := db.next.(flock := db.next.flock + 1));
      CreateFlockEvolves(db, owner, generation, flockLabel, draws[1..]);
      CreateFlockEvolves(burnt, owner, generation, flockLabel, draws[1..]);
      BurntFlockEvolves(db);
      AddFlockEvolves(db, FlockRow(draws[0], generation, owner, flockLabel));
      EvolvesTransitive(db, burnt, CreateFlock(burnt, owner, generation, flockLabel, draws[1..]).1);
    }
  }

  lemma SameDucksEvolve(a: Db, b: Db)
    requires a.ducks == b.ducks && a.flocks == b.flocks && a.next.duck == b.next.duck && a.next.flock == b.next.flock
    ensures Evolves(a, b)
  {
  }

  lemma RowUpdateEvolves(db: Db, d: Id, r: DuckRow)
    requires d in db.ducks && RowEvolves(db.ducks[d], r)
    ensures Evolves(db, db.(ducks := db.ducks[d := r]))
  {
  }

  lemma DuckWriteEvolves(db: Db, d: Id, description: string, name: Option<string>, photo: PhotoRef, on: bool, now: Time)
    ensures Evolves(db, Store.Stage(db, d, description, name, photo, now))
    ensures Evolves(db, SetSail(db, d, now))
    ensures Evolves(db, SetDeleted(db, d, on, now))
    ensures Evolves(db, SetCommentsLocked(db, d, on, now))
  {
    hide Evolves;
    EvolvesReflexive(db);
    if d in db.ducks {
      var r := db.ducks[d];
      if r.originatedAt.None? {
        RowUpdateEvolves(db, d, r.(originatedAt := Some(now), description := Some(description), name := name,
                                   photoKey := Some(photo.key), photoType := Some(photo.contentType)));
      }
      if r.setSailAt.None? {
        RowUpdateEvolves(db, d, r.(setSailAt := Some(now)));
      }
      RowUpdateEvolves(db, d, r.(deletedAt := Mark(r.deletedAt, on, now)));
      RowUpdateEvolves(db, d, r.(commentsLockedAt := Mark(r.commentsLockedAt, on, now)));
    }
  }

  lemma {:induction false} PerformEvolves(db: Db, w: Write, now: Time)
    ensures Perform(db, w, now).Ok? ==> Evolves(db, Perform(db, w, now).value)
  {
    hide Append, Notified, Notices, Evolves;
    match w
    case WStage(d, description, name, photo) => DuckWriteEvolves(db, d, description, name, photo, true, now);
    case WSail(d) => DuckWriteEvolves(db, d, "", None, PhotoRef("", ""), true, now);
    case WDeleted(d, on) => DuckWriteEvolves(db, d, "", None, PhotoRef("", ""), on, now);
    case WLocked(d, on) => DuckWriteEvolves(db, d, "", None, PhotoRef("", ""), on, now);
    case _ =>
      if Perform(db, w, now).Ok? {
        SameDucksEvolve(db, Perform(db, w, now).value);
      }
  }

  lemma WithoutUserEvolves(db: Db, u: Id)
    ensures Evolves(db, WithoutUser(db, u))
  {
  }

  lemma WithoutFlockEvolves(db: Db, f: Id)
    ensures Evolves(db, WithoutFlock(db, f))
  {
  }

  lemma AppendEvolves(db: Db, rows: seq<DuckRow>)
    ensures Evolves(db, db.(ducks := Append(db.ducks, db.next.duck, rows),
                            next := db.next.(duck := db.next.duck + |rows|)))
  {
  }

  // ----- The rows of one flock -----------------------------------------------------------

  /** Every row of flock `f` in `a` is in `b` with the same number. */
  predicate NumbersKept(a: map<Id, DuckRow>, b: map<Id, DuckRow>, f: Id) {
    forall d | d in a && a[d].flock == f :: d in b && b[d].flock == f && b[d].seqNo == a[d].seqNo
  }

  lemma MaxSeqSame(a: map<Id, DuckRow>, n: nat, b: map<Id, DuckRow>, m: nat, f: Id)
    requires (forall d | d in a :: d < n) && (forall d | d in b :: d < m)
    requires NumbersKept(a, b, f) && NumbersKept(b, a, f)
    ensures MaxSeq(a, f, n) == MaxSeq(b, f, m)
  {
  }
}
