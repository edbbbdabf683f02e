/** Conservation of photo keys: what a hard deletion returns for clean-up is exactly what it
    removes from the tables, each key as often as it was stored. */
module PhotoKeys {
  import opened Wrappers
  import opened Schema
  import opened Cascade

  function SightingBag(sightings: map<Id, SightingRow>, n: nat): multiset<string> {
    if n == 0 then multiset{}
    else
      SightingBag(sightings, n - 1) + SightingOne(sightings, n - 1)
  }

  function DuckBag(ducks: map<Id, DuckRow>, n: nat): multiset<string> {
    if n == 0 then multiset{}
    else DuckBag(ducks, n - 1) + DuckOne(ducks, n - 1)
  }

  /** All photo keys the database refers to, with multiplicity. */
  function PhotoBag(db: Db): multiset<string> {
    SightingBag(db.sightings, db.next.sighting) + DuckBag(db.ducks, db.next.duck)
  }

  /** A join on a primary key finds the row once, or not at all. */
  lemma {:induction false} JoinOnKey<R>(table: map<Id, R>, key: Id, n: nat)
    ensures JoinOn(table, key, n) == if key in table && key < n then [key] else []
  {
    if n > 0 {
      JoinOnKey(table, key, n - 1);
    }
  }

  lemma BagsAdd(all: multiset<string>, kept: multiset<string>, gone: seq<string>, all': multiset<string>,
                kept': multiset<string>, gone': seq<string>)
    requires all == kept + multiset(gone) && all' == kept' + multiset(gone')
    ensures all + all' == (kept + kept') + multiset(gone + gone')
  {
  }

  function SightingOne(sightings: map<Id, SightingRow>, s: Id): multiset<string> {
    if s in sightings then multiset(KeyOf(sightings[s].photoKey)) else multiset{}
  }

  function DuckOne(ducks: map<Id, DuckRow>, d: Id): multiset<string> {
    if d in ducks then multiset(KeyOf(ducks[d].photoKey)) else multiset{}
  }

  lemma SightingBagStep(m: map<Id, SightingRow>, n: nat)
    ensures SightingBag(m, n) == if n == 0 then multiset{} else SightingBag(m, n - 1) + SightingOne(m, n - 1)
  {
  }

  lemma DuckBagStep(m: map<Id, DuckRow>, n: nat)
    ensures DuckBag(m, n) == if n == 0 then multiset{} else DuckBag(m, n - 1) + DuckOne(m, n - 1)
  {
  }

  lemma SightingRowKeys(db: Db, u: Id, r: SightingRow)
    requires ForeignKeys(db) && IdsBounded(db) && r.duck in db.ducks
    ensures UserSightingRows(db, u, r, LeftJoinOn(db.ducks, Some(r.duck), db.next.duck))
            == if r.user == u || OwnsDuck(db.ducks, db.flocks, u, r.duck) then KeyOf(r.photoKey) else []
  {
    var f := db.ducks[r.duck].flock;
    JoinOnKey(db.ducks, r.duck, db.next.duck);
    JoinOnKey(db.flocks, f, db.next.flock);
    assert f in db.flocks;
    assert LeftJoinOn(db.ducks, Some(r.duck), db.next.duck) == [Some(r.duck)];
    assert LeftJoinOn(db.flocks, Some(f), db.next.flock) == [Some(f)];
    assert UserFlockRows(db, u, r, [Some(f)][1..]) == [];
    assert UserSightingRows(db, u, r, [Some(r.duck)][1..]) == [];
  }

  lemma UserSightingsConservedOne(db: Db, u: Id, i: Id)
    requires ForeignKeys(db) && IdsBounded(db)
    ensures SightingOne(db.sightings, i)
            == SightingOne(SightingsWithout(db, u), i) + multiset(UserSightingKey(db, u, i))
  {
    hide OwnsDuck, ForeignKeys, IdsBounded, UserSightingRows;
    if i in db.sightings {
      DuckOfSighting(db, i);
      SightingRowKeys(db, u, db.sightings[i]);
    }
  }

  lemma {:induction false} UserSightingsConserved(db: Db, u: Id, n: nat)
    requires ForeignKeys(db) && IdsBounded(db)
    ensures SightingBag(db.sightings, n)
            == SightingBag(SightingsWithout(db, u), n) + multiset(UserSightingKeys(db, u, n))
  {
    hide *;
    UserSightingKeyStep(db, u, n);
    SightingBagStep(db.sightings, n);
    SightingBagStep(SightingsWithout(db, u), n);
    if n > 0 {
      UserSightingsConserved(db, u, n - 1);
      UserSightingsConservedOne(db, u, n - 1);
      BagsAdd(SightingBag(db.sightings, n - 1), SightingBag(SightingsWithout(db, u), n - 1),
              UserSightingKeys(db, u, n - 1),
              SightingOne(db.sightings, n - 1), SightingOne(SightingsWithout(db, u), n - 1),
              UserSightingKey(db, u, n - 1));
    }
  }

  lemma UserSightingKeyStep(db: Db, u: Id, n: nat)
    ensures UserSightingKeys(db, u, n)
            == if n == 0 then [] else UserSightingKeys(db, u, n - 1) + UserSightingKey(db, u, n - 1)
  {
  }

  lemma DuckOfSighting(db: Db, s: Id)
    requires ForeignKeys(db) && s in db.sightings
    ensures db.sightings[s].duck in db.ducks
  {
    assert SightingRefs(db.ducks, db.vessels, db.users, db.sightings[s]);
  }

  lemma DuckRowKeys(db: Db, u: Id, d: Id)
    requires ForeignKeys(db) && IdsBounded(db) && d in db.ducks
    ensures UserDuckRows(db, u, db.ducks[d], JoinOn(db.flocks, db.ducks[d].flock, db.next.flock))
            == if OwnsDuck(db.ducks, db.flocks, u, d) then KeyOf(db.ducks[d].photoKey) else []
  {
    var f := db.ducks[d].flock;
    JoinOnKey(db.flocks, f, db.next.flock);
    assert f in db.flocks;
    assert UserDuckRows(db, u, db.ducks[d], [f][1..]) == [];
  }

  lemma UserDucksConservedOne(db: Db, u: Id, i: Id)
    requires ForeignKeys(db) && IdsBounded(db)
    ensures DuckOne(db.ducks, i) == DuckOne(DucksWithout(db, u), i) + multiset(UserDuckKey(db, u, i))
  {
    hide OwnsDuck, ForeignKeys, IdsBounded, UserDuckRows;
    if i in db.ducks {
      DuckRowKeys(db, u, i);
    }
  }

  lemma {:induction false} UserDucksConserved(db: Db, u: Id, n: nat)
    requires ForeignKeys(db) && IdsBounded(db)
    ensures DuckBag(db.ducks, n) == DuckBag(DucksWithout(db, u), n) + multiset(UserDuckKeys(db, u, n))
  {
    hide *;
    UserDuckKeyStep(db, u, n);
    DuckBagStep(db.ducks, n);
    DuckBagStep(DucksWithout(db, u), n);
    if n > 0 {
      UserDucksConserved(db, u, n - 1);
      UserDucksConservedOne(db, u, n - 1);
      BagsAdd(DuckBag(db.ducks, n - 1), DuckBag(DucksWithout(db, u), n - 1), UserDuckKeys(db, u, n - 1),
              DuckOne(db.ducks, n - 1), DuckOne(DucksWithout(db, u), n - 1), UserDuckKey(db, u, n - 1));
    }
  }

  lemma UserDuckKeyStep(db: Db, u: Id, n: nat)
    ensures UserDuckKeys(db, u, n)
            == if n == 0 then [] else UserDuckKeys(db, u, n - 1) + UserDuckKey(db, u, n - 1)
  {
  }

  /** Deleting a user: keys before = keys after + keys returned. */
  lemma UserPhotosConserved(db: Db, u: Id)
    requires ForeignKeys(db) && IdsBounded(db) && NoticesAgree(db)
    ensures var (result, after) := DeleteUser(db, u);
            && (result.Ok? && result.value.Some? ==> PhotoBag(db) == PhotoBag(after) + multiset(result.value.value))
            && (!(result.Ok? && result.value.Some?) ==> after == db)
  {
    hide ForeignKeys, IdsBounded, NoticesAgree, UserSightingKeys, UserDuckKeys;
    DeleteUserIsFilter(db, u);
    UserSightingsConserved(db, u, db.next.sighting);
    UserDucksConserved(db, u, db.next.duck);
    BagsAdd(SightingBag(db.sightings, db.next.sighting), SightingBag(SightingsWithout(db, u), db.next.sighting),
            UserSightingKeys(db, u, db.next.sighting),
            DuckBag(db.ducks, db.next.duck), DuckBag(DucksWithout(db, u), db.next.duck),
            UserDuckKeys(db, u, db.next.duck));
  }

  lemma FlockSightingRowKeys(db: Db, f: Id, r: SightingRow)
    requires IdsBounded(db) && r.duck in db.ducks
    ensures FlockSightingRows(db, f, r, JoinOn(db.ducks, r.duck, db.next.duck))
            == if InFlock(db.ducks, f, r.duck) then KeyOf(r.photoKey) else []
  {
    JoinOnKey(db.ducks, r.duck, db.next.duck);
    assert FlockSightingRows(db, f, r, [r.duck][1..]) == [];
  }

  lemma FlockSightingsConservedOne(db: Db, f: Id, i: Id)
    requires ForeignKeys(db) && IdsBounded(db)
    ensures SightingOne(db.sightings, i)
            == SightingOne(SightingsOutside(db, f), i) + multiset(FlockSightingKey(db, f, i))
  {
    hide InFlock, ForeignKeys, IdsBounded, FlockSightingRows;
    if i in db.sightings {
      DuckOfSighting(db, i);
      FlockSightingRowKeys(db, f, db.sightings[i]);
    }
  }

  lemma {:induction false} FlockSightingsConserved(db: Db, f: Id, n: nat)
    requires ForeignKeys(db) && IdsBounded(db)
    ensures SightingBag(db.sightings, n)
            == SightingBag(SightingsOutside(db, f), n) + multiset(FlockSightingKeys(db, f, n))
  {
    hide *;
    FlockSightingKeyStep(db, f, n);
    SightingBagStep(db.sightings, n);
    SightingBagStep(SightingsOutside(db, f), n);
    if n > 0 {
      FlockSightingsConserved(db, f, n - 1);
      FlockSightingsConservedOne(db, f, n - 1);
      BagsAdd(SightingBag(db.sightings, n - 1), SightingBag(SightingsOutside(db, f), n - 1),
              FlockSightingKeys(db, f, n - 1),
              SightingOne(db.sightings, n - 1), SightingOne(SightingsOutside(db, f), n - 1),
              FlockSightingKey(db, f, n - 1));
    }
  }

  lemma FlockSightingKeyStep(db: Db, f: Id, n: nat)
    ensures FlockSightingKeys(db, f, n)
            == if n == 0 then [] else FlockSightingKeys(db, f, n - 1) + FlockSightingKey(db, f, n - 1)
  {
  }

  lemma FlockDucksConservedOne(db: Db, f: Id, i: Id)
    ensures DuckOne(db.ducks, i) == DuckOne(DucksOutside(db, f), i) + multiset(FlockDuckKey(db, f, i))
  {
  }

  lemma {:induction false} FlockDucksConserved(db: Db, f: Id, n: nat)
    ensures DuckBag(db.ducks, n) == DuckBag(DucksOutside(db, f), n) + multiset(FlockDuckKeys(db, f, n))
  {
    hide *;
    FlockDuckKeyStep(db, f, n);
    DuckBagStep(db.ducks, n);
    DuckBagStep(DucksOutside(db, f), n);
    if n > 0 {
      FlockDucksConserved(db, f, n - 1);
      FlockDucksConservedOne(db, f, n - 1);
      BagsAdd(DuckBag(db.ducks, n - 1), DuckBag(DucksOutside(db, f), n - 1), FlockDuckKeys(db, f, n - 1),
              DuckOne(db.ducks, n - 1), DuckOne(DucksOutside(db, f), n - 1), FlockDuckKey(db, f, n - 1));
    }
  }

  lemma FlockDuckKeyStep(db: Db, f: Id, n: nat)
    ensures FlockDuckKeys(db, f, n)
            == if n == 0 then [] else FlockDuckKeys(db, f, n - 1) + FlockDuckKey(db, f, n - 1)
  {
  }

  /** Deleting a flock: keys before = keys after + keys returned. */
  lemma FlockPhotosConserved(db: Db, f: Id)
    requires ForeignKeys(db) && IdsBounded(db) && NoticesAgree(db)
    ensures var (result, after) := DeleteFlock(db, f);
            && result.Ok?
            && PhotoBag(db)
               == PhotoBag(after) + (if result.value.Some? then multiset(result.value.value) else multiset{})
  {
    hide ForeignKeys, IdsBounded, NoticesAgree, FlockSightingKeys, FlockDuckKeys;
    DeleteFlockIsFilter(db, f);
    FlockSightingsConserved(db, f, db.next.sighting);
    FlockDucksConserved(db, f, db.next.duck);
    BagsAdd(SightingBag(db.sightings, db.next.sighting), SightingBag(SightingsOutside(db, f), db.next.sighting),
            FlockSightingKeys(db, f, db.next.sighting),
            DuckBag(db.ducks, db.next.duck), DuckBag(DucksOutside(db, f), db.next.duck),
            FlockDuckKeys(db, f, db.next.duck));
  }
}
