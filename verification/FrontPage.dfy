/** The public lists: ranked duck summaries, ducks gone missing, and the latest finds. A list query fixes its
    answer up to ties, so each is modelled as the set of answers it may give. */
module FrontPage {
  import opened Wrappers
  import opened Schema
  import Permissions
  import Store
  import opened Cascade
  import opened Invariants
  import opened Handlers
  import opened Hiding
  import opened DuckGuarantees
  import Codec

  datatype Summary = Summary(code: string, name: Option<string>, sightingCount: nat, uniqueVessels: nat,
                             lastSeenAt: Time, lastVessel: Id)

  datatype Listing = MostTraveled | MostSighted | LongestAdrift | MissingSince(cutoff: Time)

  function SightedAt(sightings: map<Id, SightingRow>, d: Id): set<Id> {
    set s | s in sightings && sightings[s].duck == d
  }

  function VesselsOf(sightings: map<Id, SightingRow>, d: Id): set<Id> {
    set s | s in sightings && sightings[s].duck == d :: sightings[s].vessel
  }

  /** `ORDER BY seen_at DESC LIMIT 1` over the sightings of one duck. */
  predicate IsLatest(sightings: map<Id, SightingRow>, d: Id, s: Id) {
    && s in SightedAt(sightings, d)
    && forall o | o in SightedAt(sightings, d) :: sightings[o].seenAt <= sightings[s].seenAt
  }

  /** A row the summary queries may produce for duck `d`: they test deletion, not sailing. */
  predicate Summarizes(db: Db, d: Id, row: Summary) {
    && d in db.ducks && db.ducks[d].deletedAt.None?
    && row.code == db.ducks[d].code && row.name == db.ducks[d].name
    && row.sightingCount == |SightedAt(db.sightings, d)| && row.uniqueVessels == |VesselsOf(db.sightings, d)|
    && row.lastVessel in db.vessels
    && exists s | s in db.sightings ::
         IsLatest(db.sightings, d, s)
         && row.lastSeenAt == db.sightings[s].seenAt && row.lastVessel == db.sightings[s].vessel
  }

  predicate Qualifies(listing: Listing, row: Summary) {
    listing.MissingSince? ==> row.lastSeenAt < listing.cutoff
  }

  predicate Before(listing: Listing, a: Summary, b: Summary) {
    match listing
    case MostTraveled =>
      a.uniqueVessels > b.uniqueVessels || (a.uniqueVessels == b.uniqueVessels && a.lastSeenAt > b.lastSeenAt)
    case MostSighted =>
      a.sightingCount > b.sightingCount || (a.sightingCount == b.sightingCount && a.lastSeenAt > b.lastSeenAt)
    case _ => a.lastSeenAt < b.lastSeenAt
  }

  type Entry = (Id, Summary)

  predicate Listed(answer: seq<Entry>, d: Id) {
    exists i | 0 <= i < |answer| :: answer[i].0 == d
  }

  /** `answer` is a correct answer: right rows, in order, cut at the limit, and nothing better left out. */
  ghost predicate Answers(db: Db, listing: Listing, limit: Option<nat>, answer: seq<Entry>) {
    && (forall i | 0 <= i < |answer| :: Summarizes(db, answer[i].0, answer[i].1) && Qualifies(listing, answer[i].1))
    && (forall i, j | 0 <= i < j < |answer| ::
          answer[i].0 != answer[j].0 && !Before(listing, answer[j].1, answer[i].1))
    && (limit.Some? ==> |answer| <= limit.value)
    && (forall d, row | Summarizes(db, d, row) && Qualifies(listing, row) && !Listed(answer, d) ::
          && limit.Some? && |answer| == limit.value
          && forall i | 0 <= i < |answer| :: !Before(listing, row, answer[i].1))
  }

  /** One latest find: a sighting joined to its undeleted duck, its vessel and its finder. */
  datatype Find = Find(code: string, name: Option<string>, vessel: Id, finder: Option<string>, seenAt: Time)

  predicate Finds(db: Db, s: Id, row: Find) {
    && s in db.sightings
    && var r := db.sightings[s];
       && r.duck in db.ducks && db.ducks[r.duck].deletedAt.None? && r.vessel in db.vessels && r.user in db.users
       && row == Find(db.ducks[r.duck].code, db.ducks[r.duck].name, r.vessel, db.users[r.user].displayName, r.seenAt)
  }

  type FindEntry = (Id, Find)

  predicate FindListed(answer: seq<FindEntry>, s: Id) {
    exists i | 0 <= i < |answer| :: answer[i].0 == s
  }

  /** `answer` is a correct answer of the latest-finds query: newest first, cut at the limit, and no find left
      out that is newer than a listed one. */
  ghost predicate RecentFinds(db: Db, limit: nat, answer: seq<FindEntry>) {
    && (forall i | 0 <= i < |answer| :: Finds(db, answer[i].0, answer[i].1))
    && (forall i, j | 0 <= i < j < |answer| ::
          answer[i].0 != answer[j].0 && answer[i].1.seenAt >= answer[j].1.seenAt)
    && |answer| <= limit
    && (forall s, row | Finds(db, s, row) && !FindListed(answer, s) ::
          |answer| == limit && forall i | 0 <= i < |answer| :: row.seenAt <= answer[i].1.seenAt)
  }

  // ----- Which ducks are eligible --------------------------------------------------------------

  lemma {:induction false} LatestExists(sightings: map<Id, SightingRow>, ids: set<Id>)
    requires ids != {} && forall s | s in ids :: s in sightings
    ensures exists s | s in ids :: forall o | o in ids :: sightings[o].seenAt <= sightings[s].seenAt
  {
    var t :| t in ids;
    var rest := ids - {t};
    if rest != {} {
      LatestExists(sightings, rest);
      var s :| s in rest && forall o | o in rest :: sightings[o].seenAt <= sightings[s].seenAt;
      var best := if sightings[s].seenAt < sightings[t].seenAt then t else s;
      forall o | o in ids ensures sightings[o].seenAt <= sightings[best].seenAt {
        assert o == t || o in rest;
      }
    } else {
      assert ids == rest + {t};
    }
  }

  lemma VesselsExist(codec: Codec.DuckCodec, db: Db)
    requires Codec.Valid(codec) && Good(codec, db)
    ensures forall s | s in db.sightings :: db.sightings[s].vessel in db.vessels
    ensures forall s | s in db.sightings :: Live(db.ducks, db.sightings[s].duck)
  {
    hide DucksOk, Dense, UsersOk, FlocksOk, CommentsOk, FollowsOk, NoticesOk, Live, SightingChecks, TextFits;
    assert forall s | s in db.sightings :: SightingRefs(db.ducks, db.vessels, db.users, db.sightings[s]);
  }

  /** The joins select exactly the undeleted ducks that were ever sighted, and all of those are sailing. */
  lemma {:induction false} EligibleIff(codec: Codec.DuckCodec, db: Db, d: Id)
    requires Codec.Valid(codec) && Good(codec, db)
    ensures (exists row :: Summarizes(db, d, row))
            <==> d in db.ducks && db.ducks[d].deletedAt.None? && SightedAt(db.sightings, d) != {}
    ensures (exists row :: Summarizes(db, d, row)) ==> IsSailing(db, d)
  {
    hide Good, IsSailing;
    VesselsExist(codec, db);
    if d in db.ducks && db.ducks[d].deletedAt.None? && SightedAt(db.sightings, d) != {} {
      LatestExists(db.sightings, SightedAt(db.sightings, d));
      var s :| s in SightedAt(db.sightings, d)
               && forall o | o in SightedAt(db.sightings, d) :: db.sightings[o].seenAt <= db.sightings[s].seenAt;
      assert IsLatest(db.sightings, d, s);
      var row := Summary(db.ducks[d].code, db.ducks[d].name, |SightedAt(db.sightings, d)|, |VesselsOf(db.sightings, d)|,
                         db.sightings[s].seenAt, db.sightings[s].vessel);
      assert Summarizes(db, d, row);
      LiveIsSailing(codec, db, d);
    }
  }

  // ----- Hidden ducks do not show in the lists -----------------------------------------------------

  lemma SummariesIgnoreHidden(codec: Codec.DuckCodec, db: Db, viewer: Option<Viewer>, d: Id, row: Summary)
    requires Codec.Valid(codec) && Good(codec, db)
    ensures Summarizes(Erase(db, viewer), d, row) <==> Summarizes(db, d, row)
  {
    hide Good, Owns, IsLatest, VesselsOf, IsSailing;
    VesselsExist(codec, db);
    if Summarizes(db, d, row) {
      EligibleIff(codec, db, d);
      var s :| s in SightedAt(db.sightings, d);
      assert Live(db.ducks, db.sightings[s].duck);
    }
  }

  /** Whoever looks, each ranked or missing list may give the same answers when the hidden ducks' rows are
      erased, although its query never asks whether a duck has set sail. */
  lemma {:induction false} ListsIgnoreHiddenDucks(codec: Codec.DuckCodec, db: Db, viewer: Option<Viewer>,
                                                  listing: Listing, limit: Option<nat>, answer: seq<Entry>)
    requires Codec.Valid(codec) && Good(codec, db)
    ensures Answers(Erase(db, viewer), listing, limit, answer) <==> Answers(db, listing, limit, answer)
  {
    hide Good, Summarizes, Erase, Before, Qualifies, Listed;
    forall d, row ensures Summarizes(Erase(db, viewer), d, row) <==> Summarizes(db, d, row) {
      SummariesIgnoreHidden(codec, db, viewer, d, row);
    }
  }

  lemma FindRowsIgnoreHidden(codec: Codec.DuckCodec, db: Db, viewer: Option<Viewer>, s: Id, row: Find)
    requires Codec.Valid(codec) && Good(codec, db)
    ensures Finds(Erase(db, viewer), s, row) <==> Finds(db, s, row)
  {
    hide Good, Owns;
    VesselsExist(codec, db);
  }

  /** The latest finds, newest first and cut at the limit, may likewise be the same for every viewer. */
  lemma {:induction false} FindsIgnoreHiddenDucks(codec: Codec.DuckCodec, db: Db, viewer: Option<Viewer>, limit: nat,
                                                  answer: seq<FindEntry>)
    requires Codec.Valid(codec) && Good(codec, db)
    ensures RecentFinds(Erase(db, viewer), limit, answer) <==> RecentFinds(db, limit, answer)
  {
    hide Good, Finds, Erase, FindListed;
    forall s, row ensures Finds(Erase(db, viewer), s, row) <==> Finds(db, s, row) {
      FindRowsIgnoreHidden(codec, db, viewer, s, row);
    }
  }

  lemma SummaryNames(db: Db, d: Id, row: Summary)
    requires Summarizes(db, d, row)
    ensures d in db.ducks && row.code == db.ducks[d].code && row.name == db.ducks[d].name
  {
  }

  /** Every duck on a list is sailing, undeleted and under its own code and name; an unlimited list holds every sighted
      undeleted duck. */
  lemma {:induction false} ListsAreComplete(codec: Codec.DuckCodec, db: Db, listing: Listing, limit: Option<nat>,
                                            answer: seq<Entry>)
    requires Codec.Valid(codec) && Good(codec, db) && Answers(db, listing, limit, answer)
    ensures forall i | 0 <= i < |answer| ::
              var (d, row) := answer[i];
              && IsSailing(db, d) && db.ducks[d].deletedAt.None?
              && row.code == db.ducks[d].code && row.name == db.ducks[d].name
    ensures limit.None? && !listing.MissingSince? ==>
              forall d | d in db.ducks && db.ducks[d].deletedAt.None? && SightedAt(db.sightings, d) != {} ::
                Listed(answer, d)
  {
    hide Good, Summarizes, Before, IsSailing, Listed, SightedAt;
    forall i | 0 <= i < |answer|
      ensures IsSailing(db, answer[i].0) && answer[i].0 in db.ducks && db.ducks[answer[i].0].deletedAt.None?
      ensures answer[i].1.code == db.ducks[answer[i].0].code && answer[i].1.name == db.ducks[answer[i].0].name
    {
      EligibleIff(codec, db, answer[i].0);
      assert Summarizes(db, answer[i].0, answer[i].1);
      SummaryNames(db, answer[i].0, answer[i].1);
    }
    if limit.None? && !listing.MissingSince? {
      forall d | d in db.ducks && db.ducks[d].deletedAt.None? && SightedAt(db.sightings, d) != {}
        ensures Listed(answer, d)
      {
        EligibleIff(codec, db, d);
        var row :| Summarizes(db, d, row);
        assert Qualifies(listing, row);
      }
    }
  }

  // ----- What the rankings mean --------------------------------------------------------------------

  /** Down the most-traveled list the numbers of vessels never grow and down the most-sighted list the numbers of
      finds, ties going to the later find; the longest-adrift and missing lists start with the longest unseen, and
      the missing list holds only ducks unseen since the cutoff. */
  lemma {:induction false} ListsAreRanked(db: Db, listing: Listing, limit: Option<nat>, answer: seq<Entry>)
    requires Answers(db, listing, limit, answer)
    ensures forall i, j | 0 <= i < j < |answer| ::
              var (a, b) := (answer[i].1, answer[j].1);
              && (listing.MostTraveled? ==>
                    a.uniqueVessels > b.uniqueVessels
                    || (a.uniqueVessels == b.uniqueVessels && a.lastSeenAt >= b.lastSeenAt))
              && (listing.MostSighted? ==>
                    a.sightingCount > b.sightingCount
                    || (a.sightingCount == b.sightingCount && a.lastSeenAt >= b.lastSeenAt))
              && (listing.LongestAdrift? || listing.MissingSince? ==> a.lastSeenAt <= b.lastSeenAt)
    ensures listing.MissingSince? ==> forall i | 0 <= i < |answer| :: answer[i].1.lastSeenAt < listing.cutoff
  {
    hide Summarizes;
  }

  /** A duck the limit cuts off could not stand above any that is listed; one unseen since the cutoff is missing
      from the missing list only for that reason. */
  lemma {:induction false} CutOffIsLower(db: Db, listing: Listing, limit: Option<nat>, answer: seq<Entry>, d: Id,
                                         row: Summary)
    requires Answers(db, listing, limit, answer) && Summarizes(db, d, row) && !Listed(answer, d)
    ensures (listing.MissingSince? && row.lastSeenAt >= listing.cutoff)
            || (limit == Some(|answer|)
                && forall i | 0 <= i < |answer| ::
                     && (listing.MostTraveled? ==> row.uniqueVessels <= answer[i].1.uniqueVessels)
                     && (listing.MostSighted? ==> row.sightingCount <= answer[i].1.sightingCount)
                     && (listing.LongestAdrift? || listing.MissingSince? ==>
                           row.lastSeenAt >= answer[i].1.lastSeenAt))
  {
    hide Summarizes;
  }

  /** One more find raises the duck's count by one, its vessels by one when the vessel is new to it, and its last
      sighting to the later of the two; no other duck's summary moves. */
  lemma {:induction false} FindRaises(codec: Codec.DuckCodec, db: Db, r: SightingRow, was: Summary, now: Summary)
    requires Codec.Valid(codec) && Good(codec, db) && Store.LogSighting(db, r).Ok?
    requires Summarizes(db, r.duck, was) && Summarizes(Store.LogSighting(db, r).value, r.duck, now)
    ensures var known := exists s | s in db.sightings ::
              db.sightings[s].duck == r.duck && db.sightings[s].vessel == r.vessel;
            && now.sightingCount == was.sightingCount + 1
            && now.uniqueVessels == was.uniqueVessels + (if known then 0 else 1)
            && now.lastSeenAt == (if r.seenAt > was.lastSeenAt then r.seenAt else was.lastSeenAt)
            && now.code == was.code && now.name == was.name
    ensures forall d, row | d != r.duck ::
              Summarizes(Store.LogSighting(db, r).value, d, row) <==> Summarizes(db, d, row)
  {
    hide Good, Store.Append, Store.Notified, Store.Notices, SightingRefs, Summarizes;
    Permissions.SightingIdFresh(codec, db);
    var after := Store.LogSighting(db, r).value;
    SummaryAfter(db, after, r, was, now);
    forall d, row | d != r.duck ensures Summarizes(after, d, row) <==> Summarizes(db, d, row) {
      OthersSame(db, after, r, d, row);
    }
  }

  lemma SummaryAfter(db: Db, after: Db, r: SightingRow, was: Summary, now: Summary)
    requires db.next.sighting !in db.sightings && after.ducks == db.ducks
    requires after.sightings == db.sightings[db.next.sighting := r]
    requires Summarizes(db, r.duck, was) && Summarizes(after, r.duck, now)
    ensures var known := exists s | s in db.sightings ::
              db.sightings[s].duck == r.duck && db.sightings[s].vessel == r.vessel;
            && now.sightingCount == was.sightingCount + 1
            && now.uniqueVessels == was.uniqueVessels + (if known then 0 else 1)
            && now.lastSeenAt == (if r.seenAt > was.lastSeenAt then r.seenAt else was.lastSeenAt)
            && now.code == was.code && now.name == was.name
  {
    var (d, sid) := (r.duck, db.next.sighting);
    assert SightedAt(after.sightings, d) == SightedAt(db.sightings, d) + {sid};
    assert forall s | s in db.sightings :: after.sightings[s] == db.sightings[s];
    VesselsAfter(db.sightings, sid, r);
  }

  lemma VesselsAfter(sightings: map<Id, SightingRow>, sid: Id, r: SightingRow)
    requires sid !in sightings
    ensures var known := exists s | s in sightings :: sightings[s].duck == r.duck && sightings[s].vessel == r.vessel;
            |VesselsOf(sightings[sid := r], r.duck)| == |VesselsOf(sightings, r.duck)| + (if known then 0 else 1)
  {
    var (a, b) := (VesselsOf(sightings, r.duck), VesselsOf(sightings[sid := r], r.duck));
    forall v | v in a ensures v in b {
      var s :| s in sightings && sightings[s].duck == r.duck && sightings[s].vessel == v;
      assert s in sightings[sid := r] && sightings[sid := r][s] == sightings[s];
    }
    assert sid in sightings[sid := r] && r.vessel in b;
    assert b == a + {r.vessel};
  }

  lemma OthersSame(db: Db, after: Db, r: SightingRow, d: Id, row: Summary)
    requires db.next.sighting !in db.sightings && after.ducks == db.ducks && after.vessels == db.vessels && d != r.duck
    requires after.sightings == db.sightings[db.next.sighting := r]
    ensures Summarizes(after, d, row) <==> Summarizes(db, d, row)
  {
    assert SightedAt(after.sightings, d) == SightedAt(db.sightings, d);
    OtherVessels(db.sightings, db.next.sighting, r, d);
  }

  lemma OtherVessels(sightings: map<Id, SightingRow>, sid: Id, r: SightingRow, d: Id)
    requires sid !in sightings && d != r.duck
    ensures VesselsOf(sightings[sid := r], d) == VesselsOf(sightings, d)
  {
    var more := sightings[sid := r];
    forall v ensures v in VesselsOf(more, d) <==> v in VesselsOf(sightings, d) {
      if v in VesselsOf(more, d) {
        var s :| s in more && more[s].duck == d && more[s].vessel == v;
        assert s in sightings && sightings[s] == more[s];
      }
      if v in VesselsOf(sightings, d) {
        var s :| s in sightings && sightings[s].duck == d && sightings[s].vessel == v;
        assert s in more && more[s] == sightings[s];
      }
    }
  }
}
