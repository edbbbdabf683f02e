/** Sign-in flows parked between the redirect to a provider and its callback: a store that sweeps
    expired rows now and then, and hands each flow out at most once. */
module OidcFlow {
  import opened Wrappers
  import opened Schema

  const WINDOW: Time := 15 * 60

  datatype Flow = Flow(state: string, provider: string, pkceVerifier: string, nonce: string, returnTo: Option<string>)

  datatype Parked = Parked(flow: Flow, createdAt: Time)

  type Flows = map<string, Parked>

  // ----- The three statements ---------------------------------------------------------

  /** `DELETE ... WHERE created_at < now() - interval '15 minutes'`. */
  function Sweep(flows: Flows, now: Time): Flows {
    map s | s in flows && !(flows[s].createdAt < now - WINDOW) :: flows[s]
  }

  /** The state token is the primary key. */
  function Insert(flows: Flows, flow: Flow, now: Time): Result<Flows, RepoError> {
    if flow.state in flows then Err(Sql(Unique)) else Ok(flows[flow.state := Parked(flow, now)])
  }

  /** `DELETE ... WHERE state = $1 AND created_at > now() - interval '15 minutes' RETURNING ...`. */
  function Take(flows: Flows, state: string, now: Time): (Option<Flow>, Flows) {
    if state in flows && flows[state].createdAt > now - WINDOW
    then (Some(flows[state].flow), flows - {state}) else (None, flows)
  }

  /** The repository. `put` is two statements, each its own transaction with its own clock reading. */
  class OidcFlowRepo {
    var flows: Flows

    constructor ()
      ensures flows == map[]
    {
      flows := map[];
    }

    /** A parked flow is given to a timely question for its token; a token still in the store is refused; and
        no other question, asked from the sweep on, is answered differently than before. */
    method Put(flow: Flow, sweepTime: Time, insertTime: Time) returns (r: Result<(), RepoError>)
      modifies this
      ensures r.Err? <==> flow.state in old(flows) && old(flows)[flow.state].createdAt >= sweepTime - WINDOW
      ensures r.Ok? ==> forall t | insertTime > t - WINDOW :: Take(flows, flow.state, t).0 == Some(flow)
      ensures forall s, t | s != flow.state && t >= sweepTime :: Take(flows, s, t).0 == Take(old(flows), s, t).0
      ensures Keyed(old(flows)) ==> Keyed(flows)
      ensures match Insert(Sweep(old(flows), sweepTime), flow, insertTime)
              case Ok(after) => r == Ok(()) && flows == after
              case Err(e) => r == Err(e) && flows == Sweep(old(flows), sweepTime)
    {
      flows := map s | s in flows && !(flows[s].createdAt < sweepTime - WINDOW) :: flows[s];
      if flow.state in flows {
        return Err(Sql(Unique));
      }
      flows := flows[flow.state := Parked(flow, insertTime)];
      r := Ok(());
    }

    /** A flow given once is never given again, at whatever time it is asked for; every other question is
        answered as before, and a refusal changes nothing. */
    method Retrieve(state: string, now: Time) returns (r: Option<Flow>)
      modifies this
      ensures r.Some? ==> forall t :: Take(flows, state, t).0 == None
      ensures r.None? ==> flows == old(flows)
      ensures forall s, t | s != state :: Take(flows, s, t).0 == Take(old(flows), s, t).0
      ensures Keyed(old(flows)) ==> Keyed(flows) && (r.Some? ==> r.value.state == state)
      ensures (r, flows) == Take(old(flows), state, now)
    {
      r := None;
      if state in flows && flows[state].createdAt > now - WINDOW {
        r := Some(flows[state].flow);
        flows := flows - {state};
      }
    }
  }

  // ----- Runs of statements ---------------------------------------------------------------

  /** The statements of any number of concurrent `put`s and `take`s, in the order they commit. */
  datatype Event = Sweeping(now: Time) | Parking(flow: Flow, now: Time) | Taking(state: string, now: Time)

  datatype Answer = Done | Refused | Gave(flow: Flow) | Nothing

  /** With `sweeping` off, the reference: a map that is never swept. */
  function Step(flows: Flows, e: Event, sweeping: bool): (Answer, Flows) {
    match e
    case Sweeping(now) => (Done, if sweeping then Sweep(flows, now) else flows)
    case Parking(flow, now) =>
      (match Insert(flows, flow, now)
       case Ok(after) => (Done, after)
       case Err(_) => (Refused, flows))
    case Taking(state, now) =>
      var (taken, after) := Take(flows, state, now);
      (if taken.Some? then Gave(taken.value) else Nothing, after)
  }

  function Answers(flows: Flows, events: seq<Event>, sweeping: bool): (r: seq<Answer>)
    ensures |r| == |events|
    decreases |events|
  {
    if events == [] then []
    else
      var (answer, after) := Step(flows, events[0], sweeping);
      [answer] + Answers(after, events[1..], sweeping)
  }

  predicate Ordered(events: seq<Event>) {
    forall i, j | 0 <= i < j < |events| :: events[i].now <= events[j].now
  }

  /** Tokens are drawn fresh: no two flows are ever parked under one. */
  predicate FreshTokens(events: seq<Event>) {
    forall i, j | 0 <= i < j < |events| && events[i].Parking? && events[j].Parking? ::
      events[i].flow.state != events[j].flow.state
  }

  predicate Unused(flows: Flows, events: seq<Event>) {
    forall i | 0 <= i < |events| && events[i].Parking? :: events[i].flow.state !in flows
  }

  // ----- When the sweep can be seen ----------------------------------------------------------

  /** The event asks for the flow while it is within its window. */
  predicate Timely(e: Event, state: string, createdAt: Time) {
    e.Taking? && e.state == state && createdAt > e.now - WINDOW
  }

  predicate SweepsAway(e: Event, createdAt: Time) {
    e.Sweeping? && createdAt < e.now - WINDOW
  }

  /** A flow in the store is swept away at `i` before anybody took it, and asked for in time at `k`. */
  predicate LostBetween(events: seq<Event>, state: string, createdAt: Time, i: nat, k: nat) {
    && i < k < |events| && SweepsAway(events[i], createdAt) && Timely(events[k], state, createdAt)
    && forall q | 0 <= q < i :: !Timely(events[q], state, createdAt)
  }

  predicate Lost(events: seq<Event>, state: string, createdAt: Time) {
    exists i, k | 0 <= i < |events| && 0 <= k < |events| :: LostBetween(events, state, createdAt, i, k)
  }

  /** Some flow parked at `p` is later swept away and then asked for at a time within its window: the clock
      went back from the sweep to the question. */
  predicate LostAt(events: seq<Event>, p: nat) {
    p < |events| && events[p].Parking? && Lost(events[p + 1..], events[p].flow.state, events[p].now)
  }

  predicate SweepShows(events: seq<Event>) {
    exists p | 0 <= p < |events| :: LostAt(events, p)
  }

  lemma LostLater(events: seq<Event>, state: string, createdAt: Time)
    requires events != [] && !Timely(events[0], state, createdAt) && Lost(events[1..], state, createdAt)
    ensures Lost(events, state, createdAt)
  {
    var rest := events[1..];
    var i, k :| 0 <= i < |rest| && 0 <= k < |rest| && LostBetween(rest, state, createdAt, i, k);
    forall q | 0 <= q < i + 1 ensures !Timely(events[q], state, createdAt) {
      assert q > 0 ==> events[q] == rest[q - 1];
    }
    assert LostBetween(events, state, createdAt, i + 1, k + 1);
  }

  lemma LostNow(events: seq<Event>, state: string, createdAt: Time, k: nat)
    requires 0 < k < |events| && SweepsAway(events[0], createdAt) && Timely(events[k], state, createdAt)
    ensures Lost(events, state, createdAt)
  {
    assert LostBetween(events, state, createdAt, 0, k);
  }

  /** The swept store lacks only flows nobody will ask for in time, and will lose no other. */
  predicate Refines(swept: Flows, full: Flows, events: seq<Event>) {
    && (forall s | s in swept :: s in full && full[s] == swept[s] && !Lost(events, s, swept[s].createdAt))
    && (forall s, i | s in full && s !in swept && 0 <= i < |events| :: !Timely(events[i], s, full[s].createdAt))
  }

  lemma NoLaterLoss(events: seq<Event>)
    requires events != [] && !SweepShows(events)
    ensures !SweepShows(events[1..])
    ensures events[0].Parking? ==> !Lost(events[1..], events[0].flow.state, events[0].now)
  {
    var rest := events[1..];
    forall p | 0 <= p < |rest| ensures !LostAt(rest, p) {
      assert rest[p + 1..] == events[p + 2..] && rest[p] == events[p + 1];
      assert !LostAt(events, p + 1);
    }
    assert !LostAt(events, 0);
  }

  lemma StepRefines(swept: Flows, full: Flows, events: seq<Event>)
    requires events != [] && Unused(full, events) && Refines(swept, full, events) && !SweepShows(events)
    ensures var (a, b) := (Step(swept, events[0], true), Step(full, events[0], false));
            a.0 == b.0 && Refines(a.1, b.1, events[1..])
  {
    hide SweepShows, Lost;
    var (a, b) := (Step(swept, events[0], true), Step(full, events[0], false));
    var rest := events[1..];
    NoLaterLoss(events);
    forall s | s in a.1 ensures s in b.1 && b.1[s] == a.1[s] && !Lost(rest, s, a.1[s].createdAt) {
      if s in swept && Lost(rest, s, a.1[s].createdAt) && !(events[0].Parking? && events[0].flow.state == s) {
        LostLater(events, s, a.1[s].createdAt);
      }
    }
    forall s, i | s in b.1 && s !in a.1 && 0 <= i < |rest| ensures !Timely(rest[i], s, b.1[s].createdAt) {
      assert rest[i] == events[i + 1];
      if s in swept && Timely(rest[i], s, b.1[s].createdAt) {
        LostNow(events, s, b.1[s].createdAt, i + 1);
      }
    }
  }

  lemma {:induction false} UnseenSweeps(swept: Flows, full: Flows, events: seq<Event>)
    requires FreshTokens(events) && Unused(full, events) && Refines(swept, full, events) && !SweepShows(events)
    ensures Answers(swept, events, true) == Answers(full, events, false)
    decreases |events|
  {
    hide Refines, FreshTokens, Unused, Step, SweepShows;
    if events != [] {
      StepRefines(swept, full, events);
      NoLaterLoss(events);
      TailFresh(full, events, false);
      UnseenSweeps(Step(swept, events[0], true).1, Step(full, events[0], false).1, events[1..]);
    }
  }

  predicate NeverParked(events: seq<Event>, state: string) {
    forall i | 0 <= i < |events| && events[i].Parking? :: events[i].flow.state != state
  }

  /** Once the swept store alone has lost a flow, the first timely question tells the stores apart. */
  lemma {:induction false} LossShows(swept: Flows, full: Flows, events: seq<Event>, state: string, k: nat)
    requires state !in swept && state in full && NeverParked(events, state)
    requires k < |events| && Timely(events[k], state, full[state].createdAt)
    ensures Answers(swept, events, true) != Answers(full, events, false)
    decreases |events|
  {
    var (a, b) := (Step(swept, events[0], true), Step(full, events[0], false));
    if !Timely(events[0], state, full[state].createdAt) {
      assert NeverParked(events[1..], state) by {
        assert forall i | 0 <= i < |events[1..]| :: events[1..][i] == events[i + 1];
      }
      LossShows(a.1, b.1, events[1..], state, k - 1);
      assert Answers(swept, events, true)[1..] == Answers(a.1, events[1..], true);
      assert Answers(full, events, false)[1..] == Answers(b.1, events[1..], false);
    } else {
      assert Answers(swept, events, true)[0] == Nothing && Answers(full, events, false)[0].Gave?;
    }
  }

  lemma {:induction false} StoredLossShows(swept: Flows, full: Flows, events: seq<Event>, state: string, i: nat, k: nat)
    requires state in swept && state in full && full[state].createdAt == swept[state].createdAt
    requires NeverParked(events, state) && LostBetween(events, state, full[state].createdAt, i, k)
    ensures Answers(swept, events, true) != Answers(full, events, false)
    decreases |events|
  {
    var (a, b) := (Step(swept, events[0], true), Step(full, events[0], false));
    var (rest, created) := (events[1..], full[state].createdAt);
    assert NeverParked(rest, state) by {
      assert forall q | 0 <= q < |rest| :: rest[q] == events[q + 1];
    }
    if SweepsAway(events[0], created) {
      LossShows(a.1, b.1, rest, state, k - 1);
    } else {
      assert forall q | 0 <= q < i - 1 :: rest[q] == events[q + 1];
      StoredLossShows(a.1, b.1, rest, state, i - 1, k - 1);
    }
    assert Answers(swept, events, true)[1..] == Answers(a.1, rest, true);
    assert Answers(full, events, false)[1..] == Answers(b.1, rest, false);
  }

  lemma {:induction false} ParkedLossShows(swept: Flows, full: Flows, events: seq<Event>, p: nat)
    requires FreshTokens(events) && Unused(swept, events) && Unused(full, events) && LostAt(events, p)
    ensures Answers(swept, events, true) != Answers(full, events, false)
    decreases |events|
  {
    hide Lost;
    var (a, b) := (Step(swept, events[0], true), Step(full, events[0], false));
    var rest := events[1..];
    TailFresh(swept, events, true);
    TailFresh(full, events, false);
    if p == 0 {
      LossAfterParking(a.1, b.1, events);
    } else {
      assert rest[p..] == events[p + 1..] && rest[p - 1] == events[p];
      ParkedLossShows(a.1, b.1, rest, p - 1);
    }
    assert Answers(swept, events, true)[1..] == Answers(a.1, rest, true);
    assert Answers(full, events, false)[1..] == Answers(b.1, rest, false);
  }

  lemma LossAfterParking(swept: Flows, full: Flows, events: seq<Event>)
    requires LostAt(events, 0) && FreshTokens(events)
    requires var s := events[0].flow.state;
             && s in swept && s in full && swept[s].createdAt == events[0].now == full[s].createdAt
    ensures Answers(swept, events[1..], true) != Answers(full, events[1..], false)
  {
    var (rest, s) := (events[1..], events[0].flow.state);
    assert NeverParked(rest, s) by {
      assert forall q | 0 <= q < |rest| :: rest[q] == events[q + 1];
    }
    var i, k :| 0 <= i < |rest| && 0 <= k < |rest| && LostBetween(rest, s, events[0].now, i, k);
    StoredLossShows(swept, full, rest, s, i, k);
  }

  /** With fresh tokens, sweeping can be observed exactly when the clock goes back far enough to ask in time for
      a waiting flow that a sweep stamped later has removed. */
  lemma {:induction false} SweepShowsIff(events: seq<Event>)
    requires FreshTokens(events)
    ensures Answers(map[], events, true) != Answers(map[], events, false) <==> SweepShows(events)
  {
    hide LostAt, FreshTokens;
    if SweepShows(events) {
      var p :| 0 <= p < |events| && LostAt(events, p);
      ParkedLossShows(map[], map[], events, p);
    } else {
      UnseenSweeps(map[], map[], events);
    }
  }

  /** With a clock that never goes back and fresh tokens, sweeping cannot be observed. */
  lemma SweepingIsInvisible(events: seq<Event>)
    requires Ordered(events) && FreshTokens(events)
    ensures Answers(map[], events, true) == Answers(map[], events, false)
  {
    SweepShowsIff(events);
    forall p | 0 <= p < |events| ensures !LostAt(events, p) {
      var rest := events[p + 1..];
      assert forall i | 0 <= i < |rest| :: rest[i] == events[p + 1 + i];
      if events[p].Parking? {
        NeverLost(rest, events[p].flow.state, events[p].now);
      }
    }
  }

  lemma NeverLost(events: seq<Event>, state: string, createdAt: Time)
    requires Ordered(events)
    ensures !Lost(events, state, createdAt)
  {
  }

  const LOST: Flow := Flow("state", "provider", "verifier", "nonce", None)

  /** A clock that goes back shows the sweep: the flow is gone although a `take` would still be in time. */
  lemma ClockMustNotGoBack()
    ensures var events := [Parking(LOST, 0), Sweeping(2 * WINDOW), Taking("state", 0)];
            && FreshTokens(events)
            && Answers(map[], events, true)[2] == Nothing && Answers(map[], events, false)[2] == Gave(LOST)
  {
    var events := [Parking(LOST, 0), Sweeping(2 * WINDOW), Taking("state", 0)];
    var parked: Flows := map["state" := Parked(LOST, 0)];
    assert Step(map[], events[0], true) == (Done, parked);
    assert Step(map[], events[0], false) == (Done, parked);
    assert Step(parked, events[1], true) == (Done, map[]);
    assert Step(parked, events[1], false) == (Done, parked);
    assert events[1..] == [Sweeping(2 * WINDOW), Taking("state", 0)] && events[1..][1..] == [Taking("state", 0)];
    assert Answers(map[], events[1..][1..], true) == [Nothing];
    assert Answers(parked, events[1..][1..], false) == [Gave(LOST)];
  }

  // ----- Handed out at most once, unchanged, in time ---------------------------------------------

  predicate Keyed(flows: Flows) {
    forall s | s in flows :: flows[s].flow.state == s
  }

  /** The answer at `i` returns the flow parked by the earlier event `j`, within the window. */
  predicate ParkedBefore(events: seq<Event>, i: nat, j: nat, flow: Flow) {
    && j < i < |events| && events[i].Taking? && events[j].Parking? && events[j].flow == flow
    && events[j].now > events[i].now - WINDOW
  }

  lemma StepKeyed(flows: Flows, e: Event, sweeping: bool)
    requires Keyed(flows)
    ensures Keyed(Step(flows, e, sweeping).1)
  {
  }

  /** A given flow was in the store at the start or was parked since. */
  lemma {:induction false} GivenWasParked(flows: Flows, events: seq<Event>, sweeping: bool, i: nat)
    requires Keyed(flows) && i < |events| && Answers(flows, events, sweeping)[i].Gave?
    ensures var flow := Answers(flows, events, sweeping)[i].flow;
            && events[i] == Taking(flow.state, events[i].now)
            && ((flow.state in flows && flows[flow.state].flow == flow
                 && flows[flow.state].createdAt > events[i].now - WINDOW)
                || exists j | 0 <= j < i :: ParkedBefore(events, i, j, flow))
    decreases |events|
  {
    var after := Step(flows, events[0], sweeping).1;
    StepKeyed(flows, events[0], sweeping);
    if i > 0 {
      var (rest, k) := (events[1..], i - 1);
      GivenWasParked(after, rest, sweeping, k);
      var flow := Answers(flows, events, sweeping)[i].flow;
      if j :| 0 <= j < k && ParkedBefore(rest, k, j, flow) {
        assert ParkedBefore(events, i, j + 1, flow);
      } else if !(flow.state in flows && flows[flow.state] == after[flow.state]) {
        assert ParkedBefore(events, i, 0, flow);
      }
    }
  }

  /** A token that is not in the store and never parked again is never given. */
  lemma GoneStaysGone(flows: Flows, events: seq<Event>, sweeping: bool, state: string, i: nat)
    requires Keyed(flows) && state !in flows && i < |events|
    requires forall k | 0 <= k < |events| && events[k].Parking? :: events[k].flow.state != state
    ensures Answers(flows, events, sweeping)[i].Gave? ==> Answers(flows, events, sweeping)[i].flow.state != state
  {
    if Answers(flows, events, sweeping)[i].Gave? {
      GivenWasParked(flows, events, sweeping, i);
    }
  }

  lemma {:induction false} GivenOnce(flows: Flows, events: seq<Event>, sweeping: bool, i: nat, j: nat)
    requires Keyed(flows) && FreshTokens(events) && Unused(flows, events) && i < j < |events|
    requires Answers(flows, events, sweeping)[i].Gave? && Answers(flows, events, sweeping)[j].Gave?
    ensures Answers(flows, events, sweeping)[i].flow.state != Answers(flows, events, sweeping)[j].flow.state
    decreases |events|
  {
    var after := Step(flows, events[0], sweeping).1;
    StepKeyed(flows, events[0], sweeping);
    TailFresh(flows, events, sweeping);
    if i > 0 {
      GivenOnce(after, events[1..], sweeping, i - 1, j - 1);
    } else {
      var flow := Answers(flows, events, sweeping)[0].flow;
      assert flow.state in flows && flow.state !in after;
      GoneStaysGone(after, events[1..], sweeping, flow.state, j - 1);
    }
  }

  lemma TailFresh(flows: Flows, events: seq<Event>, sweeping: bool)
    requires events != [] && FreshTokens(events) && Unused(flows, events)
    ensures FreshTokens(events[1..]) && Unused(Step(flows, events[0], sweeping).1, events[1..])
    ensures forall k | 0 <= k < |events[1..]| && events[1..][k].Parking? :: events[1..][k].flow.state !in flows
  {
    forall i | 0 <= i < |events[1..]| && events[1..][i].Parking?
      ensures events[1..][i].flow.state !in Step(flows, events[0], sweeping).1 && events[1..][i].flow.state !in flows
    {
      assert events[1..][i] == events[i + 1];
    }
  }

  /** A waiting flow: parked under its token since the start or by event `j`, still within the window at `i`. */
  predicate Waiting(flows: Flows, events: seq<Event>, i: nat, flow: Flow) {
    || (flow.state in flows && i < |events| && flows[flow.state].flow == flow
        && flows[flow.state].createdAt > events[i].now - WINDOW)
    || exists j | 0 <= j < i :: ParkedBefore(events, i, j, flow)
  }

  /** A waiting flow nobody took is given to the `take` that asks for it. */
  lemma {:induction false} WaitingIsGiven(flows: Flows, events: seq<Event>, i: nat, flow: Flow)
    requires i < |events| && events[i] == Taking(flow.state, events[i].now)
    requires Keyed(flows) && FreshTokens(events) && Unused(flows, events) && Waiting(flows, events, i, flow)
    requires forall k | 0 <= k < i :: Answers(flows, events, false)[k] != Gave(flow)
    ensures Answers(flows, events, false)[i] == Gave(flow)
    decreases |events|
  {
    if i > 0 {
      var (after, rest, k) := (Step(flows, events[0], false).1, events[1..], i - 1);
      StepKeyed(flows, events[0], false);
      TailFresh(flows, events, false);
      assert Answers(flows, events, false)[0] != Gave(flow);
      if j :| 0 <= j < i && ParkedBefore(events, i, j, flow) {
        if j > 0 {
          assert ParkedBefore(rest, k, j - 1, flow);
        }
      }
      forall l | 0 <= l < k ensures Answers(after, rest, false)[l] != Gave(flow) {
        assert Answers(flows, events, false)[l + 1] != Gave(flow);
      }
      WaitingIsGiven(after, rest, k, flow);
    }
  }

  /** The store, specified without a store: with a clock that never goes back and fresh tokens, a `take`
      returns a flow exactly when that flow was parked within the window and not given before. */
  lemma {:induction false} TakeGivesIff(events: seq<Event>, i: nat, flow: Flow)
    requires Ordered(events) && FreshTokens(events)
    requires i < |events| && events[i] == Taking(flow.state, events[i].now)
    ensures Answers(map[], events, true)[i] == Gave(flow)
            <==> && (exists j | 0 <= j < i :: ParkedBefore(events, i, j, flow))
                 && (forall k | 0 <= k < i :: Answers(map[], events, true)[k] != Gave(flow))
  {
    hide Step, ParkedBefore;
    SweepingIsInvisible(events);
    var answers := Answers(map[], events, true);
    if answers[i] == Gave(flow) {
      GivenWasParked(map[], events, true, i);
      forall k | 0 <= k < i ensures answers[k] != Gave(flow) {
        if answers[k] == Gave(flow) {
          GivenOnce(map[], events, true, k, i);
        }
      }
    } else if (exists j | 0 <= j < i :: ParkedBefore(events, i, j, flow))
              && forall k | 0 <= k < i :: answers[k] != Gave(flow) {
      WaitingIsGiven(map[], events, i, flow);
    }
  }

  /** Over any run with fresh tokens, whatever the clock does: a flow is given only to a `take` of its own
      token, exactly as it was parked and within the window, and no token is answered twice. */
  lemma {:induction false} FlowsAreGivenOnce(events: seq<Event>)
    requires FreshTokens(events)
    ensures var answers := Answers(map[], events, true);
            && (forall i | 0 <= i < |events| && answers[i].Gave? ::
                  && events[i] == Taking(answers[i].flow.state, events[i].now)
                  && exists j | 0 <= j < i :: ParkedBefore(events, i, j, answers[i].flow))
            && (forall i, j | 0 <= i < j < |events| && answers[i].Gave? && answers[j].Gave? ::
                  answers[i].flow.state != answers[j].flow.state)
  {
    var answers := Answers(map[], events, true);
    forall i | 0 <= i < |events| && answers[i].Gave?
      ensures events[i] == Taking(answers[i].flow.state, events[i].now)
      ensures exists j | 0 <= j < i :: ParkedBefore(events, i, j, answers[i].flow)
    {
      GivenWasParked(map[], events, true, i);
    }
    forall i, j | 0 <= i < j < |events| && answers[i].Gave? && answers[j].Gave?
      ensures answers[i].flow.state != answers[j].flow.state
    {
      GivenOnce(map[], events, true, i, j);
    }
  }
}
