/** The browser client's silent token refresh: requests that get a 401 share one `/auth/refresh`. */
module SingleFlight {
  import opened Text

  /** A refresh promise: awaiting the network, or settled. */
  datatype Flight = Pending | Settled(ok: bool)

  /** Where a `request` call stands between its awaits. */
  datatype Phase = FirstFetch | Waiting(flight: nat) | SecondFetch | Finished(toLogin: bool)

  datatype Request = Request(
    auth: bool,          // the endpoint starts with /auth/
    phase: Phase,
    sends: nat,          // history: fetches of its own URL
    joined: seq<nat>,    // history: the refreshes it awaited
    got: seq<bool>,      // history: the values those awaits gave it
    answers: seq<bool>)  // history: for each answer to its own fetches, whether it was a 401

  datatype State = State(
    isRefreshing: bool,
    refreshPromise: Option<nat>,
    flights: seq<Flight>,        // every refresh started, in order
    requests: seq<Request>)      // every call, in order

  const START := State(false, None, [], [])

  /** A stretch of code between two awaits; `unauthorized` tells a 401 from any other answer or failure. */
  datatype Step =
    | Call(auth: bool)
    | FirstAnswer(r: nat, unauthorized: bool)
    | RefreshAnswer(f: nat, ok: bool)
    | Resume(r: nat)
    | SecondAnswer(r: nat, unauthorized: bool)

  predicate Enabled(s: State, step: Step)
  {
    match step
    case Call(_) => true
    case FirstAnswer(r, _) => r < |s.requests| && s.requests[r].phase.FirstFetch?
    case RefreshAnswer(f, _) => f < |s.flights| && s.flights[f].Pending?
    case Resume(r) =>
      && r < |s.requests| && s.requests[r].phase.Waiting?
      && s.requests[r].phase.flight < |s.flights| && s.flights[s.requests[r].phase.flight].Settled?
    case SecondAnswer(r, _) => r < |s.requests| && s.requests[r].phase.SecondFetch?
  }

  /** `tryRefreshToken` up to its await: the caller's flight, in progress already or newly started. */
  function Join(s: State): (State, nat)
  {
    if s.isRefreshing && s.refreshPromise.Some? then (s, s.refreshPromise.value)
    else (s.(isRefreshing := true, refreshPromise := Some(|s.flights|), flights := s.flights + [Pending]), |s.flights|)
  }

  function Apply(s: State, step: Step): State
    requires Enabled(s, step)
  {
    match step
    case Call(auth) => s.(requests := s.requests + [Request(auth, FirstFetch, 1, [], [], [])])
    case FirstAnswer(r, unauthorized) =>
      var q := s.requests[r].(answers := s.requests[r].answers + [unauthorized]);
      if unauthorized && !q.auth then
        var (s', f) := Join(s);
        s'.(requests := s.requests[r := q.(phase := Waiting(f), joined := q.joined + [f])])
      else s.(requests := s.requests[r := q.(phase := Finished(unauthorized))])
    case RefreshAnswer(f, ok) =>
      s.(isRefreshing := false, refreshPromise := None, flights := s.flights[f := Settled(ok)])
    case Resume(r) =>
      var q := s.requests[r];
      var ok := s.flights[q.phase.flight].ok;
      var q' := q.(got := q.got + [ok]);
      var next := if ok then q'.(phase := SecondFetch, sends := q.sends + 1) else q'.(phase := Finished(true));
      s.(requests := s.requests[r := next])
    case SecondAnswer(r, unauthorized) =>
      var q := s.requests[r];
      s.(requests := s.requests[r := q.(phase := Finished(unauthorized), answers := q.answers + [unauthorized])])
  }

  /** A run from a fresh page, as the states it goes through. */
  ghost predicate IsRun(states: seq<State>, steps: seq<Step>)
  {
    && |states| == |steps| + 1 && states[0] == START
    && forall i :: 0 <= i < |steps| ==> Enabled(states[i], steps[i]) && states[i + 1] == Apply(states[i], steps[i])
  }

  // ----- the invariant

  /** Only the newest refresh can be in progress, and it is exactly what the module variables name. */
  ghost predicate OneFlight(s: State)
  {
    && s.isRefreshing == s.refreshPromise.Some?
    && (s.refreshPromise.Some? ==> s.refreshPromise.value < |s.flights|)
    && forall f :: 0 <= f < |s.flights| ==> (s.flights[f].Pending? <==> s.refreshPromise == Some(f))
  }

  /** A request awaits at most one refresh, gets that refresh's value, and is sent again exactly when it is true. */
  ghost predicate Accounted(flights: seq<Flight>, q: Request)
  {
    && (q.auth ==> q.joined == [])
    && (q.joined == [] ==> && q.got == [] && q.sends == 1
                           && if q.phase.FirstFetch? then q.answers == []
                              else q.phase.Finished? && q.answers == [q.phase.toLogin] && (q.phase.toLogin ==> q.auth))
    && (q.joined != [] ==>
          && |q.joined| == 1 && q.joined[0] < |flights|
          && if q.phase.Waiting? then q.phase.flight == q.joined[0] && q.got == [] && q.sends == 1
             else && flights[q.joined[0]].Settled? && q.got == [flights[q.joined[0]].ok]
                  && q.sends == (if q.got[0] then 2 else 1)
                  && (q.phase.SecondFetch? ==> q.got[0]) && !q.phase.FirstFetch?)
    && (q.joined != [] && !q.phase.Finished? ==> q.answers == [true])
    && (q.joined != [] && q.phase.Finished? ==>
          q.got != [] && q.answers ==
            (if q.got[0] then [true, q.phase.toLogin] else [true]) && (q.got[0] || q.phase.toLogin))
  }

  function Joiners(requests: seq<Request>): nat
  {
    if requests == [] then 0
    else Joiners(requests[..|requests| - 1]) + if requests[|requests| - 1].joined == [] then 0 else 1
  }

  ghost predicate Inv(s: State)
  {
    && OneFlight(s)
    && (forall r :: 0 <= r < |s.requests| ==> Accounted(s.flights, s.requests[r]))
    && |s.flights| <= Joiners(s.requests)
  }

  lemma {:induction false} JoinersUpdate(requests: seq<Request>, r: nat, q: Request)
    requires r < |requests|
    ensures Joiners(requests[r := q]) ==
            Joiners(requests) - (if requests[r].joined == [] then 0 else 1) + (if q.joined == [] then 0 else 1)
    decreases |requests|
  {
    var n := |requests| - 1;
    if r < n {
      assert requests[r := q][..n] == requests[..n][r := q];
      JoinersUpdate(requests[..n], r, q);
    } else {
      assert requests[r := q][..n] == requests[..n];
    }
  }

  lemma {:induction false} JoinersAtMost(requests: seq<Request>)
    ensures Joiners(requests) <= |requests|
  {
    if requests != [] {
      JoinersAtMost(requests[..|requests| - 1]);
    }
  }

  lemma CallInv(s: State, auth: bool)
    requires Inv(s)
    ensures Inv(Apply(s, Call(auth)))
  {
    assert Apply(s, Call(auth)).requests[..|s.requests|] == s.requests;
  }

  /** Changing one request so that it stays accounted for, joining or not. */
  lemma UpdateInv(s: State, r: nat, q: Request)
    requires Inv(s) && r < |s.requests| && Accounted(s.flights, q)
    requires s.requests[r].joined != [] ==> q.joined != []
    ensures Inv(s.(requests := s.requests[r := q]))
  {
    hide Accounted, OneFlight;
    JoinersUpdate(s.requests, r, q);
    SameFlights(s, s.(requests := s.requests[r := q]));
  }

  lemma SameFlights(s: State, s': State)
    requires OneFlight(s)
    requires s'.isRefreshing == s.isRefreshing && s'.refreshPromise == s.refreshPromise && s'.flights == s.flights
    ensures OneFlight(s')
  {
  }

  lemma MoreFlights(flights: seq<Flight>, flights': seq<Flight>, q: Request)
    requires Accounted(flights, q) && |flights| <= |flights'|
    requires forall f :: 0 <= f < |flights| && flights[f].Settled? ==> flights'[f] == flights[f]
    ensures Accounted(flights', q)
  {
  }

  lemma StartInv(s: State, r: nat)
    requires Inv(s) && r < |s.requests| && s.requests[r].phase.FirstFetch? && !s.requests[r].auth
    requires !s.isRefreshing
    ensures Inv(Apply(s, FirstAnswer(r, true)))
  {
    var s' := Apply(s, FirstAnswer(r, true));
    assert Accounted(s.flights, s.requests[r]);
    assert Accounted(s'.flights, s'.requests[r]);
    assert OneFlight(s');
    JoinersUpdate(s.requests, r, s'.requests[r]);
    hide Accounted, OneFlight;
    forall k | 0 <= k < |s'.requests|
      ensures Accounted(s'.flights, s'.requests[k])
    {
      if k != r {
        MoreFlights(s.flights, s'.flights, s.requests[k]);
      }
    }
  }

  lemma RefreshInv(s: State, f: nat, ok: bool)
    requires Inv(s) && f < |s.flights| && s.flights[f].Pending?
    ensures Inv(Apply(s, RefreshAnswer(f, ok)))
  {
    var s' := Apply(s, RefreshAnswer(f, ok));
    assert OneFlight(s');
    hide Accounted, OneFlight;
    forall k | 0 <= k < |s'.requests|
      ensures Accounted(s'.flights, s'.requests[k])
    {
      MoreFlights(s.flights, s'.flights, s.requests[k]);
    }
  }

  lemma FirstAnswerInv(s: State, r: nat, unauthorized: bool)
    requires Inv(s) && Enabled(s, FirstAnswer(r, unauthorized))
    ensures Inv(Apply(s, FirstAnswer(r, unauthorized)))
  {
    assert Accounted(s.flights, s.requests[r]);
    if unauthorized && !s.requests[r].auth && !s.isRefreshing {
      StartInv(s, r);
    } else {
      var q := Apply(s, FirstAnswer(r, unauthorized)).requests[r];
      assert Accounted(s.flights, q);
      hide Inv, Accounted;
      UpdateInv(s, r, q);
    }
  }

  lemma ResumeInv(s: State, r: nat)
    requires Inv(s) && Enabled(s, Resume(r))
    ensures Inv(Apply(s, Resume(r)))
  {
    assert Accounted(s.flights, s.requests[r]);
    var q := Apply(s, Resume(r)).requests[r];
    assert Accounted(s.flights, q);
    hide Inv, Accounted;
    UpdateInv(s, r, q);
  }

  lemma SecondAnswerInv(s: State, r: nat, unauthorized: bool)
    requires Inv(s) && Enabled(s, SecondAnswer(r, unauthorized))
    ensures Inv(Apply(s, SecondAnswer(r, unauthorized)))
  {
    assert Accounted(s.flights, s.requests[r]);
    var q := Apply(s, SecondAnswer(r, unauthorized)).requests[r];
    assert Accounted(s.flights, q);
    hide Inv, Accounted;
    UpdateInv(s, r, q);
  }

  lemma StepInv(s: State, step: Step)
    requires Inv(s) && Enabled(s, step)
    ensures Inv(Apply(s, step))
  {
    hide Inv, Apply;
    match step {
      case Call(auth) => CallInv(s, auth);
      case RefreshAnswer(f, ok) => RefreshInv(s, f, ok);
      case FirstAnswer(r, unauthorized) => FirstAnswerInv(s, r, unauthorized);
      case Resume(r) => ResumeInv(s, r);
      case SecondAnswer(r, unauthorized) => SecondAnswerInv(s, r, unauthorized);
    }
  }

  lemma {:induction false} RunInv(states: seq<State>, steps: seq<Step>, i: nat)
    requires IsRun(states, steps) && i < |states|
    ensures Inv(states[i])
  {
    if i > 0 {
      RunInv(states, steps, i - 1);
      hide Inv, Apply, Enabled;
      StepInv(states[i - 1], steps[i - 1]);
    }
  }

  // ----- what holds of every run

  /** At most one `/auth/refresh` is in progress. */
  lemma AtMostOneRefresh(states: seq<State>, steps: seq<Step>, i: nat, f: nat, g: nat)
    requires IsRun(states, steps) && i < |states|
    requires f < |states[i].flights| && g < |states[i].flights|
    requires states[i].flights[f].Pending? && states[i].flights[g].Pending?
    ensures f == g == |states[i].flights| - 1
  {
    RunInv(states, steps, i);
    PendingIsNewest(states, steps, i, f);
  }

  lemma {:induction false} PendingIsNewest(states: seq<State>, steps: seq<Step>, i: nat, f: nat)
    requires IsRun(states, steps) && i < |states|
    requires f < |states[i].flights| && states[i].flights[f].Pending?
    ensures f == |states[i].flights| - 1
  {
    RunInv(states, steps, i);
    if i > 0 {
      RunInv(states, steps, i - 1);
      var s := states[i - 1];
      if f < |s.flights| && s.flights[f].Pending? {
        PendingIsNewest(states, steps, i - 1, f);
      }
    }
  }

  /**
   * Each request is sent at most twice, awaits at most one refresh, and is sent again only after that refresh gave
   * true.
   */
  lemma SentAtMostTwice(states: seq<State>, steps: seq<Step>, i: nat, r: nat)
    requires IsRun(states, steps) && i < |states| && r < |states[i].requests|
    ensures var q := states[i].requests[r];
            && q.sends <= 2 && |q.joined| <= 1
            && (q.sends == 2 <==> q.got == [true])
            && (q.auth ==> q.sends == 1 && q.joined == [])
  {
    RunInv(states, steps, i);
    assert Accounted(states[i].flights, states[i].requests[r]);
  }

  /** Every request that has stopped waiting for a refresh got that refresh's own outcome. */
  lemma JoinersShareOutcome(states: seq<State>, steps: seq<Step>, i: nat, r: nat, q: nat)
    requires IsRun(states, steps) && i < |states| && r < |states[i].requests| && q < |states[i].requests|
    requires var a, b := states[i].requests[r], states[i].requests[q];
             a.joined == b.joined != [] && !a.phase.Waiting? && !b.phase.Waiting?
    ensures states[i].requests[r].got == states[i].requests[q].got != []
  {
    RunInv(states, steps, i);
    assert Accounted(states[i].flights, states[i].requests[r]);
    assert Accounted(states[i].flights, states[i].requests[q]);
  }

  lemma {:induction false} SettledStays(states: seq<State>, steps: seq<Step>, j: nat, i: nat, f: nat)
    requires IsRun(states, steps) && j <= i < |states| && f < |states[j].flights| && states[j].flights[f].Settled?
    ensures f < |states[i].flights| && states[i].flights[f] == states[j].flights[f]
    decreases i
  {
    if j < i {
      SettledStays(states, steps, j, i - 1, f);
    }
  }

  /**
   * What `/auth/refresh` answered is what every request that waited for it gets, and it is sent a second time exactly
   * if the refresh succeeded.
   */
  lemma RefreshDecides(states: seq<State>, steps: seq<Step>, j: nat, i: nat, f: nat, ok: bool, r: nat)
    requires IsRun(states, steps) && j < i < |states| && steps[j] == RefreshAnswer(f, ok) && r < |states[i].requests|
    requires states[i].requests[r].joined == [f] && !states[i].requests[r].phase.Waiting?
    ensures states[i].requests[r].got == [ok]
    ensures states[i].requests[r].sends == 2 <==> ok
  {
    assert states[j + 1].flights[f] == Settled(ok);
    SettledStays(states, steps, j + 1, i, f);
    RunInv(states, steps, i);
    assert Accounted(states[i].flights, states[i].requests[r]);
  }

  /** A 401 with no refresh in progress starts exactly one, and the request waits on it. */
  lemma StartsOne(states: seq<State>, steps: seq<Step>, i: nat)
    requires IsRun(states, steps) && i < |steps|
    requires forall f :: 0 <= f < |states[i].flights| ==> states[i].flights[f].Settled?
    requires steps[i].FirstAnswer? && steps[i].unauthorized && !states[i].requests[steps[i].r].auth
    ensures states[i + 1].flights == states[i].flights + [Pending]
    ensures states[i + 1].requests[steps[i].r].phase == Waiting(|states[i].flights|)
  {
    RunInv(states, steps, i);
  }

  /**
   * A finished request leads to the login page exactly if its last answer was a 401. It was answered once unless a
   * refresh for it succeeded, and met a refresh only after a 401 on an endpoint outside /auth/.
   */
  lemma LoginIffUnauthorized(states: seq<State>, steps: seq<Step>, i: nat, r: nat)
    requires IsRun(states, steps) && i < |states| && r < |states[i].requests| && states[i].requests[r].phase.Finished?
    ensures var q := states[i].requests[r];
            && |q.answers| == q.sends && 1 <= q.sends <= 2
            && (q.phase.toLogin <==> q.answers[|q.answers| - 1])
            && (q.joined != [] <==> q.answers[0] && !q.auth)
  {
    RunInv(states, steps, i);
    assert Accounted(states[i].flights, states[i].requests[r]);
  }

  /** A 401 that arrives while a refresh is in progress starts no other: it joins that one. */
  lemma OverlappingShare(states: seq<State>, steps: seq<Step>, i: nat, f: nat)
    requires IsRun(states, steps) && i < |steps|
    requires f < |states[i].flights| && states[i].flights[f].Pending?
    requires steps[i].FirstAnswer? && steps[i].unauthorized && !states[i].requests[steps[i].r].auth
    ensures states[i + 1].flights == states[i].flights && states[i + 1].requests[steps[i].r].phase == Waiting(f)
  {
    RunInv(states, steps, i);
  }

  /** No more refreshes than requests that met a 401, so at most three fetches for each request in all. */
  lemma RefreshesBounded(states: seq<State>, steps: seq<Step>, i: nat)
    requires IsRun(states, steps) && i < |states|
    ensures |states[i].flights| <= Joiners(states[i].requests) <= |states[i].requests|
  {
    RunInv(states, steps, i);
    JoinersAtMost(states[i].requests);
  }

  // ----- no request waits for ever

  function Weight(p: Phase): nat
  {
    match p case FirstFetch => 4 case Waiting(_) => 2 case SecondFetch => 1 case Finished(_) => 0
  }

  function RequestWork(requests: seq<Request>): nat
  {
    if requests == [] then 0
    else RequestWork(requests[..|requests| - 1]) + Weight(requests[|requests| - 1].phase)
  }

  /** The answers and resumptions still owed. */
  function Work(s: State): nat
  {
    RequestWork(s.requests) + if s.refreshPromise.Some? then 1 else 0
  }

  lemma {:induction false} WorkUpdate(requests: seq<Request>, r: nat, q: Request)
    requires r < |requests|
    ensures RequestWork(requests[r := q]) == RequestWork(requests) - Weight(requests[r].phase) + Weight(q.phase)
    decreases |requests|
  {
    var n := |requests| - 1;
    if r < n {
      assert requests[r := q][..n] == requests[..n][r := q];
      WorkUpdate(requests[..n], r, q);
    } else {
      assert requests[r := q][..n] == requests[..n];
    }
  }

  lemma StepWork(s: State, step: Step)
    requires Inv(s) && Enabled(s, step)
    ensures if step.Call? then Work(Apply(s, step)) == Work(s) + 4 else Work(Apply(s, step)) < Work(s)
    ensures |Apply(s, step).requests| == |s.requests| + if step.Call? then 1 else 0
  {
    var s' := Apply(s, step);
    match step {
      case Call(auth) =>
        assert s'.requests[..|s.requests|] == s.requests;
      case RefreshAnswer(f, ok) =>
      case FirstAnswer(r, _) => WorkUpdate(s.requests, r, s'.requests[r]);
      case Resume(r) => WorkUpdate(s.requests, r, s'.requests[r]);
      case SecondAnswer(r, _) => WorkUpdate(s.requests, r, s'.requests[r]);
    }
  }

  /** A run is never longer than five steps for each request made. */
  lemma {:induction false} RunsEnd(states: seq<State>, steps: seq<Step>, i: nat)
    requires IsRun(states, steps) && i < |states|
    ensures i + Work(states[i]) <= 5 * |states[i].requests|
  {
    if i > 0 {
      RunsEnd(states, steps, i - 1);
      RunInv(states, steps, i - 1);
      hide Inv, Work, Apply, Enabled;
      StepWork(states[i - 1], steps[i - 1]);
    }
  }

  /**
   * The step an unfinished request is waiting for can always be taken, so a run that cannot go on has finished every
   * request.
   */
  lemma NeverStuck(states: seq<State>, steps: seq<Step>, i: nat, r: nat) returns (next: Step)
    requires IsRun(states, steps) && i < |states| && r < |states[i].requests|
    requires !states[i].requests[r].phase.Finished?
    ensures Enabled(states[i], next) && !next.Call?
  {
    RunInv(states, steps, i);
    var s := states[i];
    assert Accounted(s.flights, s.requests[r]);
    match s.requests[r].phase {
      case FirstFetch => next := FirstAnswer(r, false);
      case SecondFetch => next := SecondAnswer(r, false);
      case Waiting(f) => next := if s.flights[f].Pending? then RefreshAnswer(f, false) else Resume(r);
    }
  }
}
