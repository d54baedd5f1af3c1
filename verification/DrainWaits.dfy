/**
 The two waits on the shared drain deadline, over a real-valued clock with exact
 sleeps: the preStop hook polling a draining server from outside, and the
 server waiting for its own requests in flight.
 */
module DrainWaits {
  import opened Basics

  const REQUEST_TIMEOUT := 2.0

  function Max(a: real, b: real): real {
    if a <= b then b else a
  }

  /** How many more sleeps of `poll` fit before the deadline. */
  function SleepsLeft(now: real, deadline: real, poll: real): nat
    requires poll > 0.0
  {
    if now >= deadline then 0 else FloorNonNegative(deadline - now, poll); ((deadline - now) / poll).Floor + 1
  }

  lemma FloorNonNegative(span: real, poll: real)
    requires span > 0.0 && poll > 0.0
    ensures (span / poll).Floor >= 0
  {
    assert span / poll > 0.0;
  }

  lemma DivideSooner(a: real, b: real, poll: real)
    requires poll > 0.0 && a + poll <= b
    ensures a / poll + 1.0 <= b / poll
  {
    assert (b - a) / poll >= 1.0;
    assert b / poll - a / poll == (b - a) / poll;
  }

  /** A sleep of `poll`, or of all the time left, brings the count down. */
  lemma SleepCountsDown(now: real, later: real, deadline: real, deadline': real, poll: real)
    requires poll > 0.0 && now < deadline && deadline' <= deadline
    requires later >= now + poll || later >= deadline'
    ensures SleepsLeft(later, deadline', poll) < SleepsLeft(now, deadline, poll)
  {
    if later < deadline' {
      DivideSooner(deadline' - later, deadline - now, poll);
    }
  }

  // ----- the preStop hook -----

  datatype Reply = Reply(took: real, draining: bool, inFlight: int) | Broken(took: real)

  /**
   The hook's parameters and what it meets: `lag` is the time that passes before
   each clock reading, `start` the deadline the server agreed to, if the drain
   request succeeded, and `replies` the answers to the status requests in turn.
   */
  datatype Env = Env(dwell: real, timeout: real, poll: real, began: real, lag: nat -> real,
                     start: Option<real>, startTook: real, replies: nat -> Reply)

  ghost predicate Timed(e: Env) {
    (forall k :: e.lag(k) >= 0.0) && e.startTook >= 0.0 && forall k :: e.replies(k).took >= 0.0
  }

  predicate ValidParameters(e: Env) {
    0.0 <= e.dwell <= e.timeout && e.timeout > 0.0 && e.poll > 0.0
  }

  datatype Outcome = Drained | TimedOut | Raised

  function Started(e: Env): real {
    e.began + e.lag(0)
  }

  /** When the drain request is made, if there is time left for it. */
  function Requested(e: Env): real {
    Started(e) + e.lag(1)
  }

  function OwnDeadline(e: Env): real {
    Started(e) + e.timeout
  }

  /** The shared deadline: the hook's own, or the earlier one the server answered with. */
  function Deadline(e: Env): real {
    if e.start.Some? then Min(OwnDeadline(e), e.start.value) else OwnDeadline(e)
  }

  /** The clock at the top of round `k`, and when its reply is looked at, if the rounds before it went on. */
  function Asked(e: Env, k: nat): real
    decreases k, 0
  {
    if k == 0 then Requested(e) + e.startTook + e.lag(2)
    else CheckedAt(e, k - 1) + Nap(e, k - 1) + e.lag(2 * k + 2)
  }

  function CheckedAt(e: Env, k: nat): real
    decreases k, 1
  {
    Asked(e, k) + e.replies(k).took + e.lag(2 * k + 3)
  }

  function Nap(e: Env, k: nat): real
    decreases k, 2
  {
    Min(e.poll, Deadline(e) - CheckedAt(e, k))
  }

  /** The reply came, and from a draining server. */
  predicate Good(r: Reply) {
    r.Reply? && r.draining
  }

  /** The dwell is over and nothing is in flight. */
  predicate QuietAt(e: Env, k: nat) {
    Good(e.replies(k)) && CheckedAt(e, k) - Started(e) >= e.dwell && e.replies(k).inFlight == 0
  }

  /** Round `k` ends in a sleep. */
  predicate GoesOn(e: Env, k: nat) {
    Asked(e, k) < Deadline(e) && Good(e.replies(k)) && CheckedAt(e, k) < Deadline(e) && !QuietAt(e, k)
  }

  /** How a round that does not go on ends, and when. */
  function Verdict(e: Env, k: nat): (Outcome, real) {
    if Asked(e, k) >= Deadline(e) then (TimedOut, Asked(e, k))
    else if !Good(e.replies(k)) then (Raised, Asked(e, k) + e.replies(k).took)
    else if CheckedAt(e, k) >= Deadline(e) then (TimedOut, CheckedAt(e, k))
    else (Drained, CheckedAt(e, k))
  }

  /** What the hook does, with the clock reading it acts on. */
  datatype Action =
    | StartDrain(at: real, budget: real)
    | GetStatus(at: real, budget: real)
    | Sleep(at: real, budget: real)

  function Status(e: Env, k: nat): Action {
    GetStatus(Asked(e, k), Min(REQUEST_TIMEOUT, Deadline(e) - Asked(e, k)))
  }

  /** The requests and sleeps of `k` rounds that went on. */
  function Rounds(e: Env, k: nat): seq<Action> {
    if k == 0 then [StartDrain(Requested(e), Min(REQUEST_TIMEOUT, OwnDeadline(e) - Requested(e)))]
    else Rounds(e, k - 1) + [Status(e, k - 1), Sleep(CheckedAt(e, k - 1), Nap(e, k - 1))]
  }

  /** The rounds before the last, and its request if there was still time for one. */
  function Actions(e: Env, k: nat): seq<Action> {
    if Asked(e, k) < Deadline(e) then Rounds(e, k) + [Status(e, k)] else Rounds(e, k)
  }

  /** The most an action may take by itself. */
  function Cap(e: Env, a: Action): real {
    if a.Sleep? then e.poll else 2.0
  }

  /** The action is given some time, its cap or all there is, and none past the hook's own deadline or the server's. */
  predicate InTime(e: Env, a: Action) {
    var own := e.began + e.lag(0) + e.timeout;
    && 0.0 < a.budget <= Cap(e, a) && a.at + a.budget <= own
    && (!a.StartDrain? && e.start.Some? ==> a.at + a.budget <= e.start.value)
    && (a.budget == Cap(e, a) || a.at + a.budget == own || (e.start.Some? && a.at + a.budget == e.start.value))
  }

  ghost predicate AllInTime(e: Env, actions: seq<Action>) {
    forall i :: 0 <= i < |actions| ==> InTime(e, actions[i])
  }

  /** The first `k` rounds went on. */
  ghost predicate AllGoOn(e: Env, k: nat) {
    forall i :: 0 <= i < k ==> GoesOn(e, i)
  }

  /** Nothing the hook does is budgeted past the shared deadline. */
  lemma {:induction false} RoundsInTime(e: Env, k: nat)
    requires ValidParameters(e) && Requested(e) < OwnDeadline(e) && AllGoOn(e, k)
    ensures AllInTime(e, Rounds(e, k))
  {
    if k > 0 {
      RoundsInTime(e, k - 1);
      assert GoesOn(e, k - 1);
      var last := [Status(e, k - 1), Sleep(CheckedAt(e, k - 1), Nap(e, k - 1))];
      assert InTime(e, last[0]) && InTime(e, last[1]);
    }
  }

  lemma ActionsInTime(e: Env, k: nat)
    requires ValidParameters(e) && Requested(e) < OwnDeadline(e) && AllGoOn(e, k)
    ensures AllInTime(e, Actions(e, k))
  {
    RoundsInTime(e, k);
    if Asked(e, k) < Deadline(e) { assert InTime(e, Status(e, k)); }
  }

  /** A round that goes on takes at least a poll interval, or ends at the deadline. */
  lemma RoundTakesTime(e: Env, k: nat)
    requires Timed(e) && ValidParameters(e) && GoesOn(e, k)
    ensures Asked(e, k + 1) >= Asked(e, k) + e.poll || Asked(e, k + 1) >= Deadline(e)
  {
  }

  lemma RoundCountsDown(e: Env, k: nat)
    requires Timed(e) && ValidParameters(e) && GoesOn(e, k) && Asked(e, k) < Deadline(e)
    ensures SleepsLeft(Asked(e, k + 1), Deadline(e), e.poll) < SleepsLeft(Asked(e, k), Deadline(e), e.poll)
  {
    RoundTakesTime(e, k);
    SleepCountsDown(Asked(e, k), Asked(e, k + 1), Deadline(e), Deadline(e), e.poll);
  }

  /** One round: a status request, its check, and a sleep unless it was the last. */
  method Round(e: Env, k: nat, now: real) returns (over: Option<Outcome>, later: real, actions: seq<Action>)
    requires now == Asked(e, k) < Deadline(e)
    ensures actions == if GoesOn(e, k) then [Status(e, k), Sleep(CheckedAt(e, k), Nap(e, k))] else [Status(e, k)]
    ensures GoesOn(e, k) ==> over.None? && later == Asked(e, k + 1)
    ensures !GoesOn(e, k) ==> over.Some? && (over.value, later) == Verdict(e, k)
  {
    actions := [GetStatus(now, Min(REQUEST_TIMEOUT, Deadline(e) - now))];
    var reply := e.replies(k);
    if reply.Broken? || !reply.draining {
      return Some(Raised), now + reply.took, actions;
    }
    var checked := now + reply.took + e.lag(2 * k + 3);
    if checked >= Deadline(e) {
      return Some(TimedOut), checked, actions;
    }
    if checked - Started(e) >= e.dwell && reply.inFlight == 0 {
      return Some(Drained), checked, actions;
    }
    var nap := Min(e.poll, Deadline(e) - checked);
    actions := actions + [Sleep(checked, nap)];
    over, later := None, checked + nap + e.lag(2 * k + 4);
  }

  /** The rounds up to the first that does not go on. */
  method PollUntilOver(e: Env) returns (r: Outcome, ended: real, rounds: nat, actions: seq<Action>)
    requires Timed(e) && ValidParameters(e)
    ensures AllGoOn(e, rounds) && !GoesOn(e, rounds) && (r, ended) == Verdict(e, rounds)
    ensures actions == Actions(e, rounds)
  {
    var now := Asked(e, 0);
    rounds, actions := 0, Rounds(e, 0);
    while Deadline(e) - now > 0.0
      invariant AllGoOn(e, rounds) && now == Asked(e, rounds) && actions == Rounds(e, rounds)
      decreases SleepsLeft(now, Deadline(e), e.poll)
    {
      var over, later, more := Round(e, rounds, now);
      actions := actions + more;
      if over.Some? {
        return over.value, later, rounds, actions;
      }
      RoundCountsDown(e, rounds);
      now, rounds := later, rounds + 1;
    }
    return TimedOut, now, rounds, actions;
  }

  /** What a round that went on found: a draining server, time left, and the dwell not over or something in flight. */
  predicate NotYet(e: Env, j: nat) {
    && e.replies(j).Reply? && e.replies(j).draining && CheckedAt(e, j) < Deadline(e)
    && (CheckedAt(e, j) < Started(e) + e.dwell || e.replies(j).inFlight != 0)
  }

  function LagSum(e: Env, n: nat): real {
    if n == 0 then 0.0 else LagSum(e, n - 1) + e.lag(n - 1)
  }

  function ReplySum(e: Env, k: nat): real {
    if k == 0 then 0.0 else ReplySum(e, k - 1) + e.replies(k - 1).took
  }

  function NapSum(e: Env, k: nat): real {
    if k == 0 then 0.0 else NapSum(e, k - 1) + Nap(e, k - 1)
  }

  /** The clock adds up: everything that took time before round `k`, and nothing else. */
  lemma {:induction false} ClockAddsUp(e: Env, k: nat)
    ensures Asked(e, k) == e.began + e.startTook + LagSum(e, 2 * k + 3) + ReplySum(e, k) + NapSum(e, k)
  {
    if k == 0 {
      assert LagSum(e, 3) == LagSum(e, 2) + e.lag(2) && LagSum(e, 2) == LagSum(e, 1) + e.lag(1);
    } else {
      ClockAddsUp(e, k - 1);
      assert LagSum(e, 2 * k + 3) == LagSum(e, 2 * k + 2) + e.lag(2 * k + 2);
      assert LagSum(e, 2 * k + 2) == LagSum(e, 2 * k + 1) + e.lag(2 * k + 1);
    }
  }

  lemma {:induction false} RoundsLength(e: Env, k: nat)
    ensures |Rounds(e, k)| == 2 * k + 1
  {
    if k > 0 { RoundsLength(e, k - 1); }
  }

  lemma WentOn(e: Env, k: nat)
    requires AllGoOn(e, k)
    ensures forall j :: 0 <= j < k ==> NotYet(e, j)
  {
    forall j | 0 <= j < k ensures NotYet(e, j) {
      assert GoesOn(e, j);
    }
  }

  /**
   Terminates. Bad parameters raise before anything is sent, a failed drain
   request raises, and otherwise the first round that does not go on decides.
   */
  method RunPrestop(e: Env) returns (r: Outcome, ended: real, rounds: nat, actions: seq<Action>)
    requires Timed(e)
    ensures !ValidParameters(e) ==> r.Raised? && actions == []
    ensures ValidParameters(e) && Requested(e) >= OwnDeadline(e) ==>
              r.TimedOut? && ended == Requested(e) && actions == []
    ensures ValidParameters(e) && Requested(e) < OwnDeadline(e) && e.start.None? ==>
              r.Raised? && ended == Requested(e) + e.startTook && actions == Rounds(e, 0)
    ensures ValidParameters(e) && Requested(e) < OwnDeadline(e) && e.start.Some? ==>
              AllGoOn(e, rounds) && !GoesOn(e, rounds) && (r, ended) == Verdict(e, rounds) && actions == Actions(e, rounds)
    ensures r.Drained? ==> QuietAt(e, rounds) && ended == CheckedAt(e, rounds) < Deadline(e)
    ensures r.Raised? && actions == [] <==> e.dwell < 0.0 || e.dwell > e.timeout || e.timeout <= 0.0 || e.poll <= 0.0
    ensures r.Raised? && actions != [] ==>
              e.start.None? || e.replies(rounds).Broken? || !e.replies(rounds).draining
    ensures r.Drained? ==> e.replies(rounds).Reply? && e.replies(rounds).draining && e.replies(rounds).inFlight == 0
                           && ended >= Started(e) + e.dwell
                           && |actions| == 2 * rounds + 2 && actions[2 * rounds + 1].GetStatus?
    ensures actions != [] && e.start.Some? ==>
              forall j :: 0 <= j < rounds ==> NotYet(e, j)
    ensures r.TimedOut? ==> ended >= if actions == [] then OwnDeadline(e) else Deadline(e)
    ensures r.TimedOut? ==> ended >= e.began + e.lag(0) + e.timeout ||
                            (actions != [] && e.start.Some? && ended >= e.start.value)
    ensures r.Drained? ==> ended < e.began + e.lag(0) + e.timeout && e.start.Some? && ended < e.start.value
    ensures AllInTime(e, actions)
  {
    if !ValidParameters(e) {
      return Raised, e.began, 0, [];
    }
    var now := Requested(e);
    if OwnDeadline(e) - now <= 0.0 {
      return TimedOut, now, 0, [];
    }
    if e.start.None? {
      RoundsInTime(e, 0);
      return Raised, now + e.startTook, 0, [StartDrain(now, Min(REQUEST_TIMEOUT, OwnDeadline(e) - now))];
    }
    r, ended, rounds, actions := PollUntilOver(e);
    ActionsInTime(e, rounds);
    WentOn(e, rounds);
    RoundsLength(e, rounds);
  }

  // ----- waiting for requests in flight -----

  function Tighter(deadline: real, shared: Option<real>): real {
    if shared.Some? then Min(deadline, shared.value) else deadline
  }

  /** From time `t` on a deadline at or below `d` is published. */
  ghost predicate Published(shared: real -> Option<real>, t: real, d: real) {
    forall x :: x >= t ==> shared(x).Some? && shared(x).value <= d
  }

  /** A deadline published while the wait is on ends it by then, or one poll after the publication. */
  ghost predicate Heeds(shared: real -> Option<real>, began: real, poll: real, now: real) {
    forall t, d :: began <= t && Published(shared, t, d) ==> now <= Max(d, t + poll)
  }

  lemma SleepHeeds(shared: real -> Option<real>, began: real, poll: real, now: real, deadline: real, later: real)
    requires Heeds(shared, began, poll, now) && began <= now && poll > 0.0
    requires deadline <= Tighter(deadline, shared(now)) && later <= now + poll && later <= deadline
    ensures Heeds(shared, began, poll, later)
  {
  }

  /** A deadline the wait was given: its own, or one it saw published. */
  ghost predicate Given(began: real, timeout: real, shared: real -> Option<real>, ended: real, deadline: real) {
    deadline == began + Max(timeout, 0.0) || exists x :: began <= x <= ended && shared(x) == Some(deadline)
  }

  /** Busy and not aborted at each look but the last, and never more than a poll interval between looks. */
  predicate Polled(looks: seq<real>, poll: real, inFlight: real -> nat, abort: real -> bool) {
    forall i :: 0 <= i < |looks| - 1 ==>
      inFlight(looks[i]) > 0 && !abort(looks[i]) && looks[i] < looks[i + 1] <= looks[i] + poll
  }

  /** What the wait keeps: when it looked, and that its deadline was given to it and heeded. */
  ghost predicate Waiting(began: real, timeout: real, poll: real, shared: real -> Option<real>, inFlight: real -> nat,
                          abort: real -> bool, looks: seq<real>, deadline: real) {
    && looks != [] && looks[0] == began && Polled(looks, poll, inFlight, abort)
    && began <= looks[|looks| - 1] && Heeds(shared, began, poll, looks[|looks| - 1])
    && Given(began, timeout, shared, looks[|looks| - 1], deadline)
  }

  lemma DeadlineTightens(began: real, timeout: real, shared: real -> Option<real>, now: real, deadline: real)
    requires began <= now && Given(began, timeout, shared, now, deadline)
    ensures Given(began, timeout, shared, now, Tighter(deadline, shared(now)))
  {
  }

  lemma GivenLater(began: real, timeout: real, shared: real -> Option<real>, now: real, later: real, deadline: real)
    requires now <= later && Given(began, timeout, shared, now, deadline)
    ensures Given(began, timeout, shared, later, deadline)
  {
  }

  lemma LookAgain(looks: seq<real>, poll: real, inFlight: real -> nat, abort: real -> bool, later: real)
    requires looks != [] && Polled(looks, poll, inFlight, abort)
    requires var now := looks[|looks| - 1]; inFlight(now) > 0 && !abort(now) && now < later <= now + poll
    ensures Polled(looks + [later], poll, inFlight, abort)
  {
  }

  lemma WaitGoesOn(began: real, timeout: real, poll: real, shared: real -> Option<real>, inFlight: real -> nat,
                   abort: real -> bool, looks: seq<real>, deadline: real, later: real)
    requires poll > 0.0 && Waiting(began, timeout, poll, shared, inFlight, abort, looks, deadline)
    requires var now := looks[|looks| - 1];
             inFlight(now) > 0 && !abort(now) && deadline == Tighter(deadline, shared(now)) && deadline > now
             && later == now + Min(poll, deadline - now)
    ensures Waiting(began, timeout, poll, shared, inFlight, abort, looks + [later], deadline)
  {
    var now := looks[|looks| - 1];
    LookAgain(looks, poll, inFlight, abort, later);
    SleepHeeds(shared, began, poll, now, deadline, later);
    GivenLater(began, timeout, shared, now, later, deadline);
  }

  /**
   The clock moves only by the sleeps; `shared`, `inFlight` and `abort` say what
   is seen at each time, and `looks` are the times the wait looks.
   */
  method WaitForInFlightDrain(began: real, timeout: real, poll: real, shared: real -> Option<real>,
                              inFlight: real -> nat, abort: real -> bool)
    returns (drained: bool, ended: real, deadline: real, looks: seq<real>)
    requires poll > 0.0
    ensures looks != [] && looks[0] == began && looks[|looks| - 1] == ended && Polled(looks, poll, inFlight, abort)
    ensures drained <==> inFlight(ended) == 0
    ensures !drained ==> abort(ended) || ended >= deadline
    ensures !drained && !abort(ended) ==> Given(began, timeout, shared, ended, deadline)
    ensures began <= ended <= Max(began, Tighter(began + Max(timeout, 0.0), shared(began)))
    ensures ended <= began + (if timeout < 0.0 then 0.0 else timeout)
    ensures Heeds(shared, began, poll, ended)
    ensures deadline <= Tighter(began + Max(timeout, 0.0), shared(began))
    ensures !drained && !abort(ended) ==> deadline == Tighter(deadline, shared(ended))
  {
    var now := began;
    deadline := Tighter(now + Max(timeout, 0.0), shared(now));
    looks := [began];
    ghost var initial := deadline;
    while inFlight(now) > 0
      invariant deadline <= initial && now <= Max(began, initial) && looks != [] && now == looks[|looks| - 1]
      invariant Waiting(began, timeout, poll, shared, inFlight, abort, looks, deadline)
      decreases SleepsLeft(now, deadline, poll)
    {
      if abort(now) {
        return false, now, deadline, looks;
      }
      ghost var before := deadline;
      DeadlineTightens(began, timeout, shared, now, deadline);
      deadline := Tighter(deadline, shared(now));
      var remaining := deadline - now;
      if remaining <= 0.0 {
        break;
      }
      var later := now + Min(poll, remaining);
      SleepCountsDown(now, later, before, deadline, poll);
      WaitGoesOn(began, timeout, poll, shared, inFlight, abort, looks, deadline, later);
      now, looks := later, looks + [later];
    }
    drained, ended := inFlight(now) == 0, now;
  }
}
