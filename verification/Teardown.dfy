/**
 Bounded teardown of file-backed SQLite sessions: observed within a bound, then
 within a grace period, then abandoned behind a fence and tracked in a registry
 that shutdown drains.
 */
module Teardown {
  import opened Basics

  datatype Kind = Rollback | Close | LateClose

  /** A task driving a session. `reclaimed`, `attached` and `ran` follow an abandoned one to its end. */
  datatype Task = Task(
    session: nat, kind: Kind, live: bool, ok: bool, reclaimed: bool, attached: bool, ran: bool)

  /** Where the coroutine that owns a session stands. */
  datatype Owner = Idle | Observing(task: nat) | Grace(task: nat) | Reclaiming(task: nat)

  /** `abandoned` and `late` name the reclaimed teardown and the deferred close, once there are any. */
  datatype Session = Session(fenced: bool, owner: Owner, abandoned: Option<nat>, late: Option<nat>)

  /** The drain of the registry before engine disposal and again after it. */
  datatype CloseDb = NotClosing | Draining(second: bool, drained: bool) | Disposing(drained: bool) | Returned(drained: bool)

  datatype State = State(
    sessions: seq<Session>, tasks: seq<Task>, registry: set<nat>, closing: CloseDb)

  const INIT := State([], [], {}, NotClosing)

  datatype Event =
    | Open
    | Begin(session: nat, kind: Kind)
    | Complete(task: nat, ok: bool)
    | ObservedDone(session: nat)
    | BoundElapsed(session: nat)
    | GraceSucceeded(session: nat)
    | GraceFailed(session: nat, fenceOk: bool)
    | Attach(session: nat)
    | AbortReclaim(session: nat)
    | RunCallbacks(task: nat)
    | DiscardLate(task: nat)
    | StartClose
    | DrainCheck(elapsed: bool)
    | Disposed

  predicate Enabled(s: State, e: Event) {
    match e
    case Open => true
    case Begin(i, kind) =>
      // A fenced session is left alone, and one coroutine runs its teardown calls one after another.
      i < |s.sessions| && s.sessions[i].owner.Idle? && !s.sessions[i].fenced && !kind.LateClose?
    case Complete(t, _) => t < |s.tasks| && s.tasks[t].live
    case ObservedDone(i) => At(s, i) && s.sessions[i].owner.Observing? && !Live(s, i)
    case BoundElapsed(i) => At(s, i) && s.sessions[i].owner.Observing? && Live(s, i)
    case GraceSucceeded(i) => At(s, i) && s.sessions[i].owner.Grace? && !Live(s, i) && s.tasks[Current(s, i)].ok
    case GraceFailed(i, _) => At(s, i) && s.sessions[i].owner.Grace? && (Live(s, i) || !s.tasks[Current(s, i)].ok)
    case Attach(i) => At(s, i) && s.sessions[i].owner.Reclaiming?
    case AbortReclaim(i) => At(s, i) && s.sessions[i].owner.Reclaiming?
    case RunCallbacks(t) => t < |s.tasks| && !s.tasks[t].live && s.tasks[t].attached && !s.tasks[t].ran &&
                            s.tasks[t].session < |s.sessions|
    case DiscardLate(t) => t < |s.tasks| && !s.tasks[t].live && s.tasks[t].kind.LateClose?
    case StartClose => s.closing.NotClosing?
    case DrainCheck(_) => s.closing.Draining?
    case Disposed => s.closing.Disposing?
  }

  predicate At(s: State, i: nat) {
    i < |s.sessions| && !s.sessions[i].owner.Idle? && s.sessions[i].owner.task < |s.tasks|
  }

  function Current(s: State, i: nat): nat
    requires At(s, i)
  {
    s.sessions[i].owner.task
  }

  predicate Live(s: State, i: nat)
    requires At(s, i)
  {
    s.tasks[Current(s, i)].live
  }

  function SetOwner(s: State, i: nat, owner: Owner): State
    requires i < |s.sessions|
  {
    s.(sessions := s.sessions[i := s.sessions[i].(owner := owner)])
  }

  function NewTask(session: nat, kind: Kind): Task {
    Task(session, kind, true, false, false, false, false)
  }

  /** Fence the session, own the abandoned task, then attempt to free its connections. */
  function Reclaim(s: State, i: nat, fenceOk: bool): State
    requires At(s, i)
  {
    var t := Current(s, i);
    var session := s.sessions[i];
    s.(sessions := s.sessions[i := Session(session.fenced || fenceOk, Reclaiming(t), Some(t), session.late)],
       tasks := s.tasks[t := s.tasks[t].(reclaimed := true)],
       registry := s.registry + {t})
  }

  /** The discard and finish callbacks: deregister, and after a rollback schedule the deferred close. */
  function Callbacks(s: State, t: nat): State
    requires t < |s.tasks| && s.tasks[t].session < |s.sessions|
  {
    var done := s.(registry := s.registry - {t}, tasks := s.tasks[t := s.tasks[t].(ran := true)]);
    if !s.tasks[t].kind.Rollback? then done
    else
      var i, late := s.tasks[t].session, |s.tasks|;
      done.(tasks := done.tasks + [NewTask(i, LateClose)],
            registry := done.registry + {late},
            sessions := s.sessions[i := s.sessions[i].(late := Some(late))])
  }

  function After(s: State, e: Event): State
    requires Enabled(s, e)
  {
    match e
    case Open => s.(sessions := s.sessions + [Session(false, Idle, None, None)])
    case Begin(i, kind) => SetOwner(s.(tasks := s.tasks + [NewTask(i, kind)]), i, Observing(|s.tasks|))
    case Complete(t, ok) => s.(tasks := s.tasks[t := s.tasks[t].(live := false, ok := ok)])
    case ObservedDone(i) => SetOwner(s, i, Idle)
    case BoundElapsed(i) => SetOwner(s, i, Grace(Current(s, i)))
    case GraceSucceeded(i) => SetOwner(s, i, Idle)
    case GraceFailed(i, fenceOk) => Reclaim(s, i, fenceOk)
    case Attach(i) =>
      SetOwner(s.(tasks := s.tasks[Current(s, i) := s.tasks[Current(s, i)].(attached := true)]), i, Idle)
    case AbortReclaim(i) => SetOwner(s, i, Idle)
    case RunCallbacks(t) => Callbacks(s, t)
    case DiscardLate(t) => s.(registry := s.registry - {t})
    case StartClose => s.(closing := Draining(false, true))
    case DrainCheck(elapsed) =>
      if s.registry == {} || elapsed then
        var drained := s.closing.drained && s.registry == {};
        s.(closing := if s.closing.second then Returned(drained) else Disposing(drained))
      else s
    case Disposed => s.(closing := Draining(true, s.closing.drained))
  }

  // ----- whose tasks are whose -----

  /** Owners watch tasks of their own session, and every task has a session. */
  ghost predicate Owned(s: State) {
    && (forall j :: 0 <= j < |s.sessions| && !s.sessions[j].owner.Idle? ==> OwnerOk(s, j))
    && (forall t :: 0 <= t < |s.tasks| ==> s.tasks[t].session < |s.sessions|)
  }

  predicate OwnerOk(s: State, j: nat)
    requires j < |s.sessions| && !s.sessions[j].owner.Idle?
  {
    var t := s.sessions[j].owner.task;
    t < |s.tasks| && s.tasks[t].session == j && !s.tasks[t].kind.LateClose?
  }

  lemma OwnedKept(s: State, e: Event)
    requires Owned(s) && Enabled(s, e)
    ensures Owned(After(s, e))
  {
    var s' := After(s, e);
    forall j | 0 <= j < |s'.sessions| && !s'.sessions[j].owner.Idle? ensures OwnerOk(s', j) {
      if j < |s.sessions| && !s.sessions[j].owner.Idle? { assert OwnerOk(s, j); }
    }
  }

  // ----- at most one driver of a session -----

  /** The one task that may be driving a session. */
  function Driver(session: Session): Option<nat> {
    if session.late.Some? then session.late
    else if session.fenced then session.abandoned
    else if session.owner.Idle? then None
    else Some(session.owner.task)
  }

  predicate SessionOk(s: State, i: nat)
    requires i < |s.sessions|
  {
    var session := s.sessions[i];
    && (session.fenced ==> session.abandoned.Some? && session.abandoned.value < |s.tasks|
                           && s.tasks[session.abandoned.value].session == i)
    && (session.fenced ==> session.owner.Idle? || session.owner == Reclaiming(session.abandoned.value))
    && (session.late.Some? ==> session.fenced && s.tasks[session.abandoned.value].ran)
    && (session.owner.Reclaiming? && session.owner.task < |s.tasks| && !session.fenced ==>
          !s.tasks[session.owner.task].live && !s.tasks[session.owner.task].kind.Rollback?)
  }

  predicate TaskOk(s: State, t: nat)
    requires t < |s.tasks| && s.tasks[t].session < |s.sessions|
  {
    var task, session := s.tasks[t], s.sessions[s.tasks[t].session];
    && (task.live ==> Driver(session) == Some(t))
    && (task.kind.Rollback? && (task.attached || task.ran) ==> session.fenced && session.abandoned == Some(t))
    && (task.ran ==> !task.live)
    && (session.fenced && session.abandoned == Some(t) && !task.ran ==> session.late.None?)
  }

  /** What the session and its own tasks look like while it never was abandoned loosely. */
  ghost predicate Tidy(s: State, i: nat)
    requires i < |s.sessions|
  {
    && SessionOk(s, i)
    && forall t :: 0 <= t < |s.tasks| && s.tasks[t].session == i ==> TaskOk(s, t)
  }

  /** At most one live task drives session `i`. */
  ghost predicate OneDriver(s: State, i: nat) {
    forall t, u :: 0 <= t < u < |s.tasks| && s.tasks[t].live && s.tasks[u].live && s.tasks[t].session == i ==>
                     s.tasks[u].session != i
  }

  lemma TidyMeansOne(s: State, i: nat)
    requires i < |s.sessions| && Tidy(s, i)
    ensures OneDriver(s, i)
  {
    assert forall t :: 0 <= t < |s.tasks| && s.tasks[t].session == i && s.tasks[t].live ==>
                         TaskOk(s, t) && Driver(s.sessions[i]) == Some(t);
  }

  /**
   The event abandons the session's task without a fence, while the task still
   runs or is a rollback, whose deferred close will drive the session again.
   */
  predicate Loose(s: State, e: Event, i: nat) {
    e == GraceFailed(i, false) && At(s, i) && (Live(s, i) || s.tasks[Current(s, i)].kind.Rollback?)
  }

  /** The event has nothing to do with the session: neither it nor a task of it changes. */
  ghost predicate Elsewhere(s: State, s': State, i: nat)
    requires i < |s.sessions|
  {
    && i < |s'.sessions| && s'.sessions[i] == s.sessions[i]
    && |s.tasks| <= |s'.tasks|
    && (forall t :: 0 <= t < |s.tasks| ==> s'.tasks[t].session == s.tasks[t].session)
    && (forall t :: 0 <= t < |s.tasks| && s.tasks[t].session == i ==> s'.tasks[t] == s.tasks[t])
    && (forall t :: |s.tasks| <= t < |s'.tasks| ==> s'.tasks[t].session != i)
  }

  lemma ElsewhereKeeps(s: State, s': State, i: nat)
    requires Owned(s) && Owned(s') && i < |s.sessions| && Tidy(s, i) && Elsewhere(s, s', i)
    ensures Tidy(s', i)
  {
    if !s.sessions[i].owner.Idle? { assert OwnerOk(s, i); }
    forall t | 0 <= t < |s'.tasks| && s'.tasks[t].session == i ensures TaskOk(s', t) {
      assert TaskOk(s, t);
    }
  }

  /** The event is the session's own, or one of its tasks'. */
  predicate Concerns(s: State, e: Event, i: nat) {
    match e
    case Complete(t, _) => t < |s.tasks| && s.tasks[t].session == i
    case RunCallbacks(t) => t < |s.tasks| && s.tasks[t].session == i
    case Begin(j, _) => j == i
    case ObservedDone(j) => j == i
    case BoundElapsed(j) => j == i
    case GraceSucceeded(j) => j == i
    case GraceFailed(j, _) => j == i
    case Attach(j) => j == i
    case AbortReclaim(j) => j == i
    case _ => false
  }

  lemma OthersAreElsewhere(s: State, e: Event, i: nat)
    requires Owned(s) && Enabled(s, e) && i < |s.sessions| && !Concerns(s, e, i)
    ensures Elsewhere(s, After(s, e), i)
  {
    match e
    case GraceFailed(j, _) => assert OwnerOk(s, j);
    case Attach(j) => assert OwnerOk(s, j);
    case _ =>
  }

  lemma BeginKeeps(s: State, i: nat, kind: Kind)
    requires Owned(s) && Enabled(s, Begin(i, kind)) && Tidy(s, i)
    ensures Tidy(After(s, Begin(i, kind)), i)
  {
    var s' := After(s, Begin(i, kind));
    forall t | 0 <= t < |s'.tasks| && s'.tasks[t].session == i ensures TaskOk(s', t) {
      if t < |s.tasks| { assert TaskOk(s, t); }
    }
  }

  lemma ReclaimKeeps(s: State, i: nat, fenceOk: bool)
    requires Owned(s) && Enabled(s, GraceFailed(i, fenceOk)) && Tidy(s, i) && !Loose(s, GraceFailed(i, fenceOk), i)
    ensures Tidy(After(s, GraceFailed(i, fenceOk)), i)
  {
    var s' := After(s, GraceFailed(i, fenceOk));
    assert OwnerOk(s, i);
    forall t | 0 <= t < |s'.tasks| && s'.tasks[t].session == i ensures TaskOk(s', t) { assert TaskOk(s, t); }
  }

  lemma CallbacksKeep(s: State, task: nat)
    requires Owned(s) && Enabled(s, RunCallbacks(task)) && Tidy(s, s.tasks[task].session)
    ensures Tidy(After(s, RunCallbacks(task)), s.tasks[task].session)
  {
    var i, s' := s.tasks[task].session, After(s, RunCallbacks(task));
    assert TaskOk(s, task);
    if !s.sessions[i].owner.Idle? { assert OwnerOk(s, i); }
    forall t | 0 <= t < |s'.tasks| && s'.tasks[t].session == i ensures TaskOk(s', t) {
      if t < |s.tasks| { assert TaskOk(s, t); }
    }
  }

  /** Steps that end a task, or move the owner on. */
  lemma OwnerMoves(s: State, e: Event, i: nat)
    requires Owned(s) && Enabled(s, e) && i < |s.sessions| && Tidy(s, i) && Concerns(s, e, i)
    requires !e.Begin? && !e.GraceFailed? && !e.RunCallbacks?
    ensures Tidy(After(s, e), i)
  {
    var s' := After(s, e);
    if !s.sessions[i].owner.Idle? { assert OwnerOk(s, i); }
    forall t | 0 <= t < |s'.tasks| && s'.tasks[t].session == i ensures TaskOk(s', t) {
      assert TaskOk(s, t);
    }
  }

  /** Every step that does not abandon the session loosely keeps it tidy, whatever happens to other sessions. */
  lemma TidyKept(s: State, e: Event, i: nat)
    requires Owned(s) && Enabled(s, e) && i < |s.sessions| && Tidy(s, i) && !Loose(s, e, i)
    ensures i < |After(s, e).sessions| && Tidy(After(s, e), i)
  {
    if !Concerns(s, e, i) {
      OwnedKept(s, e);
      OthersAreElsewhere(s, e, i);
      ElsewhereKeeps(s, After(s, e), i);
    } else if e.Begin? {
      BeginKeeps(s, i, e.kind);
    } else if e.GraceFailed? {
      ReclaimKeeps(s, i, e.fenceOk);
    } else if e.RunCallbacks? {
      CallbacksKeep(s, e.task);
    } else {
      OwnerMoves(s, e, i);
    }
  }

  /** A fenced session gets no new driver while the abandoned task is still running. */
  lemma FencedIsLeftAlone(s: State, e: Event, i: nat, k: nat)
    requires Enabled(s, e) && i < |s.sessions| && Tidy(s, i) && s.sessions[i].fenced
    requires s.tasks[s.sessions[i].abandoned.value].live
    requires |s.tasks| <= k < |After(s, e).tasks|
    ensures After(s, e).tasks[k].session != i
  {
    assert forall t :: 0 <= t < |s.tasks| && s.tasks[t].session == i && s.tasks[t].kind.Rollback? && s.tasks[t].attached ==>
                         TaskOk(s, t) && s.sessions[i].abandoned == Some(t);
  }

  // ----- the registry -----

  /** Every abandoned task and every deferred close is registered while it runs. */
  ghost predicate Registered(s: State) {
    forall t :: 0 <= t < |s.tasks| && s.tasks[t].live && (s.tasks[t].reclaimed || s.tasks[t].kind.LateClose?) ==>
                  t in s.registry
  }

  lemma RegisteredKept(s: State, e: Event)
    requires Registered(s) && Enabled(s, e)
    ensures Registered(After(s, e))
  {
  }

  /** Shutdown reports a full drain only at a moment when the registry is empty. */
  lemma ReportsDrainedOnlyWhenEmpty(s: State, e: Event)
    requires Enabled(s, e) && !s.closing.Returned? && After(s, e).closing == Returned(true)
    ensures s.registry == {} && After(s, e).registry == {}
  {
  }

  // ----- whole runs -----

  ghost predicate Allowed(s: State, events: seq<Event>)
    decreases events
  {
    events == [] || (Enabled(s, events[0]) && Allowed(After(s, events[0]), events[1..]))
  }

  ghost function Run(s: State, events: seq<Event>): State
    requires Allowed(s, events)
    decreases events
  {
    if events == [] then s else Run(After(s, events[0]), events[1..])
  }

  lemma {:induction false} RunRegistered(s: State, events: seq<Event>)
    requires Allowed(s, events) && Registered(s)
    ensures Registered(Run(s, events))
    decreases events
  {
    if events != [] {
      RegisteredKept(s, events[0]);
      RunRegistered(After(s, events[0]), events[1..]);
    }
  }

  /** The session is never abandoned loosely in the run. */
  ghost predicate NeverLoose(s: State, events: seq<Event>, i: nat)
    requires Allowed(s, events)
    decreases events
  {
    events == [] || (!Loose(s, events[0], i) && NeverLoose(After(s, events[0]), events[1..], i))
  }

  /** The session is tidy, or not opened yet. */
  ghost predicate TidyOrNew(s: State, i: nat) {
    i < |s.sessions| ==> Tidy(s, i)
  }

  lemma TidyOrNewKept(s: State, e: Event, i: nat)
    requires Owned(s) && Enabled(s, e) && TidyOrNew(s, i) && !Loose(s, e, i)
    ensures Owned(After(s, e)) && TidyOrNew(After(s, e), i)
  {
    OwnedKept(s, e);
    if i < |s.sessions| { TidyKept(s, e, i); }
  }

  lemma {:induction false} RunTidy(s: State, events: seq<Event>, i: nat)
    requires Owned(s) && TidyOrNew(s, i) && Allowed(s, events) && NeverLoose(s, events, i)
    ensures TidyOrNew(Run(s, events), i) && Owned(Run(s, events))
    decreases events
  {
    if events != [] {
      TidyOrNewKept(s, events[0], i);
      RunTidy(After(s, events[0]), events[1..], i);
    }
  }

  lemma OneDriverInRun(s: State, events: seq<Event>, i: nat)
    requires Owned(s) && TidyOrNew(s, i) && Allowed(s, events) && NeverLoose(s, events, i)
    ensures OneDriver(Run(s, events), i)
  {
    RunTidy(s, events, i);
    var t := Run(s, events);
    if i < |t.sessions| { TidyMeansOne(t, i); }
  }

  /**
   In every run, each session by itself: while it was never abandoned loosely, at
   most one live task drives it, whatever happened to other sessions. Abandoned
   tasks and deferred closes stay registered to their end in any run.
   */
  lemma TeardownSafe(events: seq<Event>, i: nat)
    requires Allowed(INIT, events)
    ensures NeverLoose(INIT, events, i) ==> OneDriver(Run(INIT, events), i)
    ensures Registered(Run(INIT, events))
  {
    RunRegistered(INIT, events);
    if NeverLoose(INIT, events, i) { OneDriverInRun(INIT, events, i); }
  }

  /** A full-drain report means that no abandoned task and no deferred close is still running. */
  lemma DrainedMeansQuiet(events: seq<Event>, e: Event, t: nat)
    requires Allowed(INIT, events) && Enabled(Run(INIT, events), e)
    requires !Run(INIT, events).closing.Returned? && After(Run(INIT, events), e).closing == Returned(true)
    requires t < |After(Run(INIT, events), e).tasks| && After(Run(INIT, events), e).tasks[t].live
    ensures var task := After(Run(INIT, events), e).tasks[t]; !task.reclaimed && !task.kind.LateClose?
  {
    RunRegistered(INIT, events);
    RegisteredKept(Run(INIT, events), e);
    ReportsDrainedOnlyWhenEmpty(Run(INIT, events), e);
  }

  // ----- what shutdown reports -----

  /** Every drain check of the run that decides finds the registry empty. */
  ghost predicate DecidesEmpty(s: State, events: seq<Event>)
    requires Allowed(s, events)
    decreases events
  {
    events == [] ||
    ((events[0].DrainCheck? && After(s, events[0]).closing != s.closing ==> s.registry == {})
     && DecidesEmpty(After(s, events[0]), events[1..]))
  }

  function DrainedSoFar(c: CloseDb): bool {
    match c
    case NotClosing => true
    case Draining(_, drained) => drained
    case Disposing(drained) => drained
    case Returned(drained) => drained
  }

  lemma {:induction false} DrainedSoFarIff(s: State, events: seq<Event>)
    requires Allowed(s, events)
    ensures DrainedSoFar(Run(s, events).closing) <==> DrainedSoFar(s.closing) && DecidesEmpty(s, events)
    decreases events
  {
    if events != [] {
      DrainedSoFarIff(After(s, events[0]), events[1..]);
    }
  }

  /** Shutdown reports a full drain exactly when the registry was empty at both checks that decided. */
  lemma ReportsDrainedIff(events: seq<Event>)
    requires Allowed(INIT, events) && Run(INIT, events).closing.Returned?
    ensures Run(INIT, events).closing.drained <==> DecidesEmpty(INIT, events)
  {
    DrainedSoFarIff(INIT, events);
  }

  /** With nothing registered shutdown runs to its end and reports a full drain, however the clock stands. */
  lemma QuietShutdownDrains(s: State, first: bool, second: bool)
    requires s.closing.NotClosing? && s.registry == {}
    ensures var events := [StartClose, DrainCheck(first), Disposed, DrainCheck(second)];
            Allowed(s, events) && Run(s, events) == s.(closing := Returned(true))
  {
    var s1 := After(s, StartClose);
    var s2 := After(s1, DrainCheck(first));
    var s3 := After(s2, Disposed);
    var s4 := After(s3, DrainCheck(second));
    var events := [StartClose, DrainCheck(first), Disposed, DrainCheck(second)];
    assert events[1..] == [DrainCheck(first), Disposed, DrainCheck(second)];
    assert events[1..][1..] == [Disposed, DrainCheck(second)];
    assert events[1..][1..][1..] == [DrainCheck(second)];
    assert events[1..][1..][1..][1..] == [];
    assert Allowed(s4, []) && Run(s4, []) == s4;
    assert Allowed(s3, [DrainCheck(second)]) && Run(s3, [DrainCheck(second)]) == s4;
    assert Allowed(s2, [Disposed, DrainCheck(second)]) && Run(s2, [Disposed, DrainCheck(second)]) == s4;
  }

  ghost predicate Leads(s: State, t: State) {
    exists events :: Allowed(s, events) && Run(s, events) == t
  }

  lemma RunFirst(s: State, e: Event, s': State, t: State)
    requires Enabled(s, e) && After(s, e) == s' && Leads(s', t)
    ensures Leads(s, t)
  {
    var events :| Allowed(s', events) && Run(s', events) == t;
    assert ([e] + events)[1..] == events;
    assert Allowed(s, [e] + events) && Run(s, [e] + events) == t;
  }

  // ----- teardowns come to their end -----

  /** A teardown that ends within its bound leaves its session idle and its task over. */
  lemma TeardownCompletes(s: State, i: nat, kind: Kind, ok: bool)
    requires Enabled(s, Begin(i, kind))
    ensures var t := |s.tasks|;
            var end := s.(tasks := s.tasks + [Task(i, kind, false, ok, false, false, false)]);
            Leads(s, end) && end.sessions[i].owner.Idle?
  {
    var t := |s.tasks|;
    var s1 := After(s, Begin(i, kind));
    var s2 := After(s1, Complete(t, ok));
    var s3 := After(s2, ObservedDone(i));
    var end := s.(tasks := s.tasks + [Task(i, kind, false, ok, false, false, false)]);
    assert s3.sessions == s.sessions && s3.tasks == end.tasks;
    assert Allowed(s3, []) && Run(s3, []) == s3;
    RunFirst(s2, ObservedDone(i), s3, s3);
    RunFirst(s1, Complete(t, ok), s2, s3);
    RunFirst(s, Begin(i, kind), s1, s3);
  }

  /** And so does one that ends well within its grace, without ever being registered. */
  lemma GraceCompletes(s: State, i: nat, kind: Kind)
    requires Enabled(s, Begin(i, kind))
    ensures var end := s.(tasks := s.tasks + [Task(i, kind, false, true, false, false, false)]);
            Leads(s, end) && end.sessions[i].owner.Idle?
  {
    var t := |s.tasks|;
    var s1 := After(s, Begin(i, kind));
    var s2 := After(s1, BoundElapsed(i));
    var s3 := After(s2, Complete(t, true));
    var s4 := After(s3, GraceSucceeded(i));
    var end := s.(tasks := s.tasks + [Task(i, kind, false, true, false, false, false)]);
    assert s4.sessions == s.sessions && s4.tasks == end.tasks;
    assert Allowed(s4, []) && Run(s4, []) == s4;
    RunFirst(s3, GraceSucceeded(i), s4, s4);
    RunFirst(s2, Complete(t, true), s3, s4);
    RunFirst(s1, BoundElapsed(i), s2, s4);
    RunFirst(s, Begin(i, kind), s1, s4);
  }

  /** A teardown that is given up is marked as abandoned and registered in the same step. */
  lemma AbandonedIsRegistered(s: State, i: nat, fenceOk: bool)
    requires Enabled(s, GraceFailed(i, fenceOk))
    ensures var t := After(s, GraceFailed(i, fenceOk));
            && t.tasks[Current(s, i)].reclaimed && Current(s, i) in t.registry
            && t.sessions[i].abandoned == Some(Current(s, i)) && (fenceOk ==> t.sessions[i].fenced)
  {
  }

  /** A drain check goes on exactly when the registry is empty or the time is up, and otherwise waits. */
  lemma DrainWaits(s: State, elapsed: bool)
    requires s.closing.Draining?
    ensures After(s, DrainCheck(elapsed)) != s <==> s.registry == {} || elapsed
  {
  }

  /** A rollback that outlives its bound and its grace, fenced or not, can still be brought to its end. */
  lemma AbandonedRollbackEnds(s: State, i: nat, fenceOk: bool)
    requires Enabled(s, Begin(i, Rollback)) && (forall t :: t in s.registry ==> t < |s.tasks|)
    ensures exists end :: Leads(s, end) && end.registry == s.registry && |end.tasks| == |s.tasks| + 2
                          && !end.tasks[|s.tasks|].live && !end.tasks[|s.tasks| + 1].live
                          && end.tasks[|s.tasks| + 1].kind.LateClose? && end.tasks[|s.tasks| + 1].session == i
                          && i < |end.sessions| && end.sessions[i].owner.Idle? && end.sessions[i].fenced == fenceOk
  {
    var t, late := |s.tasks|, |s.tasks| + 1;
    var s1 := After(s, Begin(i, Rollback));
    var s2 := After(s1, BoundElapsed(i));
    var s3 := After(s2, GraceFailed(i, fenceOk));
    var s4 := After(s3, Attach(i));
    var s5 := After(s4, Complete(t, false));
    var end := CallbacksEnd(s5, t);
    assert end.registry == s.registry;
    RunFirst(s4, Complete(t, false), s5, end);
    RunFirst(s3, Attach(i), s4, end);
    RunFirst(s2, GraceFailed(i, fenceOk), s3, end);
    RunFirst(s1, BoundElapsed(i), s2, end);
    RunFirst(s, Begin(i, Rollback), s1, end);
  }

  /** The callbacks, then the deferred close. */
  lemma CallbacksEnd(s: State, t: nat) returns (end: State)
    requires Enabled(s, RunCallbacks(t)) && s.tasks[t].kind.Rollback?
    requires forall u :: u in s.registry ==> u < |s.tasks|
    ensures Leads(s, end) && end.registry == s.registry - {t} && |end.tasks| == |s.tasks| + 1
    ensures end.tasks[t] == s.tasks[t].(ran := true)
    ensures !end.tasks[|s.tasks|].live && end.tasks[|s.tasks|].kind.LateClose?
    ensures end.tasks[|s.tasks|].session == s.tasks[t].session
    ensures |end.sessions| == |s.sessions|
    ensures forall j :: 0 <= j < |s.sessions| ==> end.sessions[j].owner == s.sessions[j].owner
                                                  && end.sessions[j].fenced == s.sessions[j].fenced
  {
    var late := |s.tasks|;
    var s1 := After(s, RunCallbacks(t));
    var s2 := After(s1, Complete(late, true));
    end := After(s2, DiscardLate(late));
    assert end.registry == s.registry - {t};
    assert Allowed(end, []) && Run(end, []) == end;
    RunFirst(s2, DiscardLate(late), end, end);
    RunFirst(s1, Complete(late, true), s2, end);
    RunFirst(s, RunCallbacks(t), s1, end);
  }

  // ----- the deferred close -----

  /** The session of this rollback has got its deferred close. */
  ghost predicate ClosedLater(s: State, t: nat)
    requires t < |s.tasks|
  {
    exists u :: t < u < |s.tasks| && s.tasks[u].kind.LateClose? && s.tasks[u].session == s.tasks[t].session
  }

  ghost predicate ClosesFollow(s: State) {
    forall t :: 0 <= t < |s.tasks| && s.tasks[t].kind.Rollback? && s.tasks[t].ran ==> ClosedLater(s, t)
  }

  lemma ClosesFollowKept(s: State, e: Event)
    requires ClosesFollow(s) && Enabled(s, e)
    ensures ClosesFollow(After(s, e))
  {
    var s' := After(s, e);
    forall t | 0 <= t < |s'.tasks| && s'.tasks[t].kind.Rollback? && s'.tasks[t].ran ensures ClosedLater(s', t) {
      if e.RunCallbacks? && e.task == t {
        assert s'.tasks[|s.tasks|].kind.LateClose?;
      } else {
        assert ClosedLater(s, t);
        var u :| t < u < |s.tasks| && s.tasks[u].kind.LateClose? && s.tasks[u].session == s.tasks[t].session;
        assert s'.tasks[u].kind.LateClose? && s'.tasks[u].session == s'.tasks[t].session;
      }
    }
  }

  lemma {:induction false} RunClosesFollow(s: State, events: seq<Event>)
    requires Owned(s) && ClosesFollow(s) && Allowed(s, events)
    ensures Owned(Run(s, events)) && ClosesFollow(Run(s, events))
    decreases events
  {
    if events != [] {
      OwnedKept(s, events[0]);
      ClosesFollowKept(s, events[0]);
      RunClosesFollow(After(s, events[0]), events[1..]);
    }
  }

  /**
   In every run, a rollback that was abandoned, fenced or not, and has ended gets
   a deferred close of its session: it has one already, or its callbacks are due
   and give it one, live and registered.
   */
  lemma DeferredCloseFollows(events: seq<Event>, t: nat)
    requires Allowed(INIT, events) && t < |Run(INIT, events).tasks|
    requires var task := Run(INIT, events).tasks[t]; task.kind.Rollback? && task.attached && !task.live
    ensures var s := Run(INIT, events);
            if s.tasks[t].ran then ClosedLater(s, t)
            else && Enabled(s, RunCallbacks(t))
                 && var s' := After(s, RunCallbacks(t));
                    var late := |s.tasks|;
                    && late in s'.registry && |s'.tasks| == late + 1
                    && s'.tasks[late].live && s'.tasks[late].kind.LateClose?
                    && s'.tasks[late].session == s.tasks[t].session && ClosedLater(s', t)
  {
    RunClosesFollow(INIT, events);
    var s := Run(INIT, events);
    if !s.tasks[t].ran {
      ClosesFollowKept(s, RunCallbacks(t));
      assert After(s, RunCallbacks(t)).tasks[t].ran;
    }
  }

  // ----- an aborted reclaim -----

  /** Nobody will run the task's callbacks: it is registered, and no owner is left to attach them. */
  ghost predicate Stranded(s: State, t: nat) {
    && t < |s.tasks| && t in s.registry && !s.tasks[t].attached && !s.tasks[t].kind.LateClose?
    && forall j :: 0 <= j < |s.sessions| && !s.sessions[j].owner.Idle? ==> s.sessions[j].owner.task != t
  }

  /** While a reclaim is under way its task is registered and has no callbacks yet. */
  ghost predicate ReclaimsRegistered(s: State) {
    forall j :: 0 <= j < |s.sessions| && !s.sessions[j].owner.Idle? ==> ReclaimOk(s, s.sessions[j].owner)
  }

  predicate ReclaimOk(s: State, owner: Owner) {
    !owner.Idle? && owner.task < |s.tasks| && !s.tasks[owner.task].attached &&
    (owner.Reclaiming? ==> owner.task in s.registry)
  }

  lemma ReclaimsKept(s: State, e: Event)
    requires Owned(s) && ReclaimsRegistered(s) && Enabled(s, e)
    ensures ReclaimsRegistered(After(s, e))
  {
    var s' := After(s, e);
    forall j | 0 <= j < |s'.sessions| && !s'.sessions[j].owner.Idle? ensures ReclaimOk(s', s'.sessions[j].owner) {
      if j < |s.sessions| && !s.sessions[j].owner.Idle? {
        assert OwnerOk(s, j) && ReclaimOk(s, s.sessions[j].owner);
        if e.Attach? { assert OwnerOk(s, e.session); }
      }
    }
  }

  lemma {:induction false} RunReclaims(s: State, events: seq<Event>)
    requires Owned(s) && ReclaimsRegistered(s) && Allowed(s, events)
    ensures Owned(Run(s, events)) && ReclaimsRegistered(Run(s, events))
    decreases events
  {
    if events != [] {
      OwnedKept(s, events[0]);
      ReclaimsKept(s, events[0]);
      RunReclaims(After(s, events[0]), events[1..]);
    }
  }

  lemma AbortStrands(s: State, i: nat)
    requires Owned(s) && ReclaimsRegistered(s) && Enabled(s, AbortReclaim(i))
    ensures Stranded(After(s, AbortReclaim(i)), Current(s, i))
  {
    assert OwnerOk(s, i) && ReclaimOk(s, s.sessions[i].owner);
    forall j | 0 <= j < |s.sessions| && j != i && !s.sessions[j].owner.Idle?
      ensures s.sessions[j].owner.task != Current(s, i)
    {
      assert OwnerOk(s, j);
    }
  }

  lemma StrandedStays(s: State, e: Event, t: nat)
    requires Stranded(s, t) && Enabled(s, e)
    ensures Stranded(After(s, e), t)
    ensures !s.closing.Returned? ==> After(s, e).closing != Returned(true)
  {
  }

  lemma {:induction false} StrandedForGood(s: State, events: seq<Event>, t: nat)
    requires Stranded(s, t) && Allowed(s, events)
    ensures t in Run(s, events).registry
    ensures s.closing != Returned(true) ==> Run(s, events).closing != Returned(true)
    decreases events
  {
    if events != [] {
      StrandedStays(s, events[0], t);
      StrandedForGood(After(s, events[0]), events[1..], t);
    }
  }

  /**
   In every run: once a reclaim is cut short before its callbacks are attached,
   its task stays registered for good, and shutdown never reports a full drain.
   */
  lemma AbortedNeverDrains(events: seq<Event>, i: nat, later: seq<Event>)
    requires Allowed(INIT, events) && Enabled(Run(INIT, events), AbortReclaim(i))
    requires Allowed(After(Run(INIT, events), AbortReclaim(i)), later)
    ensures var s := After(Run(INIT, events), AbortReclaim(i));
            && Current(Run(INIT, events), i) in Run(s, later).registry
            && (s.closing != Returned(true) ==> Run(s, later).closing != Returned(true))
  {
    RunReclaims(INIT, events);
    AbortStrands(Run(INIT, events), i);
    StrandedForGood(After(Run(INIT, events), AbortReclaim(i)), later, Current(Run(INIT, events), i));
  }

  // ----- without the fence -----

  /** The fence is what it rests on: if writing it fails, a second task can drive the session beside the first. */
  lemma UnfencedSessionIsDrivenTwice()
    ensures exists events :: Allowed(INIT, events) && !OneDriver(Run(INIT, events), 0)
  {
    var s0 := After(INIT, Open);
    var s1 := After(s0, Begin(0, Rollback));
    var s2 := After(s1, BoundElapsed(0));
    var s3 := After(s2, GraceFailed(0, false));
    var s4 := After(s3, Attach(0));
    var s5 := After(s4, Begin(0, Close));
    assert Allowed(s5, []) && Run(s5, []) == s5;
    RunFirst(s4, Begin(0, Close), s5, s5);
    RunFirst(s3, Attach(0), s4, s5);
    RunFirst(s2, GraceFailed(0, false), s3, s5);
    RunFirst(s1, BoundElapsed(0), s2, s5);
    RunFirst(s0, Begin(0, Rollback), s1, s5);
    RunFirst(INIT, Open, s0, s5);
    assert s5.tasks[0].live && s5.tasks[1].live && s5.tasks[0].session == s5.tasks[1].session == 0;
  }

  /** Whatever follows, unless the session is abandoned loosely again, it has at most one driver. */
  ghost predicate SafeFrom(s: State, i: nat) {
    forall events :: Allowed(s, events) && NeverLoose(s, events, i) ==> OneDriver(Run(s, events), i)
  }

  /** The running task is joined by the session's next teardown. */
  lemma RunningIsJoined(s: State, i: nat)
    requires At(s, i) && s.sessions[i].owner.Reclaiming? && !s.sessions[i].fenced
    requires Live(s, i) && s.tasks[Current(s, i)].session == i
    ensures !SafeFrom(s, i)
  {
    var s1 := After(s, Attach(i));
    var s2 := After(s1, Begin(i, Close));
    var last := [Begin(i, Close)];
    var events := [Attach(i)] + last;
    assert last[1..] == [] && events[1..] == last;
    assert Allowed(s2, []) && Run(s2, []) == s2 && NeverLoose(s2, [], i);
    assert Allowed(s1, last) && Run(s1, last) == s2 && NeverLoose(s1, last, i);
    assert Allowed(s, events) && Run(s, events) == s2 && NeverLoose(s, events, i);
    var t, u := Current(s, i), |s.tasks|;
    assert s2.tasks[t].live && s2.tasks[u].live && s2.tasks[t].session == i == s2.tasks[u].session;
  }

  /** The deferred close of a failed rollback is joined by the session's next teardown. */
  lemma DeferredIsJoined(s: State, i: nat)
    requires At(s, i) && s.sessions[i].owner.Reclaiming? && !s.sessions[i].fenced && !Live(s, i)
    requires s.tasks[Current(s, i)].session == i && s.tasks[Current(s, i)].kind.Rollback? && !s.tasks[Current(s, i)].ran
    ensures !SafeFrom(s, i)
  {
    var t := Current(s, i);
    var s1 := After(s, Attach(i));
    var s2 := After(s1, RunCallbacks(t));
    var s3 := After(s2, Begin(i, Close));
    var e2 := [Begin(i, Close)];
    var e1 := [RunCallbacks(t)] + e2;
    var e0 := [Attach(i)] + e1;
    assert e2[1..] == [] && e1[1..] == e2 && e0[1..] == e1;
    assert Allowed(s3, []) && Run(s3, []) == s3 && NeverLoose(s3, [], i);
    assert Allowed(s2, e2) && Run(s2, e2) == s3 && NeverLoose(s2, e2, i);
    assert Allowed(s1, e1) && Run(s1, e1) == s3 && NeverLoose(s1, e1, i);
    assert Allowed(s, e0) && Run(s, e0) == s3 && NeverLoose(s, e0, i);
    var u, v := |s.tasks|, |s.tasks| + 1;
    assert s3.tasks[u].live && s3.tasks[v].live && s3.tasks[u].session == i == s3.tasks[v].session;
  }

  /**
   Abandoning a session's task leaves that session safe exactly when the fence is
   set, or the task is a close that has already ended.
   */
  lemma FenceDecides(s: State, i: nat, fenceOk: bool)
    requires Owned(s) && i < |s.sessions| && Tidy(s, i) && Enabled(s, GraceFailed(i, fenceOk))
    ensures SafeFrom(After(s, GraceFailed(i, fenceOk)), i) <==>
            fenceOk || (!Live(s, i) && s.tasks[Current(s, i)].kind.Close?)
  {
    var e := GraceFailed(i, fenceOk);
    var t := After(s, e);
    assert OwnerOk(s, i) && TaskOk(s, Current(s, i));
    if !Loose(s, e, i) {
      TidyOrNewKept(s, e, i);
      forall events | Allowed(t, events) && NeverLoose(t, events, i) ensures OneDriver(Run(t, events), i) {
        OneDriverInRun(t, events, i);
      }
    } else if Live(s, i) {
      RunningIsJoined(t, i);
    } else {
      DeferredIsJoined(t, i);
    }
  }
}
