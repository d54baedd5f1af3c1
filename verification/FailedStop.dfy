/**
 A run in which a stop that reports failure has still extended the deadline a
 begin returned: the signal lands between the clear and the re-check.
 */
module FailedStop {
  import opened Basics
  import opened Shutdown

  ghost predicate Reachable(s: State) {
    exists events :: Allowed(INIT, events) && Run(INIT, events) == s
  }

  lemma {:induction false} RunExtends(s: State, events: seq<Event>, e: Event)
    requires Allowed(s, events) && Enabled(Run(s, events), e)
    ensures Allowed(s, events + [e]) && Run(s, events + [e]) == After(Run(s, events), e)
    decreases events
  {
    if events == [] {
      assert events + [e] == [e];
    } else {
      assert (events + [e])[0] == events[0] && (events + [e])[1..] == events[1..] + [e];
      RunExtends(After(s, events[0]), events[1..], e);
    }
  }

  lemma ReachableStep(s: State, e: Event)
    requires Reachable(s) && Enabled(s, e)
    ensures Reachable(After(s, e))
  {
    var events :| Allowed(INIT, events) && Run(INIT, events) == s;
    RunExtends(INIT, events, e);
  }

  /** A reachable state whose top frame goes on to `f'` leads to the state after that step. */
  lemma Advance(s: State, below: seq<Frame>, f: Frame, g': Globals, f': Frame)
    requires Reachable(s) && !s.crashed && s.stack == below + [f] && !ClearsUncommitted(s.globals, f)
    requires StepFrame(s.globals, f, 0.0) == (g', Next(f'))
    ensures Reachable(s.(globals := g', stack := below + [f']))
  {
    ReachableStep(s, Step(0.0));
    assert s.stack[..|s.stack| - 1] == below;
  }

  /** A drain with deadline 10 has begun. */
  const DRAINING := INIT.(globals := Globals(true, Some(10.0), true, false, [], true), drainResults := {10.0})

  function BeginAt(g: Globals, pc: BeginPc): State {
    INIT.(globals := g, stack := [] + [Begin(10.0, None, pc)])
  }

  lemma BeginStarts()
    ensures Reachable(BeginAt(RESET.(deadline := Some(10.0)), BeginDraining))
  {
    var g := RESET;
    assert Allowed(INIT, []) && Run(INIT, []) == INIT;
    ReachableStep(INIT, CallBegin(10.0, None));
    Advance(BeginAt(g, BeginTest), [], Begin(10.0, None, BeginTest), g, Begin(10.0, None, BeginCompute));
    Advance(BeginAt(g, BeginCompute), [], Begin(10.0, None, BeginCompute), g, Begin(10.0, None, BeginCompare(10.0)));
    Advance(BeginAt(g, BeginCompare(10.0)), [], Begin(10.0, None, BeginCompare(10.0)), g,
            Begin(10.0, None, BeginAssign(10.0)));
    Advance(BeginAt(g, BeginAssign(10.0)), [], Begin(10.0, None, BeginAssign(10.0)), g.(deadline := Some(10.0)),
            Begin(10.0, None, BeginDraining));
  }

  lemma BeginMarks()
    ensures Reachable(BeginAt(DRAINING.globals, BeginRead(TestDeadline)))
  {
    BeginStarts();
    var g := RESET.(deadline := Some(10.0));
    Advance(BeginAt(g, BeginDraining), [], Begin(10.0, None, BeginDraining), g.(draining := true),
            Begin(10.0, None, BeginBridge));
    Advance(BeginAt(g.(draining := true), BeginBridge), [], Begin(10.0, None, BeginBridge),
            g.(draining := true, bridge := true), Begin(10.0, None, BeginStarted));
    var h := DRAINING.globals;
    Advance(BeginAt(g.(draining := true, bridge := true), BeginStarted), [], Begin(10.0, None, BeginStarted), h,
            Begin(10.0, None, BeginRead(TestDeadline)));
  }

  lemma BeginFinishes()
    ensures Reachable(DRAINING)
  {
    BeginMarks();
    var h := DRAINING.globals;
    Advance(BeginAt(h, BeginRead(TestDeadline)), [], Begin(10.0, None, BeginRead(TestDeadline)), h,
            Begin(10.0, None, BeginRead(TestCandidates)));
    Advance(BeginAt(h, BeginRead(TestCandidates)), [], Begin(10.0, None, BeginRead(TestCandidates)), h,
            Begin(10.0, None, BeginRead(ReadDeadline)));
    Advance(BeginAt(h, BeginRead(ReadDeadline)), [], Begin(10.0, None, BeginRead(ReadDeadline)), h,
            Begin(10.0, None, BeginCheck(10.0)));
    Advance(BeginAt(h, BeginCheck(10.0)), [], Begin(10.0, None, BeginCheck(10.0)), h,
            Begin(10.0, None, BeginReturn(10.0)));
    ReachableStep(BeginAt(h, BeginReturn(10.0)), Step(0.0));
    assert StepTop(BeginAt(h, BeginReturn(10.0)), 0.0) == DRAINING;
  }

  /** A stop has just cleared it. */
  const CLEARED := INIT.(globals := Globals(false, None, false, false, [], true), stack := [Stop(StopBridge)])

  lemma StopClears()
    ensures Reachable(CLEARED)
  {
    BeginFinishes();
    ReachableStep(DRAINING, CallStop);
    var g := DRAINING.globals;
    var s := DRAINING.(stack := [] + [Stop(StopTest)]);
    Advance(s, [], Stop(StopTest), g, Stop(StopStarted));
    Advance(s.(stack := [] + [Stop(StopStarted)]), [], Stop(StopStarted), g.(started := false), Stop(StopDraining));
    Advance(s.(globals := g.(started := false), stack := [] + [Stop(StopDraining)]), [], Stop(StopDraining),
            g.(started := false, draining := false), Stop(StopClear));
    var u := s.(globals := g.(started := false, draining := false), stack := [] + [Stop(StopClear)]);
    ReachableStep(u, Step(0.0));
    assert StepTop(u, 0.0) == CLEARED;
  }

  function CommitAt(g: Globals, pc: CommitPc): State {
    CLEARED.(globals := g, stack := [Stop(StopBridge)] + [Commit(30.0, None, pc)])
  }

  lemma SignalCommits()
    ensures Reachable(CommitAt(CLEARED.globals.(candidates := [30.0], committed := true), CommitDraining))
  {
    StopClears();
    ReachableStep(CLEARED, Signal(30.0, None));
    var g, below := CLEARED.globals, [Stop(StopBridge)];
    Advance(CommitAt(g, CommitTest), below, Commit(30.0, None, CommitTest), g, Commit(30.0, None, CommitCompute));
    Advance(CommitAt(g, CommitCompute), below, Commit(30.0, None, CommitCompute), g,
            Commit(30.0, None, CommitAppend(30.0)));
    assert [] + [30.0] == [30.0];
    var h := g.(candidates := [30.0]);
    Advance(CommitAt(g, CommitAppend(30.0)), below, Commit(30.0, None, CommitAppend(30.0)), h,
            Commit(30.0, None, CommitTestDeadline));
    Advance(CommitAt(h, CommitTestDeadline), below, Commit(30.0, None, CommitTestDeadline), h,
            Commit(30.0, None, CommitCommitted));
    Advance(CommitAt(h, CommitCommitted), below, Commit(30.0, None, CommitCommitted), h.(committed := true),
            Commit(30.0, None, CommitDraining));
  }

  /** A signal has then committed a shutdown with deadline 30. */
  const COMMITTED := CLEARED.(globals := Globals(true, None, true, true, [30.0], true), commitResults := {30.0})

  lemma SignalReturns()
    ensures Reachable(COMMITTED)
  {
    SignalCommits();
    var g, below := CLEARED.globals.(candidates := [30.0], committed := true), [Stop(StopBridge)];
    var h := g.(draining := true);
    Advance(CommitAt(g, CommitDraining), below, Commit(30.0, None, CommitDraining), h, Commit(30.0, None, CommitBridge));
    Advance(CommitAt(h, CommitBridge), below, Commit(30.0, None, CommitBridge), h, Commit(30.0, None, CommitStarted));
    var k := h.(started := true);
    Advance(CommitAt(h, CommitStarted), below, Commit(30.0, None, CommitStarted), k,
            Commit(30.0, None, CommitRead(TestDeadline)));
    Advance(CommitAt(k, CommitRead(TestDeadline)), below, Commit(30.0, None, CommitRead(TestDeadline)), k,
            Commit(30.0, None, CommitRead(TestNoCandidates)));
    Advance(CommitAt(k, CommitRead(TestNoCandidates)), below, Commit(30.0, None, CommitRead(TestNoCandidates)), k,
            Commit(30.0, None, CommitRead(MinCandidates)));
    Advance(CommitAt(k, CommitRead(MinCandidates)), below, Commit(30.0, None, CommitRead(MinCandidates)), k,
            Commit(30.0, None, CommitReturn(30.0)));
    ReachableStep(CommitAt(k, CommitReturn(30.0)), Step(0.0));
    assert StepTop(CommitAt(k, CommitReturn(30.0)), 0.0) == COMMITTED;
  }

  /** The stop has then seen the commit and returned. */
  const EXTENDED := COMMITTED.(globals := COMMITTED.globals.(bridge := false), stack := [], stopResults := [false])

  function StopAt(pc: StopPc): State {
    COMMITTED.(globals := COMMITTED.globals.(bridge := false), stack := [] + [Stop(pc)])
  }

  lemma StopRechecks()
    ensures Reachable(StopAt(StopAssert))
  {
    SignalReturns();
    var c, h := COMMITTED.(stack := [] + [Stop(StopBridge)]), COMMITTED.globals.(bridge := false);
    assert c == COMMITTED;
    Advance(c, [], Stop(StopBridge), h, Stop(StopRecheck));
    Advance(StopAt(StopRecheck), [], Stop(StopRecheck), h, Stop(StopAssert));
  }

  lemma StopFails()
    ensures Reachable(EXTENDED)
  {
    StopRechecks();
    var h := COMMITTED.globals.(bridge := false);
    Advance(StopAt(StopAssert), [], Stop(StopAssert), h, Stop(StopRestart));
    Advance(StopAt(StopRestart), [], Stop(StopRestart), h, Stop(StopResult));
    ReachableStep(StopAt(StopResult), Step(0.0));
    assert StepTop(StopAt(StopResult), 0.0) == EXTENDED;
  }

  /**
   A begin returned 10, the only stop since then returned false, and yet the
   effective deadline is 30: the stop had cleared the deadline before the signal.
   */
  lemma FailedStopExtends()
    ensures Reachable(DRAINING) && 10.0 in DRAINING.drainResults
    ensures Reachable(EXTENDED) && EXTENDED.stack == [] && EXTENDED.stopResults == [false]
    ensures Effective(EXTENDED.globals) == Some(30.0) && !AtMost(EXTENDED.globals, 10.0)
  {
    BeginFinishes();
    StopFails();
  }
}
