/**
 The same calls as an object with mutable fields, each run without interruption.
 Every method is tied to the step model: its effect is exactly what the steps of
 its frame do when no signal arrives in between.
 */
module DrainState {
  import opened Basics
  import opened Shutdown

  /** How many steps a read has left. */
  function ReadRank(at: ReadPc): nat {
    match at
    case TestDeadline => 3
    case TestNoCandidates => 2
    case TestCandidates => 2
    case _ => 1
  }

  function Rank(f: Frame): nat {
    match f
    case Begin(_, _, BeginTest) => 20
    case Begin(_, _, FastDraining) => 6
    case Begin(_, _, FastBridge) => 5
    case Begin(_, _, FastRead(at)) => 1 + ReadRank(at)
    case Begin(_, _, BeginCompute) => 19
    case Begin(_, _, BeginCompare(_)) => 18
    case Begin(_, _, BeginAssign(_)) => 17
    case Begin(_, _, BeginDraining) => 16
    case Begin(_, _, BeginBridge) => 15
    case Begin(_, _, BeginStarted) => 14
    case Begin(_, _, BeginRead(at)) => 4 + ReadRank(at)
    case Begin(_, _, BeginCheck(_)) => 3
    case Begin(_, _, BeginPromote(_)) => 2
    case Begin(_, _, BeginReturn(_)) => 1
    case Commit(_, _, CommitTest) => 20
    case Commit(_, _, CommitCompute) => 19
    case Commit(_, _, CommitAppend(_)) => 18
    case Commit(_, _, CommitTestDeadline) => 17
    case Commit(_, _, CommitPromote) => 16
    case Commit(_, _, CommitCommitted) => 15
    case Commit(_, _, CommitDraining) => 14
    case Commit(_, _, CommitBridge) => 13
    case Commit(_, _, CommitStarted) => 12
    case Commit(_, _, CommitRead(at)) => 1 + ReadRank(at)
    case Commit(_, _, CommitReturn(_)) => 1
    case Stop(StopTest) => 9
    case Stop(StopStarted) => 8
    case Stop(StopDraining) => 7
    case Stop(StopClear) => 6
    case Stop(StopBridge) => 5
    case Stop(StopRecheck) => 4
    case Stop(StopAssert) => 3
    case Stop(StopRestart) => 2
    case Stop(StopResult) => 1
  }

  lemma RankFalls(g: Globals, f: Frame, now: real)
    ensures StepFrame(g, f, now).1.Next? ==> Rank(StepFrame(g, f, now).1.frame) < Rank(f)
  {
  }

  /** The frame runs to its end with no signal in between. */
  function Alone(g: Globals, f: Frame, now: real): (Globals, Outcome)
    decreases Rank(f)
  {
    var (g', o) := StepFrame(g, f, now);
    RankFalls(g, f, now);
    if o.Next? then Alone(g', o.frame, now) else (g', o)
  }

  lemma AloneNext(g: Globals, f: Frame, now: real, g': Globals, f': Frame)
    requires StepFrame(g, f, now) == (g', Next(f'))
    ensures Alone(g, f, now) == Alone(g', f', now)
  {
  }

  lemma ReadAlone(g: Globals, timeout: real, explicit: Option<real>, now: real)
    requires HasDeadline(g)
    ensures Alone(g, Begin(timeout, explicit, FastRead(TestDeadline)), now) ==
            Alone(g, Begin(timeout, explicit, BeginReturn(Effective(g).value)), now)
    ensures Alone(g, Begin(timeout, explicit, BeginRead(TestDeadline)), now) ==
            Alone(g, Begin(timeout, explicit, BeginCheck(Effective(g).value)), now)
    ensures Alone(g, Commit(timeout, explicit, CommitRead(TestDeadline)), now) ==
            Alone(g, Commit(timeout, explicit, CommitReturn(Effective(g).value)), now)
  {
    var second := if g.deadline.None? then TestNoCandidates else TestCandidates;
    var third := if g.deadline.None? then MinCandidates else if g.candidates == [] then ReadDeadline else MinBoth;
    assert ReadStep(g, TestDeadline) == Reading(second) && ReadStep(g, second) == Reading(third);
    assert ReadStep(g, third) == Value(Effective(g).value);
    assert Alone(g, Begin(timeout, explicit, FastRead(second)), now) ==
           Alone(g, Begin(timeout, explicit, FastRead(third)), now);
    assert Alone(g, Begin(timeout, explicit, BeginRead(second)), now) ==
           Alone(g, Begin(timeout, explicit, BeginRead(third)), now);
    assert Alone(g, Commit(timeout, explicit, CommitRead(second)), now) ==
           Alone(g, Commit(timeout, explicit, CommitRead(third)), now);
  }

  /** What a begin leaves behind. */
  function Begun(g: Globals, timeout: real, explicit: Option<real>, now: real): Globals {
    if g.started && explicit.None? then
      g.(draining := true, bridge := true)
    else
      var d := NewCandidate(timeout, explicit, now);
      var h := g.(deadline := Some(if g.deadline.None? then d else Min(d, g.deadline.value)),
                  draining := true, bridge := true, started := true);
      if g.committed then h.(candidates := h.candidates + [Effective(h).value]) else h
  }

  lemma BeginAlone(g: Globals, timeout: real, explicit: Option<real>, now: real)
    requires GlobalsOk(g)
    ensures var h := Begun(g, timeout, explicit, now);
            Effective(h).Some? && Alone(g, Begin(timeout, explicit, BeginTest), now) == (h, Done(Effective(h).value))
  {
    if g.started && explicit.None? {
      FastBeginAlone(g, timeout, explicit, now);
    } else {
      SlowBeginAlone(g, timeout, explicit, now);
    }
  }

  lemma FastBeginAlone(g: Globals, timeout: real, explicit: Option<real>, now: real)
    requires GlobalsOk(g) && g.started && explicit.None?
    ensures var h := g.(draining := true, bridge := true);
            Effective(h).Some? && Alone(g, Begin(timeout, explicit, BeginTest), now) == (h, Done(Effective(h).value))
  {
    var h := g.(draining := true, bridge := true);
    FastFlags(g, Begin(timeout, explicit, BeginTest), now);
    ReadAlone(h, timeout, explicit, now);
    ReturnAlone(h, timeout, explicit, now, Effective(h).value);
  }

  lemma FastFlags(g: Globals, f: Frame, now: real)
    requires f.Begin? && f.begin.BeginTest? && g.started && f.explicit.None?
    ensures Alone(g, f, now) == Alone(g.(draining := true, bridge := true), f.(begin := FastRead(TestDeadline)), now)
  {
    var g1 := g.(draining := true);
    AloneNext(g, f, now, g, f.(begin := FastDraining));
    AloneNext(g, f.(begin := FastDraining), now, g1, f.(begin := FastBridge));
    AloneNext(g1, f.(begin := FastBridge), now, g1.(bridge := true), f.(begin := FastRead(TestDeadline)));
  }

  lemma ReturnAlone(g: Globals, timeout: real, explicit: Option<real>, now: real, d: real)
    ensures Alone(g, Begin(timeout, explicit, BeginReturn(d)), now) == (g, Done(d))
  {
  }

  lemma SlowBeginAlone(g: Globals, timeout: real, explicit: Option<real>, now: real)
    requires GlobalsOk(g) && !(g.started && explicit.None?)
    ensures var h := Begun(g, timeout, explicit, now);
            Effective(h).Some? && Alone(g, Begin(timeout, explicit, BeginTest), now) == (h, Done(Effective(h).value))
  {
    var d := NewCandidate(timeout, explicit, now);
    var g1 := g.(deadline := Some(if g.deadline.None? then d else Min(d, g.deadline.value)));
    assert Alone(g, Begin(timeout, explicit, BeginTest), now) ==
           Alone(g, Begin(timeout, explicit, BeginCompute), now) ==
           Alone(g, Begin(timeout, explicit, BeginCompare(d)), now) ==
           Alone(g1, Begin(timeout, explicit, BeginDraining), now);
    BeginRest(g1, timeout, explicit, now);
  }

  /** A begin keeps the state consistent and never moves the effective deadline later. */
  lemma BegunIsEarlier(g: Globals, timeout: real, explicit: Option<real>, now: real)
    requires GlobalsOk(g) && (g.committed ==> Promoted(g))
    ensures var h := Begun(g, timeout, explicit, now);
            && GlobalsOk(h) && (h.committed ==> Promoted(h)) && Effective(h).Some?
            && (Effective(g).Some? ==> Effective(h).value <= Effective(g).value)
  {
    if !(g.started && explicit.None?) {
      var d := NewCandidate(timeout, explicit, now);
      var h := g.(deadline := Some(if g.deadline.None? then d else Min(d, g.deadline.value)),
                  draining := true, bridge := true, started := true);
      PromotedKeeps(h);
    }
  }

  lemma BeginRest(g: Globals, timeout: real, explicit: Option<real>, now: real)
    requires g.deadline.Some?
    ensures var h := g.(draining := true, bridge := true, started := true);
            var k := if g.committed then h.(candidates := h.candidates + [Effective(h).value]) else h;
            && Effective(k).Some?
            && Alone(g, Begin(timeout, explicit, BeginDraining), now) == (k, Done(Effective(k).value))
  {
    var h := g.(draining := true, bridge := true, started := true);
    assert Alone(g, Begin(timeout, explicit, BeginDraining), now) ==
           Alone(g.(draining := true), Begin(timeout, explicit, BeginBridge), now) ==
           Alone(g.(draining := true, bridge := true), Begin(timeout, explicit, BeginStarted), now) ==
           Alone(h, Begin(timeout, explicit, BeginRead(TestDeadline)), now);
    ReadAlone(h, timeout, explicit, now);
    PromotedKeeps(h);
    CheckAlone(h, timeout, explicit, now, Effective(h).value);
  }

  lemma CheckAlone(g: Globals, timeout: real, explicit: Option<real>, now: real, d: real)
    ensures Alone(g, Begin(timeout, explicit, BeginCheck(d)), now) ==
            (if g.committed then g.(candidates := g.candidates + [d]) else g, Done(d))
  {
    var h := g.(candidates := g.candidates + [d]);
    if g.committed {
      assert Alone(g, Begin(timeout, explicit, BeginCheck(d)), now) ==
             Alone(g, Begin(timeout, explicit, BeginPromote(d)), now) ==
             Alone(h, Begin(timeout, explicit, BeginReturn(d)), now);
    } else {
      assert Alone(g, Begin(timeout, explicit, BeginCheck(d)), now) ==
             Alone(g, Begin(timeout, explicit, BeginReturn(d)), now);
    }
  }

  /** Promoting the effective deadline does not change it, and makes the candidates cover it. */
  lemma PromotedKeeps(g: Globals)
    requires HasDeadline(g)
    ensures Effective(g.(candidates := g.candidates + [Effective(g).value])) == Effective(g)
    ensures Promoted(g.(candidates := g.candidates + [Effective(g).value]))
  {
    var e := Effective(g).value;
    var more := g.candidates + [e];
    assert e in more;
    assert forall c :: c in more <==> c in g.candidates || c == e;
  }

  // ----- which deadline a call publishes -----

  /**
   The earliest of the call's own deadline, now plus the timeout, the explicit
   deadline if there is one and the effective deadline there was, if any.
   */
  predicate Earliest(d: real, timeout: real, explicit: Option<real>, now: real, before: Option<real>) {
    var own := now + if timeout < 0.0 then 0.0 else timeout;
    && d <= own && (explicit.Some? ==> d <= explicit.value) && (before.Some? ==> d <= before.value)
    && (d == own || explicit == Some(d) || before == Some(d))
  }

  lemma MinOfMore(s: seq<real>, c: real)
    ensures MinOf(s + [c]) == if s == [] then c else Min(MinOf(s), c)
  {
    assert c in s + [c] && forall x :: x in s + [c] <==> x in s || x == c;
  }

  lemma EffectiveOfMore(g: Globals, c: real)
    ensures Effective(g.(candidates := g.candidates + [c])) ==
            Some(if Effective(g).None? then c else Min(Effective(g).value, c))
  {
    MinOfMore(g.candidates, c);
  }

  /** A begin that computes a deadline publishes the earliest, and any other the one in force. */
  lemma BegunIsEarliest(g: Globals, timeout: real, explicit: Option<real>, now: real)
    requires GlobalsOk(g)
    ensures var h := Begun(g, timeout, explicit, now);
            && Effective(h).Some?
            && if g.started && explicit.None? then Effective(h) == Effective(g)
               else Earliest(Effective(h).value, timeout, explicit, now, Effective(g))
  {
    if !(g.started && explicit.None?) {
      var d := NewCandidate(timeout, explicit, now);
      var h := g.(deadline := Some(if g.deadline.None? then d else Min(d, g.deadline.value)),
                  draining := true, bridge := true, started := true);
      PromotedKeeps(h);
    }
  }

  lemma CommittedIsEarliest(g: Globals, timeout: real, explicit: Option<real>, now: real)
    requires GlobalsOk(g)
    ensures var h := Committed(g, timeout, explicit, now);
            && Effective(h).Some?
            && if g.committed && explicit.None? then Effective(h) == Effective(g)
               else Earliest(Effective(h).value, timeout, explicit, now, Effective(g))
  {
    if !(g.committed && explicit.None?) {
      var d := NewCandidate(timeout, explicit, now);
      var published := g.(candidates := g.candidates + [d]);
      EffectiveOfMore(g, d);
      if g.deadline.Some? {
        EffectiveOfMore(published, g.deadline.value);
      }
    }
  }

  /** What a commit leaves behind. */
  function Committed(g: Globals, timeout: real, explicit: Option<real>, now: real): Globals {
    if g.committed && explicit.None? then
      g
    else
      var published := g.candidates + [NewCandidate(timeout, explicit, now)];
      g.(candidates := if g.deadline.Some? then published + [g.deadline.value] else published,
         committed := true, draining := true, bridge := true, started := true)
  }

  /** A commit keeps the state consistent, covers the reversible deadline and never moves the effective one later. */
  lemma CommittedIsEarlier(g: Globals, timeout: real, explicit: Option<real>, now: real)
    requires GlobalsOk(g) && (g.committed ==> Promoted(g))
    ensures var h := Committed(g, timeout, explicit, now);
            && GlobalsOk(h) && h.committed && Promoted(h)
            && (Effective(g).Some? ==> AtMost(h, Effective(g).value))
  {
    var h := Committed(g, timeout, explicit, now);
    if !(g.committed && explicit.None?) && g.deadline.Some? {
      MinOfAppend(g.candidates + [NewCandidate(timeout, explicit, now)], g.deadline.value);
    }
    if Effective(g).Some? {
      GrowsKeeps(g, h, Effective(g).value);
    }
  }

  lemma CommitAlone(g: Globals, timeout: real, explicit: Option<real>, now: real)
    requires GlobalsOk(g)
    ensures var h := Committed(g, timeout, explicit, now);
            Effective(h).Some? && Alone(g, Commit(timeout, explicit, CommitTest), now) == (h, Done(Effective(h).value))
  {
    if g.committed && explicit.None? {
      ReadAlone(g, timeout, explicit, now);
    } else {
      var d := NewCandidate(timeout, explicit, now);
      var g1 := g.(candidates := g.candidates + [d]);
      assert Alone(g, Commit(timeout, explicit, CommitTest), now) ==
             Alone(g, Commit(timeout, explicit, CommitCompute), now) ==
             Alone(g, Commit(timeout, explicit, CommitAppend(d)), now) ==
             Alone(g1, Commit(timeout, explicit, CommitTestDeadline), now);
      var g2 := if g.deadline.Some? then g1.(candidates := g1.candidates + [g.deadline.value]) else g1;
      assert Alone(g1, Commit(timeout, explicit, CommitTestDeadline), now) ==
             Alone(g2, Commit(timeout, explicit, CommitCommitted), now);
      CommitRest(g2, timeout, explicit, now);
    }
  }

  lemma CommitRest(g: Globals, timeout: real, explicit: Option<real>, now: real)
    requires g.candidates != []
    ensures var h := g.(committed := true, draining := true, bridge := true, started := true);
            Alone(g, Commit(timeout, explicit, CommitCommitted), now) == (h, Done(Effective(h).value))
  {
    var g1 := g.(committed := true, draining := true);
    assert Alone(g, Commit(timeout, explicit, CommitCommitted), now) ==
           Alone(g1, Commit(timeout, explicit, CommitBridge), now);
    var h := g1.(bridge := true, started := true);
    assert Alone(g1, Commit(timeout, explicit, CommitBridge), now) ==
           Alone(h, Commit(timeout, explicit, CommitRead(TestDeadline)), now);
    ReadAlone(h, timeout, explicit, now);
  }

  lemma StopAlone(g: Globals, now: real)
    requires GlobalsOk(g)
    ensures Alone(g, Stop(StopTest), now) ==
            if g.committed then (g, Stopped(false))
            else (g.(started := false, draining := false, deadline := None, bridge := false), Stopped(true))
  {
    if !g.committed {
      var h := g.(started := false, draining := false);
      assert Alone(g, Stop(StopTest), now) == Alone(h, Stop(StopClear), now);
      var k := h.(deadline := None, bridge := false);
      assert Alone(h, Stop(StopClear), now) == Alone(k, Stop(StopRecheck), now);
    }
  }

  class Drain {
    var draining: bool
    var deadline: Option<real>
    var started: bool
    var committed: bool
    var candidates: seq<real>
    var bridge: bool

    ghost function Snapshot(): Globals
      reads this
    {
      Globals(draining, deadline, started, committed, candidates, bridge)
    }

    ghost predicate Valid()
      reads this
    {
      GlobalsOk(Snapshot()) && (committed ==> Promoted(Snapshot()))
    }

    constructor ()
      ensures Valid() && Snapshot() == RESET
    {
      draining, deadline, started, committed, candidates, bridge := false, None, false, false, [], false;
    }

    method ResetState()
      modifies this
      ensures Valid() && Snapshot() == RESET
    {
      draining, deadline, started, committed, candidates, bridge := false, None, false, false, [], false;
    }

    /** The least of the reversible deadline and the committed candidates, if there are any. */
    method EffectiveDeadline() returns (d: Option<real>)
      ensures d.None? <==> deadline.None? && candidates == []
      ensures d.Some? ==> d == deadline || d.value in candidates
      ensures d.Some? && deadline.Some? ==> d.value <= deadline.value
      ensures d.Some? ==> forall c :: c in candidates ==> d.value <= c
      ensures d == Effective(Snapshot())
    {
      if deadline.None? {
        if candidates != [] {
          d := Some(MinOf(candidates));
        } else {
          d := None;
        }
      } else if candidates == [] {
        d := deadline;
      } else {
        d := Some(Min(deadline.value, MinOf(candidates)));
      }
    }

    method BeginDrain(timeout: real, explicit: Option<real>, now: real) returns (d: real)
      requires Valid()
      modifies this
      ensures Valid()
      ensures (Snapshot(), Done(d)) == Alone(old(Snapshot()), Begin(timeout, explicit, BeginTest), now)
      ensures Effective(Snapshot()) == Some(d)
      ensures old(Effective(Snapshot())).Some? ==> d <= old(Effective(Snapshot())).value
      ensures if old(started) && explicit.None? then old(Effective(Snapshot())) == Some(d)
              else Earliest(d, timeout, explicit, now, old(Effective(Snapshot())))
    {
      BegunIsEarliest(Snapshot(), timeout, explicit, now);
      BeginAlone(Snapshot(), timeout, explicit, now);
      BegunIsEarlier(Snapshot(), timeout, explicit, now);
      d := PublishDrain(timeout, explicit, now);
    }

    method PublishDrain(timeout: real, explicit: Option<real>, now: real) returns (d: real)
      requires Valid()
      modifies this
      ensures Snapshot() == Begun(old(Snapshot()), timeout, explicit, now) && Effective(Snapshot()) == Some(d)
    {
      var e;
      if started && explicit.None? {
        draining := true;
        bridge := true;
        e := EffectiveDeadline();
        assert e.Some?;
        return e.value;
      }
      d := NewCandidate(timeout, explicit, now);
      if deadline.None? || d < deadline.value {
        deadline := Some(d);
      }
      draining := true;
      bridge := true;
      started := true;
      e := EffectiveDeadline();
      assert e.Some?;
      d := e.value;
      if committed {
        PromotedKeeps(Snapshot());
        candidates := candidates + [d];
      }
    }

    method CommitShutdown(timeout: real, explicit: Option<real>, now: real) returns (d: real)
      requires Valid()
      modifies this
      ensures Valid() && committed
      ensures (Snapshot(), Done(d)) == Alone(old(Snapshot()), Commit(timeout, explicit, CommitTest), now)
      ensures Effective(Snapshot()) == Some(d) && Promoted(Snapshot())
      ensures old(Effective(Snapshot())).Some? ==> d <= old(Effective(Snapshot())).value
      ensures if old(committed) && explicit.None? then old(Effective(Snapshot())) == Some(d)
              else Earliest(d, timeout, explicit, now, old(Effective(Snapshot())))
    {
      CommittedIsEarliest(Snapshot(), timeout, explicit, now);
      CommitAlone(Snapshot(), timeout, explicit, now);
      CommittedIsEarlier(Snapshot(), timeout, explicit, now);
      d := PublishShutdown(timeout, explicit, now);
    }

    method PublishShutdown(timeout: real, explicit: Option<real>, now: real) returns (d: real)
      requires Valid()
      modifies this
      ensures Snapshot() == Committed(old(Snapshot()), timeout, explicit, now) && Effective(Snapshot()) == Some(d)
    {
      var e;
      if committed && explicit.None? {
        e := EffectiveDeadline();
        assert e.Some?;
        return e.value;
      }
      candidates := candidates + [NewCandidate(timeout, explicit, now)];
      if deadline.Some? {
        candidates := candidates + [deadline.value];
      }
      committed := true;
      draining := true;
      bridge := true;
      started := true;
      e := EffectiveDeadline();
      assert e.Some?;
      d := e.value;
    }

    method StopDrain() returns (ok: bool)
      requires Valid()
      modifies this
      ensures Valid()
      ensures (Snapshot(), Stopped(ok)) == Alone(old(Snapshot()), Stop(StopTest), 0.0)
      ensures ok == !old(committed)
      ensures !ok ==> Snapshot() == old(Snapshot())
    {
      StopAlone(Snapshot(), 0.0);
      if committed {
        return false;
      }
      started := false;
      draining := false;
      deadline := None;
      bridge := false;
      // Only a signal between the clears and here could have committed meanwhile.
      ok := !committed;
    }
  }
}
