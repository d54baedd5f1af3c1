/**
 A deadline handed to a call by its caller bounds what the call returns, however
 often handlers commit shutdown in between.
 */
module ExplicitDeadline {
  import opened Basics
  import opened Shutdown

  predicate BeginWithin(g: Globals, x: real, pc: BeginPc) {
    match pc
    case BeginTest => true
    case BeginCompute => true
    case BeginCompare(d) => d <= x
    case BeginAssign(d) => d <= x
    case BeginRead(at) => g.deadline.Some? && g.deadline.value <= x && !at.TestNoCandidates? && !at.MinCandidates?
    case BeginCheck(d) => d <= x
    case BeginPromote(d) => d <= x
    case BeginReturn(d) => d <= x
    case FastDraining => false
    case FastBridge => false
    case FastRead(_) => false
    case _ => g.deadline.Some? && g.deadline.value <= x
  }

  predicate CandidateWithin(g: Globals, x: real) {
    g.candidates != [] && MinOf(g.candidates) <= x
  }

  predicate CommitWithin(g: Globals, x: real, pc: CommitPc) {
    match pc
    case CommitTest => true
    case CommitCompute => true
    case CommitAppend(d) => d <= x
    case CommitRead(at) => CandidateWithin(g, x) && !at.ReadDeadline?
    case CommitReturn(d) => d <= x
    case _ => CandidateWithin(g, x)
  }

  /** What a frame with an explicit deadline has computed or published is no later. */
  predicate Within(g: Globals, f: Frame) {
    match f
    case Begin(_, Some(x), pc) => BeginWithin(g, x, pc)
    case Commit(_, Some(x), pc) => CommitWithin(g, x, pc)
    case _ => true
  }

  lemma CandidateStays(g: Globals, g': Globals, x: real)
    requires Publishes(g, g') && CandidateWithin(g, x)
    ensures CandidateWithin(g', x)
  {
    MinOfExtension(g.candidates, g'.candidates);
  }

  lemma WithinStable(g: Globals, g': Globals, f: Frame)
    requires Within(g, f) && Publishes(g, g')
    ensures Within(g', f)
  {
    if f.Commit? && f.explicit.Some? && CandidateWithin(g, f.explicit.value) {
      CandidateStays(g, g', f.explicit.value);
    }
  }

  /** The step's own outcome: a later program point that is within, or a result that is. */
  predicate OutcomeWithin(g: Globals, f: Frame, o: Outcome) {
    && (o.Next? ==> Within(g, o.frame))
    && (o.Done? && !f.Stop? && f.explicit.Some? ==> o.d <= f.explicit.value)
  }

  lemma BeginStepWithin(g: Globals, f: Frame, now: real)
    requires f.Begin? && Within(g, f)
    ensures OutcomeWithin(BeginStep(g, f, now).0, f, BeginStep(g, f, now).1)
  {
    if f.explicit.Some? && f.begin.BeginRead? { BeginReadWithin(g, f, now); }
  }

  lemma BeginReadWithin(g: Globals, f: Frame, now: real)
    requires f.Begin? && f.explicit.Some? && Within(g, f) && f.begin.BeginRead?
    ensures OutcomeWithin(BeginStep(g, f, now).0, f, BeginStep(g, f, now).1)
  {
  }

  lemma CommitStepWithin(g: Globals, f: Frame, now: real)
    requires f.Commit? && Within(g, f)
    ensures OutcomeWithin(CommitStep(g, f, now).0, f, CommitStep(g, f, now).1)
  {
    if f.explicit.Some? {
      match f.commit
      case CommitAppend(d) => PublishWithin(g, f, now);
      case CommitPromote => PublishWithin(g, f, now);
      case CommitRead(_) => CommitReadWithin(g, f, now);
      case _ =>
    }
  }

  lemma PublishWithin(g: Globals, f: Frame, now: real)
    requires f.Commit? && f.explicit.Some? && Within(g, f) && (f.commit.CommitAppend? || f.commit.CommitPromote?)
    ensures OutcomeWithin(CommitStep(g, f, now).0, f, CommitStep(g, f, now).1)
  {
    if f.commit.CommitAppend? {
      MinOfAppend(g.candidates, f.commit.d);
    } else if g.deadline.Some? {
      CandidateStays(g, g.(candidates := g.candidates + [g.deadline.value]), f.explicit.value);
    }
  }

  lemma CommitReadWithin(g: Globals, f: Frame, now: real)
    requires f.Commit? && f.explicit.Some? && Within(g, f) && f.commit.CommitRead?
    ensures OutcomeWithin(CommitStep(g, f, now).0, f, CommitStep(g, f, now).1)
  {
  }

  ghost predicate AllWithin(s: State) {
    forall i :: 0 <= i < |s.stack| ==> Within(s.globals, s.stack[i])
  }

  lemma StepWithin(g: Globals, f: Frame, now: real)
    requires Within(g, f)
    ensures OutcomeWithin(StepFrame(g, f, now).0, f, StepFrame(g, f, now).1)
  {
    match f
    case Begin(_, _, _) => BeginStepWithin(g, f, now);
    case Commit(_, _, _) => CommitStepWithin(g, f, now);
    case Stop(_) =>
  }

  lemma TopStepWithin(s: State, now: real)
    requires Inv(s) && AllWithin(s) && s.stack != []
    ensures AllWithin(StepTop(s, now))
  {
    var n := |s.stack| - 1;
    var top := s.stack[n];
    StepWithin(s.globals, top, now);
    forall i | 0 <= i < n ensures Within(StepFrame(s.globals, top, now).0, s.stack[i]) {
      CommitPublishes(s.globals, top, now);
      WithinStable(s.globals, StepFrame(s.globals, top, now).0, s.stack[i]);
    }
  }

  lemma WithinKept(s: State, e: Event)
    requires Inv(s) && AllWithin(s) && Enabled(s, e)
    ensures AllWithin(After(s, e))
  {
    if e.Step? { TopStepWithin(s, e.now); }
  }

  lemma {:induction false} RunWithin(s: State, events: seq<Event>)
    requires Inv(s) && AllWithin(s) && Allowed(s, events)
    ensures Inv(Run(s, events)) && AllWithin(Run(s, events))
    decreases events
  {
    if events != [] {
      InvKept(s, events[0]);
      WithinKept(s, events[0]);
      RunWithin(After(s, events[0]), events[1..]);
    }
  }

  /** In every interleaving, a begin or a commit with an explicit deadline returns that deadline or an earlier one. */
  lemma ExplicitDeadlineHolds(events: seq<Event>, now: real)
    requires Allowed(INIT, events) && Run(INIT, events).stack != []
    ensures var s := Run(INIT, events);
            var top := s.stack[|s.stack| - 1];
            var o := StepFrame(s.globals, top, now).1;
            o.Done? && !top.Stop? && top.explicit.Some? ==> o.d <= top.explicit.value
  {
    RunWithin(INIT, events);
    var s := Run(INIT, events);
    StepWithin(s.globals, s.stack[|s.stack| - 1], now);
  }
}
