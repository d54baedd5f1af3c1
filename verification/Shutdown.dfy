/**
 The process-wide drain and shutdown state, one atomic step at a time.

 A signal handler may run `commit_shutdown` between any two steps of whatever is
 running, including another handler, so control is a stack: the bottom frame is
 the interrupted call and every frame above it is a handler's commit.
 */
module Shutdown {
  import opened Basics

  datatype Globals = Globals(
    draining: bool,
    deadline: Option<real>,
    started: bool,
    committed: bool,
    candidates: seq<real>,
    bridge: bool)

  const RESET := Globals(false, None, false, false, [], false)

  // ----- deadlines -----

  function MinOf(s: seq<real>): (m: real)
    requires s != []
    ensures m in s && forall x :: x in s ==> m <= x
  {
    if |s| == 1 then s[0] else
      var rest := MinOf(s[1..]);
      assert forall x :: x in s <==> x == s[0] || x in s[1..];
      if s[0] <= rest then s[0] else rest
  }

  /** The earliest deadline of the reversible drain and the committed candidates. */
  function Effective(g: Globals): Option<real> {
    match g.deadline
    case None => if g.candidates == [] then None else Some(MinOf(g.candidates))
    case Some(d) => Some(if g.candidates == [] then d else Min(d, MinOf(g.candidates)))
  }

  /** The effective deadline is defined and no later than `d`. */
  predicate AtMost(g: Globals, d: real) {
    Effective(g).Some? && Effective(g).value <= d
  }

  function NewCandidate(timeout: real, explicit: Option<real>, now: real): real {
    var deadline := now + if timeout >= 0.0 then timeout else 0.0;
    if explicit.Some? then Min(deadline, explicit.value) else deadline
  }

  lemma MinOfExtension(s: seq<real>, t: seq<real>)
    requires s != [] && s <= t
    ensures MinOf(t) <= MinOf(s)
  {
    assert MinOf(s) in t;
  }

  lemma MinOfAppend(s: seq<real>, c: real)
    ensures MinOf(s + [c]) <= c
  {
    assert c in s + [c];
  }

  // ----- steps -----

  /** The steps of reading the effective deadline; the globals are re-read at each. */
  datatype ReadPc = TestDeadline | TestNoCandidates | MinCandidates | TestCandidates | ReadDeadline | MinBoth

  datatype ReadOutcome = Reading(at: ReadPc) | Value(d: real) | Missing

  function ReadStep(g: Globals, at: ReadPc): ReadOutcome {
    match at
    case TestDeadline => Reading(if g.deadline.None? then TestNoCandidates else TestCandidates)
    case TestNoCandidates => if g.candidates == [] then Missing else Reading(MinCandidates)
    case MinCandidates => if g.candidates == [] then Missing else Value(MinOf(g.candidates))
    case TestCandidates => Reading(if g.candidates == [] then ReadDeadline else MinBoth)
    case ReadDeadline => if g.deadline.None? then Missing else Value(g.deadline.value)
    case MinBoth =>
      if g.deadline.None? || g.candidates == [] then Missing
      else Value(Min(g.deadline.value, MinOf(g.candidates)))
  }

  datatype BeginPc =
    | BeginTest | FastDraining | FastBridge | FastRead(at: ReadPc)
    | BeginCompute | BeginCompare(d: real) | BeginAssign(d: real)
    | BeginDraining | BeginBridge | BeginStarted | BeginRead(at: ReadPc)
    | BeginCheck(d: real) | BeginPromote(d: real) | BeginReturn(d: real)

  datatype CommitPc =
    | CommitTest | CommitCompute | CommitAppend(d: real) | CommitTestDeadline | CommitPromote | CommitCommitted
    | CommitDraining | CommitBridge | CommitStarted | CommitRead(at: ReadPc) | CommitReturn(d: real)

  datatype StopPc =
    | StopTest | StopStarted | StopDraining | StopClear | StopBridge | StopRecheck | StopAssert | StopRestart
    | StopResult

  datatype Frame =
    | Begin(timeout: real, explicit: Option<real>, begin: BeginPc)
    | Commit(timeout: real, explicit: Option<real>, commit: CommitPc)
    | Stop(stop: StopPc)

  datatype Outcome = Next(frame: Frame) | Done(d: real) | Stopped(ok: bool) | Crash

  function BeginStep(g: Globals, f: Frame, now: real): (Globals, Outcome)
    requires f.Begin?
  {
    match f.begin
    case BeginTest => (g, Next(f.(begin := if g.started && f.explicit.None? then FastDraining else BeginCompute)))
    case FastDraining => (g.(draining := true), Next(f.(begin := FastBridge)))
    case FastBridge => (g.(bridge := true), Next(f.(begin := FastRead(TestDeadline))))
    case FastRead(at) =>
      (g, match ReadStep(g, at)
          case Reading(a) => Next(f.(begin := FastRead(a)))
          case Value(d) => Next(f.(begin := BeginReturn(d)))
          case Missing => Crash)
    case BeginCompute => (g, Next(f.(begin := BeginCompare(NewCandidate(f.timeout, f.explicit, now)))))
    case BeginCompare(d) =>
      (g, Next(f.(begin := if g.deadline.None? || d < g.deadline.value then BeginAssign(d) else BeginDraining)))
    case BeginAssign(d) => (g.(deadline := Some(d)), Next(f.(begin := BeginDraining)))
    case BeginDraining => (g.(draining := true), Next(f.(begin := BeginBridge)))
    case BeginBridge => (g.(bridge := true), Next(f.(begin := BeginStarted)))
    case BeginStarted => (g.(started := true), Next(f.(begin := BeginRead(TestDeadline))))
    case BeginRead(at) =>
      (g, match ReadStep(g, at)
          case Reading(a) => Next(f.(begin := BeginRead(a)))
          case Value(d) => Next(f.(begin := BeginCheck(d)))
          case Missing => Crash)
    case BeginCheck(d) => (g, Next(f.(begin := if g.committed then BeginPromote(d) else BeginReturn(d))))
    case BeginPromote(d) => (g.(candidates := g.candidates + [d]), Next(f.(begin := BeginReturn(d))))
    case BeginReturn(d) => (g, Done(d))
  }

  function CommitStep(g: Globals, f: Frame, now: real): (Globals, Outcome)
    requires f.Commit?
  {
    match f.commit
    case CommitTest =>
      (g, Next(f.(commit := if g.committed && f.explicit.None? then CommitRead(TestDeadline) else CommitCompute)))
    case CommitCompute => (g, Next(f.(commit := CommitAppend(NewCandidate(f.timeout, f.explicit, now)))))
    case CommitAppend(d) => (g.(candidates := g.candidates + [d]), Next(f.(commit := CommitTestDeadline)))
    case CommitTestDeadline => (g, Next(f.(commit := if g.deadline.Some? then CommitPromote else CommitCommitted)))
    case CommitPromote =>
      if g.deadline.None? then (g, Crash)
      else (g.(candidates := g.candidates + [g.deadline.value]), Next(f.(commit := CommitCommitted)))
    case CommitCommitted => (g.(committed := true), Next(f.(commit := CommitDraining)))
    case CommitDraining => (g.(draining := true), Next(f.(commit := CommitBridge)))
    case CommitBridge => (g.(bridge := true), Next(f.(commit := CommitStarted)))
    case CommitStarted => (g.(started := true), Next(f.(commit := CommitRead(TestDeadline))))
    case CommitRead(at) =>
      (g, match ReadStep(g, at)
          case Reading(a) => Next(f.(commit := CommitRead(a)))
          case Value(d) => Next(f.(commit := CommitReturn(d)))
          case Missing => Crash)
    case CommitReturn(d) => (g, Done(d))
  }

  function StopStep(g: Globals, f: Frame): (Globals, Outcome)
    requires f.Stop?
  {
    match f.stop
    case StopTest => (g, if g.committed then Stopped(false) else Next(Stop(StopStarted)))
    case StopStarted => (g.(started := false), Next(Stop(StopDraining)))
    case StopDraining => (g.(draining := false), Next(Stop(StopClear)))
    case StopClear => (g.(deadline := None), Next(Stop(StopBridge)))
    case StopBridge => (g.(bridge := false), Next(Stop(StopRecheck)))
    case StopRecheck => (g, Next(Stop(if g.committed then StopAssert else StopResult)))
    case StopAssert => (g, if g.candidates == [] then Crash else Next(Stop(StopRestart)))
    case StopRestart => (g.(started := true), Next(Stop(StopResult)))
    case StopResult => (g, Stopped(!g.committed))
  }

  function StepFrame(g: Globals, f: Frame, now: real): (Globals, Outcome) {
    match f
    case Begin(_, _, _) => BeginStep(g, f, now)
    case Commit(_, _, _) => CommitStep(g, f, now)
    case Stop(_) => StopStep(g, f)
  }

  // ----- the whole process -----

  /**
   `commitResults` and `drainResults` are history: what commits and begins have
   returned since the last reset and, for begins, since a stop last cleared the
   reversible deadline while shutdown was uncommitted. `stopResults` are what
   stops have returned since the last reset.
   */
  datatype State = State(
    globals: Globals,
    stack: seq<Frame>,
    commitResults: set<real>,
    drainResults: set<real>,
    stopResults: seq<bool>,
    crashed: bool)

  const INIT := State(RESET, [], {}, {}, [], false)

  datatype Event =
    | CallBegin(timeout: real, explicit: Option<real>)
    | CallStop
    | Signal(timeout: real, explicit: Option<real>)
    | Step(now: real)
    | Reset
    | SetDraining

  predicate Enabled(s: State, e: Event) {
    && !s.crashed
    && match e
       case Signal(_, _) => true
       case Step(_) => s.stack != []
       case _ => s.stack == []
  }

  predicate ClearsUncommitted(g: Globals, f: Frame) {
    f == Stop(StopClear) && !g.committed
  }

  /** The top frame steps; a finished frame is popped and its result recorded. */
  function StepTop(s: State, now: real): State
    requires s.stack != []
  {
    var below, top := s.stack[..|s.stack| - 1], s.stack[|s.stack| - 1];
    var (g, outcome) := StepFrame(s.globals, top, now);
    var t := s.(globals := g, drainResults := if ClearsUncommitted(s.globals, top) then {} else s.drainResults);
    match outcome
    case Next(f) => t.(stack := below + [f])
    case Done(d) =>
      if top.Commit? then t.(stack := below, commitResults := t.commitResults + {d})
      else t.(stack := below, drainResults := t.drainResults + {d})
    case Stopped(ok) => t.(stack := below, stopResults := t.stopResults + [ok])
    case Crash => t.(crashed := true)
  }

  function After(s: State, e: Event): State
    requires Enabled(s, e)
  {
    match e
    case CallBegin(timeout, explicit) => s.(stack := [Begin(timeout, explicit, BeginTest)])
    case CallStop => s.(stack := [Stop(StopTest)])
    case Signal(timeout, explicit) => s.(stack := s.stack + [Commit(timeout, explicit, CommitTest)])
    case Step(now) => StepTop(s, now)
    case Reset => INIT
    case SetDraining => s.(globals := s.globals.(draining := true))
  }

  // ----- what holds at each program point -----

  /** The committed candidates cover the reversible deadline. */
  predicate Promoted(g: Globals) {
    g.candidates != [] && (g.deadline.Some? ==> MinOf(g.candidates) <= g.deadline.value)
  }

  predicate HasDeadline(g: Globals) {
    g.deadline.Some? || g.candidates != []
  }

  predicate GlobalsOk(g: Globals) {
    && (g.committed ==> g.candidates != [])
    && (g.started ==> HasDeadline(g))
  }

  predicate ReadOk(g: Globals, at: ReadPc) {
    match at
    case TestDeadline => HasDeadline(g)
    case TestNoCandidates => g.candidates != []
    case MinCandidates => g.candidates != []
    case TestCandidates => g.deadline.Some?
    case ReadDeadline => g.deadline.Some?
    case MinBoth => g.deadline.Some? && g.candidates != []
  }

  predicate FrameOk(g: Globals, f: Frame) {
    match f
    case Begin(_, _, FastDraining) => HasDeadline(g)
    case Begin(_, _, FastBridge) => HasDeadline(g)
    case Begin(_, _, FastRead(at)) => ReadOk(g, at)
    case Begin(_, _, BeginAssign(d)) => g.deadline.Some? ==> d < g.deadline.value
    case Begin(_, _, BeginDraining) => g.deadline.Some?
    case Begin(_, _, BeginBridge) => g.deadline.Some?
    case Begin(_, _, BeginStarted) => g.deadline.Some?
    case Begin(_, _, BeginRead(at)) => ReadOk(g, at)
    case Begin(_, _, BeginCheck(d)) => AtMost(g, d)
    case Begin(_, _, BeginPromote(d)) => g.committed && AtMost(g, d)
    case Begin(_, _, BeginReturn(d)) => AtMost(g, d)
    case Commit(_, _, CommitTestDeadline) => g.candidates != []
    case Commit(_, _, CommitPromote) => g.candidates != [] && g.deadline.Some?
    case Commit(_, _, CommitCommitted) => Promoted(g)
    case Commit(_, _, CommitDraining) => g.committed
    case Commit(_, _, CommitBridge) => g.committed
    case Commit(_, _, CommitStarted) => g.committed
    case Commit(_, _, CommitRead(at)) => g.committed && ReadOk(g, at)
    case Commit(_, _, CommitReturn(d)) => g.committed && AtMost(g, d)
    case Stop(StopStarted) => g.committed ==> Promoted(g)
    case Stop(StopDraining) => (g.committed ==> Promoted(g)) && (g.started ==> g.candidates != [])
    case Stop(StopClear) => (g.committed ==> Promoted(g)) && (g.started ==> g.candidates != [])
    case Stop(StopAssert) => g.committed
    case Stop(StopRestart) => g.committed
    case _ => true
  }

  /** A commit that has published a candidate and not yet marked the shutdown committed. */
  predicate Publishing(f: Frame) {
    f.Commit? && (f.commit.CommitTestDeadline? || f.commit.CommitPromote? || f.commit.CommitCommitted?)
  }

  ghost predicate Inv(s: State) {
    && !s.crashed
    && GlobalsOk(s.globals)
    && (forall i :: 0 <= i < |s.stack| ==> FrameOk(s.globals, s.stack[i]))
    && (forall i :: 0 < i < |s.stack| ==> s.stack[i].Commit?)
    && (s.globals.candidates != [] && !s.globals.committed ==>
          exists i :: 0 <= i < |s.stack| && Publishing(s.stack[i]))
    && (forall d :: d in s.commitResults ==> s.globals.committed && AtMost(s.globals, d))
    && (forall d :: d in s.drainResults ==> AtMost(s.globals, d))
  }

  /** What every step of a commit does to the globals. */
  ghost predicate Grows(g: Globals, g': Globals) {
    && g'.deadline == g.deadline
    && g.candidates <= g'.candidates
    && (g.committed ==> g'.committed)
    && (g'.committed && !g.committed ==> Promoted(g'))
    && (g'.started ==> g.started || g'.candidates != [])
  }

  lemma GrowsKeeps(g: Globals, g': Globals, d: real)
    requires g'.deadline == g.deadline && g.candidates <= g'.candidates
    ensures AtMost(g, d) ==> AtMost(g', d)
    ensures Promoted(g) ==> Promoted(g')
  {
    if g.candidates != [] { MinOfExtension(g.candidates, g'.candidates); }
  }

  /** A frame below survives whatever the commits above it do. */
  lemma FrameStable(g: Globals, g': Globals, f: Frame)
    requires FrameOk(g, f) && Grows(g, g') && GlobalsOk(g')
    ensures FrameOk(g', f)
  {
    match f
    case Begin(_, _, BeginCheck(d)) => GrowsKeeps(g, g', d);
    case Begin(_, _, BeginPromote(d)) => GrowsKeeps(g, g', d);
    case Begin(_, _, BeginReturn(d)) => GrowsKeeps(g, g', d);
    case Commit(_, _, CommitReturn(d)) => GrowsKeeps(g, g', d);
    case _ => GrowsKeeps(g, g', 0.0);
  }

  /** Everything a step of a frame guarantees. */
  ghost predicate StepOk(g: Globals, f: Frame, g': Globals, o: Outcome) {
    && !o.Crash?
    && GlobalsOk(g')
    && (o.Next? ==> FrameOk(g', o.frame) && (f.Commit? ==> o.frame.Commit?))
    && (f.Commit? ==> Grows(g, g'))
    && (o.Done? ==> AtMost(g', o.d) && (f.Commit? ==> g'.committed))
    && (g.committed ==> g'.committed)
    && (g'.candidates != [] && !g'.committed && !(o.Next? && Publishing(o.frame)) ==>
          g.candidates != [] && !g.committed && !Publishing(f))
  }

  /** Reading the deadline never fails and yields a value the effective deadline does not exceed. */
  lemma ReadStepOk(g: Globals, at: ReadPc)
    requires ReadOk(g, at)
    ensures match ReadStep(g, at)
            case Reading(a) => ReadOk(g, a)
            case Value(d) => AtMost(g, d)
            case Missing => false
  {
  }

  /** A step of a begin that leaves the globals alone. */
  lemma QuietStepOk(g: Globals, f: Frame, next: Frame)
    requires GlobalsOk(g) && f.Begin? && next.Begin? && FrameOk(g, next)
    ensures StepOk(g, f, g, Next(next))
  {
  }

  lemma BeginReadOk(g: Globals, f: Frame, now: real)
    requires GlobalsOk(g) && f.Begin? && FrameOk(g, f) && (f.begin.FastRead? || f.begin.BeginRead?)
    ensures StepOk(g, f, BeginStep(g, f, now).0, BeginStep(g, f, now).1)
  {
    ReadStepOk(g, f.begin.at);
    QuietStepOk(g, f, BeginStep(g, f, now).1.frame);
  }

  lemma BeginTestOk(g: Globals, f: Frame, now: real)
    requires GlobalsOk(g) && f.Begin? && FrameOk(g, f)
    requires f.begin.BeginTest? || f.begin.BeginCompute? || f.begin.BeginCompare? || f.begin.BeginCheck?
    ensures StepOk(g, f, BeginStep(g, f, now).0, BeginStep(g, f, now).1)
  {
    QuietStepOk(g, f, BeginStep(g, f, now).1.frame);
  }

  lemma BeginFlagOk(g: Globals, f: Frame, now: real)
    requires GlobalsOk(g) && f.Begin? && FrameOk(g, f)
    requires f.begin.FastDraining? || f.begin.FastBridge? ||
             f.begin.BeginDraining? || f.begin.BeginBridge? || f.begin.BeginStarted?
    ensures StepOk(g, f, BeginStep(g, f, now).0, BeginStep(g, f, now).1)
  {
  }

  lemma BeginAssignOk(g: Globals, f: Frame, now: real)
    requires GlobalsOk(g) && f.Begin? && FrameOk(g, f) && f.begin.BeginAssign?
    ensures StepOk(g, f, BeginStep(g, f, now).0, BeginStep(g, f, now).1)
  {
  }

  lemma BeginPromoteOk(g: Globals, f: Frame, now: real)
    requires GlobalsOk(g) && f.Begin? && FrameOk(g, f) && f.begin.BeginPromote?
    ensures StepOk(g, f, BeginStep(g, f, now).0, BeginStep(g, f, now).1)
  {
    var d := f.begin.d;
    GrowsKeeps(g, g.(candidates := g.candidates + [d]), d);
  }

  lemma BeginStepOk(g: Globals, f: Frame, now: real)
    requires GlobalsOk(g) && f.Begin? && FrameOk(g, f)
    ensures StepOk(g, f, BeginStep(g, f, now).0, BeginStep(g, f, now).1)
  {
    match f.begin
    case BeginTest => BeginTestOk(g, f, now);
    case BeginCompute => BeginTestOk(g, f, now);
    case BeginCompare(_) => BeginTestOk(g, f, now);
    case BeginCheck(_) => BeginTestOk(g, f, now);
    case FastRead(_) => BeginReadOk(g, f, now);
    case BeginRead(_) => BeginReadOk(g, f, now);
    case BeginAssign(_) => BeginAssignOk(g, f, now);
    case BeginPromote(_) => BeginPromoteOk(g, f, now);
    case BeginReturn(_) =>
    case _ => BeginFlagOk(g, f, now);
  }

  lemma CommitStepOk(g: Globals, f: Frame, now: real)
    requires GlobalsOk(g) && f.Commit? && FrameOk(g, f)
    ensures StepOk(g, f, CommitStep(g, f, now).0, CommitStep(g, f, now).1)
  {
    match f.commit
    case CommitRead(at) => ReadStepOk(g, at);
    case CommitPromote => MinOfAppend(g.candidates, g.deadline.value);
    case _ =>
  }

  lemma StopStepOk(g: Globals, f: Frame)
    requires GlobalsOk(g) && f.Stop? && FrameOk(g, f)
    ensures StepOk(g, f, StopStep(g, f).0, StopStep(g, f).1)
  {
  }

  /** The reversible deadline stands and candidates are only added. */
  predicate Publishes(g: Globals, g': Globals) {
    g'.deadline == g.deadline && g.candidates <= g'.candidates
  }

  lemma BeginPublishes(g: Globals, f: Frame, now: real)
    requires f.Begin? && !f.begin.BeginAssign?
    ensures Publishes(g, BeginStep(g, f, now).0)
  {
  }

  lemma CommitPublishes(g: Globals, f: Frame, now: real)
    requires f.Commit?
    ensures Publishes(g, CommitStep(g, f, now).0)
  {
  }

  lemma StopPublishes(g: Globals, f: Frame)
    requires f.Stop? && !f.stop.StopClear?
    ensures Publishes(g, StopStep(g, f).0)
  {
  }

  lemma EarlierDeadline(g: Globals, earlier: real, d: real)
    requires AtMost(g, d) && (g.deadline.Some? ==> earlier < g.deadline.value)
    ensures AtMost(g.(deadline := Some(earlier)), d)
  {
  }

  lemma PromotedOutlastsClear(g: Globals, d: real)
    requires AtMost(g, d) && Promoted(g)
    ensures AtMost(g.(deadline := None), d)
  {
  }

  /**
   No step makes the effective deadline later, apart from a stop that clears the
   reversible deadline while shutdown is uncommitted.
   */
  lemma DeadlineNeverLater(g: Globals, f: Frame, now: real, d: real)
    requires FrameOk(g, f) && AtMost(g, d) && !ClearsUncommitted(g, f)
    ensures AtMost(StepFrame(g, f, now).0, d)
  {
    if f.Begin? && f.begin.BeginAssign? {
      EarlierDeadline(g, f.begin.d, d);
    } else if f == Stop(StopClear) {
      PromotedOutlastsClear(g, d);
    } else {
      match f {
        case Begin(_, _, _) => BeginPublishes(g, f, now);
        case Commit(_, _, _) => CommitPublishes(g, f, now);
        case Stop(_) => StopPublishes(g, f);
      }
      GrowsKeeps(g, StepFrame(g, f, now).0, d);
    }
  }

  /** The exception is exact: a clear keeps the deadline when committed and otherwise leaves none at all. */
  lemma UncommittedClearWithdraws(s: State, now: real)
    requires Inv(s) && s.stack == [Stop(StopClear)]
    ensures if s.globals.committed then Effective(StepTop(s, now).globals) == Effective(s.globals)
            else Effective(StepTop(s, now).globals) == None
  {
    assert !Publishing(s.stack[0]);
  }

  lemma TopStepOk(s: State, now: real)
    requires Inv(s) && s.stack != []
    ensures var top := s.stack[|s.stack| - 1];
            StepOk(s.globals, top, StepFrame(s.globals, top, now).0, StepFrame(s.globals, top, now).1)
  {
    var top := s.stack[|s.stack| - 1];
    match top
    case Begin(_, _, _) => BeginStepOk(s.globals, top, now);
    case Commit(_, _, _) => CommitStepOk(s.globals, top, now);
    case Stop(_) => StopStepOk(s.globals, top);
  }

  lemma TopFrameKept(s: State, now: real)
    requires Inv(s) && s.stack != []
    ensures var t, n := StepTop(s, now), |s.stack| - 1;
            && !t.crashed && GlobalsOk(t.globals)
            && (s.stack[n].Commit? ==> Grows(s.globals, t.globals))
            && n <= |t.stack| <= n + 1 && t.stack[..n] == s.stack[..n]
            && (|t.stack| == n + 1 ==> FrameOk(t.globals, t.stack[n]) && (s.stack[n].Commit? ==> t.stack[n].Commit?))
  {
    TopStepOk(s, now);
  }

  lemma StackKept(s: State, now: real)
    requires Inv(s) && s.stack != []
    ensures var t := StepTop(s, now);
            && !t.crashed
            && GlobalsOk(t.globals)
            && (forall i :: 0 <= i < |t.stack| ==> FrameOk(t.globals, t.stack[i]))
            && (forall i :: 0 < i < |t.stack| ==> t.stack[i].Commit?)
  {
    TopFrameKept(s, now);
    var t, n := StepTop(s, now), |s.stack| - 1;
    forall i | 0 <= i < |t.stack| ensures FrameOk(t.globals, t.stack[i]) && (i > 0 ==> t.stack[i].Commit?) {
      if i < n {
        assert t.stack[i] == t.stack[..n][i] == s.stack[..n][i] == s.stack[i];
        FrameStable(s.globals, t.globals, s.stack[i]);
      }
    }
  }

  lemma PublishersKept(s: State, now: real)
    requires Inv(s) && s.stack != []
    ensures var t := StepTop(s, now);
            t.globals.candidates != [] && !t.globals.committed ==>
              exists i :: 0 <= i < |t.stack| && Publishing(t.stack[i])
  {
    TopStepOk(s, now);
    var t, n := StepTop(s, now), |s.stack| - 1;
    if t.globals.candidates != [] && !t.globals.committed {
      var o := StepFrame(s.globals, s.stack[n], now).1;
      if o.Next? && Publishing(o.frame) {
        assert Publishing(t.stack[n]);
      } else {
        var i :| 0 <= i < |s.stack| && Publishing(s.stack[i]);
        assert t.stack[i] == s.stack[i];
      }
    }
  }

  lemma ResultsKept(s: State, now: real)
    requires Inv(s) && s.stack != []
    ensures var t := StepTop(s, now);
            && (forall d :: d in t.commitResults ==> t.globals.committed && AtMost(t.globals, d))
            && (forall d :: d in t.drainResults ==> AtMost(t.globals, d))
  {
    var t, top := StepTop(s, now), s.stack[|s.stack| - 1];
    forall d | d in t.commitResults ensures t.globals.committed && AtMost(t.globals, d) {
      TopStepOk(s, now);
      if d in s.commitResults { DeadlineNeverLater(s.globals, top, now, d); }
    }
    forall d | d in t.drainResults ensures AtMost(t.globals, d) {
      if StepFrame(s.globals, top, now).1 == Done(d) {
        TopStepOk(s, now);
      } else {
        DeadlineNeverLater(s.globals, top, now, d);
      }
    }
  }

  /** Every enabled event, at any point of any interleaving, keeps the invariant. */
  lemma InvKept(s: State, e: Event)
    requires Inv(s) && Enabled(s, e)
    ensures Inv(After(s, e))
  {
    match e
    case Step(now) =>
      StackKept(s, now);
      PublishersKept(s, now);
      ResultsKept(s, now);
    case Signal(timeout, explicit) =>
      var t := After(s, e);
      if s.globals.candidates != [] && !s.globals.committed {
        var i :| 0 <= i < |s.stack| && Publishing(s.stack[i]);
        assert t.stack[i] == s.stack[i];
      }
    case SetDraining =>
      forall d | AtMost(s.globals, d) ensures AtMost(After(s, e).globals, d) {}
    case _ =>
  }

  // ----- whole runs -----

  ghost predicate Allowed(s: State, events: seq<Event>)
    decreases events
  {
    events == [] || (Enabled(s, events[0]) && Allowed(After(s, events[0]), events[1..]))
  }

  ghost function Run(s: State, events: seq<Event>): State
    requires Allowed(s, events)
    decreases events
  {
    if events == [] then s else Run(After(s, events[0]), events[1..])
  }

  /** From the start, through any events, nothing ever fails an assertion. */
  lemma {:induction false} RunSafe(s: State, events: seq<Event>)
    requires Inv(s) && Allowed(s, events)
    ensures Inv(Run(s, events)) && !Run(s, events).crashed
    decreases events
  {
    if events != [] {
      InvKept(s, events[0]);
      RunSafe(After(s, events[0]), events[1..]);
    }
  }

  lemma InitSafe(events: seq<Event>)
    requires Allowed(INIT, events)
    ensures Inv(Run(INIT, events)) && !Run(INIT, events).crashed
  {
    RunSafe(INIT, events);
  }

  /** A signal can come at every point of every run. */
  lemma SignalAnytime(events: seq<Event>, timeout: real, explicit: Option<real>)
    requires Allowed(INIT, events)
    ensures Enabled(Run(INIT, events), Signal(timeout, explicit))
  {
    RunSafe(INIT, events);
  }

  /** No step that any run comes to fails an assert or reads a deadline that is not there. */
  lemma NoStepCrashes(events: seq<Event>, now: real)
    requires Allowed(INIT, events) && Run(INIT, events).stack != []
    ensures var s := Run(INIT, events); !StepFrame(s.globals, s.stack[|s.stack| - 1], now).1.Crash?
  {
    RunSafe(INIT, events);
    TopStepOk(Run(INIT, events), now);
  }

  /** Once a commit has returned `d`, the effective deadline stays defined and at most `d` until a reset. */
  lemma {:induction false} CommittedDeadlineHolds(s: State, events: seq<Event>, d: real)
    requires Inv(s) && Allowed(s, events) && Reset !in events
    requires d in s.commitResults
    ensures Run(s, events).globals.committed && AtMost(Run(s, events).globals, d)
    decreases events
  {
    if events != [] {
      InvKept(s, events[0]);
      CommittedDeadlineHolds(After(s, events[0]), events[1..], d);
    }
  }

  /** No event resets, and no stop clears the reversible deadline while shutdown is uncommitted. */
  ghost predicate NothingWithdrawn(s: State, events: seq<Event>)
    requires Allowed(s, events)
    decreases events
  {
    events == [] ||
    (&& events[0] != Reset
     && (events[0].Step? ==> !ClearsUncommitted(s.globals, s.stack[|s.stack| - 1]))
     && NothingWithdrawn(After(s, events[0]), events[1..]))
  }

  /** What a begin returned is not extended while nothing is withdrawn. */
  lemma {:induction false} DrainDeadlineHolds(s: State, events: seq<Event>, d: real)
    requires Inv(s) && Allowed(s, events) && NothingWithdrawn(s, events)
    requires d in s.drainResults
    ensures AtMost(Run(s, events).globals, d)
    decreases events
  {
    if events != [] {
      InvKept(s, events[0]);
      DrainDeadlineHolds(After(s, events[0]), events[1..], d);
    }
  }

  /** Every state of the run has an effective deadline no later than `d`. */
  ghost predicate AlwaysAtMost(s: State, events: seq<Event>, d: real)
    requires Allowed(s, events)
    decreases events
  {
    AtMost(s.globals, d) && (events == [] || AlwaysAtMost(After(s, events[0]), events[1..], d))
  }

  ghost predicate AtMostAfter(s: State, events: seq<Event>, k: int, d: real)
    requires 0 <= k <= |events|
  {
    Allowed(s, events[..k]) && AtMost(Run(s, events[..k]).globals, d)
  }

  lemma PrefixStep(s: State, events: seq<Event>, k: int, d: real)
    requires Allowed(s, events) && 0 < k <= |events|
    ensures AtMostAfter(s, events, k, d) <==> AtMostAfter(After(s, events[0]), events[1..], k - 1, d)
  {
    assert events[..k][0] == events[0] && events[..k][1..] == events[1..][..k - 1];
  }

  lemma {:induction false} AlwaysIsEveryPrefix(s: State, events: seq<Event>, d: real)
    requires Allowed(s, events)
    ensures AlwaysAtMost(s, events, d) <==> forall k :: 0 <= k <= |events| ==> AtMostAfter(s, events, k, d)
    decreases events
  {
    assert events[..0] == [];
    assert AtMostAfter(s, events, 0, d) <==> AtMost(s.globals, d);
    if events != [] {
      var rest := events[1..];
      AlwaysIsEveryPrefix(After(s, events[0]), rest, d);
      forall k | 0 < k <= |events|
        ensures AtMostAfter(s, events, k, d) <==> AtMostAfter(After(s, events[0]), rest, k - 1, d)
      {
        PrefixStep(s, events, k, d);
      }
      if forall k :: 0 <= k <= |events| ==> AtMostAfter(s, events, k, d) {
        forall k | 0 <= k <= |rest| ensures AtMostAfter(After(s, events[0]), rest, k, d) {
          assert AtMostAfter(s, events, k + 1, d);
        }
      }
    }
  }

  /** A step that clears the deadline uncommitted leaves none; any other event keeps what begins returned. */
  lemma WithdrawalStep(s: State, e: Event, d: real)
    requires Inv(s) && Enabled(s, e) && e != Reset && d in s.drainResults
    ensures if e.Step? && ClearsUncommitted(s.globals, s.stack[|s.stack| - 1]) then !AtMost(After(s, e).globals, d)
            else d in After(s, e).drainResults
  {
    if e.Step? && ClearsUncommitted(s.globals, s.stack[|s.stack| - 1]) {
      assert s.stack == [Stop(StopClear)];
      UncommittedClearWithdraws(s, e.now);
    }
  }

  lemma {:induction false} AlwaysIffNothingWithdrawn(s: State, events: seq<Event>, d: real)
    requires Inv(s) && Allowed(s, events) && Reset !in events && d in s.drainResults
    ensures AlwaysAtMost(s, events, d) <==> NothingWithdrawn(s, events)
    decreases events
  {
    if events != [] {
      var e := events[0];
      InvKept(s, e);
      WithdrawalStep(s, e, d);
      if !(e.Step? && ClearsUncommitted(s.globals, s.stack[|s.stack| - 1])) {
        AlwaysIffNothingWithdrawn(After(s, e), events[1..], d);
      }
    }
  }

  /**
   The promise of a begin, over whole runs: the deadline it returned holds in
   every state of a run exactly when no stop clears it uncommitted in that run.
   */
  lemma DrainDeadlineIff(s: State, events: seq<Event>, d: real)
    requires Inv(s) && Allowed(s, events) && Reset !in events && d in s.drainResults
    ensures (forall k :: 0 <= k <= |events| ==> AtMostAfter(s, events, k, d)) <==> NothingWithdrawn(s, events)
  {
    AlwaysIsEveryPrefix(s, events, d);
    AlwaysIffNothingWithdrawn(s, events, d);
  }

  // ----- what a stop reports -----

  /** The stop has cleared the reversible deadline. */
  predicate PastClear(f: Frame) {
    f.Stop? && (f.stop.StopBridge? || f.stop.StopRecheck? || f.stop.StopAssert? || f.stop.StopRestart? || f.stop.StopResult?)
  }

  /** The run lasts exactly until the stop at the bottom of the stack returns. */
  ghost predicate UntilReturn(s: State, events: seq<Event>)
    requires Allowed(s, events)
    decreases events
  {
    if events == [] then s.stack == []
    else s.stack != [] && UntilReturn(After(s, events[0]), events[1..])
  }

  /** Some event of the run marks shutdown committed. */
  ghost predicate Commits(s: State, events: seq<Event>)
    requires Allowed(s, events)
    decreases events
  {
    events != [] && ((!s.globals.committed && After(s, events[0]).globals.committed) ||
                     Commits(After(s, events[0]), events[1..]))
  }

  /** The stop goes on, or returns whether shutdown is still uncommitted. */
  lemma ClearedStopStep(s: State, now: real)
    requires Inv(s) && |s.stack| == 1 && PastClear(s.stack[0])
    ensures var t := StepTop(s, now);
            && t.globals.committed == s.globals.committed
            && if s.stack[0].stop.StopResult? then t.stack == [] && t.stopResults == s.stopResults + [!s.globals.committed]
               else |t.stack| == 1 && PastClear(t.stack[0]) && t.stopResults == s.stopResults
  {
    TopStepOk(s, now);
  }

  /** A handler above it leaves it where it is and reports nothing for it. */
  lemma HandlerStep(s: State, now: real)
    requires Inv(s) && |s.stack| > 1
    ensures var t := StepTop(s, now);
            && t.stack != [] && t.stack[0] == s.stack[0] && t.stopResults == s.stopResults
            && (s.globals.committed ==> t.globals.committed)
  {
    TopStepOk(s, now);
    assert s.stack[|s.stack| - 1].Commit?;
  }

  /**
   A stop that has cleared the deadline returns False exactly when shutdown is
   committed by then: already, or by a commit between its clear and its result.
   */
  lemma {:induction false} StopFailsIffCommitted(s: State, events: seq<Event>)
    requires Inv(s) && s.stack != [] && PastClear(s.stack[0])
    requires Allowed(s, events) && UntilReturn(s, events)
    ensures Run(s, events).stopResults == s.stopResults + [!(s.globals.committed || Commits(s, events))]
    decreases events
  {
    var e := events[0];
    InvKept(s, e);
    if e.Step? && |s.stack| == 1 {
      ClearedStopStep(s, e.now);
      if s.stack[0].stop.StopResult? {
        assert events[1..] == [];
      } else {
        StopFailsIffCommitted(After(s, e), events[1..]);
      }
    } else {
      if e.Step? { HandlerStep(s, e.now); }
      StopFailsIffCommitted(After(s, e), events[1..]);
    }
  }

  // ----- after a commit -----

  /** Once shutdown is committed nothing can be withdrawn any more without a reset. */
  lemma {:induction false} CommittedNeverWithdraws(s: State, events: seq<Event>)
    requires Inv(s) && Allowed(s, events) && Reset !in events && s.globals.committed
    ensures NothingWithdrawn(s, events)
    decreases events
  {
    if events != [] {
      InvKept(s, events[0]);
      if events[0].Step? { TopStepOk(s, events[0].now); }
      CommittedNeverWithdraws(After(s, events[0]), events[1..]);
    }
  }
}
