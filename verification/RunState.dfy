/**
 The SQLite run-state sidecar as a crash-consistency protocol.

 The directory holding the sidecar has a volatile view and a set of views that a
 power loss may leave behind: every change adds one, and only a successful
 directory sync forgets the older ones.
 */
module RunState {
  import opened Basics

  /** The device, inode, size and times of the database file, as one value. */
  type Identity = nat

  datatype Mark = Running | Clean

  datatype Record = Record(mark: Mark, identity: Option<Identity>)

  /** The sidecar's directory entry: absent, or naming a fully synced record. */
  type Entry = Option<Record>

  datatype Disk = Disk(target: Entry, durable: set<Entry>)

  function Rename(disk: Disk, r: Record): Disk {
    Disk(Some(r), disk.durable + {Some(r)})
  }

  function Unlink(disk: Disk): Disk {
    Disk(None, disk.durable + {None})
  }

  function SyncDirectory(disk: Disk): Disk {
    Disk(disk.target, {disk.target})
  }

  // ----- writing the sidecar -----

  datatype WritePc =
    | MakeTemp | WriteTemp | SyncTemp | Replace | SyncReplace
    | DropTemp | DropTarget
    | RemoveTemp | RemoveTarget | CheckRemoved | SyncRemoved
    | Recorded | Removed | Raised

  datatype Write = Write(record: Record, pc: WritePc, hasTemp: bool, failed: bool)

  /** Whether an operation succeeds, and if it fails whether it took effect all the same. */
  datatype Fault = Fault(ok: bool, took: bool)

  function StartWrite(mark: Mark, identity: Option<Identity>): Write {
    Write(Record(mark, identity), MakeTemp, false, false)
  }

  predicate Finished(w: Write) {
    w.pc.Recorded? || w.pc.Removed? || w.pc.Raised?
  }

  predicate Happens(x: Fault) {
    x.ok || x.took
  }

  function WriteStep(disk: Disk, w: Write, x: Fault): (Disk, Write) {
    match w.pc
    case MakeTemp => (disk, if x.ok then w.(pc := WriteTemp, hasTemp := true) else w.(pc := DropTarget))
    case WriteTemp => (disk, w.(pc := if x.ok then SyncTemp else DropTemp))
    case SyncTemp => (disk, w.(pc := if x.ok then Replace else DropTemp))
    case Replace =>
      (if Happens(x) then Rename(disk, w.record) else disk, w.(pc := if x.ok then SyncReplace else DropTemp))
    case SyncReplace => if x.ok then (SyncDirectory(disk), w.(pc := Recorded)) else (disk, w.(pc := DropTemp))
    case DropTemp => (disk, w.(pc := DropTarget))
    case DropTarget =>
      (if Happens(x) then Unlink(disk) else disk, w.(pc := if w.hasTemp then RemoveTemp else RemoveTarget))
    case RemoveTemp => (disk, w.(pc := RemoveTarget, failed := w.failed || !x.ok))
    case RemoveTarget =>
      (if Happens(x) then Unlink(disk) else disk, w.(pc := CheckRemoved, failed := w.failed || !x.ok))
    case CheckRemoved => (disk, w.(pc := if w.failed then Raised else SyncRemoved))
    case SyncRemoved => if x.ok then (SyncDirectory(disk), w.(pc := Removed)) else (disk, w.(pc := Raised))
    case _ => (disk, w)
  }

  /** What a write leaves behind: a durable record, a durable absence, or an error. */
  ghost predicate WriteOk(disk: Disk, w: Write) {
    && disk.target in disk.durable
    && (w.pc.SyncReplace? ==> disk.target == Some(w.record))
    && (w.pc.CheckRemoved? && !w.failed ==> disk.target == None)
    && (w.pc.SyncRemoved? ==> disk.target == None)
    && (w.pc.Recorded? ==> disk == Disk(Some(w.record), {Some(w.record)}))
    && (w.pc.Removed? ==> disk == Disk(None, {None}))
  }

  lemma WriteKept(disk: Disk, w: Write, x: Fault)
    requires WriteOk(disk, w)
    ensures WriteOk(WriteStep(disk, w, x).0, WriteStep(disk, w, x).1)
    ensures WriteStep(disk, w, x).1.record == w.record
  {
  }

  /** A write only ever adds its own record or absence to what may survive. */
  lemma WriteAdds(disk: Disk, w: Write, x: Fault, e: Entry)
    requires disk.target in disk.durable
    requires e in WriteStep(disk, w, x).0.durable && e !in disk.durable
    ensures e == None || (e == Some(w.record) && w.pc.Replace? && Happens(x))
  {
  }

  // ----- process lifetimes -----

  /** The sidecar as startup reads it: a clean record counts only for the file it was written for. */
  function ReadRecord(disk: Disk, db: Option<Identity>): Option<Record> {
    match disk.target
    case None => None
    case Some(r) => if r.mark.Clean? && (r.identity.None? || r.identity != db) then None else Some(r)
  }

  datatype Phase =
    | Down
    | ReadPrevious
    | CaptureRunning(previous: Option<Record>)
    | MarkRunning(previous: Option<Record>, write: Write)
    | ReadRunning(previous: Option<Record>, recorded: bool, raised: bool)
    | Compare(previous: Option<Record>, recorded: bool, raised: bool, running: Option<Identity>)
    | Decide(clean: bool, recorded: bool, raised: bool, running: Option<Identity>)
    | Scan(raised: bool)
    | Gate(raised: bool, skipped: bool)
    | Serving
    | Disposed(drained: bool)
    | MarkClean(write: Write)

  /**
   History of the last process that got past startup's gate: whether its engines
   were disposed, whether every drain succeeded, and the identity in the clean
   record it put in place, if it got that far.
   */
  datatype Life = Life(disposed: bool, drained: bool, recorded: Option<Option<Identity>>)

  datatype State = State(disk: Disk, db: Option<Identity>, phase: Phase, last: Option<Life>)

  datatype Event =
    | Start
    | Proceed(x: Fault, checksOn: bool, scanOk: bool, drained: bool)
    | Kill
    | PowerLoss(left: Entry, db: Option<Identity>)
    | Touch(db: Option<Identity>)

  predicate Enabled(s: State, e: Event) {
    match e
    case Start => s.phase.Down?
    case Proceed(_, _, _, _) => !s.phase.Down?
    case PowerLoss(left, _) => left in s.disk.durable
    case _ => true
  }

  /** Startup may skip the scan: the running record is durable and three readings of the identity agree. */
  predicate ScanNotRequired(s: State)
    requires s.phase.Decide?
  {
    s.phase.recorded && s.phase.clean && s.phase.running.Some? && s.db.Some? && s.phase.running == s.db
  }

  function AfterProceed(s: State, e: Event): State
    requires e.Proceed?
  {
    match s.phase
    case Down => s
    case ReadPrevious => s.(phase := CaptureRunning(if e.x.ok then ReadRecord(s.disk, s.db) else None))
    case CaptureRunning(previous) => s.(phase := MarkRunning(previous, StartWrite(Running, s.db)))
    case MarkRunning(previous, w) =>
      if Finished(w) then s.(phase := ReadRunning(previous, w.pc.Recorded?, w.pc.Raised?))
      else
        var (disk, w') := WriteStep(s.disk, w, e.x);
        s.(disk := disk, phase := MarkRunning(previous, w'))
    case ReadRunning(previous, recorded, raised) =>
      var r := if recorded && e.x.ok then ReadRecord(s.disk, s.db) else None;
      s.(phase := Compare(previous, recorded, raised, if r.Some? then r.value.identity else None))
    case Compare(previous, recorded, raised, running) =>
      var clean := previous.Some? && previous.value.mark.Clean? &&
                   previous.value.identity.Some? && running.Some? && s.db.Some? &&
                   previous.value.identity == running && running == s.db;
      s.(phase := Decide(clean, recorded, raised, running))
    case Decide(clean, recorded, raised, running) =>
      if !e.checksOn then s.(phase := Gate(raised, false))
      else if ScanNotRequired(s) then s.(phase := Gate(raised, true))
      else s.(phase := Scan(raised))
    case Scan(raised) => s.(phase := if e.scanOk then Gate(raised, false) else Down)
    case Gate(raised, _) =>
      if raised then s.(phase := Down) else s.(phase := Serving, last := Some(Life(false, false, None)))
    case Serving =>
      if s.last.None? then s
      else s.(phase := Disposed(e.drained), last := Some(s.last.value.(disposed := true, drained := e.drained)))
    case Disposed(drained) => s.(phase := if drained then MarkClean(StartWrite(Clean, s.db)) else Down)
    case MarkClean(w) =>
      if Finished(w) then s.(phase := Down)
      else
        var (disk, w') := WriteStep(s.disk, w, e.x);
        s.(disk := disk, phase := MarkClean(w'),
           last := if w.pc.Replace? && Happens(e.x) && s.last.Some?
                   then Some(s.last.value.(recorded := Some(w.record.identity))) else s.last)
  }

  function After(s: State, e: Event): State
    requires Enabled(s, e)
  {
    match e
    case Start => s.(phase := ReadPrevious)
    case Proceed(_, _, _, _) => AfterProceed(s, e)
    case Kill => s.(phase := Down)
    case PowerLoss(left, db) => s.(disk := Disk(left, {left}), db := db, phase := Down)
    case Touch(db) => s.(db := db)
  }

  const INIT := State(Disk(None, {None}), None, Down, None)

  /** A power loss leaves any of the records that may survive, and nothing else. */
  lemma PowerLossLeaves(s: State, left: Entry, db: Option<Identity>)
    ensures Enabled(s, PowerLoss(left, db)) <==> left in s.disk.durable
    ensures Enabled(s, PowerLoss(left, db)) ==>
              After(s, PowerLoss(left, db)) == State(Disk(left, {left}), db, Down, s.last)
  {
  }

  /** The file can be replaced at any time. */
  lemma FileMayChange(s: State, db: Option<Identity>)
    ensures Enabled(s, Touch(db)) && After(s, Touch(db)).db == db && After(s, Touch(db)).phase == s.phase
  {
  }

  /** A rename or a removal that fails may have happened all the same. */
  lemma FailureMayTakeEffect(disk: Disk, w: Write)
    ensures w.pc.Replace? ==> WriteStep(disk, w, Fault(false, true)).0.target == Some(w.record)
    ensures w.pc.DropTarget? || w.pc.RemoveTarget? ==> WriteStep(disk, w, Fault(false, true)).0.target == None
    ensures WriteStep(disk, w, Fault(false, false)).0 == disk
  {
  }

  // ----- the invariant -----

  /** The last process past the gate put a clean record with this identity in place after a clean shutdown. */
  predicate Earned(last: Option<Life>, identity: Option<Identity>) {
    last.Some? && last.value.disposed && last.value.drained && last.value.recorded == Some(identity)
  }

  /** Every clean record that is visible or may survive a power loss was earned. */
  ghost predicate CleanEarned(s: State) {
    forall r: Record :: Some(r) in s.disk.durable && r.mark.Clean? ==> Earned(s.last, r.identity)
  }

  ghost predicate NoClean(disk: Disk) {
    forall r: Record :: Some(r) in disk.durable ==> !r.mark.Clean?
  }

  predicate PreviousEarned(s: State, previous: Option<Record>) {
    previous.Some? && previous.value.mark.Clean? ==> Earned(s.last, previous.value.identity)
  }

  /** The identity the clean record was earned for is the one startup found in its own running record. */
  predicate DecisionEarned(s: State, clean: bool, running: Option<Identity>) {
    clean ==> Earned(s.last, running)
  }

  ghost predicate PhaseOk(s: State) {
    match s.phase
    case CaptureRunning(previous) => PreviousEarned(s, previous)
    case MarkRunning(previous, w) =>
      PreviousEarned(s, previous) && w.record.mark.Running? && WriteOk(s.disk, w)
    case ReadRunning(previous, _, raised) => PreviousEarned(s, previous) && (!raised ==> NoClean(s.disk))
    case Compare(previous, _, raised, _) => PreviousEarned(s, previous) && (!raised ==> NoClean(s.disk))
    case Decide(clean, _, raised, running) => DecisionEarned(s, clean, running) && (!raised ==> NoClean(s.disk))
    case Scan(raised) => !raised ==> NoClean(s.disk)
    case Gate(raised, _) => !raised ==> NoClean(s.disk)
    case Serving => s.last == Some(Life(false, false, None))
    case Disposed(drained) => s.last == Some(Life(true, drained, None))
    case MarkClean(w) =>
      && w.record.mark.Clean? && WriteOk(s.disk, w)
      && s.last.Some? && s.last.value.disposed && s.last.value.drained
      && (s.last.value.recorded == None || s.last.value.recorded == Some(w.record.identity))
    case _ => true
  }

  ghost predicate Inv(s: State) {
    s.disk.target in s.disk.durable && CleanEarned(s) && PhaseOk(s)
  }

  lemma RunningWriteKept(s: State, w: Write, x: Fault)
    requires s.disk.target in s.disk.durable && CleanEarned(s) && w.record.mark.Running?
    ensures CleanEarned(s.(disk := WriteStep(s.disk, w, x).0))
  {
    forall r: Record | Some(r) in WriteStep(s.disk, w, x).0.durable && r.mark.Clean? ensures Earned(s.last, r.identity) {
      if Some(r) !in s.disk.durable { WriteAdds(s.disk, w, x, Some(r)); }
    }
  }

  lemma CleanWriteKept(s: State, e: Event)
    requires Inv(s) && s.phase.MarkClean? && e.Proceed?
    ensures Inv(AfterProceed(s, e))
  {
    var w := s.phase.write;
    if !Finished(w) {
      WriteKept(s.disk, w, e.x);
      var t := AfterProceed(s, e);
      forall r: Record | Some(r) in t.disk.durable && r.mark.Clean? ensures Earned(t.last, r.identity) {
        if Some(r) !in s.disk.durable { WriteAdds(s.disk, w, e.x, Some(r)); }
      }
    }
  }

  /** Every step, crash, power loss and change of the database file keeps the invariant. */
  lemma InvKept(s: State, e: Event)
    requires Inv(s) && Enabled(s, e)
    ensures Inv(After(s, e))
  {
    match e
    case Proceed(x, _, _, _) =>
      match s.phase {
        case MarkRunning(previous, w) =>
          if !Finished(w) {
            WriteKept(s.disk, w, x);
            RunningWriteKept(s, w, x);
          }
        case MarkClean(w) => CleanWriteKept(s, e);
        case _ =>
      }
    case _ =>
  }

  // ----- whole histories -----

  ghost predicate Allowed(s: State, events: seq<Event>)
    decreases events
  {
    events == [] || (Enabled(s, events[0]) && Allowed(After(s, events[0]), events[1..]))
  }

  ghost function Run(s: State, events: seq<Event>): State
    requires Allowed(s, events)
    decreases events
  {
    if events == [] then s else Run(After(s, events[0]), events[1..])
  }

  lemma {:induction false} RunInv(s: State, events: seq<Event>)
    requires Inv(s) && Allowed(s, events)
    ensures Inv(Run(s, events))
    decreases events
  {
    if events != [] {
      InvKept(s, events[0]);
      RunInv(After(s, events[0]), events[1..]);
    }
  }

  /** The last process past the gate left a clean record for exactly the database file that is there now. */
  predicate SkipEarned(s: State) {
    s.db.Some? && Earned(s.last, s.db)
  }

  /**
   Over every sequence of lifetimes: with the checks on, startup skips the scan
   only if the last process past the gate disposed its engines, drained
   everything and put in place a clean record for exactly the database file that
   is there now; any other start scans.
   */
  lemma SkipIsEarned(events: seq<Event>, e: Event)
    requires Allowed(INIT, events) && Run(INIT, events).phase.Decide? && e.Proceed? && e.checksOn
    ensures var s := Run(INIT, events);
            && (After(s, e).phase.Gate? ==> SkipEarned(s))
            && (!SkipEarned(s) ==> After(s, e).phase == Scan(s.phase.raised))
  {
    assert Inv(INIT);
    RunInv(INIT, events);
  }

  // ----- what the skip rests on -----

  /** The files the start under way has read a clean record for, and then its own running record, if it has. */
  datatype Evidence = Evidence(clean: Option<Identity>, running: Option<Identity>)

  const UNREAD := Evidence(None, None)

  function EvidenceBy(s: State, e: Event, before: Evidence): Evidence {
    match e
    case Proceed(x, _, _, _) =>
      (match s.phase
       case ReadPrevious => Evidence(if x.ok && s.disk.target == Some(Record(Clean, s.db)) then s.db else None, None)
       case ReadRunning(_, recorded, _) =>
         before.(running := if recorded && x.ok && s.disk.target.Some? then s.disk.target.value.identity else None)
       case _ => before)
    case Touch(_) => before
    case _ => UNREAD
  }

  ghost function Read(s: State, events: seq<Event>, before: Evidence): Evidence
    requires Allowed(s, events)
    decreases events
  {
    if events == [] then before else Read(After(s, events[0]), events[1..], EvidenceBy(s, events[0], before))
  }

  predicate PreviousRead(previous: Option<Record>, evidence: Evidence) {
    previous.Some? && previous.value.mark.Clean? ==> evidence.clean.Some? && previous.value.identity == evidence.clean
  }

  predicate EvidenceOk(s: State, evidence: Evidence) {
    match s.phase
    case CaptureRunning(previous) => PreviousRead(previous, evidence)
    case MarkRunning(previous, _) => PreviousRead(previous, evidence)
    case ReadRunning(previous, _, _) => PreviousRead(previous, evidence)
    case Compare(previous, _, _, running) =>
      PreviousRead(previous, evidence) && (running.Some? ==> running == evidence.running)
    case Decide(clean, _, _, running) =>
      clean ==> evidence.clean.Some? && running == evidence.clean == evidence.running
    case _ => true
  }

  lemma {:induction false} EvidenceKept(s: State, events: seq<Event>, before: Evidence)
    requires Allowed(s, events) && EvidenceOk(s, before)
    ensures EvidenceOk(Run(s, events), Read(s, events, before))
    decreases events
  {
    if events != [] {
      EvidenceKept(After(s, events[0]), events[1..], EvidenceBy(s, events[0], before));
    }
  }

  /**
   In every run, with the checks on a start skips the scan only if it has itself
   read a clean record and, once durable, its own running record, and both for
   exactly the file that is there now.
   */
  lemma SkipNeedsEvidence(events: seq<Event>, e: Event)
    requires Allowed(INIT, events) && Run(INIT, events).phase.Decide? && e.Proceed? && e.checksOn
    requires After(Run(INIT, events), e).phase.Gate?
    ensures var db := Run(INIT, events).db; db.Some? && Read(INIT, events, UNREAD) == Evidence(db, db)
  {
    EvidenceKept(INIT, events, UNREAD);
  }

  // ----- nobody serves an unchecked file -----

  /** Whether the start under way may pass the gate: the checks are off, the skip is earned, or the scan passed. */
  function ClearedBy(s: State, e: Event, before: bool): bool {
    match e
    case Proceed(_, checksOn, scanOk, _) =>
      if s.phase.Decide? then !checksOn || SkipEarned(s)
      else if s.phase.Scan? then scanOk
      else before
    case Touch(_) => before
    case _ => false
  }

  ghost predicate Cleared(s: State, events: seq<Event>, before: bool)
    requires Allowed(s, events)
    decreases events
  {
    if events == [] then before else Cleared(After(s, events[0]), events[1..], ClearedBy(s, events[0], before))
  }

  predicate GateCleared(s: State, cleared: bool) {
    s.phase.Gate? || s.phase.Serving? ==> cleared
  }

  lemma {:induction false} GateKeepsCleared(s: State, events: seq<Event>, before: bool)
    requires Inv(s) && Allowed(s, events) && GateCleared(s, before)
    ensures GateCleared(Run(s, events), Cleared(s, events, before))
    decreases events
  {
    if events != [] {
      InvKept(s, events[0]);
      GateKeepsCleared(After(s, events[0]), events[1..], ClearedBy(s, events[0], before));
    }
  }

  /**
   Over every sequence of lifetimes: a process serves only if, since it started,
   it decided with the checks off, decided on an earned clean record, or scanned
   and the scan passed.
   */
  lemma ServingIsCleared(events: seq<Event>)
    requires Allowed(INIT, events) && Run(INIT, events).phase.Serving?
    ensures Cleared(INIT, events, false)
  {
    assert Inv(INIT);
    GateKeepsCleared(INIT, events, false);
  }

  /** A failed scan ends the process, and one that passed does not count as skipped. */
  lemma FailedScanEnds(s: State, e: Event)
    requires s.phase.Scan? && e.Proceed?
    ensures if e.scanOk then After(s, e).phase.Gate? && !After(s, e).phase.skipped else After(s, e).phase.Down?
  {
  }

  /** A start whose running mark could not be made safe ends at the gate, and an undrained shutdown records nothing. */
  lemma UnsafeEnds(s: State, e: Event)
    requires e.Proceed? && ((s.phase.Gate? && s.phase.raised) || (s.phase.Disposed? && !s.phase.drained))
    ensures After(s, e).phase.Down? && After(s, e).disk == s.disk
  {
  }

  /** The history is right: when it comes to say that a clean record was put in place, it has just been. */
  lemma RecordedMeansInPlace(s: State, e: Event, identity: Option<Identity>)
    requires Inv(s) && Enabled(s, e) && s.last.Some? && s.last.value.recorded.None?
    requires After(s, e).last.Some? && After(s, e).last.value.recorded == Some(identity)
    ensures After(s, e).disk.target == Some(Record(Clean, identity)) && s.phase.MarkClean?
  {
  }

  /** While a process serves, no clean record is visible or can come back after a power loss. */
  lemma ServingIsMarked(events: seq<Event>, r: Record)
    requires Allowed(INIT, events) && Run(INIT, events).phase.Serving?
    ensures Some(r) in Run(INIT, events).disk.durable ==> r.mark.Running?
  {
    assert Inv(INIT);
    RunInv(INIT, events);
  }

  // ----- the other direction: a clean restart does skip -----

  const FINE := Proceed(Fault(true, true), true, true, true)

  ghost predicate FineTo(s: State, n: nat, t: State)
    decreases n
  {
    if n == 0 then s == t else !s.phase.Down? && FineTo(AfterProceed(s, FINE), n - 1, t)
  }

  lemma {:induction false} FineJoin(s: State, n: nat, t: State, m: nat, u: State)
    requires FineTo(s, n, t) && FineTo(t, m, u)
    ensures FineTo(s, n + m, u)
    decreases n
  {
    if n > 0 { FineJoin(AfterProceed(s, FINE), n - 1, t, m, u); }
  }

  lemma FineWrite(s: State, previous: Option<Record>, i: Identity)
    requires s.db == Some(i) && s.phase == CaptureRunning(previous)
    ensures var r := Record(Running, Some(i));
            FineTo(s, 6, s.(disk := Disk(Some(r), {Some(r)}),
                            phase := MarkRunning(previous, Write(r, Recorded, true, false))))
  {
    var r := Record(Running, Some(i));
    var t := s.(disk := Disk(Some(r), {Some(r)}), phase := MarkRunning(previous, Write(r, Recorded, true, false)));
    var u := s.(phase := MarkRunning(previous, Write(r, Replace, true, false)));
    FineReplace(u, previous, r);
    FineTemp(s.(phase := MarkRunning(previous, Write(r, MakeTemp, false, false))), previous, r);
    FineJoin(s.(phase := MarkRunning(previous, Write(r, MakeTemp, false, false))), 3, u, 2, t);
  }

  lemma FineTemp(s: State, previous: Option<Record>, r: Record)
    requires s.phase == MarkRunning(previous, Write(r, MakeTemp, false, false))
    ensures FineTo(s, 3, s.(phase := MarkRunning(previous, Write(r, Replace, true, false))))
  {
    var t := s.(phase := MarkRunning(previous, Write(r, Replace, true, false)));
    assert FineTo(s.(phase := MarkRunning(previous, Write(r, WriteTemp, true, false))), 2, t);
  }

  lemma FineReplace(s: State, previous: Option<Record>, r: Record)
    requires s.phase == MarkRunning(previous, Write(r, Replace, true, false))
    ensures FineTo(s, 2, s.(disk := Disk(Some(r), {Some(r)}),
                            phase := MarkRunning(previous, Write(r, Recorded, true, false))))
  {
  }

  /** With every operation succeeding, a clean record for the unchanged file leads past the gate without a scan. */
  lemma CleanRestartSkips(s: State, i: Identity)
    requires s.phase.Down? && s.db == Some(i) && s.disk.target == Some(Record(Clean, Some(i)))
    ensures exists t :: FineTo(After(s, Start), 11, t) && t.phase == Gate(false, true)
  {
    var clean := Record(Clean, Some(i));
    var a := After(s, Start);
    var b := s.(phase := CaptureRunning(Some(clean)));
    assert FineTo(a, 1, b);
    FineWrite(b, Some(clean), i);
    var r := Record(Running, Some(i));
    var c := b.(disk := Disk(Some(r), {Some(r)}), phase := MarkRunning(Some(clean), Write(r, Recorded, true, false)));
    FineJoin(a, 1, b, 6, c);
    var d := c.(phase := Decide(true, true, false, Some(i)));
    assert FineTo(c.(phase := ReadRunning(Some(clean), true, false)), 2, d);
    var t := d.(phase := Gate(false, true));
    assert FineTo(c, 3, d) && FineTo(d, 1, t);
    FineJoin(c, 3, d, 1, t);
    FineJoin(a, 7, c, 4, t);
  }

  /** A start that meets no fault serves, whatever record it finds. */
  lemma FineStartServes(s: State, i: Identity)
    requires s.phase.Down? && s.db == Some(i)
    ensures exists n, t :: FineTo(After(s, Start), n, t) && t.phase.Serving?
  {
    var previous := ReadRecord(s.disk, s.db);
    var a := After(s, Start);
    var b := s.(phase := CaptureRunning(previous));
    assert FineTo(a, 1, b);
    FineWrite(b, previous, i);
    var r := Record(Running, Some(i));
    var c := b.(disk := Disk(Some(r), {Some(r)}), phase := MarkRunning(previous, Write(r, Recorded, true, false)));
    FineJoin(a, 1, b, 6, c);
    var clean := FineDecides(c, previous, i);
    var d := c.(phase := Decide(clean, true, false, Some(i)));
    FineJoin(a, 7, c, 3, d);
    FineServes(d, clean, i);
    var n := if clean then 2 else 3;
    var t := d.(phase := Serving, last := Some(Life(false, false, None)));
    FineJoin(a, 10, d, n, t);
  }

  lemma FineDecides(c: State, previous: Option<Record>, i: Identity) returns (clean: bool)
    requires c.db == Some(i) && c.disk.target == Some(Record(Running, Some(i)))
    requires c.phase == MarkRunning(previous, Write(Record(Running, Some(i)), Recorded, true, false))
    ensures FineTo(c, 3, c.(phase := Decide(clean, true, false, Some(i))))
  {
    clean := previous.Some? && previous.value.mark.Clean? && previous.value.identity == Some(i);
    assert FineTo(c.(phase := ReadRunning(previous, true, false)), 2, c.(phase := Decide(clean, true, false, Some(i))));
  }

  lemma FineServes(d: State, clean: bool, i: Identity)
    requires d.db == Some(i) && d.phase == Decide(clean, true, false, Some(i))
    ensures FineTo(d, if clean then 2 else 3, d.(phase := Serving, last := Some(Life(false, false, None))))
  {
    var t := d.(phase := Serving, last := Some(Life(false, false, None)));
    assert FineTo(d.(phase := Gate(false, clean)), 1, t);
    if !clean { assert FineTo(d.(phase := Scan(false)), 2, t); }
  }

  /** With the checks off nothing is scanned and nothing counts as skipped. */
  lemma ChecksOffPass(s: State, e: Event)
    requires s.phase.Decide? && e.Proceed? && !e.checksOn
    ensures After(s, e).phase == Gate(s.phase.raised, false)
  {
  }

  /** What a shutdown that meets no fault leaves. */
  function ShutClean(s: State, i: Identity): State
    requires s.last.Some?
  {
    var r := Record(Clean, Some(i));
    s.(disk := Disk(Some(r), {Some(r)}), phase := Down,
       last := Some(s.last.value.(disposed := true, drained := true, recorded := Some(Some(i)))))
  }

  lemma FineCleanTemp(s: State, r: Record)
    requires s.phase == MarkClean(Write(r, MakeTemp, false, false))
    ensures FineTo(s, 3, s.(phase := MarkClean(Write(r, Replace, true, false))))
  {
    var t := s.(phase := MarkClean(Write(r, Replace, true, false)));
    assert FineTo(s.(phase := MarkClean(Write(r, WriteTemp, true, false))), 2, t);
  }

  lemma FineCleanReplace(s: State, r: Record)
    requires s.phase == MarkClean(Write(r, Replace, true, false)) && s.last.Some?
    ensures FineTo(s, 3, s.(disk := Disk(Some(r), {Some(r)}), phase := Down,
                            last := Some(s.last.value.(recorded := Some(r.identity)))))
  {
    var t := s.(disk := Disk(Some(r), {Some(r)}), phase := Down,
                last := Some(s.last.value.(recorded := Some(r.identity))));
    assert FineTo(t.(phase := MarkClean(Write(r, Recorded, true, false))), 1, t);
  }

  /** A process that shuts down without a fault leaves a clean record for its file, alone and durable. */
  lemma FineShutdownRecords(s: State, i: Identity)
    requires s.phase.Serving? && s.last.Some? && s.db == Some(i)
    ensures FineTo(s, 8, ShutClean(s, i))
  {
    var r := Record(Clean, Some(i));
    var disposed := s.(last := Some(s.last.value.(disposed := true, drained := true)));
    var b := disposed.(phase := MarkClean(Write(r, MakeTemp, false, false)));
    var c := disposed.(phase := MarkClean(Write(r, Replace, true, false)));
    assert FineTo(disposed.(phase := Disposed(true)), 1, b);
    assert FineTo(s, 2, b);
    FineCleanTemp(b, r);
    FineJoin(s, 2, b, 3, c);
    FineCleanReplace(c, r);
    FineJoin(s, 5, c, 3, ShutClean(s, i));
  }

  /** The whole round: a served file that is shut down cleanly is not scanned by the next start. */
  lemma CleanRoundSkips(s: State, i: Identity)
    requires s.phase.Serving? && s.last.Some? && s.db == Some(i)
    ensures FineTo(s, 8, ShutClean(s, i))
    ensures exists t :: FineTo(After(ShutClean(s, i), Start), 11, t) && t.phase == Gate(false, true)
  {
    FineShutdownRecords(s, i);
    CleanRestartSkips(ShutClean(s, i), i);
  }
}
