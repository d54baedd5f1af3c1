/**
 A producer waiting for archive bytes: when the threads present can still get
 bytes released, and when nobody ever will.
 */
module ArchiveStall {
  import opened ArchiveQueue

  /** Producers that have yet to make sure of the writer, each good for one restart. */
  function Fresh(drafts: seq<Draft>): nat {
    if drafts == [] then 0 else (if drafts[0].phase.Unchecked? then 1 else 0) + Fresh(drafts[1..])
  }

  function LeadingStops(queue: seq<Slot>): nat {
    if queue == [] || queue[0].Item? then 0 else 1 + LeadingStops(queue[1..])
  }

  /** How often the writer has to be started before it takes a record: once if gone, and once for each stop mark ahead. */
  function Restarts(s: State): nat {
    match s.writer
    case Idle => LeadingStops(s.queue)
    case Exiting => 1 + LeadingStops(s.queue)
    case Stopped => 1 + LeadingStops(s.queue)
    case _ => 0
  }

  /** A step of the threads present: no new record, no failure, no new stop mark. */
  predicate Unaided(e: Event) {
    !e.Reserve? && !e.Drop? && !e.PutStop?
  }

  predicate AllUnaided(events: seq<Event>) {
    forall i :: 0 <= i < |events| ==> Unaided(events[i])
  }

  /** Some run of the threads present releases bytes. */
  ghost predicate CanRelease(s: State) {
    exists events :: Allowed(s, events) && AllUnaided(events) && Run(s, events).bytes < s.bytes
  }

  lemma LaterRelease(s: State, e: Event)
    requires Enabled(s, e) && Unaided(e) && After(s, e).bytes == s.bytes && CanRelease(After(s, e))
    ensures CanRelease(s)
  {
    var rest :| Allowed(After(s, e), rest) && AllUnaided(rest) && Run(After(s, e), rest).bytes < s.bytes;
    var events := [e] + rest;
    assert events[1..] == rest;
    assert Allowed(s, events) && AllUnaided(events);
  }

  // ----- a writer that is going releases -----

  lemma ReleasingReleases(s: State)
    requires Budget(s) && s.writer.Releasing?
    ensures CanRelease(s)
  {
    var events := [Release];
    assert events[1..] == [];
    assert Allowed(After(s, Release), []) && Run(After(s, Release), []) == After(s, Release);
    assert Allowed(s, events) && AllUnaided(events);
  }

  lemma WritingReleases(s: State)
    requires Budget(s) && s.writer.Writing?
    ensures CanRelease(s)
  {
    var e := Append(map[], s.files, false);
    assert forall p :: FileExtended(s.files, s.writer.batch, map[], s.files, p);
    BudgetKept(s, e);
    ReleasingReleases(After(s, e));
    LaterRelease(s, e);
  }

  lemma {:induction false} CollectingReleases(s: State)
    requires Budget(s) && s.writer.Collecting?
    ensures CanRelease(s)
    decreases |s.queue|
  {
    var e := if s.queue == [] then NoMore else GetMore;
    BudgetKept(s, e);
    if After(s, e).writer.Collecting? {
      CollectingReleases(After(s, e));
    } else {
      WritingReleases(After(s, e));
    }
    LaterRelease(s, e);
  }

  lemma FirstRecordReleases(s: State)
    requires Budget(s) && s.writer.Idle? && s.queue != [] && s.queue[0].Item?
    ensures CanRelease(s)
  {
    BudgetKept(s, Get);
    CollectingReleases(After(s, Get));
    LaterRelease(s, Get);
  }

  lemma PutReleases(s: State, i: nat)
    requires Budget(s) && s.capacity > 0 && s.writer.Idle? && s.queue == []
    requires i < |s.reserved| && !s.reserved[i].phase.Unchecked?
    ensures CanRelease(s)
  {
    BudgetKept(s, Put(i));
    FirstRecordReleases(After(s, Put(i)));
    LaterRelease(s, Put(i));
  }

  lemma DraftReleases(s: State)
    requires Budget(s) && s.capacity > 0 && s.writer.Idle? && s.queue == [] && s.reserved != []
    ensures CanRelease(s)
  {
    if s.reserved[0].phase.Unchecked? {
      BudgetKept(s, CheckWriter(0));
      PutReleases(After(s, CheckWriter(0)), 0);
      LaterRelease(s, CheckWriter(0));
    } else {
      PutReleases(s, 0);
    }
  }

  lemma GoingReleases(s: State)
    requires Budget(s) && s.capacity > 0 && s.bytes > 0 && Restarts(s) == 0
    ensures CanRelease(s)
  {
    match s.writer
    case Idle => if s.queue == [] { DraftReleases(s); } else { FirstRecordReleases(s); }
    case Collecting(_) => CollectingReleases(s);
    case Writing(_, _) => WritingReleases(s);
    case Releasing(_, _) => ReleasingReleases(s);
  }

  // ----- a writer that is gone is started by those who have yet to check -----

  lemma {:induction false} FreshFound(drafts: seq<Draft>) returns (i: nat)
    requires Fresh(drafts) > 0
    ensures i < |drafts| && drafts[i].phase.Unchecked?
  {
    if drafts[0].phase.Unchecked? {
      i := 0;
    } else {
      i := FreshFound(drafts[1..]);
      i := i + 1;
    }
  }

  lemma {:induction false} FreshChecked(drafts: seq<Draft>, i: nat)
    requires i < |drafts| && drafts[i].phase.Unchecked?
    ensures Fresh(InPhase(drafts, i, Checked)) == Fresh(drafts) - 1
  {
    if i == 0 {
      assert InPhase(drafts, 0, Checked)[1..] == drafts[1..];
    } else {
      assert InPhase(drafts, i, Checked)[1..] == InPhase(drafts[1..], i - 1, Checked);
      FreshChecked(drafts[1..], i - 1);
    }
  }

  function WriterRank(w: Writer): nat {
    match w
    case Idle => 2
    case Exiting => 1
    case _ => 0
  }

  lemma {:induction false} EnoughRelease(s: State)
    requires Budget(s) && s.capacity > 0 && s.bytes > 0 && Restarts(s) <= Fresh(s.reserved)
    ensures CanRelease(s)
    decreases Restarts(s), WriterRank(s.writer)
  {
    if Restarts(s) == 0 {
      GoingReleases(s);
    } else {
      var e := Get;
      if s.writer.Exiting? {
        e := Exit;
      } else if s.writer.Stopped? {
        var i := FreshFound(s.reserved);
        FreshChecked(s.reserved, i);
        e := CheckWriter(i);
      }
      BudgetKept(s, e);
      EnoughRelease(After(s, e));
      LaterRelease(s, e);
    }
  }

  // ----- and otherwise nothing is ever released -----

  predicate Stalled(s: State) {
    Fresh(s.reserved) < Restarts(s)
  }

  lemma {:induction false} StopsAhead(queue: seq<Slot>, r: Rec)
    ensures LeadingStops(queue + [Item(r)]) == LeadingStops(queue)
  {
    if queue != [] && queue[0].Stop? {
      assert (queue + [Item(r)])[1..] == queue[1..] + [Item(r)];
      StopsAhead(queue[1..], r);
    }
  }

  lemma {:induction false} FreshWithout(drafts: seq<Draft>, i: nat)
    requires i < |drafts| && !drafts[i].phase.Unchecked?
    ensures Fresh(Without(drafts, i)) == Fresh(drafts)
  {
    if i == 0 {
      assert Without(drafts, 0) == drafts[1..];
    } else {
      assert Without(drafts, i)[1..] == Without(drafts[1..], i - 1);
      FreshWithout(drafts[1..], i - 1);
    }
  }

  lemma {:induction false} FreshBlocked(drafts: seq<Draft>, i: nat)
    requires i < |drafts| && drafts[i].phase.Checked?
    ensures Fresh(InPhase(drafts, i, Blocked)) == Fresh(drafts)
  {
    if i == 0 {
      assert InPhase(drafts, 0, Blocked)[1..] == drafts[1..];
    } else {
      assert InPhase(drafts, i, Blocked)[1..] == InPhase(drafts[1..], i - 1, Blocked);
      FreshBlocked(drafts[1..], i - 1);
    }
  }

  lemma StalledStep(s: State, e: Event)
    requires Stalled(s) && Enabled(s, e) && Unaided(e)
    ensures Stalled(After(s, e)) && After(s, e).bytes == s.bytes
  {
    match e
    case CheckWriter(i) => FreshChecked(s.reserved, i);
    case Put(i) =>
      FreshWithout(s.reserved, i);
      StopsAhead(s.queue, Rec(|s.log|, s.reserved[i].file, s.reserved[i].size));
    case Block(i) => FreshBlocked(s.reserved, i);
    case _ =>
  }

  lemma {:induction false} StalledForGood(s: State, events: seq<Event>)
    requires Stalled(s) && Allowed(s, events) && AllUnaided(events)
    ensures Run(s, events).bytes == s.bytes
    decreases events
  {
    if events != [] {
      assert Unaided(events[0]);
      StalledStep(s, events[0]);
      assert forall i :: 0 <= i < |events[1..]| ==> events[1..][i] == events[i + 1];
      StalledForGood(After(s, events[0]), events[1..]);
    }
  }

  /**
   In every run, for a producer that cannot reserve: the threads present can get
   bytes released exactly when there are as many producers yet to make sure of
   the writer as there are restarts needed before it takes a record.
   */
  lemma BlockedUntilReleased(s: State, events: seq<Event>, size: Size)
    requires Init(s) && s.capacity > 0 && Allowed(s, events)
    requires !CanReserve(Run(s, events).limit, Run(s, events).bytes, size)
    ensures CanRelease(Run(s, events)) <==> Restarts(Run(s, events)) <= Fresh(Run(s, events).reserved)
  {
    StartIsSafe(s);
    ArchiveSafe(s, events);
    CapacityKept(s, events);
    var t := Run(s, events);
    if !Stalled(t) {
      EnoughRelease(t);
    } else {
      forall more | Allowed(t, more) && AllUnaided(more) ensures Run(t, more).bytes == t.bytes {
        StalledForGood(t, more);
      }
    }
  }

  lemma {:induction false} CapacityKept(s: State, events: seq<Event>)
    requires Allowed(s, events)
    ensures Run(s, events).capacity == s.capacity
    decreases events
  {
    if events != [] { CapacityKept(After(s, events[0]), events[1..]); }
  }

  // ----- a run that stalls -----

  const A := Rec(0, 0, 1)
  const B := Rec(1, 0, 1)

  function Empty(limit: nat, capacity: nat): State {
    State(limit, capacity, 0, [], [], 0, Stopped, [], map[])
  }

  /** A's record is being written. */
  function OneWriting(limit: nat, capacity: nat): State {
    State(limit, capacity, 1, [], [], 1, Writing([A], false), [A], map[])
  }

  /** And B's, whose producer found the writer alive, is on the queue. */
  function OneWaiting(limit: nat, capacity: nat): State {
    State(limit, capacity, 2, [], [Item(B)], 2, Writing([A], false), [A, B], map[])
  }

  /** The writer has crashed and gone. */
  function Deserted(limit: nat, capacity: nat): State {
    State(limit, capacity, 1, [], [Item(B)], 1, Stopped, [A, B], map[])
  }

  ghost predicate Reached(s: State) {
    exists events :: Allowed(Empty(s.limit, s.capacity), events) && Run(Empty(s.limit, s.capacity), events) == s
  }

  lemma ReachedNext(s: State, e: Event, s': State)
    requires Reached(s) && Enabled(s, e) && After(s, e) == s'
    ensures Reached(s')
  {
    var start := Empty(s.limit, s.capacity);
    var events :| Allowed(start, events) && Run(start, events) == s;
    RunSnoc(start, events, e);
  }

  /** A producer alone, with room in the queue, gets its record on it. */
  lemma Hands(s: State, r: Rec)
    requires Reached(s) && s.reserved == [] && CanReserve(s.limit, s.bytes, r.size) && |s.queue| < s.capacity
    requires r.number == |s.log|
    ensures Reached(s.(bytes := s.bytes + r.size, queue := s.queue + [Item(r)], unfinished := s.unfinished + 1,
                       log := s.log + [r], writer := if s.writer.Stopped? then Idle else s.writer))
  {
    var d := Draft(r.file, r.size, Unchecked);
    var t := s.(bytes := s.bytes + r.size, reserved := [d]);
    ReachedNext(s, Reserve(r.file, r.size), t);
    var u := t.(reserved := [d.(phase := Checked)], writer := if s.writer.Stopped? then Idle else s.writer);
    ReachedNext(t, CheckWriter(0), u);
    ReachedNext(u, Put(0), u.(reserved := [], queue := s.queue + [Item(r)], unfinished := s.unfinished + 1,
                              log := s.log + [r]));
  }

  lemma FirstIsWritten(limit: nat, capacity: nat)
    requires limit > 1 && capacity > 0
    ensures Reached(OneWriting(limit, capacity))
  {
    var s := Empty(limit, capacity);
    assert Allowed(s, []) && Run(s, []) == s;
    Hands(s, A);
    var t := State(limit, capacity, 1, [], [Item(A)], 1, Idle, [A], map[]);
    var u := t.(queue := [], writer := Collecting([A]));
    ReachedNext(t, Get, u);
    ReachedNext(u, NoMore, OneWriting(limit, capacity));
  }

  lemma WriterGoes(limit: nat, capacity: nat)
    requires limit > 1 && capacity > 0
    ensures Reached(Deserted(limit, capacity))
  {
    FirstIsWritten(limit, capacity);
    Hands(OneWriting(limit, capacity), B);
    var s := OneWaiting(limit, capacity);
    var t := s.(writer := Releasing([A], true));
    assert forall p :: FileExtended(map[], [A], map[], map[], p);
    ReachedNext(s, Append(map[], map[], true), t);
    ReachedNext(t, Release, Deserted(limit, capacity).(writer := Exiting));
    ReachedNext(Deserted(limit, capacity).(writer := Exiting), Exit, Deserted(limit, capacity));
  }

  /**
   For every queue and every byte limit above one: a run from the start leaves a
   record on the queue, the writer gone, and a producer waiting for bytes that
   nobody present can release.
   */
  lemma StallIsReached(limit: nat, capacity: nat)
    requires limit > 1 && capacity > 0
    ensures Init(Empty(limit, capacity)) && Reached(Deserted(limit, capacity))
    ensures !CanReserve(limit, Deserted(limit, capacity).bytes, limit) && !CanRelease(Deserted(limit, capacity))
  {
    WriterGoes(limit, capacity);
    var s := Deserted(limit, capacity);
    forall more | Allowed(s, more) && AllUnaided(more) ensures Run(s, more).bytes == s.bytes {
      StalledForGood(s, more);
    }
  }
}
