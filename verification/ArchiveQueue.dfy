/**
 The conversation archive: producers reserve bytes and queue records, one
 writer thread takes batches, appends them file by file and releases the bytes.
 Any step of any thread may be the next one.
 */
module ArchiveQueue {
  type Path = nat
  type Size = n: int | 1 <= n witness 1

  /** Where a producer that holds a reservation stands: the writer is checked once, and a full queue blocks it. */
  datatype Phase = Unchecked | Checked | Blocked

  /** A record whose bytes are reserved and which is not on the queue yet. */
  datatype Draft = Draft(file: Path, size: Size, phase: Phase)
  /** A queued record; `number` is its place in the order of enqueueing. */
  datatype Rec = Rec(number: nat, file: Path, size: Size)
  datatype Slot = Item(rec: Rec) | Stop

  datatype Writer =
    | Idle
    | Collecting(batch: seq<Rec>)
    | Writing(batch: seq<Rec>, stop: bool)
    | Releasing(left: seq<Rec>, stop: bool)
    | Exiting
    | Stopped

  /** `log` records everything ever queued; `unfinished` is the queue's own count of open tasks. */
  datatype State = State(limit: nat, capacity: nat, bytes: int, reserved: seq<Draft>, queue: seq<Slot>,
                         unfinished: int, writer: Writer, log: seq<Rec>, files: map<Path, seq<Rec>>)

  datatype Event =
    | Reserve(file: Path, size: Size)
    | CheckWriter(index: nat)
    | Put(index: nat)
    | Block(index: nat)
    | Drop(index: nat)
    | PutStop
    | Exit
    | Get
    | GetMore
    | NoMore
    | Append(written: map<Path, nat>, files: map<Path, seq<Rec>>, crash: bool)
    | Release

  function FileOf(files: map<Path, seq<Rec>>, p: Path): seq<Rec> {
    if p in files then files[p] else []
  }

  function OnFile(records: seq<Rec>, p: Path): (r: seq<Rec>)
    ensures forall x :: x in r <==> x in records && x.file == p
  {
    if records == [] then []
    else (if records[0].file == p then [records[0]] else []) + OnFile(records[1..], p)
  }

  /** Each file is extended by the first `written[p]` of the batch's records for it; the rest are lost. */
  ghost predicate Appended(files: map<Path, seq<Rec>>, batch: seq<Rec>, written: map<Path, nat>,
                           files': map<Path, seq<Rec>>) {
    forall p :: FileExtended(files, batch, written, files', p)
  }

  predicate FileExtended(files: map<Path, seq<Rec>>, batch: seq<Rec>, written: map<Path, nat>,
                         files': map<Path, seq<Rec>>, p: Path) {
    var n := if p in written then written[p] else 0;
    n <= |OnFile(batch, p)| && FileOf(files', p) == FileOf(files, p) + OnFile(batch, p)[..n]
  }

  predicate CanReserve(limit: nat, bytes: int, size: Size) {
    bytes + size <= limit || (size > limit && bytes == 0)
  }

  function Released(bytes: int, size: Size): int {
    if bytes - size < 0 then 0 else bytes - size
  }

  /**
   A producer makes sure of the writer once, after reserving and before queueing.
   An exiting writer still counts as alive. A producer gives its record up only
   for a failure before it blocks.
   */
  ghost predicate Enabled(s: State, e: Event) {
    match e
    case Reserve(_, size) => CanReserve(s.limit, s.bytes, size)
    case CheckWriter(i) => i < |s.reserved| && s.reserved[i].phase.Unchecked?
    case Put(i) => i < |s.reserved| && !s.reserved[i].phase.Unchecked? && |s.queue| < s.capacity
    case Block(i) => i < |s.reserved| && s.reserved[i].phase.Checked? && |s.queue| >= s.capacity
    case Drop(i) => i < |s.reserved| && !s.reserved[i].phase.Blocked?
    case PutStop => |s.queue| < s.capacity
    case Exit => s.writer.Exiting?
    case Get => s.writer.Idle? && s.queue != []
    case GetMore => s.writer.Collecting? && s.queue != []
    case NoMore => s.writer.Collecting? && s.queue == []
    case Append(written, files', _) => s.writer.Writing? && Appended(s.files, s.writer.batch, written, files')
    case Release => s.writer.Releasing? && s.writer.left != []
  }

  function Without(drafts: seq<Draft>, i: nat): seq<Draft>
    requires i < |drafts|
  {
    drafts[..i] + drafts[i + 1..]
  }

  function InPhase(drafts: seq<Draft>, i: nat, phase: Phase): seq<Draft>
    requires i < |drafts|
  {
    drafts[i := drafts[i].(phase := phase)]
  }

  function TakeSlot(s: State, batch: seq<Rec>): Writer
    requires s.queue != []
  {
    match s.queue[0]
    case Item(r) => Collecting(batch + [r])
    case Stop => if batch == [] then Exiting else Writing(batch, true)
  }

  ghost function After(s: State, e: Event): State
    requires Enabled(s, e)
  {
    match e
    case Reserve(file, size) =>
      s.(bytes := s.bytes + size, reserved := s.reserved + [Draft(file, size, Unchecked)])
    case CheckWriter(i) =>
      s.(reserved := InPhase(s.reserved, i, Checked), writer := if s.writer.Stopped? then Idle else s.writer)
    case Block(i) => s.(reserved := InPhase(s.reserved, i, Blocked))
    case Put(i) =>
      var r := Rec(|s.log|, s.reserved[i].file, s.reserved[i].size);
      s.(reserved := Without(s.reserved, i), queue := s.queue + [Item(r)],
         unfinished := s.unfinished + 1, log := s.log + [r])
    case Drop(i) =>
      s.(bytes := Released(s.bytes, s.reserved[i].size), reserved := Without(s.reserved, i))
    case PutStop => s.(queue := s.queue + [Stop], unfinished := s.unfinished + 1)
    case Exit => s.(writer := Stopped)
    case Get =>
      s.(queue := s.queue[1..], writer := TakeSlot(s, []),
         unfinished := if s.queue[0].Stop? then s.unfinished - 1 else s.unfinished)
    case GetMore =>
      s.(queue := s.queue[1..], writer := TakeSlot(s, s.writer.batch),
         unfinished := if s.queue[0].Stop? then s.unfinished - 1 else s.unfinished)
    case NoMore => s.(writer := Writing(s.writer.batch, false))
    case Append(_, files', crash) => s.(files := files', writer := Releasing(s.writer.batch, s.writer.stop || crash))
    case Release =>
      var rest := s.writer.left[1..];
      s.(bytes := Released(s.bytes, s.writer.left[0].size), unfinished := s.unfinished - 1,
         writer := if rest != [] then Releasing(rest, s.writer.stop) else if s.writer.stop then Exiting else Idle)
  }

  predicate Init(s: State) {
    && s.bytes == 0 && s.reserved == [] && s.queue == [] && s.unfinished == 0
    && s.writer == Stopped && s.log == [] && s.files == map[]
  }

  ghost predicate Allowed(s: State, events: seq<Event>)
    decreases events
  {
    events == [] || (Enabled(s, events[0]) && Allowed(After(s, events[0]), events[1..]))
  }

  ghost function Run(s: State, events: seq<Event>): State
    requires Allowed(s, events)
    decreases events
  {
    if events == [] then s else Run(After(s, events[0]), events[1..])
  }

  lemma {:induction false} RunConcat(s: State, a: seq<Event>, b: seq<Event>)
    requires Allowed(s, a) && Allowed(Run(s, a), b)
    ensures Allowed(s, a + b) && Run(s, a + b) == Run(Run(s, a), b)
    decreases a
  {
    if a == [] {
      assert a + b == b;
    } else {
      assert (a + b)[1..] == a[1..] + b;
      RunConcat(After(s, a[0]), a[1..], b);
    }
  }

  lemma RunSnoc(s: State, events: seq<Event>, e: Event)
    requires Allowed(s, events) && Enabled(Run(s, events), e)
    ensures Allowed(s, events + [e]) && Run(s, events + [e]) == After(Run(s, events), e)
  {
    RunConcat(s, events, [e]);
  }

  // ----- stop marks and full queues -----

  /** The writer has taken a stop mark, or crashed, and is on its way out. */
  predicate Leaving(w: Writer) {
    w.Exiting? || ((w.Writing? || w.Releasing?) && w.stop)
  }

  /** A stop mark taken sends the writer out. */
  lemma StopSendsOut(s: State, e: Event)
    requires Enabled(s, e) && (e.Get? || e.GetMore?) && s.queue[0].Stop?
    ensures Leaving(After(s, e).writer)
  {
  }

  lemma LeavingStays(s: State, e: Event)
    requires Leaving(s.writer) && Enabled(s, e)
    ensures !e.Get? && !e.GetMore? && (Leaving(After(s, e).writer) || (e.Exit? && After(s, e).writer.Stopped?))
  {
  }

  /** From then on, in every run, it takes nothing more until it has gone. */
  lemma {:induction false} LeavingTakesNothing(s: State, events: seq<Event>)
    requires Leaving(s.writer) && Allowed(s, events) && Exit !in events
    ensures Leaving(Run(s, events).writer) && Get !in events && GetMore !in events
    decreases events
  {
    if events != [] {
      LeavingStays(s, events[0]);
      assert forall e :: e in events <==> e == events[0] || e in events[1..];
      LeavingTakesNothing(After(s, events[0]), events[1..]);
    }
  }

  /** A producer at a full queue can only block, and at any other goes on. */
  lemma FullQueueBlocks(s: State, i: nat)
    requires i < |s.reserved| && s.reserved[i].phase.Checked?
    ensures Enabled(s, Put(i)) <==> |s.queue| < s.capacity
    ensures Enabled(s, Block(i)) <==> |s.queue| >= s.capacity
  {
  }

  /** A producer that has blocked cannot give its record up; it waits for room and then puts it. */
  lemma BlockedWaits(s: State, i: nat)
    requires Enabled(s, Block(i))
    ensures var t := After(s, Block(i));
            && t.reserved[i].phase.Blocked? && !Enabled(t, Drop(i)) && !Enabled(t, CheckWriter(i)) && !Enabled(t, Block(i))
            && (Enabled(t, Put(i)) <==> |t.queue| < t.capacity)
  {
  }

  // ----- the byte budget -----

  function DraftBytes(drafts: seq<Draft>): (n: nat)
    ensures |drafts| <= n
  {
    if drafts == [] then 0 else drafts[0].size + DraftBytes(drafts[1..])
  }

  function RecBytes(records: seq<Rec>): (n: nat)
    ensures |records| <= n
  {
    if records == [] then 0 else records[0].size + RecBytes(records[1..])
  }

  function Records(queue: seq<Slot>): seq<Rec> {
    if queue == [] then []
    else if queue[0].Item? then [queue[0].rec] + Records(queue[1..])
    else Records(queue[1..])
  }

  /** Taken off the queue and not released yet. */
  function Held(w: Writer): seq<Rec> {
    match w
    case Collecting(batch) => batch
    case Writing(batch, _) => batch
    case Releasing(left, _) => left
    case _ => []
  }

  function OutstandingBytes(s: State): nat {
    DraftBytes(s.reserved) + RecBytes(Records(s.queue)) + RecBytes(Held(s.writer))
  }

  function OutstandingCount(s: State): nat {
    |s.reserved| + |Records(s.queue)| + |Held(s.writer)|
  }

  /** The counter is exact, and within the limit unless one oversized record is all there is. */
  predicate Budget(s: State) {
    && s.bytes == OutstandingBytes(s)
    && (s.bytes <= s.limit || OutstandingCount(s) == 1)
    && s.unfinished == |s.queue| + |Held(s.writer)|
    && |s.queue| <= s.capacity
    && (s.writer.Collecting? || s.writer.Writing? || s.writer.Releasing? ==> Held(s.writer) != [])
  }

  lemma {:induction false} DraftAdded(drafts: seq<Draft>, d: Draft)
    ensures DraftBytes(drafts + [d]) == DraftBytes(drafts) + d.size
  {
    if drafts != [] {
      assert (drafts + [d])[1..] == drafts[1..] + [d];
      DraftAdded(drafts[1..], d);
    }
  }

  lemma {:induction false} DraftRemoved(drafts: seq<Draft>, i: nat)
    requires i < |drafts|
    ensures DraftBytes(drafts) == drafts[i].size + DraftBytes(Without(drafts, i))
  {
    if i == 0 {
      assert Without(drafts, 0) == drafts[1..];
    } else {
      assert Without(drafts, i)[1..] == Without(drafts[1..], i - 1);
      DraftRemoved(drafts[1..], i - 1);
    }
  }

  lemma {:induction false} RecAdded(records: seq<Rec>, r: Rec)
    ensures RecBytes(records + [r]) == RecBytes(records) + r.size
  {
    if records != [] {
      assert (records + [r])[1..] == records[1..] + [r];
      RecAdded(records[1..], r);
    }
  }

  lemma {:induction false} SlotAdded(queue: seq<Slot>, x: Slot)
    ensures Records(queue + [x]) == if x.Item? then Records(queue) + [x.rec] else Records(queue)
  {
    if queue != [] {
      assert (queue + [x])[1..] == queue[1..] + [x];
      SlotAdded(queue[1..], x);
    }
  }

  lemma {:induction false} PhaseWeighsNothing(drafts: seq<Draft>, i: nat, phase: Phase)
    requires i < |drafts|
    ensures DraftBytes(InPhase(drafts, i, phase)) == DraftBytes(drafts)
  {
    if i == 0 {
      assert InPhase(drafts, 0, phase)[1..] == drafts[1..];
    } else {
      assert InPhase(drafts, i, phase)[1..] == InPhase(drafts[1..], i - 1, phase);
      PhaseWeighsNothing(drafts[1..], i - 1, phase);
    }
  }

  lemma ReserveKeepsBudget(s: State, file: Path, size: Size)
    requires Budget(s) && Enabled(s, Reserve(file, size))
    ensures Budget(After(s, Reserve(file, size)))
  {
    DraftAdded(s.reserved, Draft(file, size, Unchecked));
  }

  lemma PutKeepsBudget(s: State, i: nat)
    requires Budget(s) && Enabled(s, Put(i))
    ensures Budget(After(s, Put(i)))
  {
    var r := Rec(|s.log|, s.reserved[i].file, s.reserved[i].size);
    DraftRemoved(s.reserved, i);
    SlotAdded(s.queue, Item(r));
    RecAdded(Records(s.queue), r);
  }

  lemma DropKeepsBudget(s: State, i: nat)
    requires Budget(s) && Enabled(s, Drop(i))
    ensures Budget(After(s, Drop(i))) && s.bytes >= s.reserved[i].size
  {
    DraftRemoved(s.reserved, i);
  }

  lemma GetKeepsBudget(s: State, e: Event)
    requires Budget(s) && Enabled(s, e) && (e.Get? || e.GetMore?)
    ensures Budget(After(s, e))
  {
    if s.queue[0].Item? {
      RecAdded(Held(s.writer), s.queue[0].rec);
      assert Records(s.queue)[1..] == Records(s.queue[1..]);
    }
  }

  lemma PutStopKeepsBudget(s: State)
    requires Budget(s) && Enabled(s, PutStop)
    ensures Budget(After(s, PutStop))
  {
    SlotAdded(s.queue, Stop);
  }

  lemma PhaseKeepsBudget(s: State, e: Event)
    requires Budget(s) && Enabled(s, e) && (e.CheckWriter? || e.Block?)
    ensures Budget(After(s, e))
  {
    PhaseWeighsNothing(s.reserved, e.index, if e.Block? then Blocked else Checked);
  }

  lemma ReleaseKeepsBudget(s: State)
    requires Budget(s) && Enabled(s, Release)
    ensures Budget(After(s, Release)) && s.bytes >= s.writer.left[0].size
  {
  }

  /** The writer's other moves keep what it holds. */
  lemma MoveKeepsBudget(s: State, e: Event)
    requires Budget(s) && Enabled(s, e) && (e.Exit? || e.NoMore? || e.Append?)
    ensures Budget(After(s, e))
  {
    assert Held(After(s, e).writer) == Held(s.writer);
  }

  lemma BudgetKept(s: State, e: Event)
    requires Budget(s) && Enabled(s, e)
    ensures Budget(After(s, e))
  {
    match e
    case Reserve(file, size) => ReserveKeepsBudget(s, file, size);
    case CheckWriter(_) => PhaseKeepsBudget(s, e);
    case Block(_) => PhaseKeepsBudget(s, e);
    case Put(i) => PutKeepsBudget(s, i);
    case Drop(i) => DropKeepsBudget(s, i);
    case PutStop => PutStopKeepsBudget(s);
    case Get => GetKeepsBudget(s, e);
    case GetMore => GetKeepsBudget(s, e);
    case Release => ReleaseKeepsBudget(s);
    case _ => MoveKeepsBudget(s, e);
  }

  // ----- the order of records in the files -----

  ghost predicate Increasing(records: seq<Rec>) {
    forall i, j :: 0 <= i < j < |records| ==> records[i].number < records[j].number
  }

  ghost predicate Numbered(log: seq<Rec>) {
    forall i :: 0 <= i < |log| ==> log[i].number == i
  }

  /** Queued and not yet handed to the files. */
  function Pending(s: State): seq<Rec> {
    (if s.writer.Collecting? || s.writer.Writing? then s.writer.batch else []) + Records(s.queue)
  }

  /** `file` holds records queued for `p`, each once and in the order of enqueueing, all from the first `n`. */
  ghost predicate Ordered(log: seq<Rec>, n: int, file: seq<Rec>, p: Path) {
    && Increasing(file)
    && forall r :: r in file ==> r.number < n && r.number < |log| && log[r.number] == r && r.file == p
  }

  ghost predicate Order(s: State) {
    && Numbered(s.log)
    && |Pending(s)| <= |s.log|
    && s.log[|s.log| - |Pending(s)|..] == Pending(s)
    && forall p :: Ordered(s.log, |s.log| - |Pending(s)|, FileOf(s.files, p), p)
  }

  lemma {:induction false} OnFileIncreasing(records: seq<Rec>, p: Path)
    requires Increasing(records)
    ensures Increasing(OnFile(records, p))
  {
    if records != [] {
      assert Increasing(records[1..]);
      OnFileIncreasing(records[1..], p);
      var rest := OnFile(records[1..], p);
      forall j | 0 <= j < |rest| ensures records[0].number < rest[j].number {
        assert rest[j] in records[1..];
      }
    }
  }

  lemma BatchFacts(log: seq<Rec>, n: int, m: int, p: Path)
    requires Numbered(log) && 0 <= n <= m <= |log|
    ensures Increasing(OnFile(log[n..m], p))
    ensures forall r :: r in OnFile(log[n..m], p) ==> n <= r.number < m && log[r.number] == r && r.file == p
  {
    OnFileIncreasing(log[n..m], p);
  }

  lemma IncreasingConcat(a: seq<Rec>, b: seq<Rec>, n: int)
    requires Increasing(a) && Increasing(b)
    requires forall r :: r in a ==> r.number < n
    requires forall r :: r in b ==> n <= r.number
    ensures Increasing(a + b)
  {
    var all := a + b;
    forall i, j | 0 <= i < j < |all| ensures all[i].number < all[j].number {
      if i < |a| <= j { assert all[i] in a && all[j] in b; }
    }
  }

  /** A prefix of the batch's records for a file goes after everything already in it. */
  lemma ExtendOrdered(log: seq<Rec>, n: int, m: int, file: seq<Rec>, k: nat, p: Path)
    requires Numbered(log) && 0 <= n <= m <= |log| && Ordered(log, n, file, p)
    requires k <= |OnFile(log[n..m], p)|
    ensures Ordered(log, m, file + OnFile(log[n..m], p)[..k], p)
  {
    BatchFacts(log, n, m, p);
    IncreasingConcat(file, OnFile(log[n..m], p)[..k], n);
  }

  lemma OrderedStays(log: seq<Rec>, n: int, r: Rec, file: seq<Rec>, p: Path)
    requires Ordered(log, n, file, p)
    ensures Ordered(log + [r], n, file, p)
  {
  }

  lemma SplitLog(log: seq<Rec>, batch: seq<Rec>, queued: seq<Rec>)
    requires |batch + queued| <= |log| && log[|log| - |batch + queued|..] == batch + queued
    ensures log[|log| - |batch + queued|..|log| - |queued|] == batch && log[|log| - |queued|..] == queued
    ensures log[..|log| - |queued|] == log[..|log| - |batch + queued|] + batch
  {
    var n := |log| - |batch + queued|;
    assert log[n..][..|batch|] == batch && log[n..][|batch|..] == queued;
  }

  lemma FileStaysOrdered(log: seq<Rec>, n: int, m: int, files: map<Path, seq<Rec>>, written: map<Path, nat>,
                         files': map<Path, seq<Rec>>, p: Path)
    requires Numbered(log) && 0 <= n <= m <= |log| && Ordered(log, n, FileOf(files, p), p)
    requires FileExtended(files, log[n..m], written, files', p)
    ensures Ordered(log, m, FileOf(files', p), p)
  {
    var k := if p in written then written[p] else 0;
    ExtendOrdered(log, n, m, FileOf(files, p), k, p);
  }

  lemma AppendKeepsOrder(s: State, e: Event)
    requires Order(s) && e.Append? && Enabled(s, e)
    ensures Order(After(s, e))
  {
    PendingAfterAppend(s, e);
    AppendedStaysOrdered(s, s.writer.batch, Records(s.queue), e.written, After(s, e));
  }

  lemma AppendedStaysOrdered(s: State, batch: seq<Rec>, queued: seq<Rec>, written: map<Path, nat>, s': State)
    requires Order(s) && Pending(s) == batch + queued && Appended(s.files, batch, written, s'.files)
    requires s'.log == s.log && Pending(s') == queued
    ensures Order(s')
  {
    AppendedFiles(s.log, batch, queued, s.files, written, s'.files);
    OrderFrom(s', queued);
  }

  lemma AppendedFiles(log: seq<Rec>, batch: seq<Rec>, queued: seq<Rec>, files: map<Path, seq<Rec>>,
                      written: map<Path, nat>, files': map<Path, seq<Rec>>)
    requires Numbered(log) && |batch + queued| <= |log| && log[|log| - |batch + queued|..] == batch + queued
    requires forall p :: Ordered(log, |log| - |batch + queued|, FileOf(files, p), p)
    requires Appended(files, batch, written, files')
    ensures |queued| <= |log| && log[|log| - |queued|..] == queued
    ensures forall p :: Ordered(log, |log| - |queued|, FileOf(files', p), p)
  {
    var n, m := |log| - |batch + queued|, |log| - |queued|;
    SplitLog(log, batch, queued);
    assert log[n..m] == batch;
    FilesStayOrdered(log, n, m, files, written, files');
  }

  lemma PendingAfterAppend(s: State, e: Event)
    requires e.Append? && Enabled(s, e)
    ensures Pending(s) == s.writer.batch + Records(s.queue) && Pending(After(s, e)) == Records(s.queue)
  {
    assert [] + Records(s.queue) == Records(s.queue);
  }

  lemma OrderFrom(s: State, pending: seq<Rec>)
    requires Numbered(s.log) && Pending(s) == pending && |pending| <= |s.log| && s.log[|s.log| - |pending|..] == pending
    requires forall p :: Ordered(s.log, |s.log| - |pending|, FileOf(s.files, p), p)
    ensures Order(s)
  {
  }

  lemma FilesStayOrdered(log: seq<Rec>, n: int, m: int, files: map<Path, seq<Rec>>, written: map<Path, nat>,
                         files': map<Path, seq<Rec>>)
    requires Numbered(log) && 0 <= n <= m <= |log| && forall p :: Ordered(log, n, FileOf(files, p), p)
    requires Appended(files, log[n..m], written, files')
    ensures forall p :: Ordered(log, m, FileOf(files', p), p)
  {
    forall p ensures Ordered(log, m, FileOf(files', p), p) {
      FileStaysOrdered(log, n, m, files, written, files', p);
    }
  }

  lemma PutKeepsOrder(s: State, i: nat)
    requires Order(s) && Enabled(s, Put(i))
    ensures Order(After(s, Put(i)))
  {
    var r := Rec(|s.log|, s.reserved[i].file, s.reserved[i].size);
    SlotAdded(s.queue, Item(r));
    var s' := After(s, Put(i));
    assert Pending(s') == Pending(s) + [r];
    AllOrderedStay(s.log, |s.log| - |Pending(s)|, r, s.files);
    assert s'.log[|s'.log| - |Pending(s')|..] == Pending(s');
    OrderFrom(s', Pending(s'));
  }

  lemma AllOrderedStay(log: seq<Rec>, n: int, r: Rec, files: map<Path, seq<Rec>>)
    requires forall p :: Ordered(log, n, FileOf(files, p), p)
    ensures forall p :: Ordered(log + [r], n, FileOf(files, p), p)
  {
    forall p ensures Ordered(log + [r], n, FileOf(files, p), p) {
      OrderedStays(log, n, r, FileOf(files, p), p);
    }
  }

  /** Every other step leaves the log, the files and what is pending as they were. */
  lemma OtherKeepsPending(s: State, e: Event)
    requires Budget(s) && Enabled(s, e) && !e.Append? && !e.Put?
    ensures Pending(After(s, e)) == Pending(s) && After(s, e).log == s.log && After(s, e).files == s.files
  {
    match e
    case PutStop =>
      SlotAdded(s.queue, Stop);
    case Get => if s.queue[0].Item? { assert [] + Records(s.queue) == [s.queue[0].rec] + Records(s.queue[1..]); }
    case GetMore =>
      var batch := s.writer.batch;
      if s.queue[0].Item? {
        assert batch + ([s.queue[0].rec] + Records(s.queue[1..])) == (batch + [s.queue[0].rec]) + Records(s.queue[1..]);
      } else {
        assert [] + Records(s.queue[1..]) == Records(s.queue[1..]);
      }
    case _ =>
  }

  lemma OrderKept(s: State, e: Event)
    requires Budget(s) && Order(s) && Enabled(s, e)
    ensures Order(After(s, e))
  {
    if e.Append? {
      AppendKeepsOrder(s, e);
    } else if e.Put? {
      PutKeepsOrder(s, e.index);
    } else {
      OtherKeepsPending(s, e);
    }
  }

  /** In every run from the start the counter is exact and every file is in order. */
  lemma {:induction false} ArchiveSafe(s: State, events: seq<Event>)
    requires Budget(s) && Order(s) && Allowed(s, events)
    ensures Budget(Run(s, events)) && Order(Run(s, events))
    decreases events
  {
    if events != [] {
      BudgetKept(s, events[0]);
      OrderKept(s, events[0]);
      ArchiveSafe(After(s, events[0]), events[1..]);
    }
  }

  lemma EmptyIsOrdered(log: seq<Rec>, n: int, p: Path)
    ensures Ordered(log, n, [], p)
  {
  }

  lemma StartIsSafe(s: State)
    requires Init(s)
    ensures Budget(s) && Order(s) && Complete(s)
  {
    assert Pending(s) == [] && s.log[0..] == [];
    forall p ensures Ordered(s.log, 0, FileOf(s.files, p), p) { EmptyIsOrdered(s.log, 0, p); }
    OrderFrom(s, []);
  }

  /** So releasing never has to clip the counter at zero. */
  lemma ReleaseNeverClips(s: State, events: seq<Event>, e: Event)
    requires Init(s) && Allowed(s, events) && Enabled(Run(s, events), e)
    ensures e.Release? ==> Run(s, events).bytes >= Run(s, events).writer.left[0].size
    ensures e.Drop? ==> Run(s, events).bytes >= Run(s, events).reserved[e.index].size
  {
    StartIsSafe(s);
    ArchiveSafe(s, events);
    if e.Drop? { DropKeepsBudget(Run(s, events), e.index); }
    if e.Release? { ReleaseKeepsBudget(Run(s, events)); }
  }

  /** `flush` returns when no task is open: then nothing is queued or in the writer's hands. */
  lemma FlushedMeansHandedOver(s: State, events: seq<Event>)
    requires Init(s) && Allowed(s, events) && Run(s, events).unfinished == 0
    ensures Run(s, events).queue == [] && Pending(Run(s, events)) == []
  {
    StartIsSafe(s);
    ArchiveSafe(s, events);
  }

  // ----- nothing is lost without a failure -----

  ghost predicate FullAppend(batch: seq<Rec>, e: Event) {
    e.Append? ==> forall p :: WholeFile(batch, e.written, p)
  }

  predicate WholeFile(batch: seq<Rec>, written: map<Path, nat>, p: Path) {
    |OnFile(batch, p)| == if p in written then written[p] else 0
  }

  ghost predicate NeverFails(s: State, events: seq<Event>)
    requires Allowed(s, events)
    decreases events
  {
    events == [] || ((s.writer.Writing? ==> FullAppend(s.writer.batch, events[0]))
                     && NeverFails(After(s, events[0]), events[1..]))
  }

  /** Each file holds exactly the records handed over so far, in the order of enqueueing. */
  ghost predicate Complete(s: State) {
    |Pending(s)| <= |s.log| && forall p :: HoldsAll(HandedOver(s), s.files, p)
  }

  function HandedOver(s: State): seq<Rec>
    requires |Pending(s)| <= |s.log|
  {
    s.log[..|s.log| - |Pending(s)|]
  }

  predicate HoldsAll(records: seq<Rec>, files: map<Path, seq<Rec>>, p: Path) {
    FileOf(files, p) == OnFile(records, p)
  }

  lemma {:induction false} OnFileConcat(a: seq<Rec>, b: seq<Rec>, p: Path)
    ensures OnFile(a + b, p) == OnFile(a, p) + OnFile(b, p)
  {
    if a == [] {
      assert a + b == b;
    } else {
      assert (a + b)[1..] == a[1..] + b;
      OnFileConcat(a[1..], b, p);
    }
  }

  lemma FileComplete(done: seq<Rec>, batch: seq<Rec>, files: map<Path, seq<Rec>>, e: Event, p: Path)
    requires e.Append? && FullAppend(batch, e) && FileExtended(files, batch, e.written, e.files, p)
    requires HoldsAll(done, files, p)
    ensures HoldsAll(done + batch, e.files, p)
  {
    OnFileConcat(done, batch, p);
    assert WholeFile(batch, e.written, p);
    var all := OnFile(batch, p);
    assert all[..|all|] == all;
  }

  lemma AppendKeepsComplete(s: State, e: Event)
    requires Order(s) && Complete(s) && e.Append? && Enabled(s, e) && FullAppend(s.writer.batch, e)
    ensures Complete(After(s, e))
  {
    var batch, queued := s.writer.batch, Records(s.queue);
    SplitLog(s.log, batch, queued);
    assert [] + queued == queued;
    assert HandedOver(After(s, e)) == HandedOver(s) + batch;
    forall p ensures HoldsAll(HandedOver(s) + batch, e.files, p) {
      FileComplete(HandedOver(s), batch, s.files, e, p);
    }
  }

  lemma PutKeepsComplete(s: State, i: nat)
    requires Complete(s) && Enabled(s, Put(i))
    ensures Complete(After(s, Put(i)))
  {
    var r := Rec(|s.log|, s.reserved[i].file, s.reserved[i].size);
    SlotAdded(s.queue, Item(r));
    var s', n := After(s, Put(i)), |s.log| - |Pending(s)|;
    assert Pending(s') == Pending(s) + [r];
    assert HandedOver(s') == HandedOver(s);
  }

  lemma CompleteKept(s: State, e: Event)
    requires Budget(s) && Order(s) && Complete(s) && Enabled(s, e)
    requires s.writer.Writing? ==> FullAppend(s.writer.batch, e)
    ensures Complete(After(s, e))
  {
    if e.Append? {
      AppendKeepsComplete(s, e);
    } else if e.Put? {
      PutKeepsComplete(s, e.index);
    } else {
      OtherKeepsPending(s, e);
      assert HandedOver(After(s, e)) == HandedOver(s);
    }
  }

  /** With no failed append, no record is lost, duplicated or reordered between the queue and its file. */
  lemma {:induction false} NothingLost(s: State, events: seq<Event>)
    requires Budget(s) && Order(s) && Complete(s) && Allowed(s, events) && NeverFails(s, events)
    ensures Complete(Run(s, events))
    decreases events
  {
    if events != [] {
      BudgetKept(s, events[0]);
      OrderKept(s, events[0]);
      CompleteKept(s, events[0]);
      NothingLost(After(s, events[0]), events[1..]);
    }
  }
}
