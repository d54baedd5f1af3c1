/**
 The archive's own code, step by step: the byte counter, the grouping of a
 batch by file, and one pass of the writer loop as a run of the archive machine.
 */
module ArchiveWriter {
  import opened Basics
  import opened ArchiveQueue

  /** How appending one file's group ends; a failure may leave part of the group in the file. */
  datatype Outcome = Done | Failed(wrote: nat, diskPressure: bool)

  lemma FileStep(items: seq<Rec>, i: int, p: Path)
    requires 0 <= i < |items|
    ensures OnFile(items[..i + 1], p) == OnFile(items[..i], p) + if items[i].file == p then [items[i]] else []
  {
    assert items[..i + 1] == items[..i] + [items[i]];
    OnFileConcat(items[..i], [items[i]], p);
  }

  ghost predicate Grouped(grouped: map<Path, seq<Rec>>, items: seq<Rec>) {
    forall p :: HoldsAll(items, grouped, p)
  }

  lemma GroupStep(items: seq<Rec>, i: int, grouped: map<Path, seq<Rec>>)
    requires 0 <= i < |items| && Grouped(grouped, items[..i])
    ensures Grouped(grouped[items[i].file := FileOf(grouped, items[i].file) + [items[i]]], items[..i + 1])
  {
    var file := items[i].file;
    var grouped' := grouped[file := FileOf(grouped, file) + [items[i]]];
    var next := items[..i + 1];
    forall p ensures HoldsAll(next, grouped', p) {
      FileStep(items, i, p);
      assert HoldsAll(items[..i], grouped, p);
    }
  }

  /** The files of a batch, by first appearance. */
  function Files(items: seq<Rec>): seq<Path> {
    if items == [] then []
    else
      var before := Files(items[..|items| - 1]);
      var file := items[|items| - 1].file;
      if file in before then before else before + [file]
  }

  lemma FilesStep(items: seq<Rec>, i: int)
    requires 0 <= i < |items|
    ensures var before := Files(items[..i]);
            Files(items[..i + 1]) == if items[i].file in before then before else before + [items[i].file]
  {
    assert items[..i + 1][..i] == items[..i];
  }

  /** Each file comes once, with its own records of the batch. */
  ghost predicate InGroups(items: seq<Rec>, order: seq<Path>, grouped: map<Path, seq<Rec>>) {
    if order == [] then true
    else
      var last := order[|order| - 1];
      && last in grouped && grouped[last] == OnFile(items, last)
      && last !in order[..|order| - 1] && InGroups(items, order[..|order| - 1], grouped)
  }

  lemma {:induction false} GroupAt(items: seq<Rec>, order: seq<Path>, grouped: map<Path, seq<Rec>>, i: nat)
    requires InGroups(items, order, grouped) && i < |order|
    ensures order[i] in grouped && grouped[order[i]] == OnFile(items, order[i]) && order[i] !in order[..i]
  {
    var n := |order| - 1;
    if i < n {
      GroupAt(items, order[..n], grouped, i);
      assert order[..n][..i] == order[..i];
    }
  }

  lemma {:induction false} AllInGroups(items: seq<Rec>, order: seq<Path>, grouped: map<Path, seq<Rec>>)
    requires Grouped(grouped, items) && Elements(order) <= grouped.Keys
    requires forall i, j :: 0 <= i < j < |order| ==> order[i] != order[j]
    ensures InGroups(items, order, grouped)
  {
    if order != [] {
      var n := |order| - 1;
      assert HoldsAll(items, grouped, order[n]);
      AllInGroups(items, order[..n], grouped);
    }
  }

  /** Groups a batch by file, keeping the batch's order inside each group. */
  method GroupRecords(items: seq<Rec>) returns (order: seq<Path>, grouped: map<Path, seq<Rec>>)
    ensures Grouped(grouped, items) && grouped.Keys == Elements(order)
    ensures order == Files(items) && InGroups(items, order, grouped)
  {
    order, grouped := [], map[];
    for i := 0 to |items|
      invariant Grouped(grouped, items[..i])
      invariant order == Files(items[..i]) && grouped.Keys == Elements(order)
      invariant forall i, j :: 0 <= i < j < |order| ==> order[i] != order[j]
    {
      var file := items[i].file;
      GroupStep(items, i, grouped);
      FilesStep(items, i);
      if file !in grouped {
        order := order + [file];
      }
      grouped := grouped[file := FileOf(grouped, file) + [items[i]]];
    }
    assert items[..|items|] == items;
    AllInGroups(items, order, grouped);
  }

  lemma ExtendOne(files0: map<Path, seq<Rec>>, items: seq<Rec>, written: map<Path, nat>,
                  files: map<Path, seq<Rec>>, path: Path, n: nat)
    requires Appended(files0, items, written, files) && path !in written && n <= |OnFile(items, path)|
    ensures Appended(files0, items, written[path := n], files[path := FileOf(files, path) + OnFile(items, path)[..n]])
  {
    var files' := files[path := FileOf(files, path) + OnFile(items, path)[..n]];
    var written' := written[path := n];
    forall p ensures FileExtended(files0, items, written', files', p) {
      assert FileExtended(files0, items, written, files, p);
      if p == path {
        assert FileOf(files, p) == FileOf(files0, p);
      }
    }
  }

  /** How many records of a group reach the file. */
  function Wrote(result: Outcome, group: nat): (n: nat)
    ensures n <= group && (result.Done? ==> n == group)
    ensures result.Failed? ==> n <= result.wrote && (n == result.wrote || n == group)
  {
    match result
    case Done => group
    case Failed(wrote, _) => if wrote < group then wrote else group
  }

  predicate Abandons(result: Outcome) {
    result.Failed? && result.diskPressure
  }

  predicate AsFarAs(items: seq<Rec>, result: Outcome, written: map<Path, nat>, p: Path) {
    p in written ==> written[p] == Wrote(result, |OnFile(items, p)|)
  }

  /** Each file written to has got as much of its group as its own append writes. */
  ghost predicate AllAsFarAs(items: seq<Rec>, outcome: Path -> Outcome, written: map<Path, nat>) {
    forall p :: AsFarAs(items, outcome(p), written, p)
  }

  /** The first n files have been appended to, and none before the last of them abandons. */
  ghost predicate Through(order: seq<Path>, n: nat, outcome: Path -> Outcome, written: map<Path, nat>) {
    && n <= |order| && written.Keys == Elements(order[..n])
    && forall i :: 0 <= i < n - 1 ==> !Abandons(outcome(order[i]))
  }

  /** The files are appended to by first appearance, all of them unless a disk-pressure failure abandons the rest. */
  ghost predicate AppendedAll(items: seq<Rec>, pressure: bool, outcome: Path -> Outcome, written: map<Path, nat>) {
    && AllAsFarAs(items, outcome, written)
    && if pressure then written == map[]
       else exists n :: Through(Files(items), n, outcome, written) && EndsAt(Files(items), n, outcome)
  }

  predicate EndsAt(order: seq<Path>, n: nat, outcome: Path -> Outcome) {
    n == |order| || (0 < n < |order| && Abandons(outcome(order[n - 1])))
  }

  lemma NothingAppended(items: seq<Rec>, pressure: bool, outcome: Path -> Outcome)
    requires items == [] || pressure
    ensures AppendedAll(items, pressure, outcome, map[])
  {
    if !pressure {
      assert Through(Files(items), 0, outcome, map[]) && EndsAt(Files(items), 0, outcome);
    }
  }

  lemma ThroughNext(order: seq<Path>, n: nat, outcome: Path -> Outcome, written: map<Path, nat>, wrote: nat)
    requires Through(order, n, outcome, written) && n < |order|
    requires n > 0 ==> !Abandons(outcome(order[n - 1]))
    ensures Through(order, n + 1, outcome, written[order[n] := wrote])
  {
    assert order[..n + 1] == order[..n] + [order[n]];
  }

  lemma AsFarAsNext(items: seq<Rec>, outcome: Path -> Outcome, written: map<Path, nat>, path: Path, wrote: nat)
    requires AllAsFarAs(items, outcome, written) && wrote == Wrote(outcome(path), |OnFile(items, path)|)
    ensures AllAsFarAs(items, outcome, written[path := wrote])
  {
    var more := written[path := wrote];
    forall p ensures AsFarAs(items, outcome(p), more, p) {
      assert AsFarAs(items, outcome(p), written, p);
    }
  }

  lemma {:induction false} FilesCover(items: seq<Rec>, p: Path)
    ensures p in Files(items) || OnFile(items, p) == []
  {
    if items != [] {
      var n := |items| - 1;
      FilesCover(items[..n], p);
      FileStep(items, n, p);
      assert items[..n + 1] == items;
    }
  }

  /** Without disk pressure a file whose own append succeeds is whole, whatever happens to the others. */
  lemma OwnAppendIsWhole(items: seq<Rec>, outcome: Path -> Outcome, written: map<Path, nat>, p: Path)
    requires AppendedAll(items, false, outcome, written)
    requires (forall q :: outcome(q).Failed? ==> !outcome(q).diskPressure) && outcome(p).Done?
    ensures WholeFile(items, written, p)
  {
    FilesCover(items, p);
    var order := Files(items);
    var n :| Through(order, n, outcome, written) && EndsAt(order, n, outcome);
    assert order[..|order|] == order && AsFarAs(items, outcome(p), written, p);
  }

  class Archive {
    const limit: nat
    var bytes: int
    var queue: seq<Slot>
    var unfinished: int
    var files: map<Path, seq<Rec>>

    constructor (limit: nat)
      ensures this.limit == limit && bytes == 0 && queue == [] && unfinished == 0 && files == map[]
    {
      this.limit, bytes, queue, unfinished, files := limit, 0, [], 0, map[];
    }

    ghost predicate At(s: State)
      reads this
    {
      s.limit == limit && s.bytes == bytes && s.queue == queue && s.unfinished == unfinished && s.files == files
    }

    method TryReserve(size: Size, ghost s: State) returns (ok: bool)
      requires At(s)
      modifies this`bytes
      ensures forall file: Path :: ok <==> Enabled(s, Reserve(file, size))
      ensures forall file: Path :: ok ==> At(After(s, Reserve(file, size)))
      ensures !ok ==> bytes == old(bytes)
    {
      ok := CanReserve(limit, bytes, size);
      if ok {
        bytes := bytes + size;
      }
    }

    method ReleaseBytes(size: Size)
      modifies this`bytes
      ensures bytes == Released(old(bytes), size)
      ensures old(bytes) >= size ==> bytes + size == old(bytes)
      ensures old(bytes) < size ==> bytes == 0
    {
      var left := bytes - size;
      bytes := if left < 0 then 0 else left;
    }

    /** Appends one group as far as it goes. */
    method AppendGroup(items: seq<Rec>, path: Path, records: seq<Rec>, outcome: Path -> Outcome,
                       before: map<Path, nat>, ghost files0: map<Path, seq<Rec>>)
      returns (n: nat, written: map<Path, nat>)
      requires records == OnFile(items, path) && path !in before
      requires Appended(files0, items, before, files) && AllAsFarAs(items, outcome, before)
      modifies this`files
      ensures written == before[path := n]
      ensures Appended(files0, items, written, files) && AllAsFarAs(items, outcome, written)
    {
      var result := outcome(path);
      n := if result.Done? || result.wrote > |records| then |records| else result.wrote;
      written := before[path := n];
      ExtendOne(files0, items, before, files, path, n);
      AsFarAsNext(items, outcome, before, path, n);
      files := files[path := FileOf(files, path) + records[..n]];
    }

    /** Appends the groups in turn; a disk-pressure failure abandons the groups after it. */
    method AppendGroups(items: seq<Rec>, outcome: Path -> Outcome) returns (written: map<Path, nat>)
      modifies this`files
      ensures Appended(old(files), items, written, files) && AppendedAll(items, false, outcome, written)
    {
      written := map[];
      var order, grouped := GroupRecords(items);
      var i := 0;
      while i < |order|
        invariant Appended(old(files), items, written, files) && AllAsFarAs(items, outcome, written)
        invariant 0 <= i <= |order| && Through(order, i, outcome, written)
        invariant i > 0 ==> !Abandons(outcome(order[i - 1]))
      {
        var path := order[i];
        GroupAt(items, order, grouped, i);
        ghost var before := written;
        var n;
        n, written := AppendGroup(items, path, grouped[path], outcome, written, old(files));
        ThroughNext(order, i, outcome, before, n);
        i := i + 1;
        if Abandons(outcome(path)) {
          break;
        }
      }
      assert EndsAt(order, i, outcome);
    }

    /** Appends the batch, unless the disk is under pressure. */
    method AppendRecords(items: seq<Rec>, pressure: bool, outcome: Path -> Outcome) returns (written: map<Path, nat>)
      modifies this`files
      ensures Appended(old(files), items, written, files) && AppendedAll(items, pressure, outcome, written)
      ensures !pressure && (forall q :: outcome(q).Failed? ==> !outcome(q).diskPressure) ==>
                forall p :: outcome(p).Done? ==> WholeFile(items, written, p)
    {
      if items == [] || pressure {
        written := map[];
        NothingAppended(items, pressure, outcome);
      } else {
        written := AppendGroups(items, outcome);
      }
      forall p | !pressure && (forall q :: outcome(q).Failed? ==> !outcome(q).diskPressure) && outcome(p).Done?
        ensures WholeFile(items, written, p)
      {
        OwnAppendIsWhole(items, outcome, written, p);
      }
    }

    /** Takes the first record and then all that are there, up to a stop mark. */
    method TakeBatch(ghost s: State) returns (batch: seq<Rec>, stop: bool, ghost events: seq<Event>)
      requires At(s) && s.writer.Idle? && queue != []
      modifies this`queue, this`unfinished
      ensures Allowed(s, events) && At(Run(s, events))
      ensures Run(s, events).writer == if batch == [] then Exiting else Writing(batch, stop)
    {
      events, batch, stop := [Get], [], false;
      RunSnoc(s, [], Get);
      assert [] + [Get] == [Get];
      var slot := queue[0];
      queue := queue[1..];
      if slot.Stop? {
        unfinished := unfinished - 1;
        return;
      }
      batch := [slot.rec];
      while queue != []
        invariant batch != [] && !stop
        invariant Allowed(s, events) && At(Run(s, events))
        invariant Run(s, events).writer == Collecting(batch)
        decreases |queue|
      {
        RunSnoc(s, events, GetMore);
        events := events + [GetMore];
        var next := queue[0];
        queue := queue[1..];
        if next.Stop? {
          stop, unfinished := true, unfinished - 1;
          return;
        }
        batch := batch + [next.rec];
      }
      RunSnoc(s, events, NoMore);
      events := events + [NoMore];
    }

    /** Gives back the bytes of every record of the batch and closes its task. */
    method ReleaseBatch(batch: seq<Rec>, ghost s: State) returns (ghost events: seq<Event>)
      requires At(s) && s.writer.Releasing? && s.writer.left == batch && batch != []
      modifies this`bytes, this`unfinished
      ensures Allowed(s, events) && At(Run(s, events))
      ensures Run(s, events).writer == if s.writer.stop then Exiting else Idle
    {
      events := [];
      for i := 0 to |batch|
        invariant Allowed(s, events) && At(Run(s, events))
        invariant Run(s, events).writer ==
                  if i < |batch| then Releasing(batch[i..], s.writer.stop) else if s.writer.stop then Exiting else Idle
      {
        assert batch[i..][1..] == batch[i + 1..];
        RunSnoc(s, events, Release);
        events := events + [Release];
        ReleaseBytes(batch[i].size);
        unfinished := unfinished - 1;
      }
    }

    /** One pass of the writer loop, taken alone, is a run of the archive machine. */
    method WriterPass(pressure: bool, outcome: Path -> Outcome, ghost s: State)
      returns (stopped: bool, batch: seq<Rec>, written: map<Path, nat>, ghost taken: seq<Event>, ghost events: seq<Event>)
      requires At(s) && s.writer.Idle? && queue != []
      modifies this
      ensures Allowed(s, events) && At(Run(s, events))
      ensures Run(s, events).writer == if stopped then Exiting else Idle
      ensures AppendedAll(batch, pressure, outcome, written)
      ensures Allowed(s, taken) && if batch == [] then events == taken && stopped
              else taken + [Append(written, files, false)] <= events && Run(s, taken).writer == Writing(batch, stopped)
    {
      batch, stopped, taken := TakeBatch(s);
      events, written := taken, map[];
      if batch == [] {
        stopped := true;
        NothingAppended(batch, pressure, outcome);
        return;
      }
      written := AppendRecords(batch, pressure, outcome);
      ghost var append := Append(written, files, false);
      RunSnoc(s, taken, append);
      events := taken + [append];
      ghost var rest := ReleaseBatch(batch, Run(s, events));
      RunConcat(s, events, rest);
      events := events + rest;
    }
  }
}
