/**
 Writing the run-state sidecar as straight-line code over a mutable directory,
 with every operation allowed to fail. It performs exactly the steps of the
 crash model, so what it reports is what a power loss can leave behind.
 */
module SidecarWriter {
  import opened Basics
  import opened RunState

  function Left(pc: WritePc): nat {
    match pc
    case MakeTemp => 11
    case WriteTemp => 10
    case SyncTemp => 9
    case Replace => 8
    case SyncReplace => 7
    case DropTemp => 6
    case DropTarget => 5
    case RemoveTemp => 4
    case RemoveTarget => 3
    case CheckRemoved => 2
    case SyncRemoved => 1
    case _ => 0
  }

  /** The whole write, each step meeting the fault chosen for it. */
  function WriteRun(disk: Disk, w: Write, faults: WritePc -> Fault): (Disk, Write)
    decreases Left(w.pc)
  {
    if Finished(w) then (disk, w)
    else
      var (disk', w') := WriteStep(disk, w, faults(w.pc));
      WriteRun(disk', w', faults)
  }

  /** A finished write proved what it reports, or raised; it never leaves an older record standing silently. */
  lemma {:induction false} WriteRunOutcome(disk: Disk, w: Write, faults: WritePc -> Fault, e: Entry)
    requires WriteOk(disk, w)
    ensures var (disk', w') := WriteRun(disk, w, faults);
            && Finished(w') && disk'.target in disk'.durable
            && (w'.pc.Recorded? ==> disk' == Disk(Some(w.record), {Some(w.record)}))
            && (w'.pc.Removed? ==> disk' == Disk(None, {None}))
            && (e in disk'.durable ==> e in disk.durable || e == None || e == Some(w.record))
    decreases Left(w.pc)
  {
    if !Finished(w) {
      var (disk', w') := WriteStep(disk, w, faults(w.pc));
      WriteKept(disk, w, faults(w.pc));
      WriteRunOutcome(disk', w', faults, e);
      if e in disk'.durable && e !in disk.durable { WriteAdds(disk, w, faults(w.pc), e); }
    }
  }

  /** Up to the replacement nothing on disk changes; a failure goes straight to the cleaning up. */
  lemma PreparedRun(disk: Disk, w: Write, faults: WritePc -> Fault)
    requires w.pc.MakeTemp? && !w.hasTemp
    ensures WriteRun(disk, w, faults) ==
            if !faults(MakeTemp).ok then WriteRun(disk, w.(pc := DropTarget), faults)
            else if !faults(WriteTemp).ok || !faults(SyncTemp).ok then
              WriteRun(disk, w.(pc := DropTarget, hasTemp := true), faults)
            else WriteRun(disk, w.(pc := Replace, hasTemp := true), faults)
  {
    var t := w.(hasTemp := true);
    if faults(MakeTemp).ok {
      assert WriteRun(disk, w, faults) == WriteRun(disk, t.(pc := WriteTemp), faults);
      if faults(WriteTemp).ok {
        assert WriteRun(disk, t.(pc := WriteTemp), faults) == WriteRun(disk, t.(pc := SyncTemp), faults);
      }
      assert WriteRun(disk, t.(pc := DropTemp), faults) == WriteRun(disk, t.(pc := DropTarget), faults);
    }
  }

  /** The new record is written and synced, moved into place, and the move synced. */
  predicate AllGoesWell(faults: WritePc -> Fault) {
    faults(MakeTemp).ok && faults(WriteTemp).ok && faults(SyncTemp).ok && faults(Replace).ok && faults(SyncReplace).ok
  }

  /** The old record is removed, with the temporary if there is one, and the removal synced. */
  predicate RemovalGoesWell(faults: WritePc -> Fault) {
    && (faults(MakeTemp).ok ==> faults(RemoveTemp).ok)
    && faults(RemoveTarget).ok && faults(SyncRemoved).ok
  }

  lemma RemovalVerdict(disk: Disk, w: Write, faults: WritePc -> Fault)
    requires w.pc.DropTarget? && !w.failed && w.hasTemp == faults(MakeTemp).ok
    ensures WriteRun(disk, w, faults).1.pc == if RemovalGoesWell(faults) then Removed else Raised
  {
    var d1 := if Happens(faults(DropTarget)) then Unlink(disk) else disk;
    var failed := w.hasTemp && !faults(RemoveTemp).ok;
    assert WriteRun(disk, w, faults) == WriteRun(d1, w.(pc := RemoveTarget, failed := failed), faults);
    var d2 := if Happens(faults(RemoveTarget)) then Unlink(d1) else d1;
    var v := w.(pc := CheckRemoved, failed := failed || !faults(RemoveTarget).ok);
    assert WriteRun(disk, w, faults) == WriteRun(d2, v, faults);
    if v.failed {
      assert WriteRun(d2, v, faults) == WriteRun(d2, v.(pc := Raised), faults);
    } else {
      assert WriteRun(d2, v, faults) == WriteRun(d2, v.(pc := SyncRemoved), faults);
      var end := if faults(SyncRemoved).ok then Removed else Raised;
      var d3 := if faults(SyncRemoved).ok then SyncDirectory(d2) else d2;
      assert WriteRun(d2, v.(pc := SyncRemoved), faults) == WriteRun(d3, v.(pc := end), faults);
    }
  }

  /** Which of the three ends a write comes to: recorded if all went well, else removed if the removal did, else an error. */
  lemma WriteVerdict(disk: Disk, w: Write, faults: WritePc -> Fault)
    requires w.pc.MakeTemp? && !w.hasTemp && !w.failed
    ensures WriteRun(disk, w, faults).1.pc ==
            if AllGoesWell(faults) then Recorded else if RemovalGoesWell(faults) then Removed else Raised
  {
    PreparedRun(disk, w, faults);
    var t := w.(hasTemp := true);
    if !faults(MakeTemp).ok {
      RemovalVerdict(disk, w.(pc := DropTarget), faults);
    } else if !faults(WriteTemp).ok || !faults(SyncTemp).ok {
      RemovalVerdict(disk, t.(pc := DropTarget), faults);
    } else {
      ReplaceVerdict(disk, t.(pc := Replace), faults);
    }
  }

  lemma ReplaceVerdict(disk: Disk, w: Write, faults: WritePc -> Fault)
    requires w.pc.Replace? && w.hasTemp && !w.failed && faults(MakeTemp).ok
    ensures WriteRun(disk, w, faults).1.pc ==
            if faults(Replace).ok && faults(SyncReplace).ok then Recorded
            else if RemovalGoesWell(faults) then Removed else Raised
  {
    var d := if Happens(faults(Replace)) then Rename(disk, w.record) else disk;
    if faults(Replace).ok {
      assert WriteRun(disk, w, faults) == WriteRun(d, w.(pc := SyncReplace), faults);
      if faults(SyncReplace).ok {
        assert WriteRun(d, w.(pc := SyncReplace), faults) == WriteRun(SyncDirectory(d), w.(pc := Recorded), faults);
      } else {
        assert WriteRun(d, w.(pc := SyncReplace), faults) == WriteRun(d, w.(pc := DropTemp), faults);
      }
    } else {
      assert WriteRun(disk, w, faults) == WriteRun(d, w.(pc := DropTemp), faults);
    }
    assert WriteRun(d, w.(pc := DropTemp), faults) == WriteRun(d, w.(pc := DropTarget), faults);
    RemovalVerdict(d, w.(pc := DropTarget), faults);
  }

  class Directory {
    var target: Entry
    ghost var durable: set<Entry>

    ghost function Snapshot(): Disk
      reads this
    {
      Disk(target, durable)
    }

    constructor ()
      ensures Snapshot() == Disk(None, {None})
    {
      target, durable := None, {None};
    }

    method Move(r: Record, x: Fault) returns (ok: bool)
      modifies this
      ensures ok == x.ok
      ensures Snapshot() == if Happens(x) then Rename(old(Snapshot()), r) else old(Snapshot())
    {
      if Happens(x) {
        target, durable := Some(r), durable + {Some(r)};
      }
      ok := x.ok;
    }

    method Delete(x: Fault) returns (ok: bool)
      modifies this
      ensures ok == x.ok
      ensures Snapshot() == if Happens(x) then Unlink(old(Snapshot())) else old(Snapshot())
    {
      if Happens(x) {
        target, durable := None, durable + {None};
      }
      ok := x.ok;
    }

    method Sync(x: Fault) returns (ok: bool)
      modifies this
      ensures ok == x.ok
      ensures Snapshot() == if x.ok then SyncDirectory(old(Snapshot())) else old(Snapshot())
    {
      if x.ok {
        durable := {target};
      }
      ok := x.ok;
    }

    /** Removes what a failed write left and proves the removal durable, or fails. */
    method Invalidate(w: Write, faults: WritePc -> Fault) returns (done: Write)
      requires w.pc == if w.hasTemp then RemoveTemp else RemoveTarget
      requires !w.failed
      modifies this
      ensures (Snapshot(), done) == WriteRun(old(Snapshot()), w, faults)
    {
      var failed := w.hasTemp && !faults(RemoveTemp).ok;
      assert w.hasTemp ==> WriteRun(Snapshot(), w, faults) ==
                           WriteRun(Snapshot(), w.(pc := RemoveTarget, failed := failed), faults);
      var removed := Delete(faults(RemoveTarget));
      failed := failed || !removed;
      assert WriteRun(old(Snapshot()), w, faults) ==
             WriteRun(Snapshot(), w.(pc := CheckRemoved, failed := failed), faults);
      if failed {
        assert WriteRun(Snapshot(), w.(pc := CheckRemoved, failed := true), faults) ==
               WriteRun(Snapshot(), w.(pc := Raised, failed := true), faults);
        return w.(pc := Raised, failed := true);
      }
      assert WriteRun(Snapshot(), w.(pc := CheckRemoved), faults) ==
             WriteRun(Snapshot(), w.(pc := SyncRemoved), faults);
      ghost var removing := Snapshot();
      var synced := Sync(faults(SyncRemoved));
      done := w.(pc := if synced then Removed else Raised);
      assert WriteRun(removing, w.(pc := SyncRemoved), faults) == WriteRun(Snapshot(), done, faults);
    }

    /** Drops the temporary and the target, ignoring failures, then invalidates. */
    method CleanUp(w: Write, faults: WritePc -> Fault) returns (done: Write)
      requires w.pc.DropTarget? && !w.failed
      modifies this
      ensures (Snapshot(), done) == WriteRun(old(Snapshot()), w, faults)
    {
      var _ := Delete(faults(DropTarget));
      var rest := w.(pc := if w.hasTemp then RemoveTemp else RemoveTarget);
      assert WriteRun(old(Snapshot()), w, faults) == WriteRun(Snapshot(), rest, faults);
      done := Invalidate(rest, faults);
    }

    /**
     Ends with the new record durable, with the sidecar durably absent, or with
     an error; an older record may survive only in the last case.
     */
    method WriteRunstate(mark: Mark, identity: Option<Identity>, faults: WritePc -> Fault) returns (done: Write)
      requires target in durable
      modifies this
      ensures target in durable
      ensures (Snapshot(), done) == WriteRun(old(Snapshot()), StartWrite(mark, identity), faults)
      ensures done.pc.Recorded? ==> Snapshot() == Disk(Some(Record(mark, identity)), {Some(Record(mark, identity))})
      ensures done.pc.Removed? ==> Snapshot() == Disk(None, {None})
      ensures done.pc == if AllGoesWell(faults) then Recorded else if RemovalGoesWell(faults) then Removed else Raised
    {
      var w := StartWrite(mark, identity);
      WriteRunOutcome(Snapshot(), w, faults, None);
      WriteVerdict(Snapshot(), w, faults);
      PreparedRun(Snapshot(), w, faults);
      if !faults(MakeTemp).ok {
        done := CleanUp(w.(pc := DropTarget), faults);
      } else if !faults(WriteTemp).ok || !faults(SyncTemp).ok {
        done := CleanUp(w.(pc := DropTarget, hasTemp := true), faults);
      } else {
        done := ReplaceTarget(w.(pc := Replace, hasTemp := true), faults);
      }
    }

    /** Moves the temporary over the target and proves the move durable, or cleans up. */
    method ReplaceTarget(w: Write, faults: WritePc -> Fault) returns (done: Write)
      requires w.pc.Replace? && w.hasTemp && !w.failed
      modifies this
      ensures (Snapshot(), done) == WriteRun(old(Snapshot()), w, faults)
    {
      ghost var start := Snapshot();
      var moved := Move(w.record, faults(Replace));
      if moved {
        assert WriteRun(start, w.(pc := Replace), faults) == WriteRun(Snapshot(), w.(pc := SyncReplace), faults);
        ghost var renamed := Snapshot();
        var synced := Sync(faults(SyncReplace));
        if synced {
          assert WriteRun(renamed, w.(pc := SyncReplace), faults) ==
                 WriteRun(Snapshot(), w.(pc := Recorded), faults);
          return w.(pc := Recorded);
        }
      }
      assert WriteRun(start, w.(pc := Replace), faults) == WriteRun(Snapshot(), w.(pc := DropTemp), faults);
      assert WriteRun(Snapshot(), w.(pc := DropTemp), faults) == WriteRun(Snapshot(), w.(pc := DropTarget), faults);
      done := CleanUp(w.(pc := DropTarget), faults);
    }
  }
}
