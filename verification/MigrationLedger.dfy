/**
 Repairing the migration ledger before an upgrade: legacy bootstrap, remapping
 of renamed revisions and re-stamping a ledger that lags behind a schema which
 already retired the legacy credentials. A ledger is a set of revisions; what it
 says was applied is everything at or above one of them.
 */
module MigrationLedger {
  import opened Basics
  import opened RevisionGraph
  import opened GraphShape

  type Name = nat

  datatype Config = Config(graph: Graph, head: Id, drop: Id, oldToNew: map<Id, Id>,
                           legacyOrder: seq<Name>, legacyToRevision: map<Name, Id>,
                           branchLegacy: Id, branchRepair: Id, branchDescendants: set<Id>)

  /** What the shipped tables promise: mapped ids are known, and the branch descendants descend from the repair point. */
  ghost predicate ConfigOk(c: Config) {
    && Acyclic(c.graph) && c.head in c.graph && c.drop in c.graph
    && (forall r :: r in c.oldToNew ==> r !in c.graph && c.oldToNew[r] in c.graph)
    && (forall n :: n in c.legacyOrder ==> n in c.legacyToRevision && c.legacyToRevision[n] in c.graph)
    && (forall d :: d in c.branchDescendants && d in c.graph ==> d != c.branchRepair && Reaches(c.graph, d, c.branchRepair))
  }

  /**
   The parts of the database the repair reads: `table` is the ledger's table, `legacy` the older
   history table, and `mirror` the table the dropped columns live in.
   */
  datatype Db = Db(table: bool, ledger: set<Id>, legacy: Option<set<Name>>, requiredTables: bool, sentinel: bool,
                   mirror: bool)

  datatype Target = Head | Revisions(ids: set<Id>) | Unresolvable

  ghost predicate Covered(g: Graph, ledger: set<Id>, r: Id) {
    exists u :: u in ledger && Reaches(g, u, r)
  }

  predicate Known(c: Config, ledger: set<Id>) {
    forall r :: r in ledger ==> r in c.graph
  }

  // ----- legacy bootstrap -----

  function ContiguousPrefix(order: seq<Name>, applied: set<Name>): (n: nat)
    ensures n <= |order| && (forall i :: 0 <= i < n ==> order[i] in applied)
    ensures n < |order| ==> order[n] !in applied
  {
    if order == [] || order[0] !in applied then 0 else 1 + ContiguousPrefix(order[1..], applied)
  }

  method ContiguousPrefixCount(order: seq<Name>, applied: set<Name>) returns (contiguous: nat)
    ensures contiguous <= |order| && (forall i :: 0 <= i < contiguous ==> order[i] in applied)
    ensures contiguous < |order| ==> order[contiguous] !in applied
  {
    contiguous := 0;
    for i := 0 to |order|
      invariant contiguous == i && forall j :: 0 <= j < i ==> order[j] in applied
    {
      if order[i] !in applied {
        return;
      }
      contiguous := contiguous + 1;
    }
  }

  lemma PrefixUnique(order: seq<Name>, applied: set<Name>, n: nat)
    requires n <= |order| && (forall i :: 0 <= i < n ==> order[i] in applied) && (n < |order| ==> order[n] !in applied)
    ensures n == ContiguousPrefix(order, applied)
  {
  }

  /** The revision a database known only to the older history table is placed at. */
  function LegacyStamp(c: Config, db: Db): Option<Id> {
    if db.table || db.legacy.None? || !db.requiredTables then None
    else
      var n := ContiguousPrefix(c.legacyOrder, db.legacy.value);
      if n == 0 || c.legacyOrder[n - 1] !in c.legacyToRevision then None
      else Some(c.legacyToRevision[c.legacyOrder[n - 1]])
  }

  function Bootstrapped(c: Config, db: Db): Db {
    var stamp := LegacyStamp(c, db);
    if stamp.None? then db else db.(table := true, ledger := {stamp.value})
  }

  /** The older history applied the first `n` names of its order and not the one after them. */
  predicate AppliedUpTo(c: Config, db: Db, n: nat) {
    && db.legacy.Some? && n <= |c.legacyOrder| && (forall i :: 0 <= i < n ==> c.legacyOrder[i] in db.legacy.value)
    && (n < |c.legacyOrder| ==> c.legacyOrder[n] !in db.legacy.value)
  }

  /**
   The bootstrap stamps the last of the contiguously applied names, and only a
   database that has no ledger yet, has the older history and has its tables.
   */
  lemma BootstrapStampsLast(c: Config, db: Db, n: nat)
    requires ConfigOk(c) && (db.legacy.Some? ==> AppliedUpTo(c, db, n))
    ensures Bootstrapped(c, db) ==
            if !db.table && db.legacy.Some? && db.requiredTables && n > 0
            then db.(table := true, ledger := {c.legacyToRevision[c.legacyOrder[n - 1]]}) else db
  {
    if db.legacy.Some? { PrefixUnique(c.legacyOrder, db.legacy.value, n); }
  }

  // ----- renamed revisions -----

  function NewName(c: Config, r: Id): Id {
    if r in c.oldToNew then c.oldToNew[r] else r
  }

  predicate Supported(c: Config, ledger: set<Id>) {
    forall r :: r in ledger ==> r in c.graph || r in c.oldToNew
  }

  function Renamed(c: Config, ledger: set<Id>): set<Id> {
    set r | r in ledger :: NewName(c, r)
  }

  predicate DropsRepair(c: Config, ledger: set<Id>) {
    && c.branchLegacy in ledger && c.branchRepair in Renamed(c, ledger)
    && Renamed(c, ledger) * c.branchDescendants != {}
  }

  /** Renames every revision; the repair point goes when one of its descendants is there to imply it. */
  function Remapped(c: Config, ledger: set<Id>): set<Id> {
    if DropsRepair(c, ledger) then Renamed(c, ledger) - {c.branchRepair} else Renamed(c, ledger)
  }

  /** The repair point alone goes, exactly from a ledger that still has the legacy branch and a descendant. */
  lemma RemapKeepsRows(c: Config, ledger: set<Id>, r: Id)
    ensures r in Remapped(c, ledger) <==>
            && r in Renamed(c, ledger)
            && !(&& r == c.branchRepair && c.branchLegacy in ledger
                 && exists d :: d in Renamed(c, ledger) && d in c.branchDescendants)
  {
    if DropsRepair(c, ledger) {
      var d :| d in Renamed(c, ledger) * c.branchDescendants;
    }
    if d :| d in Renamed(c, ledger) && d in c.branchDescendants {
      assert d in Renamed(c, ledger) * c.branchDescendants;
    }
  }

  lemma RenamedKnown(c: Config, ledger: set<Id>)
    requires ConfigOk(c) && Supported(c, ledger)
    ensures Known(c, Renamed(c, ledger)) && Known(c, Remapped(c, ledger))
  {
  }

  /** Some row, under its old or its current name, says the revision was applied. */
  ghost predicate SaysApplied(c: Config, ledger: set<Id>, r: Id) {
    || (exists u :: u in ledger && u !in c.oldToNew && Reaches(c.graph, u, r))
    || (exists u :: u in ledger && u in c.oldToNew && Reaches(c.graph, c.oldToNew[u], r))
  }

  lemma RenamedSaysSame(c: Config, ledger: set<Id>, r: Id)
    ensures Covered(c.graph, Renamed(c, ledger), r) <==> SaysApplied(c, ledger, r)
  {
    if Covered(c.graph, Renamed(c, ledger), r) {
      var v :| v in Renamed(c, ledger) && Reaches(c.graph, v, r);
      var u :| u in ledger && NewName(c, u) == v;
    }
    if SaysApplied(c, ledger, r) {
      var u :| u in ledger && Reaches(c.graph, if u in c.oldToNew then c.oldToNew[u] else u, r);
      assert NewName(c, u) in Renamed(c, ledger);
    }
  }

  /** Remapping changes the rows of the ledger, never what they say was applied. */
  lemma RemapPreservesMeaning(c: Config, ledger: set<Id>, r: Id)
    requires ConfigOk(c) && Supported(c, ledger)
    ensures Covered(c.graph, Remapped(c, ledger), r) <==> SaysApplied(c, ledger, r)
    ensures Covered(c.graph, Remapped(c, ledger), r) <==> Covered(c.graph, Renamed(c, ledger), r)
  {
    RenamedSaysSame(c, ledger, r);
    RenamedKnown(c, ledger);
    if DropsRepair(c, ledger) && Reaches(c.graph, c.branchRepair, r) {
      var d :| d in Renamed(c, ledger) * c.branchDescendants;
      ReachesTransitive(c.graph, d, c.branchRepair, r);
      assert d in Remapped(c, ledger);
    }
  }

  // ----- the retired credentials -----

  ghost predicate NeedsStamp(c: Config, db: Db) {
    db.sentinel && Known(c, db.ledger) && !Covered(c.graph, db.ledger, c.drop)
  }

  /** Stamping replaces the rows on the revision's own line and leaves unrelated branches. */
  ghost function Stamped(c: Config, ledger: set<Id>, r: Id): set<Id> {
    {r} + set u | u in ledger && !Reaches(c.graph, u, r) && !Reaches(c.graph, r, u)
  }

  ghost function Reconciled(c: Config, db: Db): Db {
    if NeedsStamp(c, db) then db.(table := true, ledger := Stamped(c, db.ledger, c.drop)) else db
  }

  lemma ReconciledCoversDrop(c: Config, db: Db)
    requires ConfigOk(c) && db.sentinel && Known(c, db.ledger)
    ensures Covered(c.graph, Reconciled(c, db).ledger, c.drop) && Known(c, Reconciled(c, db).ledger)
  {
    ReachesSelf(c.graph, c.drop);
    if NeedsStamp(c, db) { assert c.drop in Stamped(c, db.ledger, c.drop); }
  }

  /** The stamp adds the drop and what it implies to what the ledger says was applied, and takes nothing away. */
  lemma StampAddsOnlyDrop(c: Config, db: Db, r: Id)
    requires ConfigOk(c) && NeedsStamp(c, db)
    ensures Covered(c.graph, Reconciled(c, db).ledger, r) <==>
            Covered(c.graph, db.ledger, r) || Reaches(c.graph, c.drop, r)
  {
    var stamped := Stamped(c, db.ledger, c.drop);
    if Reaches(c.graph, c.drop, r) { assert c.drop in stamped; }
    if Covered(c.graph, db.ledger, r) {
      var u :| u in db.ledger && Reaches(c.graph, u, r);
      if Reaches(c.graph, c.drop, u) {
        ReachesTransitive(c.graph, c.drop, u, r);
        assert c.drop in stamped;
      } else {
        assert u in stamped;
      }
    }
  }

  /** A ledger with an id it does not know is not reconciled. */
  lemma UnknownIsLeftAlone(c: Config, db: Db, r: Id)
    requires r in db.ledger && r !in c.graph
    ensures Reconciled(c, db) == db
  {
  }

  /** Of the rows on the drop's own line only the drop is left, and the rows elsewhere are as they were. */
  lemma StampReplacesLine(c: Config, db: Db, u: Id)
    requires ConfigOk(c) && NeedsStamp(c, db)
    ensures u in Reconciled(c, db).ledger <==> u == c.drop || (u in db.ledger && !Reaches(c.graph, c.drop, u))
  {
    assert forall v :: v in db.ledger ==> !Reaches(c.graph, v, c.drop);
  }

  // ----- the upgrade -----

  /** What an upgrade applies: at or above the target and not at or above the ledger. */
  ghost function Pending(g: Graph, ledger: set<Id>, targets: set<Id>): set<Id> {
    set r | r in g && Covered(g, targets, r) && !Covered(g, ledger, r)
  }

  /** How an upgrade goes on, with the database its repairs left. */
  datatype Plan = Refused(db: Db) | AlreadyThere(db: Db) | Apply(db: Db, targets: set<Id>, pending: set<Id>, warned: bool)

  ghost function Repaired(c: Config, db: Db, bootstrap: bool, remap: bool): Db {
    var db1 := if bootstrap then Bootstrapped(c, db) else db;
    Reconciled(c, if remap then db1.(ledger := Remapped(c, db1.ledger)) else db1)
  }

  /** The operator is told to drain older replicas first, unless there is no install to drain. */
  predicate Warns(c: Config, db: Db, pending: set<Id>) {
    (db.ledger != {} || db.mirror) && c.drop in pending
  }

  function Targets(c: Config, target: Target): Option<set<Id>> {
    match target
    case Head => Some({c.head})
    case Revisions(ids) => if Known(c, ids) then Some(ids) else None
    case Unresolvable => None
  }

  ghost function PlanUpgrade(c: Config, db: Db, target: Target, bootstrap: bool, remap: bool): Plan {
    if !Supported(c, db.ledger) then Refused(db)
    else if target.Head? && db.table && db.ledger == {c.head} then AlreadyThere(db)
    else
      var repaired := Repaired(c, db, bootstrap, remap);
      var targets := Targets(c, target);
      if !Known(c, repaired.ledger) || targets.None? then Refused(repaired)
      else
        var pending := Pending(c.graph, repaired.ledger, targets.value);
        Apply(repaired, targets.value, pending, Warns(c, repaired, pending))
  }

  lemma BootstrapSupported(c: Config, db: Db)
    requires ConfigOk(c) && Supported(c, db.ledger)
    ensures Supported(c, Bootstrapped(c, db).ledger)
  {
  }

  /**
   With remapping on an upgrade is refused exactly for a schema from a newer
   build or a target it cannot resolve; remapping itself never meets an id it
   does not support.
   */
  lemma RemapNeverRefuses(c: Config, db: Db, target: Target, bootstrap: bool)
    requires ConfigOk(c)
    ensures PlanUpgrade(c, db, target, bootstrap, true).Refused? <==>
            !Supported(c, db.ledger) || target.Unresolvable? || (target.Revisions? && !(target.ids <= c.graph.Keys))
  {
    if Supported(c, db.ledger) {
      BootstrapSupported(c, db);
      var db1 := if bootstrap then Bootstrapped(c, db) else db;
      RenamedKnown(c, db1.ledger);
    }
  }

  /** An upgrade is skipped only when nothing of its target is pending, and then the database is left as it is. */
  lemma SkippedMeansNothingPending(c: Config, db: Db, target: Target, bootstrap: bool, remap: bool)
    requires ConfigOk(c) && PlanUpgrade(c, db, target, bootstrap, remap).AlreadyThere?
    ensures Targets(c, target).Some? && Pending(c.graph, db.ledger, Targets(c, target).value) == {}
    ensures PlanUpgrade(c, db, target, bootstrap, remap).db == db && db.table
  {
  }

  /** And at head it is skipped. */
  lemma HeadIsSkipped(c: Config, db: Db, bootstrap: bool, remap: bool)
    requires ConfigOk(c) && db.table && db.ledger == {c.head}
    ensures PlanUpgrade(c, db, Head, bootstrap, remap) == AlreadyThere(db)
  {
  }

  /** With remapping on, a supported database with something of a resolvable target pending is upgraded. */
  lemma PendingIsApplied(c: Config, db: Db, target: Target, bootstrap: bool, r: Id)
    requires ConfigOk(c) && Supported(c, db.ledger) && Targets(c, target).Some?
    requires r in Pending(c.graph, db.ledger, Targets(c, target).value)
    ensures PlanUpgrade(c, db, target, bootstrap, true).Apply?
  {
    RemapNeverRefuses(c, db, target, bootstrap);
    if PlanUpgrade(c, db, target, bootstrap, true).AlreadyThere? {
      SkippedMeansNothingPending(c, db, target, bootstrap, true);
    }
  }

  lemma CoveredAncestors(g: Graph, ledger: set<Id>, u: Id, r: Id)
    requires Covered(g, ledger, u) && Reaches(g, u, r)
    ensures Covered(g, ledger, r)
  {
    var v :| v in ledger && Reaches(g, v, u);
    ReachesTransitive(g, v, u, r);
  }

  /**
   With the retirement sentinel present no path through the upgrade, from any
   ledger, applies the credential drop or anything it descends from.
   */
  lemma SentinelBlocksReplay(c: Config, db: Db, target: Target, bootstrap: bool, remap: bool, r: Id)
    requires ConfigOk(c) && db.sentinel && PlanUpgrade(c, db, target, bootstrap, remap).Apply?
    requires r in PlanUpgrade(c, db, target, bootstrap, remap).pending
    ensures !Reaches(c.graph, c.drop, r)
  {
    var db1 := if bootstrap then Bootstrapped(c, db) else db;
    var db2 := if remap then db1.(ledger := Remapped(c, db1.ledger)) else db1;
    ReconciledCoversDrop(c, db2);
    if Reaches(c.graph, c.drop, r) {
      CoveredAncestors(c.graph, Reconciled(c, db2).ledger, c.drop, r);
    }
  }

  /** The sentinel keeps the warning away, and an install with a schema or a ledger never gets the drop unwarned. */
  lemma DropIsWarned(c: Config, db: Db, target: Target, bootstrap: bool, remap: bool)
    requires ConfigOk(c) && PlanUpgrade(c, db, target, bootstrap, remap).Apply?
    ensures var plan := PlanUpgrade(c, db, target, bootstrap, remap);
            && (db.sentinel ==> !plan.warned) && (plan.warned ==> c.drop in plan.pending)
            && (c.drop in plan.pending && !plan.warned ==> !db.mirror && db.ledger == {})
            && (plan.warned ==> db.mirror || plan.db.ledger != {})
  {
    ReachesSelf(c.graph, c.drop);
    if db.sentinel && c.drop in PlanUpgrade(c, db, target, bootstrap, remap).pending {
      SentinelBlocksReplay(c, db, target, bootstrap, remap, c.drop);
    }
    var db1 := if bootstrap then Bootstrapped(c, db) else db;
    RemapKeepsSome(c, db1.ledger);
  }

  /** Remapping never empties a ledger that was not empty. */
  lemma RemapKeepsSome(c: Config, ledger: set<Id>)
    requires ConfigOk(c)
    ensures Supported(c, ledger) && ledger != {} ==> Remapped(c, ledger) != {}
  {
    if Supported(c, ledger) && ledger != {} {
      RenamedKnown(c, ledger);
      var r :| r in ledger;
      assert NewName(c, r) in Renamed(c, ledger);
      if DropsRepair(c, ledger) {
        var d :| d in Renamed(c, ledger) * c.branchDescendants;
        assert d in Remapped(c, ledger);
      }
    }
  }

  ghost predicate RowsHaveTable(db: Db) {
    db.ledger != {} ==> db.table
  }

  /** The repairs never leave rows without the table to hold them. */
  lemma RepairKeepsTable(c: Config, db: Db, bootstrap: bool, remap: bool)
    requires RowsHaveTable(db)
    ensures RowsHaveTable(Repaired(c, db, bootstrap, remap))
    ensures db.table ==> Repaired(c, db, bootstrap, remap).table
  {
    var start := if bootstrap then Bootstrapped(c, db) else db;
    if start.ledger == {} { assert Renamed(c, start.ledger) == {}; }
  }

  /** Reconciling adds what the sentinel proves applied, and nothing else. */
  lemma ReconciledMeaning(c: Config, db: Db, r: Id)
    requires ConfigOk(c) && Known(c, db.ledger)
    ensures Covered(c.graph, Reconciled(c, db).ledger, r) <==>
            Covered(c.graph, db.ledger, r) || (db.sentinel && Reaches(c.graph, c.drop, r))
  {
    if NeedsStamp(c, db) {
      StampAddsOnlyDrop(c, db, r);
    } else if db.sentinel && Reaches(c.graph, c.drop, r) {
      CoveredAncestors(c.graph, db.ledger, c.drop, r);
    }
  }

  /**
   What an upgrade applies, from any ledger: the target's revisions that neither
   a row, under its old or its current name, nor the sentinel says were applied.
   */
  lemma PlanIsExact(c: Config, db: Db, target: Target, bootstrap: bool, remap: bool, r: Id)
    requires ConfigOk(c) && PlanUpgrade(c, db, target, bootstrap, remap).Apply?
    ensures var plan := PlanUpgrade(c, db, target, bootstrap, remap);
            var start := if bootstrap then Bootstrapped(c, db) else db;
            && plan.targets == (match target case Head => {c.head} case Revisions(ids) => ids case Unresolvable => {})
            && (r in plan.pending <==>
                  && r in c.graph && Covered(c.graph, plan.targets, r)
                  && !SaysApplied(c, start.ledger, r) && !(db.sentinel && Reaches(c.graph, c.drop, r)))
  {
    var start := if bootstrap then Bootstrapped(c, db) else db;
    BootstrapSupported(c, db);
    RenamedKnown(c, start.ledger);
    RemapPreservesMeaning(c, start.ledger, r);
    var renamed := if remap then start.(ledger := Remapped(c, start.ledger)) else start;
    if !remap { RenamedIsSame(c, start.ledger, r); }
    ReconciledMeaning(c, renamed, r);
  }

  lemma RenamedIsSame(c: Config, ledger: set<Id>, r: Id)
    requires ConfigOk(c) && Known(c, ledger)
    ensures Covered(c.graph, Renamed(c, ledger), r) <==> Covered(c.graph, ledger, r)
  {
    assert Renamed(c, ledger) == ledger;
  }

  // ----- the ledger after an upgrade -----

  /** The rows that remain: those no other row implies. */
  ghost function Topmost(g: Graph, rows: set<Id>): set<Id> {
    set v | v in rows && forall u :: u in rows && u != v ==> !Reaches(g, u, v)
  }

  ghost function Implying(g: Graph, rows: set<Id>, v: Id): set<Id> {
    set u | u in rows && u != v && Reaches(g, u, v)
  }

  lemma BothWaysIsCycle(g: Graph, u: Id, v: Id)
    requires Reaches(g, u, v) && Reaches(g, v, u) && u != v
    ensures u in g && ReachesCycle(g, u)
  {
    var w := ReachesSplit(g, u, v);
    ReachesTransitive(g, w, v, u);
    ReturnReachesCycle(g, u, w);
  }

  lemma ImplyingShrinks(g: Graph, rows: set<Id>, u: Id, v: Id)
    requires Acyclic(g) && u in Implying(g, rows, v)
    ensures Implying(g, rows, u) < Implying(g, rows, v)
  {
    forall w | w in Implying(g, rows, u) ensures w in Implying(g, rows, v) {
      ReachesTransitive(g, w, u, v);
      if w == v { BothWaysIsCycle(g, u, v); }
    }
  }

  lemma {:induction false} TopmostImplies(g: Graph, rows: set<Id>, v: Id) returns (u: Id)
    requires Acyclic(g) && v in rows && v in g
    ensures u in Topmost(g, rows) && Reaches(g, u, v)
    decreases Implying(g, rows, v)
  {
    if Implying(g, rows, v) == {} {
      ReachesSelf(g, v);
      assert forall w :: w in rows && w != v && Reaches(g, w, v) ==> w in Implying(g, rows, v);
      u := v;
    } else {
      var w :| w in Implying(g, rows, v);
      ImplyingShrinks(g, rows, w, v);
      assert w in g by { var p :| PathBetween(g, p, w, v); }
      u := TopmostImplies(g, rows, w);
      ReachesTransitive(g, u, w, v);
    }
  }

  /** Dropping implied rows keeps what the ledger says was applied. */
  lemma TopmostPreservesMeaning(g: Graph, rows: set<Id>, r: Id)
    requires Acyclic(g) && forall v :: v in rows ==> v in g
    ensures Covered(g, Topmost(g, rows), r) <==> Covered(g, rows, r)
  {
    if Covered(g, rows, r) {
      var v :| v in rows && Reaches(g, v, r);
      var u := TopmostImplies(g, rows, v);
      ReachesTransitive(g, u, v, r);
    }
  }

  // ----- every database lifetime -----

  /** `history` lists what each upgrade applied. */
  datatype State = State(db: Db, history: seq<set<Id>>)

  /** A ledger can be lost, rewound or restored to anything; an upgrade may stop after any part of its plan. */
  datatype Event =
    | Tamper(table: bool, ledger: set<Id>)
    | Upgrade(target: Target, bootstrap: bool, remap: bool, done: set<Id>)

  ghost predicate Enabled(c: Config, s: State, e: Event) {
    match e
    case Tamper(table, ledger) => table || ledger == {}
    case Upgrade(target, bootstrap, remap, done) =>
      var plan := PlanUpgrade(c, s.db, target, bootstrap, remap);
      done <= if plan.Apply? then plan.pending else {}
  }

  /** Applying the credential drop writes the sentinel in the same migration. */
  ghost function After(c: Config, s: State, e: Event): State
    requires Enabled(c, s, e)
  {
    match e
    case Tamper(table, ledger) => s.(db := s.db.(table := table, ledger := ledger))
    case Upgrade(target, bootstrap, remap, done) =>
      var plan := PlanUpgrade(c, s.db, target, bootstrap, remap);
      if plan.Apply? then
        State(plan.db.(table := true, ledger := Topmost(c.graph, plan.db.ledger + done),
                       sentinel := plan.db.sentinel || c.drop in done),
              s.history + [done])
      else State(plan.db, s.history + [{}])
  }

  ghost predicate Allowed(c: Config, s: State, events: seq<Event>)
    decreases events
  {
    events == [] || (Enabled(c, s, events[0]) && Allowed(c, After(c, s, events[0]), events[1..]))
  }

  ghost function Run(c: Config, s: State, events: seq<Event>): State
    requires Allowed(c, s, events)
    decreases events
  {
    if events == [] then s else Run(c, After(c, s, events[0]), events[1..])
  }

  /** Nothing at or above the drop. */
  ghost predicate Spares(c: Config, applied: set<Id>) {
    forall r :: r in applied ==> !Reaches(c.graph, c.drop, r)
  }

  /** Whatever came after the drop spared it and all it descends from, and the sentinel remembers it. */
  ghost predicate DropRespected(c: Config, s: State) {
    && (forall i :: 0 <= i < |s.history| && c.drop in s.history[i] ==> s.db.sentinel)
    && (forall i, j :: 0 <= i < j < |s.history| && c.drop in s.history[i] ==> Spares(c, s.history[j]))
  }

  lemma RepairKeepsSentinel(c: Config, db: Db, bootstrap: bool, remap: bool)
    ensures Repaired(c, db, bootstrap, remap).sentinel == db.sentinel
  {
  }

  lemma RespectKept(c: Config, s: State, e: Event)
    requires ConfigOk(c) && DropRespected(c, s) && Enabled(c, s, e)
    ensures DropRespected(c, After(c, s, e))
  {
    if e.Upgrade? {
      RepairKeepsSentinel(c, s.db, e.bootstrap, e.remap);
      if s.db.sentinel && PlanUpgrade(c, s.db, e.target, e.bootstrap, e.remap).Apply? {
        forall r | r in e.done ensures !Reaches(c.graph, c.drop, r) {
          SentinelBlocksReplay(c, s.db, e.target, e.bootstrap, e.remap, r);
        }
      }
    }
  }

  /**
   Over every sequence of upgrades, interrupted or not, with the ledger lost or
   rewritten in between: once the drop was applied, neither it nor any of its
   ancestors is ever applied again.
   */
  lemma {:induction false} DropNeverReplayed(c: Config, s: State, events: seq<Event>)
    requires ConfigOk(c) && DropRespected(c, s) && Allowed(c, s, events)
    ensures DropRespected(c, Run(c, s, events))
    decreases events
  {
    if events != [] {
      RespectKept(c, s, events[0]);
      DropNeverReplayed(c, After(c, s, events[0]), events[1..]);
    }
  }

  lemma {:induction false} RowsAlwaysHaveTable(c: Config, s: State, events: seq<Event>)
    requires RowsHaveTable(s.db) && Allowed(c, s, events)
    ensures RowsHaveTable(Run(c, s, events).db)
    decreases events
  {
    if events != [] {
      if events[0].Upgrade? { RepairKeepsTable(c, s.db, events[0].bootstrap, events[0].remap); }
      RowsAlwaysHaveTable(c, After(c, s, events[0]), events[1..]);
    }
  }

  /** What the upgrades of a run applied. */
  function Applied(events: seq<Event>): seq<set<Id>> {
    if events == [] then []
    else (if events[0].Upgrade? then [events[0].done] else []) + Applied(events[1..])
  }

  lemma HistoryStep(c: Config, s: State, e: Event)
    requires Enabled(c, s, e)
    ensures After(c, s, e).history == s.history + if e.Upgrade? then [e.done] else []
  {
    if e.Upgrade? && !PlanUpgrade(c, s.db, e.target, e.bootstrap, e.remap).Apply? { assert e.done == {}; }
    if e.Tamper? { assert s.history + [] == s.history; }
  }

  /** The history is complete: one entry for each upgrade of the run, with what it applied. */
  lemma {:induction false} HistoryIsComplete(c: Config, s: State, events: seq<Event>)
    requires Allowed(c, s, events)
    ensures Run(c, s, events).history == s.history + Applied(events)
    decreases events
  {
    if events != [] {
      var first := if events[0].Upgrade? then [events[0].done] else [];
      HistoryStep(c, s, events[0]);
      HistoryIsComplete(c, After(c, s, events[0]), events[1..]);
      assert (s.history + first) + Applied(events[1..]) == s.history + (first + Applied(events[1..]));
    }
  }

  /** Between upgrades the ledger can become anything. */
  lemma LedgerCanBecome(c: Config, s: State, ledger: set<Id>)
    ensures exists e :: Enabled(c, s, e) && After(c, s, e).db == s.db.(table := true, ledger := ledger)
  {
    assert Enabled(c, s, Tamper(true, ledger));
  }

  /** A refused or skipped upgrade applies nothing; what its repairs did stays. */
  lemma OthersApplyNothing(c: Config, s: State, target: Target, bootstrap: bool, remap: bool)
    requires !PlanUpgrade(c, s.db, target, bootstrap, remap).Apply?
    ensures var e := Upgrade(target, bootstrap, remap, {});
            && Enabled(c, s, e)
            && After(c, s, e) == State(PlanUpgrade(c, s.db, target, bootstrap, remap).db, s.history + [{}])
  {
  }

  /** A finished upgrade leaves nothing of its target pending. */
  lemma FinishedLeavesNothing(c: Config, s: State, target: Target, bootstrap: bool, remap: bool, r: Id)
    requires ConfigOk(c) && PlanUpgrade(c, s.db, target, bootstrap, remap).Apply?
    ensures var plan := PlanUpgrade(c, s.db, target, bootstrap, remap);
            var e := Upgrade(target, bootstrap, remap, plan.pending);
            && Enabled(c, s, e) && Targets(c, target) == Some(plan.targets)
            && r !in Pending(c.graph, After(c, s, e).db.ledger, plan.targets)
  {
    var plan := PlanUpgrade(c, s.db, target, bootstrap, remap);
    var rows := plan.db.ledger + plan.pending;
    TopmostPreservesMeaning(c.graph, rows, r);
    if r in plan.pending { ReachesSelf(c.graph, r); }
  }

  // ----- the code -----

  /** Walks up from every row of the ledger. */
  method Closure(g: Graph, rows: set<Id>) returns (covered: set<Id>)
    ensures forall r :: r in g ==> (r in covered <==> Covered(g, rows, r))
  {
    covered := {};
    var left := rows;
    while left != {}
      invariant left <= rows
      invariant forall r :: r in g ==> (r in covered <==> Covered(g, rows - left, r))
    {
      var u :| u in left;
      var above := Explore(g, [u], {u} + set v, w | v in g && w in g[v] :: w);
      forall r | r in g ensures r in above <==> Reaches(g, u, r) {
        assert r in above <==> ReachedFrom(g, [u], r);
      }
      assert rows - (left - {u}) == (rows - left) + {u};
      covered, left := covered + above, left - {u};
    }
    assert rows - left == rows;
  }

  class Database {
    var db: Db

    constructor (db: Db)
      ensures this.db == db
    {
      this.db := db;
    }

    method BootstrapLegacyHistory(c: Config)
      requires forall n :: n in c.legacyOrder ==> n in c.legacyToRevision
      modifies this
      ensures db == Bootstrapped(c, old(db))
    {
      if db.table || db.legacy.None? {
        return;
      }
      var contiguous := ContiguousPrefixCount(c.legacyOrder, db.legacy.value);
      PrefixUnique(c.legacyOrder, db.legacy.value, contiguous);
      if contiguous == 0 || !db.requiredTables {
        return;
      }
      db := db.(table := true, ledger := {c.legacyToRevision[c.legacyOrder[contiguous - 1]]});
    }

    method RemapLegacyRevisions(c: Config) returns (ok: bool)
      modifies this
      ensures ok <==> Supported(c, old(db.ledger))
      ensures db == if ok then old(db).(ledger := Remapped(c, old(db.ledger))) else old(db)
    {
      var unsupported := set r | r in db.ledger && r !in c.graph && r !in c.oldToNew;
      if unsupported != {} {
        assert exists r :: r in unsupported;
        return false;
      }
      assert forall r :: r in db.ledger && r !in c.graph && r !in c.oldToNew ==> r in unsupported;
      var remapped := Renamed(c, db.ledger);
      if c.branchLegacy in db.ledger && c.branchRepair in remapped && remapped * c.branchDescendants != {} {
        remapped := remapped - {c.branchRepair};
      }
      db := db.(ledger := remapped);
      ok := true;
    }

    method ReconcileRetiredLedger(c: Config) returns (stamped: bool)
      requires c.drop in c.graph
      modifies this
      ensures db == Reconciled(c, old(db)) && (stamped <==> NeedsStamp(c, old(db)))
    {
      if !db.sentinel || !Known(c, db.ledger) {
        return false;
      }
      var applied := Closure(c.graph, db.ledger);
      if c.drop in applied {
        return false;
      }
      var below := Closure(c.graph, {c.drop});
      ghost var rows := db.ledger;
      forall u | u in rows ensures u in below <==> Reaches(c.graph, c.drop, u) {
        assert u in below <==> Covered(c.graph, {c.drop}, u);
      }
      db := db.(table := true, ledger := {c.drop} + (db.ledger - below));
      assert db.ledger == Stamped(c, rows, c.drop);
      stamped := true;
    }

    method PendingRevisions(c: Config, targets: set<Id>) returns (pending: set<Id>)
      ensures pending == Pending(c.graph, db.ledger, targets)
    {
      var wanted := Closure(c.graph, targets);
      var applied := Closure(c.graph, db.ledger);
      pending := set r | r in c.graph && r in wanted && r !in applied;
    }

    /** The repairs, in order. Past the check for newer schemas the remap never refuses. */
    method RepairLedger(c: Config, bootstrap: bool, remap: bool)
      requires ConfigOk(c) && Supported(c, db.ledger)
      modifies this
      ensures db == Repaired(c, old(db), bootstrap, remap)
    {
      BootstrapSupported(c, db);
      if bootstrap {
        BootstrapLegacyHistory(c);
      }
      if remap {
        var ok := RemapLegacyRevisions(c);
        assert ok;
      }
      var _ := ReconcileRetiredLedger(c);
    }

    /** Repairs the ledger and returns what the upgrade is to apply. */
    method RunUpgradeLocked(c: Config, target: Target, bootstrap: bool, remap: bool) returns (plan: Plan)
      requires ConfigOk(c)
      modifies this
      ensures plan == PlanUpgrade(c, old(db), target, bootstrap, remap) && db == plan.db
    {
      if exists r :: r in db.ledger && r !in c.graph && r !in c.oldToNew {
        return Refused(db);
      }
      if target.Head? && db.table && db.ledger == {c.head} {
        return AlreadyThere(db);
      }
      RepairLedger(c, bootstrap, remap);
      var targets := Targets(c, target);
      if !Known(c, db.ledger) || targets.None? {
        return Refused(db);
      }
      var pending := PendingRevisions(c, targets.value);
      var warned := false;
      if db.ledger != {} || db.mirror {
        warned := c.drop in pending;
      }
      plan := Apply(db, targets.value, pending, warned);
    }
  }
}
