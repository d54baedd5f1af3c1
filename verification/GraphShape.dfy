/**
 Reachability over the revision graph and the shape report: one head, one base,
 one connected acyclic lineage, no dangling and no repeated ids.
 */
module GraphShape {
  import opened RevisionGraph
  import opened MigrationTopology

  // ----- reachability -----

  ghost predicate ReachedFrom(g: Graph, start: seq<Id>, v: Id) {
    exists s :: s in start && Reaches(g, s, v)
  }

  /** What the exploration keeps: sound, nothing lost, closed up to what is still pending. */
  ghost predicate Exploring(g: Graph, start: seq<Id>, seen: set<Id>, pending: seq<Id>) {
    && (forall v :: v in g && (v in seen || v in pending) ==> ReachedFrom(g, start, v))
    && (forall s :: s in start ==> s in seen || s in pending)
    && (forall v, w :: v in seen && v in g && w in g[v] ==> w in seen || w in pending)
  }

  lemma ParentReached(g: Graph, start: seq<Id>, v: Id, w: Id)
    requires v in g && w in g && w in g[v] && ReachedFrom(g, start, v)
    ensures ReachedFrom(g, start, w)
  {
    var s :| s in start && Reaches(g, s, v);
    ReachesParent(g, s, v, w);
  }

  lemma ExploringStep(g: Graph, start: seq<Id>, seen: set<Id>, rest: seq<Id>, v: Id)
    requires Exploring(g, start, seen, rest + [v]) && v !in seen
    ensures Exploring(g, start, seen + {v}, if v in g then rest + g[v] else rest)
  {
    assert v in rest + [v];
    assert forall w :: w in rest + [v] <==> w in rest || w == v;
    if v in g {
      forall w | w in g && w in g[v] ensures ReachedFrom(g, start, w) {
        ParentReached(g, start, v, w);
      }
    }
  }

  lemma ExploringSkip(g: Graph, start: seq<Id>, seen: set<Id>, rest: seq<Id>, v: Id)
    requires Exploring(g, start, seen, rest + [v]) && v in seen
    ensures Exploring(g, start, seen, rest)
  {
  }

  lemma ExploringStart(g: Graph, start: seq<Id>)
    ensures Exploring(g, start, {}, start)
  {
    forall s | s in start && s in g ensures ReachedFrom(g, start, s) {
      ReachesSelf(g, s);
    }
  }

  lemma ExploringDone(g: Graph, start: seq<Id>, seen: set<Id>)
    requires Exploring(g, start, seen, [])
    ensures forall v :: v in g ==> (v in seen <==> ReachedFrom(g, start, v))
  {
    forall s, v | s in start && Reaches(g, s, v) ensures v in seen {
      var p :| PathBetween(g, p, s, v);
      ClosedUnderParents(g, seen, p);
    }
  }

  /** Depth-first: every known revision at or above a start, and no other known one. */
  method Explore(g: Graph, start: seq<Id>, ghost universe: set<Id>) returns (seen: set<Id>)
    requires forall s :: s in start ==> s in universe
    requires forall v, w :: v in g && w in g[v] ==> w in universe
    ensures forall v :: v in g ==> (v in seen <==> ReachedFrom(g, start, v))
  {
    seen := {};
    var pending := start;
    ExploringStart(g, start);
    while pending != []
      invariant Exploring(g, start, seen, pending)
      invariant forall v :: v in pending ==> v in universe
      decreases universe - seen, |pending|
    {
      var v, rest := pending[|pending| - 1], pending[..|pending| - 1];
      assert pending == rest + [v];
      if v in seen {
        ExploringSkip(g, start, seen, rest, v);
        pending := rest;
      } else {
        ExploringStep(g, start, seen, rest, v);
        assert v in universe;
        seen := seen + {v};
        pending := if v in g then rest + g[v] else rest;
      }
    }
    ExploringDone(g, start, seen);
  }

  /** The known revisions strictly above `v`. */
  method Ancestors(g: Graph, v: Id) returns (ancestors: set<Id>)
    ensures forall w :: w in g ==> (w in ancestors <==> v in g && exists p :: p in g[v] && Reaches(g, p, w))
  {
    var parents := if v in g then g[v] else [];
    ancestors := Explore(g, parents, set u, w | u in g && w in g[u] :: w);
    assert forall w :: w in g ==> (w in ancestors <==> ReachedFrom(g, parents, w));
  }

  function HeadOrder(keys: seq<Id>, named: set<Id>): (heads: seq<Id>)
    ensures forall v :: v in heads <==> v in keys && v !in named
  {
    if keys == [] then [] else
      (if keys[0] in named then [] else [keys[0]]) + HeadOrder(keys[1..], named)
  }

  /** The revisions no head descends from. */
  ghost function UnreachableFrom(revisions: seq<Revision>): set<Id> {
    set v | v in ParentMap(revisions) && forall h :: h in Heads(revisions) ==> !Reaches(ParentMap(revisions), h, v)
  }

  method UnreachableRevisions(revisions: seq<Revision>) returns (unreachable: set<Id>)
    ensures unreachable == UnreachableFrom(revisions)
  {
    var g := ParentMap(revisions);
    var heads := HeadOrder(KeyOrder(revisions), NamedParents(revisions));
    var reachable := Explore(g, heads, g.Keys + set u, w | u in g && w in g[u] :: w);
    unreachable := g.Keys - reachable;
    forall v | v in g ensures v in unreachable <==> v in UnreachableFrom(revisions) {
      assert v in reachable <==> ReachedFrom(g, heads, v);
    }
  }

  /** Some revision is named as a parent only by entries that a later entry with the same id overrides. */
  ghost predicate HidesHead(revisions: seq<Revision>) {
    exists v :: v in GraphHeads(ParentMap(revisions)) && v in NamedParents(revisions)
  }

  /** An unreachable revision that is not a hidden head has an unreachable child. */
  lemma LostHasLostChild(revisions: seq<Revision>, u: Id)
    requires !HidesHead(revisions) && u in UnreachableFrom(revisions)
    ensures ChildIn(ParentMap(revisions), UnreachableFrom(revisions), u)
  {
    var g := ParentMap(revisions);
    ReachesSelf(g, u);
    assert u !in Heads(revisions) && u !in GraphHeads(g);
    var c :| c in g && u in g[c];
    forall h | h in Heads(revisions) ensures !Reaches(g, h, c) {
      if Reaches(g, h, c) { ReachesParent(g, h, c, u); }
    }
    assert c in UnreachableFrom(revisions);
  }

  /** Climbing from an unreachable revision never ends, so it runs into a cycle. */
  lemma LostMeansCyclic(revisions: seq<Revision>)
    requires !HidesHead(revisions) && UnreachableFrom(revisions) != {}
    ensures CyclicIn(ParentMap(revisions)) != {}
  {
    var g, lost := ParentMap(revisions), UnreachableFrom(revisions);
    forall u | u in lost ensures ChildIn(g, lost, u) { LostHasLostChild(revisions, u); }
    var v :| v in lost;
    var c := ChildInsideReachesCycle(g, lost, v);
    assert c in CyclicIn(g);
  }

  lemma HiddenHeadIsLost(revisions: seq<Revision>, v: Id)
    requires v in GraphHeads(ParentMap(revisions)) && v in NamedParents(revisions)
    ensures v in UnreachableFrom(revisions)
  {
    var g := ParentMap(revisions);
    forall h | h in Heads(revisions) ensures !Reaches(g, h, v) {
      if Reaches(g, h, v) { var c := NamedByAChild(g, h, v); }
    }
  }

  /** Whatever the list, unreachable revisions imply a cycle unless they only come from a hidden head. */
  lemma UnreachableMeansCyclicIff(revisions: seq<Revision>)
    ensures (UnreachableFrom(revisions) != {} ==> CyclicIn(ParentMap(revisions)) != {}) <==>
            (CyclicIn(ParentMap(revisions)) != {} || !HidesHead(revisions))
  {
    if v :| v in GraphHeads(ParentMap(revisions)) && v in NamedParents(revisions) {
      HiddenHeadIsLost(revisions, v);
    } else if UnreachableFrom(revisions) != {} {
      LostMeansCyclic(revisions);
    }
  }

  /** In particular, with unique ids there is no hidden head: dangling parents or not. */
  lemma UnreachableMeansCyclic(revisions: seq<Revision>)
    requires UniqueIds(revisions) && UnreachableFrom(revisions) != {}
    ensures CyclicIn(ParentMap(revisions)) != {}
  {
    forall v | v in GraphHeads(ParentMap(revisions)) ensures v !in NamedParents(revisions) {
      forall r | r in revisions ensures v !in r.parents { ParentMapOfUnique(revisions, r); }
    }
    LostMeansCyclic(revisions);
  }

  /** The last entry overrides the first, which alone names 2. */
  const OVERRIDDEN: seq<Revision> := [Revision(1, [2]), Revision(2, []), Revision(1, [])]

  lemma OverriddenMap()
    ensures ParentMap(OVERRIDDEN) == map[1 := [], 2 := []]
  {
    var a, b, c := Revision(1, [2]), Revision(2, []), Revision(1, []);
    ParentMapAppend([], a);
    ParentMapAppend([a], b);
    ParentMapAppend([a, b], c);
    assert [] + [a] == [a] && [a] + [b] == [a, b] && [a, b] + [c] == OVERRIDDEN;
  }

  lemma OverriddenHeads()
    ensures 2 !in Heads(OVERRIDDEN) && Heads(OVERRIDDEN) <= {1, 2}
  {
    var a := OVERRIDDEN[0];
    assert a in OVERRIDDEN && 2 in a.parents;
    assert 2 in NamedParents(OVERRIDDEN) && Ids(OVERRIDDEN) <= {1, 2};
  }

  lemma OneDoesNotReachTwo(g: Graph)
    requires g == map[1 := [], 2 := []]
    ensures !Reaches(g, 1, 2) && Acyclic(g)
  {
    RankMeansAcyclic(g, map[]);
    forall p ensures !PathBetween(g, p, 1, 2) {
      if Path(g, p) && |p| > 1 { assert p[0 + 1] in g[p[0]]; }
    }
  }

  /** Without unique ids it can fail: the overridden copy of 1 is the only child of 2. */
  lemma RepeatedIdHidesUnreachable()
    ensures !UniqueIds(OVERRIDDEN) && UnreachableFrom(OVERRIDDEN) != {} && CyclicIn(ParentMap(OVERRIDDEN)) == {}
  {
    OverriddenMap();
    OverriddenHeads();
    OneDoesNotReachTwo(ParentMap(OVERRIDDEN));
    assert OVERRIDDEN[0].id == OVERRIDDEN[2].id;
    assert 2 in UnreachableFrom(OVERRIDDEN);
  }

  // ----- the shape report -----

  datatype ShapeError =
    | Duplicate(id: Id)
    | Dangling(id: Id, parent: Id)
    | ManyHeads(heads: set<Id>)
    | NoHead
    | BaseCount(bases: seq<Id>)
    | Cycle(ids: set<Id>)
    | Unreachable(ids: set<Id>)

  function Occurrences(revisions: seq<Revision>, id: Id): nat {
    if revisions == [] then 0 else
      (if revisions[0].id == id then 1 else 0) + Occurrences(revisions[1..], id)
  }

  /** The ids that name no parent, in order. */
  function Bases(revisions: seq<Revision>): seq<Id> {
    if revisions == [] then [] else
      (if revisions[0].parents == [] then [revisions[0].id] else []) + Bases(revisions[1..])
  }

  ghost predicate Violates(revisions: seq<Revision>, e: ShapeError) {
    match e
    case Duplicate(id) => Occurrences(revisions, id) > 1
    case Dangling(id, p) => p !in Ids(revisions) && exists r :: r in revisions && r.id == id && p in r.parents
    case ManyHeads(heads) => heads == Heads(revisions) && |heads| > 1
    case NoHead => Heads(revisions) == {}
    case BaseCount(bases) => bases == Bases(revisions) && |bases| != 1
    case Cycle(ids) => ids == CyclicIn(ParentMap(revisions)) && ids != {}
    case Unreachable(ids) => ids == UnreachableFrom(revisions) && ids != {}
  }

  method DuplicateErrors(revisions: seq<Revision>) returns (errors: seq<ShapeError>)
    ensures forall e :: e in errors <==> e.Duplicate? && e.id in Ids(revisions) && Violates(revisions, e)
  {
    errors := [];
    var keys := KeyOrder(revisions);
    for i := 0 to |keys|
      invariant forall e :: e in errors <==> e.Duplicate? && e.id in keys[..i] && Occurrences(revisions, e.id) > 1
    {
      assert keys[..i + 1] == keys[..i] + [keys[i]];
      if Occurrences(revisions, keys[i]) > 1 {
        errors := errors + [Duplicate(keys[i])];
      }
    }
    assert keys[..|keys|] == keys;
  }

  method DanglingErrors(revisions: seq<Revision>) returns (errors: seq<ShapeError>)
    ensures forall e :: e in errors <==> e.Dangling? && Violates(revisions, e)
  {
    errors := [];
    for i := 0 to |revisions|
      invariant forall e :: e in errors <==>
                  e.Dangling? && e.parent !in Ids(revisions) &&
                  exists r :: r in revisions[..i] && r.id == e.id && e.parent in r.parents
    {
      var r := revisions[i];
      assert revisions[..i + 1] == revisions[..i] + [r];
      var more := DanglingOf(r.id, r.parents, Ids(revisions));
      assert forall e :: e in errors + more <==> e in errors || e in more;
      errors := errors + more;
    }
    assert revisions[..|revisions|] == revisions;
  }

  method DanglingOf(id: Id, parents: seq<Id>, known: set<Id>) returns (errors: seq<ShapeError>)
    ensures forall e :: e in errors <==> e.Dangling? && e.id == id && e.parent in parents && e.parent !in known
  {
    errors := [];
    for j := 0 to |parents|
      invariant forall e :: e in errors <==> e.Dangling? && e.id == id && e.parent in parents[..j] && e.parent !in known
    {
      assert parents[..j + 1] == parents[..j] + [parents[j]];
      if parents[j] !in known {
        errors := errors + [Dangling(id, parents[j])];
      }
    }
    assert parents[..|parents|] == parents;
  }

  lemma {:induction false} OccursOnlyIfListed(revisions: seq<Revision>, id: Id)
    ensures Occurrences(revisions, id) > 0 <==> id in Ids(revisions)
  {
    if revisions != [] {
      OccursOnlyIfListed(revisions[1..], id);
      assert forall r :: r in revisions <==> r == revisions[0] || r in revisions[1..];
    }
  }

  method HeadAndBaseErrors(revisions: seq<Revision>) returns (errors: seq<ShapeError>)
    ensures forall e :: e in errors <==> (e.ManyHeads? || e.NoHead? || e.BaseCount?) && Violates(revisions, e)
  {
    var heads, bases := Heads(revisions), Bases(revisions);
    errors := [];
    if |heads| > 1 {
      errors := [ManyHeads(heads)];
    } else if heads == {} {
      errors := [NoHead];
    }
    if |bases| != 1 {
      errors := errors + [BaseCount(bases)];
    }
  }

  method CycleErrors(revisions: seq<Revision>) returns (errors: seq<ShapeError>)
    ensures forall e :: e in errors <==> (e.Cycle? || e.Unreachable?) && Violates(revisions, e)
  {
    errors := [];
    var cyclic := CyclicRevisions(revisions);
    if cyclic != {} {
      errors := [Cycle(cyclic)];
    }
    var unreachable := UnreachableRevisions(revisions);
    if unreachable != {} {
      errors := errors + [Unreachable(unreachable)];
    }
  }

  /** The report holds exactly the violations of the graph. */
  method CheckGraphShape(revisions: seq<Revision>) returns (errors: seq<ShapeError>)
    ensures forall e :: e in errors <==> Violates(revisions, e)
  {
    var duplicates := DuplicateErrors(revisions);
    var dangling := DanglingErrors(revisions);
    var counts := HeadAndBaseErrors(revisions);
    var cycles := CycleErrors(revisions);
    errors := duplicates + dangling + counts + cycles;
    forall e ensures e in errors <==> Violates(revisions, e) {
      match e
      case Duplicate(id) => OccursOnlyIfListed(revisions, id);
      case _ =>
    }
  }

  /** One acyclic lineage of unique, resolvable revisions between one base and one head. */
  ghost predicate SingleLineage(revisions: seq<Revision>) {
    && UniqueIds(revisions)
    && NoDangling(revisions)
    && Acyclic(ParentMap(revisions))
    && exists head, base :: Spans(ParentMap(revisions), head, base)
  }

  /** Every revision is at or above `head` and at or below `base`. */
  ghost predicate Spans(g: Graph, head: Id, base: Id) {
    head in g && base in g && forall v :: v in g ==> Reaches(g, head, v) && Reaches(g, v, base)
  }

  lemma {:induction false} OccursTwice(revisions: seq<Revision>, i: int, j: int)
    requires 0 <= i < j < |revisions| && revisions[i].id == revisions[j].id
    ensures Occurrences(revisions, revisions[i].id) > 1
  {
    if i == 0 {
      assert revisions[j] in revisions[1..];
      OccursOnlyIfListed(revisions[1..], revisions[0].id);
    } else {
      OccursTwice(revisions[1..], i - 1, j - 1);
    }
  }

  lemma {:induction false} UniqueOccursOnce(revisions: seq<Revision>, id: Id)
    requires UniqueIds(revisions)
    ensures Occurrences(revisions, id) <= 1
  {
    if revisions != [] {
      UniqueOccursOnce(revisions[1..], id);
      OccursOnlyIfListed(revisions[1..], id);
      if id in Ids(revisions[1..]) {
        var r :| r in revisions[1..] && r.id == id;
      }
    }
  }

  lemma NoDuplicatesMeansUnique(revisions: seq<Revision>)
    ensures (forall id :: Occurrences(revisions, id) <= 1) <==> UniqueIds(revisions)
  {
    if UniqueIds(revisions) {
      forall id ensures Occurrences(revisions, id) <= 1 { UniqueOccursOnce(revisions, id); }
    } else {
      var i, j :| 0 <= i < j < |revisions| && revisions[i].id == revisions[j].id;
      OccursTwice(revisions, i, j);
    }
  }

  lemma {:induction false} BasesListed(revisions: seq<Revision>, v: Id)
    ensures v in Bases(revisions) <==> exists r :: r in revisions && r.id == v && r.parents == []
  {
    if revisions != [] {
      BasesListed(revisions[1..], v);
      assert forall r :: r in revisions <==> r == revisions[0] || r in revisions[1..];
    }
  }

  lemma {:induction false} BasesOnce(revisions: seq<Revision>)
    requires UniqueIds(revisions)
    ensures Distinct(Bases(revisions))
  {
    if revisions != [] {
      BasesOnce(revisions[1..]);
      BasesListed(revisions[1..], revisions[0].id);
    }
  }

  lemma ParentKnown(revisions: seq<Revision>, r: Revision, p: Id)
    requires NoDangling(revisions) && r in revisions && p in r.parents
    ensures p in Ids(revisions)
  {
    assert p in NamedParents(revisions);
  }

  // A walk along parents in an acyclic graph without dangling parents ends at a base.
  lemma {:induction false} WalkToBase(revisions: seq<Revision>, v: Id, left: set<Id>) returns (b: Id)
    requires UniqueIds(revisions) && NoDangling(revisions) && Acyclic(ParentMap(revisions))
    requires v in ParentMap(revisions)
    requires forall w :: w in ParentMap(revisions) && Reaches(ParentMap(revisions), v, w) ==> w in left
    ensures b in Bases(revisions) && Reaches(ParentMap(revisions), v, b)
    decreases left
  {
    var g := ParentMap(revisions);
    var r := EntryOfUnique(revisions, v);
    ReachesSelf(g, v);
    if r.parents == [] {
      b := v;
      BasesListed(revisions, v);
    } else {
      var p := r.parents[0];
      ParentKnown(revisions, r, p);
      forall w | w in g && Reaches(g, p, w) ensures w in left - {v} {
        ReachesStep(g, v, p, w);
        if w == v { ReturnReachesCycle(g, v, p); }
      }
      b := WalkToBase(revisions, p, left - {v});
      ReachesStep(g, v, p, b);
    }
  }

  lemma CleanMeansAcyclic(revisions: seq<Revision>)
    requires forall e :: !Violates(revisions, e)
    ensures UniqueIds(revisions) && NoDangling(revisions) && Acyclic(ParentMap(revisions))
  {
    var g := ParentMap(revisions);
    forall id ensures Occurrences(revisions, id) <= 1 { assert !Violates(revisions, Duplicate(id)); }
    NoDuplicatesMeansUnique(revisions);
    forall r, p | r in revisions && p in r.parents ensures p in Ids(revisions) {
      assert !Violates(revisions, Dangling(r.id, p));
    }
    assert !Violates(revisions, Cycle(CyclicIn(g)));
    forall v | v in g ensures !ReachesCycle(g, v) { assert v !in CyclicIn(g); }
  }

  lemma CleanCounts(revisions: seq<Revision>)
    requires forall e :: !Violates(revisions, e)
    ensures Heads(revisions) != {} && |Heads(revisions)| <= 1
    ensures |Bases(revisions)| == 1 && UnreachableFrom(revisions) == {}
  {
    assert !Violates(revisions, NoHead) && !Violates(revisions, ManyHeads(Heads(revisions)));
    assert !Violates(revisions, BaseCount(Bases(revisions)));
    assert !Violates(revisions, Unreachable(UnreachableFrom(revisions)));
  }

  lemma CountsMeanSpans(revisions: seq<Revision>, head: Id, base: Id)
    requires UniqueIds(revisions) && NoDangling(revisions) && Acyclic(ParentMap(revisions))
    requires Heads(revisions) == {head} && Bases(revisions) == [base] && UnreachableFrom(revisions) == {}
    ensures Spans(ParentMap(revisions), head, base)
  {
    var g := ParentMap(revisions);
    BasesListed(revisions, base);
    forall v | v in g ensures Reaches(g, head, v) && Reaches(g, v, base) {
      ReachedFromHead(revisions, head, v);
      ReachesOnlyBase(revisions, base, v);
    }
  }

  lemma ReachesOnlyBase(revisions: seq<Revision>, base: Id, v: Id)
    requires UniqueIds(revisions) && NoDangling(revisions) && Acyclic(ParentMap(revisions))
    requires Bases(revisions) == [base] && v in ParentMap(revisions)
    ensures Reaches(ParentMap(revisions), v, base)
  {
    var b := WalkToBase(revisions, v, ParentMap(revisions).Keys);
  }

  lemma ReachedFromHead(revisions: seq<Revision>, head: Id, v: Id)
    requires Heads(revisions) == {head} && UnreachableFrom(revisions) == {} && v in ParentMap(revisions)
    ensures Reaches(ParentMap(revisions), head, v)
  {
    assert v !in UnreachableFrom(revisions);
  }

  lemma CleanMeansSingleLineage(revisions: seq<Revision>)
    requires forall e :: !Violates(revisions, e)
    ensures SingleLineage(revisions)
  {
    CleanMeansAcyclic(revisions);
    CleanCounts(revisions);
    OneOfEachMeansSpans(revisions);
  }

  lemma OneOfEachMeansSpans(revisions: seq<Revision>)
    requires UniqueIds(revisions) && NoDangling(revisions) && Acyclic(ParentMap(revisions))
    requires Heads(revisions) != {} && |Heads(revisions)| <= 1
    requires |Bases(revisions)| == 1 && UnreachableFrom(revisions) == {}
    ensures exists head, base :: Spans(ParentMap(revisions), head, base)
  {
    var head := OnlyMember(Heads(revisions));
    var base := OnlyEntry(Bases(revisions));
    CountsMeanSpans(revisions, head, base);
  }

  lemma OnlyEntry(s: seq<Id>) returns (v: Id)
    requires |s| == 1
    ensures s == [v]
  {
    v := s[0];
  }

  lemma OnlyMember(s: set<Id>) returns (v: Id)
    requires s != {} && |s| <= 1
    ensures s == {v}
  {
    v :| v in s;
    assert |s - {v}| == |s| - 1;
  }

  lemma SpansHeads(revisions: seq<Revision>, head: Id, base: Id)
    requires UniqueIds(revisions) && Acyclic(ParentMap(revisions)) && Spans(ParentMap(revisions), head, base)
    ensures Heads(revisions) == {head}
  {
    var g := ParentMap(revisions);
    if head in NamedParents(revisions) {
      var r, p :| r in revisions && p in r.parents && p == head;
      ParentMapOfUnique(revisions, r);
      ReturnReachesCycle(g, r.id, head);
    }
    forall v | v in g && v != head ensures v in NamedParents(revisions) {
      var c := NamedByAChild(g, head, v);
      var r := EntryOfUnique(revisions, c);
    }
  }

  lemma {:induction false} NamedByAChild(g: Graph, u: Id, v: Id) returns (c: Id)
    requires Reaches(g, u, v) && u != v
    ensures c in g && v in g[c]
  {
    var p :| PathBetween(g, p, u, v);
    c := p[|p| - 2];
    assert p[|p| - 2 + 1] in g[p[|p| - 2]];
  }

  lemma SpansBases(revisions: seq<Revision>, head: Id, base: Id)
    requires UniqueIds(revisions) && NoDangling(revisions) && Acyclic(ParentMap(revisions))
    requires Spans(ParentMap(revisions), head, base)
    ensures Bases(revisions) == [base]
  {
    var g := ParentMap(revisions);
    var r := EntryOfUnique(revisions, base);
    if r.parents != [] {
      var p := r.parents[0];
      ParentKnown(revisions, r, p);
      ReturnReachesCycle(g, base, p);
    }
    BasesListed(revisions, base);
    BasesOnce(revisions);
    forall v | v in Bases(revisions) ensures v == base {
      BasesListed(revisions, v);
      var s :| s in revisions && s.id == v && s.parents == [];
      ParentMapOfUnique(revisions, s);
      if v != base { var w := ReachesSplit(g, v, base); }
    }
    AllEqualDistinct(Bases(revisions), base);
  }

  lemma AllEqualDistinct(s: seq<Id>, v: Id)
    requires Distinct(s) && v in s && forall w :: w in s ==> w == v
    ensures s == [v]
  {
    DistinctFits(s, {v});
  }

  lemma SingleLineageCounts(revisions: seq<Revision>)
    requires SingleLineage(revisions)
    ensures Heads(revisions) != {} && |Heads(revisions)| == 1 && |Bases(revisions)| == 1
    ensures UnreachableFrom(revisions) == {}
  {
    var g := ParentMap(revisions);
    var head, base :| Spans(g, head, base);
    SpansHeads(revisions, head, base);
    SpansBases(revisions, head, base);
    assert head in Heads(revisions);
  }

  lemma KnownParents(revisions: seq<Revision>, id: Id, p: Id)
    requires NoDangling(revisions)
    ensures !Violates(revisions, Dangling(id, p))
  {
    forall r | r in revisions && p in r.parents ensures p in Ids(revisions) { ParentKnown(revisions, r, p); }
  }

  lemma NoCycle(revisions: seq<Revision>, ids: set<Id>)
    requires Acyclic(ParentMap(revisions))
    ensures !Violates(revisions, Cycle(ids))
  {
    assert CyclicIn(ParentMap(revisions)) == {};
  }

  lemma CountsMeanClean(revisions: seq<Revision>, e: ShapeError)
    requires Heads(revisions) != {} && |Heads(revisions)| == 1 && |Bases(revisions)| == 1
    requires UnreachableFrom(revisions) == {}
    requires !e.Duplicate? && !e.Dangling? && !e.Cycle?
    ensures !Violates(revisions, e)
  {
  }

  lemma SingleLineageMeansClean(revisions: seq<Revision>, e: ShapeError)
    requires SingleLineage(revisions)
    ensures !Violates(revisions, e)
  {
    if e.Duplicate? {
      UniqueOccursOnce(revisions, e.id);
    } else if e.Dangling? {
      KnownParents(revisions, e.id, e.parent);
    } else if e.Cycle? {
      NoCycle(revisions, e.ids);
    } else {
      SingleLineageCounts(revisions);
      CountsMeanClean(revisions, e);
    }
  }

  /**
   The report is empty exactly for one acyclic lineage: unique ids, no dangling
   parent, and every revision between the single base and the single head.
   */
  lemma CleanIffSingleLineage(revisions: seq<Revision>)
    ensures (forall e :: !Violates(revisions, e)) <==> SingleLineage(revisions)
  {
    if SingleLineage(revisions) {
      forall e ensures !Violates(revisions, e) { SingleLineageMeansClean(revisions, e); }
    } else if forall e :: !Violates(revisions, e) {
      CleanMeansSingleLineage(revisions);
    }
  }
}
