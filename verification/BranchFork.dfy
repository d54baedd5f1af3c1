/**
 The branch-fork check against a base ref: a revision the branch adds must not
 descend from a revision the base ref has already built on.
 */
module BranchFork {
  import opened RevisionGraph
  import opened MigrationTopology
  import opened GraphShape

  /** `r` is reported: added, not a merge, and its parent already has a child in the base. */
  predicate Forks(base: seq<Revision>, r: Revision) {
    && r.id !in Ids(base)
    && |r.parents| == 1
    && r.parents[0] in Ids(base)
    && r.parents[0] in NamedParents(base)
  }

  method CheckBranchFork(revisions: seq<Revision>, base: seq<Revision>) returns (errors: seq<Revision>)
    ensures forall r :: r in errors <==> r in revisions && Forks(base, r)
  {
    errors := [];
    for i := 0 to |revisions|
      invariant forall r :: r in errors <==> r in revisions[..i] && Forks(base, r)
    {
      assert revisions[..i + 1] == revisions[..i] + [revisions[i]];
      if Forks(base, revisions[i]) {
        errors := errors + [revisions[i]];
      }
    }
    assert revisions[..|revisions|] == revisions;
  }

  ghost predicate Silent(revisions: seq<Revision>, base: seq<Revision>) {
    forall r :: r in revisions ==> !Forks(base, r)
  }

  lemma HeadsAgree(revisions: seq<Revision>)
    requires UniqueIds(revisions)
    ensures Heads(revisions) == GraphHeads(ParentMap(revisions))
  {
    var g := ParentMap(revisions);
    forall u, v | u in g && v in g[u] ensures v in NamedParents(revisions) {
      var r := EntryOfUnique(revisions, u);
    }
    forall r, v | r in revisions && v in r.parents ensures v in g[r.id] {
      ParentMapOfUnique(revisions, r);
    }
  }

  // ----- the heads of the merged graph -----

  /** A base graph and a branch graph, each one clean lineage, that agree on what they share. */
  ghost predicate Branch(b: Graph, n: Graph, baseHead: Id, head: Id, root: Id) {
    && (forall v, w :: v in b && w in b[v] ==> w in b)
    && (forall v, w :: v in n && w in n[v] ==> w in n)
    && (forall v :: v in b && v in n ==> b[v] == n[v])
    && Acyclic(n)
    && GraphHeads(b) == {baseHead} && GraphHeads(n) == {head}
    && (forall v :: v in n ==> Reaches(n, head, v) && Reaches(n, v, root))
    && root in n && n[root] == []
  }

  ghost predicate Added(b: Graph, n: Graph, v: Id) {
    v in n && v !in b
  }

  /** From a shared revision the branch only reaches shared ones. */
  lemma SharedAncestors(b: Graph, n: Graph, baseHead: Id, head: Id, root: Id, v: Id, w: Id)
    requires Branch(b, n, baseHead, head, root) && v in b && Reaches(n, v, w)
    ensures w in b
  {
    var p :| PathBetween(n, p, v, w);
    ClosedUnderParents(n, b.Keys, p);
  }

  lemma BranchHeadIsAdded(b: Graph, n: Graph, baseHead: Id, head: Id, root: Id, v: Id)
    requires Branch(b, n, baseHead, head, root) && Added(b, n, v)
    ensures head !in b
  {
    if head in b { SharedAncestors(b, n, baseHead, head, root, head, v); }
  }

  /** Heads of the union: the branch's own head, and the base's head unless something added builds on it. */
  lemma UnionHeads(b: Graph, n: Graph, baseHead: Id, head: Id, root: Id, u: Id)
    requires Branch(b, n, baseHead, head, root) && head !in b
    ensures u in GraphHeads(b + n) <==>
            u == head || (u == baseHead && forall v :: Added(b, n, v) ==> baseHead !in n[v])
  {
    var g := b + n;
    assert forall v :: v in b ==> g[v] == b[v];
    if Added(b, n, u) {
      assert u in GraphHeads(n) <==> u == head;
    } else if u in b {
      assert u in GraphHeads(b) <==> u == baseHead;
      if v :| Added(b, n, v) && u in n[v] {
        assert u in g[v];
      }
    }
  }

  lemma UnionWithoutAdditions(b: Graph, n: Graph)
    requires forall v :: v in n ==> v in b && b[v] == n[v]
    ensures b + n == b
  {
  }

  /** Some revision the branch adds names the base's head, alone or in a merge. */
  ghost predicate NamesHead(b: Graph, n: Graph, baseHead: Id) {
    exists v :: Added(b, n, v) && baseHead in n[v]
  }

  lemma CountHeads(heads: set<Id>, head: Id, baseHead: Id, named: bool)
    requires head != baseHead && forall u :: u in heads <==> u == head || (u == baseHead && !named)
    ensures |heads| == 1 <==> named
  {
    assert heads == if named then {head} else {head, baseHead};
  }

  /** The union has one head exactly when nothing is added or something added builds on the base's head. */
  lemma OneHeadIff(b: Graph, n: Graph, baseHead: Id, head: Id, root: Id)
    requires Branch(b, n, baseHead, head, root)
    ensures |GraphHeads(b + n)| == 1 <==> (forall v :: v in n ==> v in b) || NamesHead(b, n, baseHead)
  {
    if v :| Added(b, n, v) {
      BranchHeadIsAdded(b, n, baseHead, head, root, v);
      forall u ensures u in GraphHeads(b + n) <==> u == head || (u == baseHead && !NamesHead(b, n, baseHead)) {
        UnionHeads(b, n, baseHead, head, root, u);
      }
      assert baseHead in GraphHeads(b);
      CountHeads(GraphHeads(b + n), head, baseHead, NamesHead(b, n, baseHead));
    } else {
      assert forall v :: v in n ==> !Added(b, n, v);
      UnionWithoutAdditions(b, n);
    }
  }

  // ----- one parent each -----

  ghost predicate OneParent(b: Graph, n: Graph) {
    forall v :: Added(b, n, v) ==> |n[v]| == 1
  }

  /** Some added revision has its parent in the base. */
  lemma {:induction false} EntryExists(b: Graph, n: Graph, baseHead: Id, head: Id, root: Id, p: seq<Id>)
    returns (v: Id)
    requires Branch(b, n, baseHead, head, root) && OneParent(b, n) && root in b
    requires |p| > 0 && PathBetween(n, p, p[0], root) && p[0] !in b
    ensures Added(b, n, v) && n[v][0] in b
    decreases |p|
  {
    if p[1] in b {
      v := p[0];
    } else {
      v := EntryExists(b, n, baseHead, head, root, p[1..]);
    }
  }

  lemma SharedPath(b: Graph, n: Graph, baseHead: Id, head: Id, root: Id, p: seq<Id>, w: Id)
    requires Branch(b, n, baseHead, head, root) && Path(n, p) && p[0] in b && p[|p| - 1] == w
    ensures w in b
  {
    ClosedUnderParents(n, b.Keys, p);
  }

  /** Added revisions have one parent each, so there is only one way into the base. */
  lemma {:induction false} EntryUnique(b: Graph, n: Graph, baseHead: Id, head: Id, root: Id,
                                       p: seq<Id>, v: Id, w: Id)
    requires Branch(b, n, baseHead, head, root) && OneParent(b, n)
    requires Added(b, n, v) && n[v][0] in b
    requires Added(b, n, w) && n[w][0] in b
    requires |p| > 0 && p[0] !in b && PathBetween(n, p, p[0], v) && Reaches(n, p[0], w)
    ensures v == w
    decreases |p|
  {
    var u := p[0];
    if u == w {
      if |p| > 1 {
        SharedPath(b, n, baseHead, head, root, p[1..], v);
      }
    } else {
      var x := ReachesSplit(n, u, w);
      if |p| == 1 {
        SharedAncestors(b, n, baseHead, head, root, x, w);
      } else {
        assert p[1] in n[u] && x == p[1];
        if x in b { SharedPath(b, n, baseHead, head, root, p[1..], v); }
        EntryUnique(b, n, baseHead, head, root, p[1..], v, w);
      }
    }
  }

  ghost predicate NoFork(b: Graph, n: Graph, baseHead: Id) {
    forall v :: Added(b, n, v) && |n[v]| == 1 && n[v][0] in b ==> n[v][0] == baseHead
  }

  lemma NoForkIffNamesHead(b: Graph, n: Graph, baseHead: Id, head: Id, root: Id, added: Id)
    requires Branch(b, n, baseHead, head, root) && OneParent(b, n) && root in b && Added(b, n, added)
    ensures NoFork(b, n, baseHead) <==> NamesHead(b, n, baseHead)
  {
    BranchHeadIsAdded(b, n, baseHead, head, root, added);
    var p :| PathBetween(n, p, head, root);
    var entry := EntryExists(b, n, baseHead, head, root, p);
    assert baseHead in GraphHeads(b);
    if v :| Added(b, n, v) && baseHead in n[v] {
      assert n[v][0] == baseHead;
      forall w | Added(b, n, w) && n[w][0] in b ensures w == v {
        var q :| PathBetween(n, q, head, v);
        EntryUnique(b, n, baseHead, head, root, q, v, w);
      }
    }
    if NoFork(b, n, baseHead) { assert baseHead in n[entry]; }
  }

  /** With one parent each and a shared root, no fork is reported exactly when the union has one head. */
  lemma NoForkIffOneHead(b: Graph, n: Graph, baseHead: Id, head: Id, root: Id)
    requires Branch(b, n, baseHead, head, root) && OneParent(b, n) && root in b
    ensures NoFork(b, n, baseHead) <==> |GraphHeads(b + n)| == 1
  {
    OneHeadIff(b, n, baseHead, head, root);
    if v :| Added(b, n, v) {
      NoForkIffNamesHead(b, n, baseHead, head, root, v);
    } else {
      assert forall v :: v in n ==> !Added(b, n, v);
    }
  }

  // ----- the two lists -----

  /** What the check may assume of the two lists. */
  ghost predicate Comparable(revisions: seq<Revision>, base: seq<Revision>) {
    SingleLineage(revisions) && SingleLineage(base) && Agree(ParentMap(revisions), ParentMap(base))
  }

  /** Shared revisions name the same parents. */
  ghost predicate Agree(g: Graph, h: Graph) {
    forall v :: v in g && v in h ==> g[v] == h[v]
  }

  ghost predicate OneUnionHead(revisions: seq<Revision>, base: seq<Revision>) {
    |GraphHeads(ParentMap(base) + ParentMap(revisions))| == 1
  }

  /** No revision the branch adds is a merge; one that starts a lineage is allowed. */
  ghost predicate NoAddedMerge(revisions: seq<Revision>, base: seq<Revision>) {
    forall r :: r in revisions && r.id !in Ids(base) ==> |r.parents| <= 1
  }

  ghost predicate AddsNothing(revisions: seq<Revision>, base: seq<Revision>) {
    Ids(revisions) <= Ids(base)
  }

  ghost predicate BuildsOnHead(revisions: seq<Revision>, base: seq<Revision>) {
    exists r :: r in revisions && r.id !in Ids(base) && NamesOneOf(r, Heads(base))
  }

  predicate NamesOneOf(r: Revision, ids: set<Id>) {
    exists h :: h in ids && h in r.parents
  }

  lemma ClosedGraph(revisions: seq<Revision>)
    requires UniqueIds(revisions) && NoDangling(revisions)
    ensures forall v, w :: v in ParentMap(revisions) && w in ParentMap(revisions)[v] ==> w in ParentMap(revisions)
  {
    forall v, w | v in ParentMap(revisions) && w in ParentMap(revisions)[v] ensures w in Ids(revisions) {
      var r := EntryOfUnique(revisions, v);
      ParentKnown(revisions, r, w);
    }
  }

  lemma LineageEnds(revisions: seq<Revision>) returns (head: Id, root: Id)
    requires SingleLineage(revisions)
    ensures GraphHeads(ParentMap(revisions)) == {head} == Heads(revisions)
    ensures Spans(ParentMap(revisions), head, root) && ParentMap(revisions)[root] == []
    ensures Bases(revisions) == [root]
  {
    head, root :| Spans(ParentMap(revisions), head, root);
    SpansHeads(revisions, head, root);
    HeadsAgree(revisions);
    SpansBases(revisions, head, root);
    BasesListed(revisions, root);
    var r :| r in revisions && r.id == root && r.parents == [];
    ParentMapOfUnique(revisions, r);
  }

  lemma ComparableBranch(revisions: seq<Revision>, base: seq<Revision>) returns (baseHead: Id, head: Id, root: Id)
    requires Comparable(revisions, base)
    ensures Branch(ParentMap(base), ParentMap(revisions), baseHead, head, root)
    ensures Heads(base) == {baseHead} && Bases(revisions) == [root]
  {
    ClosedGraph(base);
    ClosedGraph(revisions);
    var baseRoot;
    baseHead, baseRoot := LineageEnds(base);
    head, root := LineageEnds(revisions);
  }

  lemma NamesHeadAgrees(revisions: seq<Revision>, base: seq<Revision>, baseHead: Id)
    requires UniqueIds(revisions) && Heads(base) == {baseHead}
    ensures BuildsOnHead(revisions, base) <==> NamesHead(ParentMap(base), ParentMap(revisions), baseHead)
  {
    var b, n := ParentMap(base), ParentMap(revisions);
    if v :| Added(b, n, v) && baseHead in n[v] {
      var r := EntryOfUnique(revisions, v);
      assert NamesOneOf(r, Heads(base));
    }
    if r :| r in revisions && r.id !in Ids(base) && NamesOneOf(r, Heads(base)) {
      ParentMapOfUnique(revisions, r);
      assert Added(b, n, r.id);
    }
  }

  /**
   Merges and new lineages included, the union of two clean graphs has one head
   exactly when nothing is added or something added names the base's head.
   */
  lemma OneUnionHeadIff(revisions: seq<Revision>, base: seq<Revision>)
    requires Comparable(revisions, base)
    ensures OneUnionHead(revisions, base) <==> AddsNothing(revisions, base) || BuildsOnHead(revisions, base)
  {
    var baseHead, head, root := ComparableBranch(revisions, base);
    OneHeadIff(ParentMap(base), ParentMap(revisions), baseHead, head, root);
    NamesHeadAgrees(revisions, base, baseHead);
  }

  lemma ReportMeansAdded(revisions: seq<Revision>, base: seq<Revision>)
    requires !Silent(revisions, base)
    ensures !AddsNothing(revisions, base)
  {
    var r :| r in revisions && Forks(base, r);
  }

  /**
   So silence is wrong exactly when something is added and nothing added names
   the base's head, and a report is wrong exactly when something added does.
   */
  lemma WrongVerdicts(revisions: seq<Revision>, base: seq<Revision>)
    requires Comparable(revisions, base)
    ensures Silent(revisions, base) ==>
              (!OneUnionHead(revisions, base) <==> !AddsNothing(revisions, base) && !BuildsOnHead(revisions, base))
    ensures !Silent(revisions, base) ==> (OneUnionHead(revisions, base) <==> BuildsOnHead(revisions, base))
  {
    OneUnionHeadIff(revisions, base);
    if !Silent(revisions, base) { ReportMeansAdded(revisions, base); }
  }

  lemma SilentIffNoFork(revisions: seq<Revision>, base: seq<Revision>, baseHead: Id)
    requires UniqueIds(revisions) && Heads(base) == {baseHead}
    ensures Silent(revisions, base) <==> NoFork(ParentMap(base), ParentMap(revisions), baseHead)
  {
    var b, n := ParentMap(base), ParentMap(revisions);
    assert forall p :: p in Ids(base) ==> (p in NamedParents(base) <==> p != baseHead) by {
      forall p | p in Ids(base) ensures p in NamedParents(base) <==> p != baseHead {
        assert p in Heads(base) <==> p == baseHead;
      }
    }
    forall r | r in revisions ensures n[r.id] == r.parents { ParentMapOfUnique(revisions, r); }
    if Silent(revisions, base) {
      forall v | Added(b, n, v) && |n[v]| == 1 && n[v][0] in b ensures n[v][0] == baseHead {
        var r := EntryOfUnique(revisions, v);
        assert !Forks(base, r);
      }
    } else {
      var r :| r in revisions && Forks(base, r);
      assert Added(b, n, r.id);
    }
  }

  ghost predicate Shares(revisions: seq<Revision>, base: seq<Revision>) {
    Ids(revisions) * Ids(base) != {}
  }

  /** A branch that shares anything shares its root, so no added revision starts a lineage. */
  lemma SharedRoot(revisions: seq<Revision>, base: seq<Revision>, baseHead: Id, head: Id, root: Id)
    requires Branch(ParentMap(base), ParentMap(revisions), baseHead, head, root) && UniqueIds(revisions)
    requires Bases(revisions) == [root] && Shares(revisions, base) && NoAddedMerge(revisions, base)
    ensures root in ParentMap(base) && OneParent(ParentMap(base), ParentMap(revisions))
  {
    var b, n := ParentMap(base), ParentMap(revisions);
    var s :| s in Ids(revisions) * Ids(base);
    SharedAncestors(b, n, baseHead, head, root, s, root);
    forall v | Added(b, n, v) ensures |n[v]| == 1 {
      var r := EntryOfUnique(revisions, v);
      BasesListed(revisions, v);
    }
  }

  lemma UnrelatedParents(revisions: seq<Revision>, base: seq<Revision>, r: Revision, p: Id)
    requires NoDangling(revisions) && !Shares(revisions, base) && r in revisions && p in r.parents
    ensures p !in Ids(base)
  {
    ParentKnown(revisions, r, p);
    assert p !in Ids(revisions) * Ids(base);
  }

  /** A branch that shares nothing names nothing of the base, so nothing of it is reported. */
  lemma UnrelatedIsSilent(revisions: seq<Revision>, base: seq<Revision>)
    requires NoDangling(revisions) && !Shares(revisions, base)
    ensures Silent(revisions, base) && !BuildsOnHead(revisions, base)
  {
    forall r, p | r in revisions && p in r.parents ensures p !in Ids(base) {
      UnrelatedParents(revisions, base, r, p);
    }
  }

  lemma UnrelatedAdds(revisions: seq<Revision>, base: seq<Revision>, v: Id)
    requires !Shares(revisions, base) && v in Ids(revisions)
    ensures !AddsNothing(revisions, base)
  {
    assert v !in Ids(revisions) * Ids(base);
  }

  lemma UnrelatedForks(revisions: seq<Revision>, base: seq<Revision>)
    requires Comparable(revisions, base) && !Shares(revisions, base)
    ensures Silent(revisions, base) && !OneUnionHead(revisions, base)
  {
    var head, root := LineageEnds(revisions);
    UnrelatedIsSilent(revisions, base);
    UnrelatedAdds(revisions, base, head);
    OneUnionHeadIff(revisions, base);
  }

  /**
   The guard is sound and complete when nothing added is a merge, silent exactly
   when the union has a single head, if and only if the branch shares anything
   with the base at all.
   */
  lemma SilentIffOneHead(revisions: seq<Revision>, base: seq<Revision>)
    requires Comparable(revisions, base) && NoAddedMerge(revisions, base)
    ensures (Silent(revisions, base) <==> OneUnionHead(revisions, base)) <==> Shares(revisions, base)
  {
    if Shares(revisions, base) {
      var baseHead, head, root := ComparableBranch(revisions, base);
      SharedRoot(revisions, base, baseHead, head, root);
      SilentIffNoFork(revisions, base, baseHead);
      NoForkIffOneHead(ParentMap(base), ParentMap(revisions), baseHead, head, root);
    } else {
      UnrelatedForks(revisions, base);
    }
  }

  // ----- the ways the verdict can be wrong, each with an input -----

  /** Ascending ids, listed parents first: all but the first name one, all but the last are named. */
  ghost predicate Ladder(revisions: seq<Revision>) {
    && |revisions| > 0
    && (forall i, j :: 0 <= i < j < |revisions| ==> revisions[i].id < revisions[j].id)
    && (forall i, p :: 0 <= i < |revisions| && p in revisions[i].parents ==> ListedBefore(revisions, i, p))
    && (forall i :: 0 < i < |revisions| ==> |revisions[i].parents| > 0)
    && (forall i :: 0 <= i < |revisions| - 1 ==> NamedAfter(revisions, i))
  }

  ghost predicate ListedBefore(revisions: seq<Revision>, i: int, p: Id)
    requires 0 <= i < |revisions|
  {
    exists k :: 0 <= k < i && revisions[k].id == p
  }

  ghost predicate NamedAfter(revisions: seq<Revision>, i: int)
    requires 0 <= i < |revisions|
  {
    exists j :: i < j < |revisions| && revisions[i].id in revisions[j].parents
  }

  lemma LadderEntry(revisions: seq<Revision>, i: int)
    requires Ladder(revisions) && 0 <= i < |revisions|
    ensures UniqueIds(revisions)
    ensures revisions[i].id in ParentMap(revisions) && ParentMap(revisions)[revisions[i].id] == revisions[i].parents
  {
    assert revisions[i] in revisions;
    ParentMapOfUnique(revisions, revisions[i]);
  }

  lemma {:induction false} LadderDown(revisions: seq<Revision>, i: int)
    requires Ladder(revisions) && 0 <= i < |revisions|
    ensures Reaches(ParentMap(revisions), revisions[i].id, revisions[0].id)
    decreases i
  {
    LadderEntry(revisions, i);
    if i == 0 {
      ReachesSelf(ParentMap(revisions), revisions[0].id);
    } else {
      var p := revisions[i].parents[0];
      assert ListedBefore(revisions, i, p);
      var k :| 0 <= k < i && revisions[k].id == p;
      LadderDown(revisions, k);
      ReachesStep(ParentMap(revisions), revisions[i].id, p, revisions[0].id);
    }
  }

  lemma {:induction false} LadderUp(revisions: seq<Revision>, i: int)
    requires Ladder(revisions) && 0 <= i < |revisions|
    ensures Reaches(ParentMap(revisions), revisions[|revisions| - 1].id, revisions[i].id)
    decreases |revisions| - i
  {
    LadderEntry(revisions, i);
    if i == |revisions| - 1 {
      ReachesSelf(ParentMap(revisions), revisions[i].id);
    } else {
      assert NamedAfter(revisions, i);
      var j :| i < j < |revisions| && revisions[i].id in revisions[j].parents;
      LadderUp(revisions, j);
      LadderEntry(revisions, j);
      ReachesParent(ParentMap(revisions), revisions[|revisions| - 1].id, revisions[j].id, revisions[i].id);
    }
  }

  lemma LadderParent(revisions: seq<Revision>, i: int, p: Id)
    requires Ladder(revisions) && 0 <= i < |revisions| && p in revisions[i].parents
    ensures p < revisions[i].id && p in Ids(revisions)
  {
    assert ListedBefore(revisions, i, p);
    var k :| 0 <= k < i && revisions[k].id == p;
    assert revisions[k] in revisions;
  }

  lemma LadderAcyclic(revisions: seq<Revision>)
    requires Ladder(revisions)
    ensures UniqueIds(revisions) && NoDangling(revisions) && Acyclic(ParentMap(revisions))
  {
    var g := ParentMap(revisions);
    forall v, w | v in g && w in g[v] ensures w < v && w in g {
      var i :| 0 <= i < |revisions| && revisions[i].id == v;
      LadderEntry(revisions, i);
      LadderParent(revisions, i, w);
    }
    RankMeansAcyclic(g, map v | v in g :: v);
    forall r, p | r in revisions && p in r.parents ensures p in Ids(revisions) {
      var i :| 0 <= i < |revisions| && revisions[i] == r;
      LadderParent(revisions, i, p);
    }
  }

  lemma LadderIsSingleLineage(revisions: seq<Revision>)
    requires Ladder(revisions)
    ensures SingleLineage(revisions)
  {
    var g, head, base := ParentMap(revisions), revisions[|revisions| - 1].id, revisions[0].id;
    LadderAcyclic(revisions);
    LadderEntry(revisions, 0);
    LadderEntry(revisions, |revisions| - 1);
    forall v | v in g ensures Reaches(g, head, v) && Reaches(g, v, base) {
      var i :| 0 <= i < |revisions| && revisions[i].id == v;
      LadderUp(revisions, i);
      LadderDown(revisions, i);
    }
    assert Spans(g, head, base);
  }

  const ONE := Revision(1, [])
  const TWO := Revision(2, [1])

  lemma LadderOfTwo()
    ensures Ladder([ONE, TWO]) && ParentMap([ONE, TWO]) == map[1 := [], 2 := [1]]
  {
    var base := [ONE, TWO];
    assert ListedBefore(base, 1, 1) by { assert base[0].id == 1; }
    assert NamedAfter(base, 0) by { assert 1 in base[1].parents; }
    ParentMapAppend([], ONE);
    ParentMapAppend([ONE], TWO);
    assert [] + [ONE] == [ONE] && [ONE] + [TWO] == base;
  }

  /** One more revision on top of a ladder, naming its top and other listed revisions. */
  lemma LadderExtend(revisions: seq<Revision>, r: Revision)
    requires Ladder(revisions) && revisions[|revisions| - 1].id < r.id
    requires revisions[|revisions| - 1].id in r.parents
    requires forall p :: p in r.parents ==> p in Ids(revisions)
    ensures Ladder(revisions + [r])
  {
    var more := revisions + [r];
    forall i, p | 0 <= i < |more| && p in more[i].parents ensures ListedBefore(more, i, p) {
      if i < |revisions| {
        assert ListedBefore(revisions, i, p);
        var k :| 0 <= k < i && revisions[k].id == p;
        assert more[k].id == p;
      } else {
        var k :| 0 <= k < |revisions| && revisions[k].id == p;
        assert more[k].id == p;
      }
    }
    forall i | 0 <= i < |more| - 1 ensures NamedAfter(more, i) {
      if i < |revisions| - 1 {
        assert NamedAfter(revisions, i);
        var j :| i < j < |revisions| && revisions[i].id in revisions[j].parents;
        assert more[i].id in more[j].parents;
      } else {
        assert more[i].id in more[|revisions|].parents;
      }
    }
  }

  lemma ThreeEntries(r: Revision)
    requires r.id > 2
    ensures ParentMap([ONE, TWO, r]) == map[1 := [], 2 := [1], r.id := r.parents]
  {
    LadderOfTwo();
    ParentMapAppend([ONE, TWO], r);
    assert [ONE, TWO] + [r] == [ONE, TWO, r];
  }

  lemma LadderOfThree(r: Revision)
    requires r.id > 2 && 2 in r.parents && forall p :: p in r.parents ==> p == 1 || p == 2
    ensures SingleLineage([ONE, TWO, r])
  {
    LadderOfTwo();
    assert ParentMap([ONE, TWO]).Keys == {1, 2};
    LadderExtend([ONE, TWO], r);
    assert [ONE, TWO] + [r] == [ONE, TWO, r];
    LadderIsSingleLineage([ONE, TWO, r]);
  }

  const LONG_BASE := [ONE, TWO, Revision(3, [2])]
  const STALE_MERGE := [ONE, TWO, Revision(4, [2, 1])]

  lemma StaleMergeComparable()
    ensures Comparable(STALE_MERGE, LONG_BASE)
  {
    StaleMergeAgrees();
    LadderOfThree(LONG_BASE[2]);
    LadderOfThree(STALE_MERGE[2]);
  }

  lemma StaleMergeAgrees()
    ensures Agree(ParentMap(STALE_MERGE), ParentMap(LONG_BASE))
  {
    ThreeEntries(LONG_BASE[2]);
    ThreeEntries(STALE_MERGE[2]);
  }

  lemma StaleMergeSilent()
    ensures Silent(STALE_MERGE, LONG_BASE)
  {
    assert LONG_BASE[0] in LONG_BASE && LONG_BASE[1] in LONG_BASE;
    assert {1, 2} <= Ids(LONG_BASE);
  }

  lemma StaleMergeHeads()
    ensures !OneUnionHead(STALE_MERGE, LONG_BASE)
  {
    ThreeEntries(LONG_BASE[2]);
    ThreeEntries(STALE_MERGE[2]);
    TwoHeads(ParentMap(LONG_BASE), ParentMap(STALE_MERGE));
  }

  /** A merge of two revisions the base has built on is not reported, yet it forks. */
  lemma MergeHidesFork() returns (revisions: seq<Revision>, base: seq<Revision>)
    ensures Comparable(revisions, base) && Silent(revisions, base) && !OneUnionHead(revisions, base)
  {
    revisions, base := STALE_MERGE, LONG_BASE;
    StaleMergeComparable();
    StaleMergeSilent();
    StaleMergeHeads();
  }

  lemma TwoHeads(b: Graph, n: Graph)
    requires b == map[1 := [], 2 := [1], 3 := [2]] && n == map[1 := [], 2 := [1], 4 := [2, 1]]
    ensures |GraphHeads(b + n)| > 1
  {
    var g := b + n;
    assert 3 in GraphHeads(g) && 4 in GraphHeads(g);
    assert |GraphHeads(g) - {3}| == |GraphHeads(g)| - 1 && 4 in GraphHeads(g) - {3};
  }

  const SHORT_BASE := [ONE, TWO]
  const REPAIRED := [ONE, TWO, Revision(3, [1]), Revision(4, [3, 2])]

  lemma RepairedLadder()
    ensures Ladder(REPAIRED)
  {
    assert ListedBefore(REPAIRED, 1, 1) by { assert REPAIRED[0].id == 1; }
    assert ListedBefore(REPAIRED, 2, 1) by { assert REPAIRED[0].id == 1; }
    assert ListedBefore(REPAIRED, 3, 3) by { assert REPAIRED[2].id == 3; }
    assert ListedBefore(REPAIRED, 3, 2) by { assert REPAIRED[1].id == 2; }
    assert NamedAfter(REPAIRED, 0) by { assert 1 in REPAIRED[1].parents; }
    assert NamedAfter(REPAIRED, 1) by { assert 2 in REPAIRED[3].parents; }
    assert NamedAfter(REPAIRED, 2) by { assert 3 in REPAIRED[3].parents; }
  }

  lemma RepairedEntries()
    ensures ParentMap(SHORT_BASE) == map[1 := [], 2 := [1]]
    ensures ParentMap(REPAIRED) == map[1 := [], 2 := [1], 3 := [1], 4 := [3, 2]]
  {
    LadderOfTwo();
    ParentMapAppend([ONE, TWO], REPAIRED[2]);
    ParentMapAppend([ONE, TWO, REPAIRED[2]], REPAIRED[3]);
    assert [ONE, TWO] + [REPAIRED[2]] == [ONE, TWO, REPAIRED[2]];
    assert [ONE, TWO, REPAIRED[2]] + [REPAIRED[3]] == REPAIRED;
  }

  lemma RepairedComparable()
    ensures Comparable(REPAIRED, SHORT_BASE)
  {
    assert Agree(ParentMap(REPAIRED), ParentMap(SHORT_BASE)) by { RepairedEntries(); }
    LadderOfTwo();
    RepairedLadder();
    LadderIsSingleLineage(SHORT_BASE);
    LadderIsSingleLineage(REPAIRED);
  }

  lemma RepairedReported()
    ensures !Silent(REPAIRED, SHORT_BASE)
  {
    LadderOfTwo();
    assert SHORT_BASE[1] in SHORT_BASE && 1 in SHORT_BASE[1].parents;
    assert ParentMap(SHORT_BASE).Keys == {1, 2};
    assert REPAIRED[2] in REPAIRED && Forks(SHORT_BASE, REPAIRED[2]);
  }

  /** A reported branch that also merges the base's head back in leaves a single head. */
  lemma MergeRepairsReportedFork() returns (revisions: seq<Revision>, base: seq<Revision>)
    ensures Comparable(revisions, base) && !Silent(revisions, base) && OneUnionHead(revisions, base)
  {
    revisions, base := REPAIRED, SHORT_BASE;
    RepairedComparable();
    RepairedReported();
    RepairedHeads();
  }

  lemma RepairedHeads()
    ensures OneUnionHead(REPAIRED, SHORT_BASE)
  {
    RepairedEntries();
    OneHead(ParentMap(SHORT_BASE), ParentMap(REPAIRED));
  }

  lemma OneHead(b: Graph, n: Graph)
    requires b == map[1 := [], 2 := [1]] && n == map[1 := [], 2 := [1], 3 := [1], 4 := [3, 2]]
    ensures |GraphHeads(b + n)| == 1
  {
    var g := b + n;
    assert 1 in g[2] && 2 in g[4] && 3 in g[4];
    assert GraphHeads(g) == {4};
  }

  const ALONE := [ONE]
  const UNRELATED := [Revision(9, [])]

  lemma LadderOfOne(r: Revision)
    requires r.parents == []
    ensures SingleLineage([r])
  {
    LadderIsSingleLineage([r]);
  }

  lemma OnlyEntry(r: Revision)
    ensures ParentMap([r]) == map[r.id := r.parents]
  {
    ParentMapAppend([], r);
    assert [] + [r] == [r];
  }

  lemma DifferentSingles(r: Revision, s: Revision)
    requires r.id != s.id
    ensures Agree(ParentMap([r]), ParentMap([s])) && !Shares([r], [s])
  {
    OnlyEntry(r);
    OnlyEntry(s);
    assert ParentMap([r]).Keys == {r.id} && ParentMap([s]).Keys == {s.id};
  }

  lemma UnrelatedComparable()
    ensures Comparable(UNRELATED, ALONE) && !Shares(UNRELATED, ALONE)
  {
    DifferentSingles(UNRELATED[0], ALONE[0]);
    LadderOfOne(ALONE[0]);
    LadderOfOne(UNRELATED[0]);
  }

  /** A branch that is one new lineage is silent, merges nothing, and forks. */
  lemma UnrelatedLineageHidesFork()
    ensures Comparable(UNRELATED, ALONE) && NoAddedMerge(UNRELATED, ALONE)
    ensures Silent(UNRELATED, ALONE) && !OneUnionHead(UNRELATED, ALONE)
  {
    UnrelatedComparable();
    UnrelatedForks(UNRELATED, ALONE);
  }
}
