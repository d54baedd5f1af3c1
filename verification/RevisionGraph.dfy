/**
 Finite revision graphs.

 A graph maps every known revision id to the ids its `down_revision` names. An
 edge counts only when both ends are known, so a path never leaves the graph.
 */
module RevisionGraph {

  type Id = nat

  type Graph = map<Id, seq<Id>>

  /** `p` follows `down_revision` edges between known revisions. */
  ghost predicate Path(g: Graph, p: seq<Id>) {
    && |p| > 0
    && (forall i :: 0 <= i < |p| ==> p[i] in g)
    && (forall i :: 0 <= i < |p| - 1 ==> p[i + 1] in g[p[i]])
  }

  ghost predicate PathBetween(g: Graph, p: seq<Id>, from: Id, to: Id) {
    Path(g, p) && p[0] == from && p[|p| - 1] == to
  }

  /** `to` is `from` or one of its ancestors. */
  ghost predicate Reaches(g: Graph, from: Id, to: Id) {
    exists p :: PathBetween(g, p, from, to)
  }

  /** `p` ends by coming back to its element `i`. */
  ghost predicate Lasso(g: Graph, p: seq<Id>, i: int) {
    Path(g, p) && 0 <= i < |p| - 1 && p[i] == p[|p| - 1]
  }

  /** Following parents from `from` can run into a cycle. */
  ghost predicate ReachesCycle(g: Graph, from: Id) {
    exists p, i :: Lasso(g, p, i) && p[0] == from
  }

  ghost predicate Acyclic(g: Graph) {
    forall v :: v in g ==> !ReachesCycle(g, v)
  }

  ghost predicate Distinct(s: seq<Id>) {
    forall i, j :: 0 <= i < j < |s| ==> s[i] != s[j]
  }

  /** Every entry comes after all of its known parents. */
  ghost predicate ParentsFirst(g: Graph, order: seq<Id>) {
    order == [] ||
    var init, last := order[..|order| - 1], order[|order| - 1];
    ParentsFirst(g, init) && last in g && forall w :: w in g[last] && w in g ==> w in init
  }

  /** Every revision once, each after all of its known parents. */
  ghost predicate TopologicalOrder(g: Graph, order: seq<Id>) {
    (forall v :: v in g <==> v in order) && Distinct(order) && ParentsFirst(g, order)
  }

  ghost predicate Orderable(g: Graph) {
    exists order :: TopologicalOrder(g, order)
  }

  /** The revisions of `g` no revision of `g` descends from. */
  ghost function GraphHeads(g: Graph): set<Id> {
    set v | v in g && forall u :: u in g ==> v !in g[u]
  }

  // ----- paths -----

  lemma ReachesSelf(g: Graph, v: Id)
    requires v in g
    ensures Reaches(g, v, v)
  {
    assert PathBetween(g, [v], v, v);
  }

  lemma ReachesStep(g: Graph, u: Id, v: Id, w: Id)
    requires u in g && v in g[u] && Reaches(g, v, w)
    ensures Reaches(g, u, w)
  {
    var p :| PathBetween(g, p, v, w);
    assert PathBetween(g, [u] + p, u, w);
  }

  lemma ReachesTransitive(g: Graph, u: Id, v: Id, w: Id)
    requires Reaches(g, u, v) && Reaches(g, v, w)
    ensures Reaches(g, u, w)
  {
    var p :| PathBetween(g, p, u, v);
    var q :| PathBetween(g, q, v, w);
    assert PathBetween(g, p + q[1..], u, w);
  }

  lemma ReachesParent(g: Graph, u: Id, v: Id, w: Id)
    requires Reaches(g, u, v) && w in g[v] && w in g
    ensures Reaches(g, u, w)
  {
    ReachesSelf(g, w);
    ReachesStep(g, v, w, w);
    ReachesTransitive(g, u, v, w);
  }

  /** A path that is not trivial starts with a known parent. */
  lemma ReachesSplit(g: Graph, u: Id, w: Id) returns (v: Id)
    requires Reaches(g, u, w) && u != w
    ensures u in g && v in g && v in g[u] && Reaches(g, v, w)
  {
    var p :| PathBetween(g, p, u, w);
    v := p[1];
    assert PathBetween(g, p[1..], v, w);
  }

  /** A set closed under parents holds everything reachable from it. */
  lemma {:induction false} ClosedUnderParents(g: Graph, s: set<Id>, p: seq<Id>)
    requires Path(g, p) && p[0] in s
    requires forall v, w :: v in s && v in g && w in g[v] && w in g ==> w in s
    ensures p[|p| - 1] in s
  {
    if |p| > 1 {
      assert p[1] in g[p[0]];
      ClosedUnderParents(g, s, p[1..]);
    }
  }

  // ----- cycles -----

  lemma {:induction false} Pigeonhole(p: seq<Id>, s: set<Id>) returns (i: int, j: int)
    requires forall k :: 0 <= k < |p| ==> p[k] in s
    requires |p| > |s|
    ensures 0 <= i < j < |p| && p[i] == p[j]
  {
    if k :| 1 <= k < |p| && p[k] == p[0] {
      i, j := 0, k;
    } else {
      i, j := Pigeonhole(p[1..], s - {p[0]});
      i, j := i + 1, j + 1;
    }
  }

  /** A path longer than the set it lives in runs into a cycle from its start. */
  lemma LongPathReachesCycle(g: Graph, p: seq<Id>, s: set<Id>)
    requires Path(g, p) && |p| > |s|
    requires forall k :: 0 <= k < |p| ==> p[k] in s
    ensures ReachesCycle(g, p[0])
  {
    var i, j := Pigeonhole(p, s);
    assert Lasso(g, p[..j + 1], i);
  }

  /** `v` has a known parent in `s`. */
  ghost predicate ParentIn(g: Graph, s: set<Id>, v: Id) {
    v in g && exists w :: w in g[v] && w in s
  }

  /** `v` is a known parent of a member of `s`. */
  ghost predicate ChildIn(g: Graph, s: set<Id>, v: Id) {
    v in g && exists c :: c in s && c in g && v in g[c]
  }

  lemma {:induction false} WalkDown(g: Graph, s: set<Id>, v: Id, n: nat) returns (p: seq<Id>)
    requires forall u :: u in s ==> ParentIn(g, s, u)
    requires v in s
    ensures |p| == n + 1 && Path(g, p) && p[0] == v
    ensures forall k :: 0 <= k < |p| ==> p[k] in s
    decreases n
  {
    if n == 0 {
      p := [v];
    } else {
      var w :| w in g[v] && w in s;
      var q := WalkDown(g, s, w, n - 1);
      p := [v] + q;
    }
  }

  /** Where every member has a parent inside the set, every member reaches a cycle. */
  lemma ParentInsideReachesCycle(g: Graph, s: set<Id>, v: Id)
    requires forall u :: u in s ==> ParentIn(g, s, u)
    requires v in s
    ensures ReachesCycle(g, v)
  {
    var p := WalkDown(g, s, v, |s|);
    LongPathReachesCycle(g, p, s);
  }

  lemma {:induction false} WalkUp(g: Graph, s: set<Id>, v: Id, n: nat) returns (p: seq<Id>)
    requires forall u :: u in s ==> ChildIn(g, s, u)
    requires v in s
    ensures |p| == n + 1 && Path(g, p)
    ensures forall k :: 0 <= k < |p| ==> p[k] in s
    decreases n
  {
    if n == 0 {
      p := [v];
    } else {
      var q := WalkUp(g, s, v, n - 1);
      var c :| c in s && c in g && q[0] in g[c];
      p := [c] + q;
    }
  }

  /** Where every member has a child inside the set, some member reaches a cycle. */
  lemma ChildInsideReachesCycle(g: Graph, s: set<Id>, v: Id) returns (c: Id)
    requires forall u :: u in s ==> ChildIn(g, s, u)
    requires v in s
    ensures c in s && ReachesCycle(g, c)
  {
    var p := WalkUp(g, s, v, |s|);
    c := p[0];
    LongPathReachesCycle(g, p, s);
  }

  ghost predicate RankDecreases(g: Graph, rank: map<Id, int>) {
    forall v, w :: v in g && w in g[v] && w in g ==> v in rank && w in rank && rank[w] < rank[v]
  }

  lemma {:induction false} RankAlongPath(g: Graph, rank: map<Id, int>, p: seq<Id>, i: int, j: int)
    requires RankDecreases(g, rank) && Path(g, p) && 0 <= i < j < |p|
    ensures p[i] in rank && p[j] in rank && rank[p[j]] < rank[p[i]]
    decreases j
  {
    assert p[j] in g[p[j - 1]];
    if i < j - 1 {
      RankAlongPath(g, rank, p, i, j - 1);
    }
  }

  lemma RankMeansAcyclic(g: Graph, rank: map<Id, int>)
    requires RankDecreases(g, rank)
    ensures Acyclic(g)
  {
    forall v | v in g ensures !ReachesCycle(g, v) {
      if ReachesCycle(g, v) {
        var p, i :| Lasso(g, p, i) && p[0] == v;
        RankAlongPath(g, rank, p, i, |p| - 1);
        assert false;
      }
    }
  }

  lemma {:induction false} ParentsFirstAt(g: Graph, order: seq<Id>, i: int, w: Id)
    requires ParentsFirst(g, order) && 0 <= i < |order|
    ensures order[i] in g
    ensures w in g[order[i]] && w in g ==> w in order[..i]
  {
    var init := order[..|order| - 1];
    if i < |init| {
      ParentsFirstAt(g, init, i, w);
      assert init[..i] == order[..i];
    }
  }

  /** Distinct entries, each after its known parents, never run into a cycle. */
  lemma ParentsFirstMeansAcyclic(g: Graph, order: seq<Id>)
    requires (forall v :: v in g <==> v in order) && ParentsFirst(g, order) && Distinct(order)
    ensures Acyclic(g)
  {
    var rank := map v | v in g :: (var i :| 0 <= i < |order| && order[i] == v; i);
    forall v, w | v in g && w in g[v] && w in g ensures rank[w] < rank[v] {
      ParentsFirstAt(g, order, rank[v], w);
      var k :| 0 <= k < rank[v] && order[..rank[v]][k] == w;
      assert order[k] == w && order[rank[w]] == w;
    }
    RankMeansAcyclic(g, rank);
  }

  lemma OrderableMeansAcyclic(g: Graph)
    requires Orderable(g)
    ensures Acyclic(g)
  {
    var order :| TopologicalOrder(g, order);
    ParentsFirstMeansAcyclic(g, order);
  }

  /** A cycle met from inside a set closed under parents lies inside it. */
  lemma CycleStaysInside(g: Graph, s: set<Id>, v: Id)
    requires ReachesCycle(g, v) && v in s && s <= g.Keys
    requires forall u, w :: u in s && w in g[u] && w in g ==> w in s
    ensures ReachesCycle(map u | u in s :: g[u], v)
  {
    var p, i :| Lasso(g, p, i) && p[0] == v;
    forall k | 0 <= k < |p| ensures p[k] in s {
      ClosedUnderParents(g, s, p[..k + 1]);
    }
    assert Lasso(map u | u in s :: g[u], p, i);
  }

  lemma ReturnReachesCycle(g: Graph, u: Id, v: Id)
    requires u in g && v in g[u] && Reaches(g, v, u)
    ensures ReachesCycle(g, u)
  {
    var p :| PathBetween(g, p, v, u);
    assert Lasso(g, [u] + p, 0) && ([u] + p)[0] == u;
  }
}
