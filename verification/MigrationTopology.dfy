/**
 The author-time guard over the Alembic revision graph: its lists of revisions,
 their heads, and the Kahn peeling that finds the cyclic ones.
 */
module MigrationTopology {
  import opened Basics
  import opened RevisionGraph

  datatype Revision = Revision(id: Id, parents: seq<Id>)

  // ----- dictionary and set views of a list of revisions -----

  function Ids(revisions: seq<Revision>): set<Id> {
    set r | r in revisions :: r.id
  }

  function NamedParents(revisions: seq<Revision>): set<Id> {
    set r, p | r in revisions && p in r.parents :: p
  }

  /** The ids nothing else descends from. */
  function Heads(revisions: seq<Revision>): set<Id> {
    Ids(revisions) - NamedParents(revisions)
  }

  /** The id-to-parents dictionary: for a repeated id the last entry wins. */
  function ParentMap(revisions: seq<Revision>): (g: Graph)
    ensures g.Keys == Ids(revisions)
  {
    if revisions == [] then
      map[]
    else
      var last := revisions[|revisions| - 1];
      assert forall r :: r in revisions <==> r in revisions[..|revisions| - 1] || r == last;
      ParentMap(revisions[..|revisions| - 1])[last.id := last.parents]
  }

  lemma ParentMapAppend(revisions: seq<Revision>, r: Revision)
    ensures ParentMap(revisions + [r]) == ParentMap(revisions)[r.id := r.parents]
  {
    assert (revisions + [r])[..|revisions|] == revisions;
  }

  /** The ids in dictionary order: each where it first appears. */
  function KeyOrder(revisions: seq<Revision>): (keys: seq<Id>)
    ensures forall v :: v in keys <==> v in Ids(revisions)
    ensures forall i, j :: 0 <= i < j < |keys| ==> keys[i] != keys[j]
  {
    if revisions == [] then
      []
    else
      var last := revisions[|revisions| - 1];
      assert forall r :: r in revisions <==> r in revisions[..|revisions| - 1] || r == last;
      var keys := KeyOrder(revisions[..|revisions| - 1]);
      if last.id in keys then keys else keys + [last.id]
  }

  ghost predicate UniqueIds(revisions: seq<Revision>) {
    forall i, j :: 0 <= i < j < |revisions| ==> revisions[i].id != revisions[j].id
  }

  ghost predicate NoDangling(revisions: seq<Revision>) {
    NamedParents(revisions) <= Ids(revisions)
  }

  lemma {:induction false} ParentMapOfUnique(revisions: seq<Revision>, r: Revision)
    requires UniqueIds(revisions) && r in revisions
    ensures ParentMap(revisions)[r.id] == r.parents
  {
    var init := revisions[..|revisions| - 1];
    if r != revisions[|revisions| - 1] {
      ParentMapOfUnique(init, r);
    }
  }

  /** With unique ids every dictionary entry is a listed revision. */
  lemma EntryOfUnique(revisions: seq<Revision>, v: Id) returns (r: Revision)
    requires UniqueIds(revisions) && v in Ids(revisions)
    ensures r in revisions && r.id == v && ParentMap(revisions)[v] == r.parents
  {
    r :| r in revisions && r.id == v;
    ParentMapOfUnique(revisions, r);
  }

  // ----- Kahn peeling -----

  function Known(parents: seq<Id>, known: set<Id>): (kept: seq<Id>)
    ensures forall p :: p in kept <==> p in parents && p in known
  {
    if parents == [] then [] else
      (if parents[0] in known then [parents[0]] else []) + Known(parents[1..], known)
  }

  /** How many entries of `parents`, repeats included, are not peeled yet. */
  ghost function Unpeeled(parents: seq<Id>, peeled: set<Id>): nat {
    if parents == [] then 0 else
      (if parents[0] in peeled then 0 else 1) + Unpeeled(parents[1..], peeled)
  }

  lemma {:induction false} UnpeeledFacts(parents: seq<Id>, peeled: set<Id>, p: Id)
    ensures Unpeeled(parents, {}) == |parents|
    ensures Unpeeled(parents, peeled) == 0 <==> forall w :: w in parents ==> w in peeled
    ensures p !in peeled ==>
              Unpeeled(parents, peeled + {p}) == Unpeeled(parents, peeled) - multiset(parents)[p]
  {
    if parents != [] {
      UnpeeledFacts(parents[1..], peeled, p);
      assert parents == [parents[0]] + parents[1..];
    }
  }

  function Listed(children: map<Id, seq<Id>>, p: Id): seq<Id> {
    if p in children then children[p] else []
  }

  /** How often `c`, once its edges are inverted, names `p` as a parent. */
  ghost function Mentions(parents: Graph, inverted: set<Id>, p: Id, c: Id): nat
    requires inverted <= parents.Keys
  {
    if c in inverted then multiset(parents[c])[p] else 0
  }

  /** One revision's contribution to the children lists. */
  method InvertOne(v: Id, ps: seq<Id>, children0: map<Id, seq<Id>>) returns (children: map<Id, seq<Id>>)
    requires forall p :: v !in Listed(children0, p)
    ensures forall p, c :: multiset(Listed(children, p))[c] ==
                           if c == v then multiset(ps)[p] else multiset(Listed(children0, p))[c]
  {
    children := children0;
    assert ps[..0] == [];
    for j := 0 to |ps|
      invariant forall p, c :: multiset(Listed(children, p))[c] ==
                               if c == v then multiset(ps[..j])[p] else multiset(Listed(children0, p))[c]
    {
      assert ps[..j + 1] == ps[..j] + [ps[j]];
      children := children[ps[j] := Listed(children, ps[j]) + [v]];
    }
    assert ps[..|ps|] == ps;
  }

  method InvertEdges(keys: seq<Id>, parents: Graph) returns (children: map<Id, seq<Id>>)
    requires forall v :: v in keys <==> v in parents
    requires Distinct(keys)
    ensures forall p, c :: multiset(Listed(children, p))[c] == Mentions(parents, parents.Keys, p, c)
  {
    children := map[];
    ghost var done: set<Id> := {};
    for i := 0 to |keys|
      invariant done == Elements(keys[..i])
      invariant forall p, c :: multiset(Listed(children, p))[c] == Mentions(parents, done, p, c)
    {
      assert keys[..i + 1] == keys[..i] + [keys[i]];
      assert forall p :: multiset(Listed(children, p))[keys[i]] == 0;
      children := InvertOne(keys[i], parents[keys[i]], children);
      done := done + {keys[i]};
    }
    assert done == parents.Keys;
  }

  lemma CountsDistinct(s: seq<Id>)
    requires forall v :: multiset(s)[v] <= 1
    ensures Distinct(s)
  {
    forall i, j | 0 <= i < j < |s| ensures s[i] != s[j] {
      PrefixCount(s, j);
      assert s[..j][i] == s[i] && s[i] in multiset(s[..j]);
    }
  }

  lemma PrefixCount(s: seq<Id>, j: int)
    requires 0 <= j < |s|
    ensures multiset(s[..j + 1]) == multiset(s[..j]) + multiset{s[j]}
    ensures multiset(s[..j])[s[j]] < multiset(s)[s[j]]
    ensures s[j] in s
  {
    assert s[..j + 1] == s[..j] + [s[j]] && s == s[..j + 1] + s[j + 1..];
  }

  /**
   What the peeling loop keeps. `seen` lists every revision ever queued and its
   first `n` entries are peeled, so the queue is `seen[n..]`. Degrees count the
   unpeeled parents, and degree zero means queued exactly once.
   */
  ghost predicate Peeling(parents: Graph, indegree: map<Id, int>, seen: seq<Id>, n: nat) {
    && indegree.Keys == parents.Keys
    && n <= |seen|
    && (forall v :: v in parents ==> indegree[v] == Unpeeled(parents[v], Elements(seen[..n])))
    && (forall v :: multiset(seen)[v] == if v in parents && indegree[v] == 0 then 1 else 0)
    && ParentsFirst(parents, seen)
  }

  /** Degrees went down once per mention in `lowered`, and `freed` lists once each child that reached zero. */
  ghost predicate Lowered(indegree0: map<Id, int>, lowered: multiset<Id>, indegree: map<Id, int>, freed: seq<Id>) {
    && indegree.Keys == indegree0.Keys
    && (forall c :: c in indegree ==> indegree[c] == indegree0[c] - lowered[c])
    && (forall c :: multiset(freed)[c] == if c in lowered && c in indegree && indegree[c] == 0 then 1 else 0)
  }

  lemma LowerOne(indegree0: map<Id, int>, lowered: multiset<Id>, indegree: map<Id, int>, freed: seq<Id>, child: Id)
    requires Lowered(indegree0, lowered, indegree, freed)
    requires child in indegree0 && lowered[child] < indegree0[child]
    ensures Lowered(indegree0, lowered + multiset{child}, indegree[child := indegree[child] - 1],
                    if indegree[child] == 1 then freed + [child] else freed)
  {
    assert multiset(freed + [child]) == multiset(freed) + multiset{child};
  }

  /** Lowers each child once per mention and collects the ones that reach zero. */
  method LowerChildren(cs: seq<Id>, indegree0: map<Id, int>) returns (indegree: map<Id, int>, freed: seq<Id>)
    requires forall c :: c in multiset(cs) ==> c in indegree0 && multiset(cs)[c] <= indegree0[c]
    ensures Lowered(indegree0, multiset(cs), indegree, freed)
  {
    indegree, freed := indegree0, [];
    for j := 0 to |cs|
      invariant Lowered(indegree0, multiset(cs[..j]), indegree, freed)
    {
      var child := cs[j];
      PrefixCount(cs, j);
      LowerOne(indegree0, multiset(cs[..j]), indegree, freed, child);
      indegree := indegree[child := indegree[child] - 1];
      if indegree[child] == 0 {
        freed := freed + [child];
      }
    }
    assert cs[..|cs|] == cs;
  }

  lemma PeelingStep(parents: Graph, indegree: map<Id, int>, seen: seq<Id>, n: nat,
                    indegree': map<Id, int>, freed: seq<Id>)
    requires Peeling(parents, indegree, seen, n) && n < |seen|
    requires indegree'.Keys == parents.Keys
    requires forall c :: c in parents ==> indegree'[c] == indegree[c] - multiset(parents[c])[seen[n]]
    requires forall c :: multiset(freed)[c] ==
                         if c in parents && seen[n] in parents[c] && indegree'[c] == 0 then 1 else 0
    ensures Peeling(parents, indegree', seen + freed, n + 1)
  {
    assert (seen + freed)[..n + 1] == seen[..n + 1];
    PeeledDegrees(parents, indegree, seen, n, indegree');
    QueuedOnce(parents, indegree, seen, n, indegree', freed);
    FreedHavePeeledParents(parents, seen, n, indegree', freed);
    FreedComeLater(parents, seen, n + 1, freed);
  }

  /** The degrees: with one more peeled they still count the unpeeled parents. */
  lemma PeeledDegrees(parents: Graph, indegree: map<Id, int>, seen: seq<Id>, n: nat, indegree': map<Id, int>)
    requires Peeling(parents, indegree, seen, n) && n < |seen| && indegree'.Keys == parents.Keys
    requires forall c :: c in parents ==> indegree'[c] == indegree[c] - multiset(parents[c])[seen[n]]
    ensures forall c :: c in parents ==> indegree'[c] == Unpeeled(parents[c], Elements(seen[..n + 1]))
  {
    PrefixCount(seen, n);
    assert seen[..n + 1] == seen[..n] + [seen[n]];
    assert Elements(seen[..n + 1]) == Elements(seen[..n]) + {seen[n]};
    forall c | c in parents ensures indegree'[c] == Unpeeled(parents[c], Elements(seen[..n + 1])) {
      UnpeeledFacts(parents[c], Elements(seen[..n]), seen[n]);
    }
  }

  /** The queue: degree zero still means queued exactly once. */
  lemma QueuedOnce(parents: Graph, indegree: map<Id, int>, seen: seq<Id>, n: nat, indegree': map<Id, int>, freed: seq<Id>)
    requires Peeling(parents, indegree, seen, n) && n < |seen| && indegree'.Keys == parents.Keys
    requires forall c :: c in parents ==> indegree'[c] == indegree[c] - multiset(parents[c])[seen[n]]
    requires forall c :: multiset(freed)[c] ==
                         if c in parents && seen[n] in parents[c] && indegree'[c] == 0 then 1 else 0
    ensures forall c :: multiset(seen + freed)[c] == if c in parents && indegree'[c] == 0 then 1 else 0
  {
    PrefixCount(seen, n);
    forall c ensures multiset(seen + freed)[c] == if c in parents && indegree'[c] == 0 then 1 else 0 {
      if c in parents {
        assert multiset(parents[c])[seen[n]] > 0 <==> seen[n] in parents[c];
        UnpeeledFacts(parents[c], Elements(seen[..n]), seen[n]);
      }
    }
  }

  /** The seen list: what is freed has all its parents among the peeled. */
  lemma FreedHavePeeledParents(parents: Graph, seen: seq<Id>, n: nat, indegree': map<Id, int>, freed: seq<Id>)
    requires n < |seen| && indegree'.Keys == parents.Keys
    requires forall c :: c in parents ==> indegree'[c] == Unpeeled(parents[c], Elements(seen[..n + 1]))
    requires forall c :: multiset(freed)[c] ==
                         if c in parents && seen[n] in parents[c] && indegree'[c] == 0 then 1 else 0
    ensures forall c :: c in freed ==> c in parents && forall w :: w in parents[c] ==> w in seen[..n + 1]
  {
    forall c | c in freed ensures c in parents && forall w :: w in parents[c] ==> w in seen[..n + 1] {
      assert multiset(freed)[c] > 0;
      UnpeeledFacts(parents[c], Elements(seen[..n + 1]), c);
    }
  }

  lemma {:induction false} FreedComeLater(parents: Graph, seen: seq<Id>, n: nat, freed: seq<Id>)
    requires ParentsFirst(parents, seen) && n <= |seen|
    requires forall c :: c in freed ==> c in parents && forall w :: w in parents[c] ==> w in seen[..n]
    ensures ParentsFirst(parents, seen + freed)
  {
    if freed == [] {
      assert seen + freed == seen;
    } else {
      var init := freed[..|freed| - 1];
      FreedComeLater(parents, seen, n, init);
      assert (seen + freed)[..|seen + freed| - 1] == seen + init;
      assert freed[|freed| - 1] in freed;
    }
  }

  method PeelOne(parents: Graph, children: map<Id, seq<Id>>, indegree0: map<Id, int>, seen: seq<Id>, n: nat)
    returns (indegree: map<Id, int>, freed: seq<Id>)
    requires forall p, c :: multiset(Listed(children, p))[c] == Mentions(parents, parents.Keys, p, c)
    requires Peeling(parents, indegree0, seen, n) && n < |seen|
    ensures Peeling(parents, indegree, seen + freed, n + 1)
  {
    var v := seen[n];
    var cs := Listed(children, v);
    PrefixCount(seen, n);
    forall c | c in parents ensures multiset(parents[c])[v] <= indegree0[c] {
      UnpeeledFacts(parents[c], Elements(seen[..n]), v);
    }
    assert forall c :: multiset(cs)[c] == Mentions(parents, parents.Keys, v, c);
    indegree, freed := LowerChildren(cs, indegree0);
    PeelingStep(parents, indegree0, seen, n, indegree, freed);
  }

  /** The revisions from which following known parents runs into a cycle. */
  ghost function CyclicIn(g: Graph): set<Id> {
    set v | v in g && ReachesCycle(g, v)
  }

  /** The peeling loop over the known parents of `g`, run until nothing is queued. */
  ghost predicate Peeled(g: Graph, parents: Graph, indegree: map<Id, int>, seen: seq<Id>) {
    && g.Keys == parents.Keys
    && (forall u :: u in g ==> parents[u] == Known(g[u], g.Keys))
    && Peeling(parents, indegree, seen, |seen|)
  }

  /** Every revision left over has a parent left over. */
  lemma StuckReachesCycle(g: Graph, parents: Graph, indegree: map<Id, int>, seen: seq<Id>, v: Id)
    requires Peeled(g, parents, indegree, seen) && v in g && indegree[v] != 0
    ensures ReachesCycle(g, v)
  {
    var stuck := set u | u in g && indegree[u] != 0;
    assert seen[..|seen|] == seen;
    forall u | u in stuck ensures ParentIn(g, stuck, u) {
      UnpeeledFacts(parents[u], Elements(seen), u);
      var w :| w in parents[u] && w !in seen;
      assert multiset(seen)[w] == 0;
      assert w in g[u] && w in stuck;
    }
    ParentInsideReachesCycle(g, stuck, v);
  }

  /** Peeled revisions, taken as a graph of their own, are in topological order. */
  lemma PeeledInOrder(g: Graph, parents: Graph, indegree: map<Id, int>, seen: seq<Id>)
    requires Peeled(g, parents, indegree, seen)
    ensures Elements(seen) <= g.Keys && Distinct(seen)
    ensures ParentsFirst(map u | u in Elements(seen) :: g[u], seen)
    ensures forall u, w :: u in seen && w in g[u] && w in g ==> w in seen
  {
    assert forall u :: u in seen ==> multiset(seen)[u] > 0;
    CountsDistinct(seen);
    forall u, w | u in seen && w in g[u] && w in g ensures w in seen {
      var i :| 0 <= i < |seen| && seen[i] == u;
      ParentsFirstAt(parents, seen, i, w);
    }
    ParentsFirstWithin(parents, seen, map u | u in Elements(seen) :: g[u]);
  }

  lemma {:induction false} ParentsFirstWithin(parents: Graph, order: seq<Id>, g: Graph)
    requires ParentsFirst(parents, order)
    requires forall u :: u in order ==> u in g
    requires g.Keys <= parents.Keys
    requires forall u, w :: u in g && w in g[u] && w in g ==> w in parents[u]
    ensures ParentsFirst(g, order)
  {
    if order != [] {
      ParentsFirstWithin(parents, order[..|order| - 1], g);
    }
  }

  lemma PeeledNeverCycles(g: Graph, parents: Graph, indegree: map<Id, int>, seen: seq<Id>, v: Id)
    requires Peeled(g, parents, indegree, seen) && v in g && indegree[v] == 0
    ensures !ReachesCycle(g, v)
  {
    PeeledInOrder(g, parents, indegree, seen);
    ParentsFirstMeansAcyclic(map u | u in Elements(seen) :: g[u], seen);
    assert multiset(seen)[v] == 1;
    if ReachesCycle(g, v) {
      CycleStaysInside(g, Elements(seen), v);
    }
  }

  lemma LeftOverIffCyclic(g: Graph, parents: Graph, indegree: map<Id, int>, seen: seq<Id>, v: Id)
    requires Peeled(g, parents, indegree, seen) && v in g
    ensures indegree[v] >= 0 && (indegree[v] > 0 <==> v in CyclicIn(g))
  {
    UnpeeledFacts(parents[v], Elements(seen[..|seen|]), v);
    if indegree[v] == 0 {
      PeeledNeverCycles(g, parents, indegree, seen, v);
    } else {
      StuckReachesCycle(g, parents, indegree, seen, v);
    }
  }

  /** What peeling cannot remove is exactly what runs into a cycle. */
  lemma PeelingFinished(g: Graph, parents: Graph, indegree: map<Id, int>, seen: seq<Id>)
    requires Peeled(g, parents, indegree, seen)
    ensures (set v | v in indegree && indegree[v] > 0) == CyclicIn(g)
    ensures CyclicIn(g) == {} <==> Orderable(g)
  {
    forall v | v in g ensures indegree[v] >= 0 && (indegree[v] > 0 <==> v in CyclicIn(g)) {
      LeftOverIffCyclic(g, parents, indegree, seen, v);
    }
    if Orderable(g) {
      OrderableMeansAcyclic(g);
    } else if CyclicIn(g) == {} {
      AllPeeledOrders(g, parents, indegree, seen);
    }
  }

  lemma AllPeeledOrders(g: Graph, parents: Graph, indegree: map<Id, int>, seen: seq<Id>)
    requires Peeled(g, parents, indegree, seen)
    requires forall u :: u in g ==> indegree[u] == 0
    ensures Orderable(g)
  {
    assert forall u :: u in g ==> multiset(seen)[u] == 1;
    assert forall u :: u in seen ==> multiset(seen)[u] > 0;
    CountsDistinct(seen);
    ParentsFirstWithin(parents, seen, g);
    assert TopologicalOrder(g, seen);
  }

  lemma PeelingBounded(parents: Graph, indegree: map<Id, int>, seen: seq<Id>, n: nat)
    requires Peeling(parents, indegree, seen, n)
    ensures |seen| <= |parents|
  {
    CountsDistinct(seen);
    assert forall v :: v in seen ==> multiset(seen)[v] > 0;
    DistinctFits(seen, parents.Keys);
  }

  lemma {:induction false} DistinctFits(s: seq<Id>, all: set<Id>)
    requires Distinct(s) && forall v :: v in s ==> v in all
    ensures |s| <= |all|
  {
    if s != [] {
      assert forall i :: 0 < i < |s| ==> s[i] == s[1..][i - 1];
      assert s[0] in s && forall v :: v in s[1..] ==> v in s;
      assert s[0] !in s[1..];
      DistinctFits(s[1..], all - {s[0]});
    }
  }

  /** Starting degrees, and the queue of the revisions without known parents. */
  method StartPeeling(keys: seq<Id>, parents: Graph) returns (indegree: map<Id, int>, pending: seq<Id>)
    requires forall v :: v in keys <==> v in parents
    requires Distinct(keys)
    ensures Peeling(parents, indegree, pending, 0)
  {
    indegree, pending := map v | v in parents :: |parents[v]|, [];
    for i := 0 to |keys|
      invariant forall v :: multiset(pending)[v] == if v in keys[..i] && indegree[v] == 0 then 1 else 0
      invariant forall v :: v in pending ==> v in parents && parents[v] == []
    {
      assert keys[..i + 1] == keys[..i] + [keys[i]];
      if indegree[keys[i]] == 0 {
        pending := pending + [keys[i]];
      }
    }
    assert pending[..0] == [] && Elements<Id>([]) == {};
    FreedComeLater(parents, [], 0, pending);
    assert [] + pending == pending;
    forall v | v in parents ensures indegree[v] == Unpeeled(parents[v], {}) {
      UnpeeledFacts(parents[v], {}, v);
    }
  }

  /**
   Peels until the queue is empty and returns the degrees left. The queue is the
   list of everything ever queued with a cursor: popping moves the cursor.
   */
  method Peel(parents: Graph, children: map<Id, seq<Id>>, indegree0: map<Id, int>, queue0: seq<Id>)
    returns (indegree: map<Id, int>, queue: seq<Id>)
    requires forall p, c :: multiset(Listed(children, p))[c] == Mentions(parents, parents.Keys, p, c)
    requires Peeling(parents, indegree0, queue0, 0)
    ensures Peeling(parents, indegree, queue, |queue|)
  {
    var next := 0;
    indegree, queue := indegree0, queue0;
    while next < |queue|
      invariant Peeling(parents, indegree, queue, next)
      decreases |parents| - next
    {
      PeelingBounded(parents, indegree, queue, next);
      var freed;
      indegree, freed := PeelOne(parents, children, indegree, queue, next);
      queue, next := queue + freed, next + 1;
    }
  }

  method CyclicNodes(g: Graph, keys: seq<Id>) returns (cyclic: set<Id>)
    requires forall v :: v in keys <==> v in g
    requires Distinct(keys)
    ensures cyclic == CyclicIn(g)
    ensures cyclic == {} <==> Orderable(g)
  {
    var parents := map v | v in g :: Known(g[v], g.Keys);
    var children := InvertEdges(keys, parents);
    var indegree, queue := StartPeeling(keys, parents);
    indegree, queue := Peel(parents, children, indegree, queue);
    PeelingFinished(g, parents, indegree, queue);
    cyclic := set v | v in indegree && indegree[v] > 0;
  }

  /**
   Kahn peeling returns exactly the revisions from which following known parents
   runs into a cycle, and nothing exactly when the graph has a topological order.
   */
  method CyclicRevisions(revisions: seq<Revision>) returns (cyclic: set<Id>)
    ensures cyclic == CyclicIn(ParentMap(revisions))
    ensures cyclic == {} <==> Orderable(ParentMap(revisions))
  {
    cyclic := CyclicNodes(ParentMap(revisions), KeyOrder(revisions));
  }
}
