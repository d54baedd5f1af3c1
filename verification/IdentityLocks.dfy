/**
 Account identity locks: every transaction takes its advisory locks once, in
 the ascending order of their keys, and keeps them until it ends. The hash that
 maps an identity to a key is arbitrary, so two identities may share a key.
 */
module IdentityLocks {
  import opened Basics

  type Key = int
  type Hash = string -> Key
  type Ids = seq<Option<string>>

  ghost predicate Ascending(keys: seq<Key>) {
    forall i, j :: 0 <= i < j < |keys| ==> keys[i] < keys[j]
  }

  predicate Names(ids: Ids, id: string) {
    id != "" && Some(id) in ids
  }

  lemma HeadIsLeast(keys: seq<Key>)
    requires keys != [] && Ascending(keys)
    ensures Ascending(keys[1..]) && forall x :: x in keys <==> x == keys[0] || x in keys[1..]
    ensures forall x :: x in keys[1..] ==> keys[0] < x
  {
  }

  lemma Prepended(k: Key, keys: seq<Key>)
    requires Ascending(keys) && forall x :: x in keys ==> k < x
    ensures Ascending([k] + keys)
  {
    forall j | 0 <= j < |keys| ensures k < keys[j] { assert keys[j] in keys; }
  }

  function Insert(keys: seq<Key>, k: Key): (r: seq<Key>)
    requires Ascending(keys)
    ensures Ascending(r) && forall x :: x in r <==> x == k || x in keys
  {
    if keys == [] then [k]
    else
      HeadIsLeast(keys);
      if k < keys[0] then Prepended(k, keys); [k] + keys
      else if k == keys[0] then keys
      else
        var rest := Insert(keys[1..], k);
        Prepended(keys[0], rest);
        [keys[0]] + rest
  }

  /** The sorted, de-duplicated keys of the identities that are present and not empty. */
  function LockKeys(hash: Hash, ids: Ids): (r: seq<Key>)
    ensures Ascending(r)
    ensures forall id :: Names(ids, id) ==> hash(id) in r
    ensures forall k :: k in r ==> exists id :: Names(ids, id) && hash(id) == k
  {
    if ids == [] then []
    else
      assert forall id :: Names(ids, id) <==> Names(ids[1..], id) || (ids[0] == Some(id) && id != "");
      var rest := LockKeys(hash, ids[1..]);
      if ids[0].None? || ids[0].value == "" then rest else Insert(rest, hash(ids[0].value))
  }

  // ----- many transactions -----

  datatype Tx = Tx(ids: Ids, keys: seq<Key>, held: nat, live: bool)
  datatype State = State(hash: Hash, txs: seq<Tx>)

  datatype Event = Begin(ids: Ids) | Acquire(tx: nat) | Finish(tx: nat) | Abort(tx: nat)

  predicate Holds(t: Tx, k: Key) {
    t.live && t.held <= |t.keys| && k in t.keys[..t.held]
  }

  predicate Waiting(t: Tx) {
    t.live && t.held < |t.keys|
  }

  /** A lock is granted when no other transaction holds it. */
  ghost predicate Free(s: State, i: nat, k: Key) {
    forall j :: 0 <= j < |s.txs| && j != i ==> !Holds(s.txs[j], k)
  }

  ghost predicate Enabled(s: State, e: Event) {
    match e
    case Begin(_) => true
    case Acquire(i) => i < |s.txs| && Waiting(s.txs[i]) && Free(s, i, s.txs[i].keys[s.txs[i].held])
    case Finish(i) => i < |s.txs| && s.txs[i].live && s.txs[i].held == |s.txs[i].keys|
    case Abort(i) => i < |s.txs| && s.txs[i].live
  }

  ghost function After(s: State, e: Event): State
    requires Enabled(s, e)
  {
    match e
    case Begin(ids) => s.(txs := s.txs + [Tx(ids, LockKeys(s.hash, ids), 0, true)])
    case Acquire(i) => s.(txs := s.txs[i := s.txs[i].(held := s.txs[i].held + 1)])
    case Finish(i) => s.(txs := s.txs[i := s.txs[i].(live := false)])
    case Abort(i) => s.(txs := s.txs[i := s.txs[i].(live := false)])
  }

  /** A transaction that begins is live, holds nothing and is to take the keys of all its identities. */
  lemma BeginsWithNothing(s: State, ids: Ids)
    ensures var t := After(s, Begin(ids)).txs[|s.txs|];
            && t.live && t.held == 0 && t.ids == ids
            && (forall id :: Names(ids, id) ==> s.hash(id) in t.keys)
            && (forall k :: k in t.keys ==> exists id :: Names(ids, id) && s.hash(id) == k)
  {
  }

  ghost predicate Allowed(s: State, events: seq<Event>)
    decreases events
  {
    events == [] || (Enabled(s, events[0]) && Allowed(After(s, events[0]), events[1..]))
  }

  ghost function Run(s: State, events: seq<Event>): State
    requires Allowed(s, events)
    decreases events
  {
    if events == [] then s else Run(After(s, events[0]), events[1..])
  }

  // ----- what every step keeps -----

  ghost predicate TxOk(hash: Hash, t: Tx) {
    t.keys == LockKeys(hash, t.ids) && t.held <= |t.keys|
  }

  ghost predicate Exclusive(s: State) {
    forall i, j, k :: 0 <= i < |s.txs| && 0 <= j < |s.txs| && i != j && Holds(s.txs[i], k) ==> !Holds(s.txs[j], k)
  }

  ghost predicate Inv(s: State) {
    && (forall i :: 0 <= i < |s.txs| ==> TxOk(s.hash, s.txs[i]))
    && Exclusive(s)
  }

  lemma AcquiredAdds(t: Tx, k: Key)
    requires Waiting(t) && Holds(t.(held := t.held + 1), k)
    ensures Holds(t, k) || k == t.keys[t.held]
  {
  }

  lemma InvKept(s: State, e: Event)
    requires Inv(s) && Enabled(s, e)
    ensures Inv(After(s, e))
  {
    var s' := After(s, e);
    forall i, j, k | 0 <= i < |s'.txs| && 0 <= j < |s'.txs| && i != j && Holds(s'.txs[i], k)
      ensures !Holds(s'.txs[j], k)
    {
      if e.Acquire? {
        if e.tx == i { AcquiredAdds(s.txs[i], k); }
        if e.tx == j && Holds(s'.txs[j], k) { AcquiredAdds(s.txs[j], k); }
      }
    }
  }

  lemma {:induction false} RunKeeps(s: State, events: seq<Event>)
    requires Inv(s) && Allowed(s, events)
    ensures Inv(Run(s, events))
    decreases events
  {
    if events != [] {
      InvKept(s, events[0]);
      RunKeeps(After(s, events[0]), events[1..]);
    }
  }

  /** Two transactions that have both taken their locks name no identity in common. */
  lemma LockedIdentitiesAreDisjoint(s: State, events: seq<Event>, i: nat, j: nat, id: string)
    requires s.txs == [] && Allowed(s, events) && i < |Run(s, events).txs| && j < |Run(s, events).txs| && i != j
    requires Enabled(Run(s, events), Finish(i)) && Enabled(Run(s, events), Finish(j))
    ensures !(Names(Run(s, events).txs[i].ids, id) && Names(Run(s, events).txs[j].ids, id))
  {
    RunKeeps(s, events);
    var t := Run(s, events);
    if Names(t.txs[i].ids, id) {
      assert TxOk(t.hash, t.txs[i]) && TxOk(t.hash, t.txs[j]);
      assert Holds(t.txs[i], t.hash(id)) by { assert t.txs[i].keys[..t.txs[i].held] == t.txs[i].keys; }
      assert t.txs[j].keys[..t.txs[j].held] == t.txs[j].keys;
    }
  }

  // ----- no deadlock -----

  /** The keys above the one `i` waits for, among all keys of the system. */
  ghost function AllKeys(txs: seq<Tx>): set<Key> {
    set t, k | t in txs && k in t.keys :: k
  }

  ghost function Above(s: State, w: Key): set<Key> {
    set k | k in AllKeys(s.txs) && k > w
  }

  /** Whoever holds the key someone waits for waits, if at all, for a larger one. */
  lemma HolderWaitsHigher(s: State, i: nat, w: Key)
    requires Inv(s) && i < |s.txs| && Holds(s.txs[i], w) && Waiting(s.txs[i])
    ensures s.txs[i].keys[s.txs[i].held] in Above(s, w)
    ensures Above(s, s.txs[i].keys[s.txs[i].held]) < Above(s, w)
  {
    var t := s.txs[i];
    assert TxOk(s.hash, t) && t in s.txs;
    var n :| 0 <= n < t.held && t.keys[n] == w;
    var next := t.keys[t.held];
    assert next in t.keys && next in AllKeys(s.txs) && next > w;
  }

  /** Following holders upwards from an unfinished transaction ends at one that can step. */
  lemma {:induction false} FindRunnable(s: State, i: nat) returns (e: Event)
    requires Inv(s) && i < |s.txs| && s.txs[i].live
    ensures Enabled(s, e) && (e.Acquire? || e.Finish?)
    decreases if Waiting(s.txs[i]) then 1 else 0,
              if Waiting(s.txs[i]) then Above(s, s.txs[i].keys[s.txs[i].held]) else {}
  {
    assert TxOk(s.hash, s.txs[i]);
    if !Waiting(s.txs[i]) {
      e := Finish(i);
    } else if Free(s, i, s.txs[i].keys[s.txs[i].held]) {
      e := Acquire(i);
    } else {
      var w := s.txs[i].keys[s.txs[i].held];
      var j :| 0 <= j < |s.txs| && j != i && Holds(s.txs[j], w);
      if Waiting(s.txs[j]) { HolderWaitsHigher(s, j, w); }
      e := FindRunnable(s, j);
    }
  }

  ghost predicate CanStep(s: State) {
    exists e: Event :: Enabled(s, e) && (e.Acquire? || e.Finish?)
  }

  /** In every reachable state with an unfinished transaction, some transaction can go on without an abort. */
  lemma NeverDeadlocked(s: State, events: seq<Event>, i: nat)
    requires s.txs == [] && Allowed(s, events) && i < |Run(s, events).txs| && Run(s, events).txs[i].live
    ensures CanStep(Run(s, events))
  {
    RunKeeps(s, events);
    var e := FindRunnable(Run(s, events), i);
  }

  // ----- everyone finishes -----

  function Steps(t: Tx): nat {
    if t.live && t.held <= |t.keys| then |t.keys| - t.held + 1 else 0
  }

  function Remaining(txs: seq<Tx>): nat {
    if txs == [] then 0 else Steps(txs[0]) + Remaining(txs[1..])
  }

  lemma {:induction false} RemainingUpdate(txs: seq<Tx>, i: nat, t: Tx)
    requires i < |txs|
    ensures Remaining(txs[i := t]) == Remaining(txs) - Steps(txs[i]) + Steps(t)
  {
    if i == 0 {
      assert txs[0 := t][1..] == txs[1..];
    } else {
      assert txs[i := t][1..] == txs[1..][i - 1 := t];
      RemainingUpdate(txs[1..], i - 1, t);
    }
  }

  /** Every step but a new arrival brings the work left down, so no run of them goes on for ever. */
  lemma StepsRunOut(s: State, e: Event)
    requires Inv(s) && Enabled(s, e) && !e.Begin?
    ensures Remaining(After(s, e).txs) < Remaining(s.txs)
  {
    assert TxOk(s.hash, s.txs[e.tx]);
    RemainingUpdate(s.txs, e.tx, After(s, e).txs[e.tx]);
  }

  /** Letting whoever can step do so finishes every transaction with no abort. */
  /** A transaction that was live has taken every lock it asked for, and one that had ended is as it was. */
  predicate Served(before: Tx, after: Tx) {
    after.keys == before.keys && if before.live then after.held == |before.keys| else after == before
  }

  lemma {:induction false} EveryoneFinishes(s: State) returns (events: seq<Event>)
    requires Inv(s)
    ensures Allowed(s, events) && forall e :: e in events ==> e.Acquire? || e.Finish?
    ensures forall t :: t in Run(s, events).txs ==> !t.live
    ensures |Run(s, events).txs| == |s.txs|
    ensures forall j :: 0 <= j < |s.txs| ==> Served(s.txs[j], Run(s, events).txs[j])
    decreases Remaining(s.txs)
  {
    if i: nat :| i < |s.txs| && s.txs[i].live {
      var e := FindRunnable(s, i);
      InvKept(s, e);
      StepsRunOut(s, e);
      var rest := EveryoneFinishes(After(s, e));
      events := [e] + rest;
      assert events[1..] == rest;
      forall j | 0 <= j < |s.txs| ensures Served(s.txs[j], Run(s, events).txs[j]) {
        assert Served(After(s, e).txs[j], Run(s, events).txs[j]);
      }
    } else {
      events := [];
    }
  }

  // ----- one call -----

  ghost predicate CanLock(owner: map<Key, nat>, keys: seq<Key>, granted: Key -> bool) {
    forall k :: k in keys ==> k !in owner && granted(k)
  }

  function Taken(owner: map<Key, nat>, keys: seq<Key>, tx: nat): map<Key, nat> {
    owner + map k | k in keys :: tx
  }

  lemma TakeOne(owner: map<Key, nat>, keys: seq<Key>, i: int, tx: nat)
    requires 0 <= i < |keys|
    ensures Taken(owner, keys[..i + 1], tx) == Taken(owner, keys[..i], tx)[keys[i] := tx]
  {
    assert keys[..i + 1] == keys[..i] + [keys[i]];
  }

  function WithoutTx(owner: map<Key, nat>, tx: nat): map<Key, nat> {
    map k | k in owner && owner[k] != tx :: owner[k]
  }

  lemma RolledBack(owner: map<Key, nat>, keys: seq<Key>, tx: nat)
    requires forall k :: k in owner ==> owner[k] != tx
    requires forall k :: k in keys ==> k !in owner
    ensures WithoutTx(Taken(owner, keys, tx), tx) == owner
  {
    var back := WithoutTx(Taken(owner, keys, tx), tx);
    forall k ensures k in back <==> k in owner {
      if k in keys { assert Taken(owner, keys, tx)[k] == tx; }
    }
  }

  /** The locks are all granted exactly when each named identity's lock is free and granted. */
  lemma LocksByIdentity(owner: map<Key, nat>, hash: Hash, ids: Ids, granted: Key -> bool)
    ensures CanLock(owner, LockKeys(hash, ids), granted) <==>
            forall id :: Names(ids, id) ==> hash(id) !in owner && granted(hash(id))
  {
  }

  class LockTable {
    /** Which transaction holds each lock. */
    var owner: map<Key, nat>

    constructor ()
      ensures owner == map[]
    {
      owner := map[];
    }

    method LockAll(tx: nat, keys: seq<Key>, granted: Key -> bool) returns (ok: bool)
      requires Ascending(keys)
      requires forall k :: k in owner ==> owner[k] != tx
      modifies this
      ensures ok <==> CanLock(old(owner), keys, granted)
      ensures owner == if ok then Taken(old(owner), keys, tx) else old(owner)
    {
      for i := 0 to |keys|
        invariant owner == Taken(old(owner), keys[..i], tx)
        invariant CanLock(old(owner), keys[..i], granted)
      {
        TakeOne(old(owner), keys, i, tx);
        assert keys[..i + 1] == keys[..i] + [keys[i]];
        assert keys[i] !in keys[..i] && keys[i] in keys;
        if keys[i] in owner || !granted(keys[i]) {
          RolledBack(old(owner), keys[..i], tx);
          owner := WithoutTx(owner, tx);
          return false;
        }
        owner := owner[keys[i] := tx];
      }
      assert keys[..|keys|] == keys;
      ok := true;
    }

    /**
     Takes every lock or, when one is refused or times out, rolls the
     transaction back so that it holds none. Other databases take no lock.
     */
    method LockIdentities(tx: nat, hash: Hash, ids: Ids, postgres: bool, granted: Key -> bool)
      returns (r: Option<seq<Key>>)
      requires forall k :: k in owner ==> owner[k] != tx
      modifies this
      ensures !postgres ==> r == Some([])
      ensures postgres ==> (r.Some? <==> CanLock(old(owner), LockKeys(hash, ids), granted))
      ensures postgres && r.Some? ==> r.value == LockKeys(hash, ids)
      ensures owner == if r.Some? then Taken(old(owner), r.value, tx) else old(owner)
    {
      if !postgres {
        return Some([]);
      }
      var keys := LockKeys(hash, ids);
      var ok := LockAll(tx, keys, granted);
      r := if ok then Some(keys) else None;
    }
  }
}
