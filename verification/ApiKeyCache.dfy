/**
 The versioned API key cache beside the key store it caches. Writers change the
 store and invalidate afterwards; loaders read the version, then the store, and
 offer what they read under the version they saw. Steps interleave freely.
 */
module ApiKeyCache {
  import opened Basics

  type Key = nat
  type Value = nat

  datatype Entry = Entry(data: Value, expires: int)

  ghost predicate IsOldest(entries: map<Key, Entry>, k: Key) {
    k in entries && forall j :: j in entries ==> entries[k].expires <= entries[j].expires
  }

  predicate Full(entries: map<Key, Entry>, max: int) {
    |entries| >= max
  }

  function Stored(entries: map<Key, Entry>, max: int, k: Key, e: Entry, oldest: Key): map<Key, Entry> {
    (if Full(entries, max) then entries - {oldest} else entries)[k := e]
  }

  /** Storing sets the one entry and keeps all others, but for the oldest when full. */
  lemma StoredKeeps(entries: map<Key, Entry>, max: int, k: Key, e: Entry, oldest: Key, j: Key)
    ensures var stored := Stored(entries, max, k, e, oldest);
            && k in stored && stored[k] == e
            && (j != k ==> (j in stored <==> j in entries && !(Full(entries, max) && j == oldest)))
            && (j != k && j in stored ==> stored[j] == entries[j])
  {
  }

  predicate Current(ifVersion: Option<nat>, version: nat) {
    ifVersion.Some? ==> ifVersion.value == version
  }

  function Lookup(entries: map<Key, Entry>, k: Key, now: int): Option<Value> {
    if k in entries && now < entries[k].expires then Some(entries[k].data) else None
  }

  // ----- the cache object -----

  method Oldest(entries: map<Key, Entry>) returns (k: Key)
    requires entries != map[]
    ensures IsOldest(entries, k)
  {
    var left := entries.Keys;
    k :| k in left;
    left := left - {k};
    while left != {}
      invariant k in entries && left <= entries.Keys
      invariant forall j :: j in entries && j !in left ==> entries[k].expires <= entries[j].expires
    {
      var j :| j in left;
      left := left - {j};
      if entries[j].expires < entries[k].expires {
        k := j;
      }
    }
  }

  class Cache {
    const ttl: int
    const maxEntries: int
    var entries: map<Key, Entry>
    var version: nat

    constructor (ttl: int, maxEntries: int)
      ensures this.ttl == ttl && this.maxEntries == maxEntries && entries == map[] && version == 0
    {
      this.ttl, this.maxEntries, entries, version := ttl, maxEntries, map[], 0;
    }

    method Get(k: Key, now: int) returns (r: Option<Value>)
      ensures r.Some? ==> k in entries && r.value == entries[k].data && now < entries[k].expires
      ensures r.None? ==> k !in entries || entries[k].expires <= now
      ensures r == Lookup(entries, k, now)
    {
      if k in entries && now < entries[k].expires {
        return Some(entries[k].data);
      }
      r := None;
    }

    /** Fails, changing nothing, only when an entry has to go and there is none. */
    method Set(k: Key, data: Value, ifVersion: Option<nat>, now: int) returns (ok: bool, ghost oldest: Key)
      modifies this`entries
      ensures !ok <==> Current(ifVersion, version) && Full(old(entries), maxEntries) && old(entries) == map[]
      ensures !ok || !Current(ifVersion, version) ==> entries == old(entries)
      ensures ok && Current(ifVersion, version) ==>
                && (Full(old(entries), maxEntries) ==> IsOldest(old(entries), oldest))
                && entries == Stored(old(entries), maxEntries, k, Entry(data, now + ttl), oldest)
                && k in entries && entries[k] == Entry(data, now + ttl)
                && forall j :: j in old(entries) && j != k && !(Full(old(entries), maxEntries) && j == oldest) ==>
                                 j in entries && entries[j] == old(entries)[j]
    {
      oldest := k;
      if ifVersion.Some? && ifVersion.value != version {
        return true, k;
      }
      if |entries| >= maxEntries {
        if entries == map[] {
          return false, k;
        }
        var evicted := Oldest(entries);
        oldest := evicted;
        entries := entries - {evicted};
      }
      entries := entries[k := Entry(data, now + ttl)];
      ok := true;
    }

    /** The machine's state as the cache has it. */
    ghost predicate At(s: State)
      reads this
    {
      s.entries == entries && s.version == version
    }

    method Invalidate(k: Key, ghost s: State)
      requires At(s)
      modifies this`entries, this`version
      ensures entries == old(entries) - {k} && version == old(version) + 1
      ensures At(After(s, Dropped(k))) && (Enabled(s, Invalidated(k)) ==> At(After(s, Invalidated(k))))
    {
      entries, version := entries - {k}, version + 1;
    }

    method Clear(ghost s: State)
      requires At(s)
      modifies this`entries, this`version
      ensures entries == map[] && version == old(version) + 1
      ensures forall settled :: Enabled(s, Cleared(settled)) ==> At(After(s, Cleared(settled)))
    {
      entries, version := map[], version + 1;
    }
  }

  // ----- writers and loaders around it -----

  datatype Loader = Loader(key: Key, version: nat, data: Option<Value>)

  /** `pending` counts the changes to each key that have not invalidated it yet. */
  datatype State = State(max: int, store: map<Key, Value>, entries: map<Key, Entry>, version: nat,
                         pending: multiset<Key>, loaders: seq<Loader>)

  datatype Event =
    | Change(key: Key, value: Option<Value>)
    | Invalidated(key: Key)
    | Dropped(key: Key)
    | Cleared(settled: multiset<Key>)
    | Load(key: Key)
    | Read(loader: nat)
    | Offer(loader: nat, expires: int, oldest: Key)
    | GiveUp(loader: nat)

  /** An offer that finds the cache full and empty raises, which is giving up. */
  ghost predicate Enabled(s: State, e: Event) {
    match e
    case Change(_, _) => true
    case Invalidated(k) => k in s.pending
    case Dropped(_) => true
    case Cleared(settled) => settled <= s.pending
    case Load(_) => true
    case Read(i) => i < |s.loaders| && s.loaders[i].data.None? && s.loaders[i].key in s.store
    case Offer(i, _, oldest) =>
      i < |s.loaders| && s.loaders[i].data.Some? &&
      (s.loaders[i].version == s.version && Full(s.entries, s.max) ==> IsOldest(s.entries, oldest))
    case GiveUp(i) => i < |s.loaders|
  }

  function Remove(loaders: seq<Loader>, i: nat): seq<Loader>
    requires i < |loaders|
  {
    loaders[..i] + loaders[i + 1..]
  }

  ghost function After(s: State, e: Event): State
    requires Enabled(s, e)
  {
    match e
    case Change(k, v) =>
      s.(store := if v.Some? then s.store[k := v.value] else s.store - {k}, pending := s.pending + multiset{k})
    case Invalidated(k) =>
      s.(entries := s.entries - {k}, version := s.version + 1, pending := s.pending - multiset{k})
    case Dropped(k) => s.(entries := s.entries - {k}, version := s.version + 1)
    case Cleared(settled) => s.(entries := map[], version := s.version + 1, pending := s.pending - settled)
    case Load(k) => s.(loaders := s.loaders + [Loader(k, s.version, None)])
    case Read(i) => s.(loaders := s.loaders[i := s.loaders[i].(data := Some(s.store[s.loaders[i].key]))])
    case Offer(i, expires, oldest) =>
      var l := s.loaders[i];
      s.(loaders := Remove(s.loaders, i),
         entries := if l.version != s.version then s.entries
                    else Stored(s.entries, s.max, l.key, Entry(l.data.value, expires), oldest))
    case GiveUp(i) => s.(loaders := Remove(s.loaders, i))
  }

  ghost predicate Allowed(s: State, events: seq<Event>)
    decreases events
  {
    events == [] || (Enabled(s, events[0]) && Allowed(After(s, events[0]), events[1..]))
  }

  ghost function Run(s: State, events: seq<Event>): State
    requires Allowed(s, events)
    decreases events
  {
    if events == [] then s else Run(After(s, events[0]), events[1..])
  }

  /** An undisturbed load puts the store's value in the cache, and a lookup finds it until it expires. */
  lemma LoadIsServed(s: State, k: Key, expires: int, oldest: Key, now: int)
    requires k in s.store && now < expires && (Full(s.entries, s.max) ==> IsOldest(s.entries, oldest))
    ensures var n := |s.loaders|;
            var events := [Load(k), Read(n), Offer(n, expires, oldest)];
            && Allowed(s, events) && Lookup(Run(s, events).entries, k, now) == Some(s.store[k])
            && Run(s, events).loaders == s.loaders && Run(s, events).store == s.store
  {
    var n := |s.loaders|;
    var events := [Load(k), Read(n), Offer(n, expires, oldest)];
    var s1 := After(s, Load(k));
    var s2 := After(s1, Read(n));
    var s3 := After(s2, Offer(n, expires, oldest));
    assert s3.loaders == s.loaders;
    assert events[1..] == [Read(n), Offer(n, expires, oldest)] && events[1..][1..] == [Offer(n, expires, oldest)];
    assert events[1..][1..][1..] == [];
    assert Allowed(s3, []) && Run(s3, []) == s3;
    assert Allowed(s2, events[1..][1..]) && Run(s2, events[1..][1..]) == s3;
  }

  /** A change shows in the store at once and awaits its invalidation. */
  lemma ChangeAwaitsInvalidation(s: State, k: Key, v: Option<Value>)
    ensures var t := After(s, Change(k, v));
            && k in t.pending && Enabled(t, Invalidated(k)) && k !in After(t, Invalidated(k)).entries
            && (v.Some? ==> k in t.store && t.store[k] == v.value) && (v.None? ==> k !in t.store)
  {
  }

  /** Invalidating once for each change settles everything, in whatever order it is done. */
  lemma {:induction false} ChangesSettle(s: State) returns (events: seq<Event>)
    ensures Allowed(s, events) && Run(s, events).pending == multiset{} && Run(s, events).store == s.store
    ensures forall e :: e in events ==> e.Invalidated?
    ensures forall k :: k in Run(s, events).entries <==> k in s.entries && k !in s.pending
    decreases |s.pending|
  {
    if s.pending == multiset{} {
      events := [];
    } else {
      var k :| k in s.pending;
      var t := After(s, Invalidated(k));
      assert |t.pending| < |s.pending|;
      var rest := ChangesSettle(t);
      events := [Invalidated(k)] + rest;
      assert events[1..] == rest;
    }
  }

  /** Clearing settles whatever changes it is told of and empties the cache. */
  lemma ClearSettles(s: State)
    ensures Enabled(s, Cleared(s.pending))
    ensures var t := After(s, Cleared(s.pending)); t.pending == multiset{} && t.entries == map[] && t.version > s.version
  {
  }

  predicate Init(s: State) {
    s.entries == map[] && s.pending == multiset{} && s.loaders == []
  }

  /** The value is the store's, or a change to its key has yet to invalidate it. */
  predicate Fresh(s: State, k: Key, v: Value) {
    (k in s.store && s.store[k] == v) || k in s.pending
  }

  predicate LoaderOk(s: State, l: Loader) {
    l.version <= s.version && (l.version == s.version && l.data.Some? ==> Fresh(s, l.key, l.data.value))
  }

  ghost predicate EntriesOk(s: State) {
    forall k :: k in s.entries ==> Fresh(s, k, s.entries[k].data)
  }

  ghost predicate LoadersOk(s: State) {
    forall i :: 0 <= i < |s.loaders| ==> LoaderOk(s, s.loaders[i])
  }

  predicate Bounded(s: State) {
    |s.entries| <= s.max || s.entries == map[]
  }

  ghost predicate Inv(s: State) {
    EntriesOk(s) && LoadersOk(s) && Bounded(s)
  }

  lemma StoredFits(entries: map<Key, Entry>, max: int, k: Key, e: Entry, oldest: Key)
    requires |entries| <= max && (Full(entries, max) ==> oldest in entries)
    ensures |Stored(entries, max, k, e, oldest)| <= max
  {
    var kept := if Full(entries, max) then entries - {oldest} else entries;
    if Full(entries, max) {
      assert kept.Keys == entries.Keys - {oldest};
      assert |kept.Keys| == |entries.Keys| - 1;
    }
    assert kept[k := e].Keys == kept.Keys + {k};
  }

  lemma DropFits(entries: map<Key, Entry>, k: Key)
    ensures |entries - {k}| <= |entries|
  {
    assert (entries - {k}).Keys == entries.Keys - {k};
  }

  lemma OfferFits(s: State, e: Event)
    requires Bounded(s) && Enabled(s, e) && e.Offer?
    ensures Bounded(After(s, e))
  {
    var l := s.loaders[e.loader];
    if l.version == s.version {
      StoredFits(s.entries, s.max, l.key, Entry(l.data.value, e.expires), e.oldest);
    }
  }

  lemma BoundKept(s: State, e: Event)
    requires Bounded(s) && Enabled(s, e)
    ensures Bounded(After(s, e))
  {
    match e
    case Offer(_, _, _) => OfferFits(s, e);
    case Invalidated(k) => DropFits(s.entries, k);
    case Dropped(k) => DropFits(s.entries, k);
    case _ =>
  }

  lemma LoadersKept(s: State, e: Event)
    requires LoadersOk(s) && Enabled(s, e)
    ensures LoadersOk(After(s, e))
  {
    var s' := After(s, e);
    forall i | 0 <= i < |s'.loaders| ensures LoaderOk(s', s'.loaders[i]) {
      match e
      case Offer(n, _, _) => assert s'.loaders[i] == s.loaders[if i < n then i else i + 1];
      case GiveUp(n) => assert s'.loaders[i] == s.loaders[if i < n then i else i + 1];
      case _ => if i < |s.loaders| { assert LoaderOk(s, s.loaders[i]); }
    }
  }

  lemma EntriesKept(s: State, e: Event)
    requires EntriesOk(s) && LoadersOk(s) && Enabled(s, e)
    ensures EntriesOk(After(s, e))
  {
    var s' := After(s, e);
    forall k | k in s'.entries ensures Fresh(s', k, s'.entries[k].data) {
      if e.Offer? { assert LoaderOk(s, s.loaders[e.loader]); }
    }
  }

  lemma InvKept(s: State, e: Event)
    requires Inv(s) && Enabled(s, e)
    ensures Inv(After(s, e))
  {
    EntriesKept(s, e);
    LoadersKept(s, e);
    BoundKept(s, e);
  }

  /** In every run a cached value is current, or the change that made it stale has not invalidated yet. */
  lemma {:induction false} CacheNeverStale(s: State, events: seq<Event>)
    requires Inv(s) && Allowed(s, events)
    ensures Inv(Run(s, events))
    decreases events
  {
    if events != [] {
      InvKept(s, events[0]);
      CacheNeverStale(After(s, events[0]), events[1..]);
    }
  }

  /** So once every change has invalidated, whatever a lookup returns is what the store holds. */
  lemma QuietLookupIsCurrent(s: State, events: seq<Event>, k: Key, now: int)
    requires Init(s) && Allowed(s, events) && k !in Run(s, events).pending
    requires Lookup(Run(s, events).entries, k, now).Some?
    ensures k in Run(s, events).store && Lookup(Run(s, events).entries, k, now) == Some(Run(s, events).store[k])
  {
    CacheNeverStale(s, events);
  }

  /** The cache never outgrows its limit, and with no positive limit it stays empty. */
  lemma CacheBounded(s: State, events: seq<Event>)
    requires Init(s) && Allowed(s, events)
    ensures |Run(s, events).entries| <= if s.max >= 0 then s.max else 0
  {
    CacheNeverStale(s, events);
    MaxKept(s, events);
  }

  lemma {:induction false} MaxKept(s: State, events: seq<Event>)
    requires Allowed(s, events)
    ensures Run(s, events).max == s.max
    decreases events
  {
    if events != [] { MaxKept(After(s, events[0]), events[1..]); }
  }
}
