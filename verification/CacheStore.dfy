/** The cache as it is stored: a key map, a recency list, an expiry heap and a byte counter that
    are updated together under one lock (internal/cache/cache.go, Cache). Each method is one
    lock-protected region, proved to compute the function of the same name in CacheModel. */
module CacheStore {
  import opened Prelude
  import opened CacheHeap
  import M = CacheModel

  datatype LoadError = LoadFailed(code: int) | Canceled | Aborted | FutureObservation | NegativeSize

  /** A shared load. Waiters hold the object itself, so detaching it from the cache loses nothing. */
  class Flight<T> {
    var done: bool
    var outcome: Result<T, LoadError>

    constructor ()
      ensures !done
    {
      done, outcome := false, Err(Aborted);
    }
  }

  /** What a finished load offers the cache: errors are never retained. */
  function Published<T>(outcome: Result<T, LoadError>): Option<T> {
    if outcome.Ok? then Some(outcome.value) else None
  }

  function ItemOf<T>(e: Entry<T>): M.Item<T> {
    M.Item(e.key, e.value, e.size as nat, e.observed, e.expires)
  }

  function Items<T>(s: seq<Entry<T>>): seq<M.Item<T>> {
    seq(|s|, i requires 0 <= i < |s| => ItemOf(s[i]))
  }

  /** list.Remove: unlink one element. */
  function Unlink<T>(s: seq<Entry<T>>, e: Entry<T>): seq<Entry<T>> {
    if s == [] then [] else if s[0] == e then s[1..] else [s[0]] + Unlink(s[1..], e)
  }

  lemma DistinctTail<T>(s: seq<Entry<T>>)
    requires s != [] && M.DistinctKeys(Items(s))
    ensures Items(s)[1..] == Items(s[1..]) && M.DistinctKeys(Items(s[1..]))
    ensures forall x | x in s[1..] :: x.key != s[0].key
    ensures forall x | x in Items(s[1..]) :: x.key != s[0].key
  {
    assert Items(s)[1..] == Items(s[1..]);
    forall x | x in s[1..] ensures x.key != s[0].key {
      var i :| 0 < i < |s| && s[i] == x;
      assert Items(s)[1..][i - 1] == ItemOf(x);
    }
  }

  lemma {:induction false} UnlinkIsWithout<T>(s: seq<Entry<T>>, e: Entry<T>)
    requires e in s && M.DistinctKeys(Items(s))
    ensures Items(Unlink(s, e)) == M.Without(Items(s), e.key)
  {
    DistinctTail(s);
    if s[0] == e {
      M.KeepAll(Items(s[1..]), M.IsNot(e.key));
    } else {
      UnlinkIsWithout(s[1..], e);
    }
  }

  lemma {:induction false} UnlinkMembers<T>(s: seq<Entry<T>>, e: Entry<T>)
    requires e in s && M.DistinctKeys(Items(s))
    ensures |Unlink(s, e)| == |s| - 1
    ensures forall x | x in Unlink(s, e) :: x in s && x.key != e.key
    ensures forall x | x in s && x != e :: x in Unlink(s, e)
  {
    DistinctTail(s);
    if s[0] != e {
      UnlinkMembers(s[1..], e);
    }
  }

  /** Removing one item that `p` rejects does not change what `p` keeps. */
  lemma {:induction false} KeepAfterRemoval<T>(s: seq<M.Item<T>>, key: string, p: M.Item<T> -> bool)
    requires forall x | x in s && x.key == key :: !p(x)
    ensures M.Keep(M.Without(s, key), p) == M.Keep(s, p)
  {
    if s != [] {
      KeepAfterRemoval(s[1..], key, p);
    }
  }

  /** The key map, the recency list, the heap's members and the byte counter describe the same entries. */
  ghost predicate Agree<T>(entries: map<string, Entry<T>>, lru: seq<Entry<T>>, heap: set<Entry<T>>, bytes: nat,
                           b: M.Budget) {
    && (forall k | k in entries :: entries[k].key == k && entries[k] in lru && entries[k] in heap)
    && (forall e | e in lru :: e.key in entries && entries[e.key] == e)
    && (forall e | e in heap :: e.key in entries && entries[e.key] == e)
    && M.WithinBudget(Items(lru), b)
    && bytes == M.TotalSize(Items(lru))
  }

  lemma RemovalKeepsOutside<T>(s: seq<M.Item<T>>, key: string, prefix: string)
    requires HasPrefix(key, prefix)
    ensures M.Outside(M.Without(s, key), prefix) == M.Outside(s, prefix)
  {
    KeepAfterRemoval(s, key, M.IsOutside(prefix));
  }

  lemma AllOutside<T>(entries: map<string, Entry<T>>, lru: seq<Entry<T>>, heap: set<Entry<T>>, bytes: nat, b: M.Budget,
                      prefix: string)
    requires Agree(entries, lru, heap, bytes, b) && forall k | k in entries :: !HasPrefix(k, prefix)
    ensures M.Outside(Items(lru), prefix) == Items(lru)
  {
    forall x | x in Items(lru) ensures M.IsOutside(prefix)(x) {
      var i :| 0 <= i < |lru| && Items(lru)[i] == x;
      assert lru[i].key in entries;
    }
    M.KeepAll(Items(lru), M.IsOutside(prefix));
  }

  lemma ItemListed<T>(s: seq<Entry<T>>, e: Entry<T>)
    requires e in s
    ensures ItemOf(e) in Items(s)
  {
    var i :| 0 <= i < |s| && s[i] == e;
    assert Items(s)[i] == ItemOf(e);
  }

  lemma RemovalAgrees<T>(entries: map<string, Entry<T>>, lru: seq<Entry<T>>, heap: set<Entry<T>>, bytes: nat,
                         b: M.Budget, e: Entry<T>)
    requires Agree(entries, lru, heap, bytes, b) && e in lru
    ensures e in heap && e.key in entries && entries[e.key] == e && e.size as nat <= bytes
    ensures Agree(entries - {e.key}, Unlink(lru, e), heap - {e}, bytes - e.size as nat, b)
    ensures |entries - {e.key}| == |entries| - 1 && |Unlink(lru, e)| == |lru| - 1
    ensures Items(Unlink(lru, e)) == M.Without(Items(lru), e.key)
  {
    UnlinkIsWithout(lru, e);
    UnlinkMembers(lru, e);
    ItemListed(lru, e);
    M.TouchKeepsTotals(Items(lru), ItemOf(e));
    M.KeepWithinBudget(Items(lru), M.IsNot(e.key), b);
    RemoveKeySize(entries, e.key);
  }

  lemma InsertionAgrees<T>(entries: map<string, Entry<T>>, lru: seq<Entry<T>>, heap: set<Entry<T>>, bytes: nat,
                           b: M.Budget, e: Entry<T>)
    requires Agree(entries, lru, heap, bytes, b) && e.key !in entries
    requires |lru| < b.maxEntries && bytes + e.size as nat <= b.limit
    ensures e !in heap && Items([e] + lru) == [ItemOf(e)] + Items(lru)
    ensures Agree(entries[e.key := e], [e] + lru, heap + {e}, bytes + e.size as nat, b)
  {
    assert Items([e] + lru) == [ItemOf(e)] + Items(lru);
    LookupAgrees(entries, lru, heap, bytes, b, e.key);
    M.PrependWithinBudget(Items(lru), ItemOf(e), b);
    hide M.WithinBudget, M.TotalSize, M.Find, M.Keep;
  }

  lemma TouchAgrees<T>(entries: map<string, Entry<T>>, lru: seq<Entry<T>>, heap: set<Entry<T>>, bytes: nat, b: M.Budget,
                       e: Entry<T>)
    requires Agree(entries, lru, heap, bytes, b) && e in lru
    ensures Agree(entries, [e] + Unlink(lru, e), heap, bytes, b)
    ensures Items([e] + Unlink(lru, e)) == [ItemOf(e)] + M.Without(Items(lru), e.key)
    ensures |Unlink(lru, e)| == |lru| - 1
  {
    UnlinkIsWithout(lru, e);
    UnlinkMembers(lru, e);
    ItemListed(lru, e);
    M.TouchWithinBudget(Items(lru), ItemOf(e), b);
    M.TouchKeepsTotals(Items(lru), ItemOf(e));
    assert Items([e] + Unlink(lru, e)) == [ItemOf(e)] + Items(Unlink(lru, e));
  }

  /** An entry is in the list exactly when the key map leads to it. */
  lemma LookupAgrees<T>(entries: map<string, Entry<T>>, lru: seq<Entry<T>>, heap: set<Entry<T>>, bytes: nat,
                        b: M.Budget, key: string)
    requires Agree(entries, lru, heap, bytes, b)
    ensures M.Find(Items(lru), key) == if key in entries then Some(ItemOf(entries[key])) else None
    ensures if key in entries then entries[key].key == key && entries[key] in lru && entries[key] in heap
            else M.Without(Items(lru), key) == Items(lru)
  {
    if key in entries {
      var e := entries[key];
      ItemListed(lru, e);
      M.FindInDistinct(Items(lru), ItemOf(e));
    } else {
      M.FindAbsent(Items(lru), key);
      forall x | x in Items(lru) ensures x.key != key {
        var i :| 0 <= i < |lru| && Items(lru)[i] == x;
        assert lru[i].key in entries;
      }
      M.KeepAll(Items(lru), M.IsNot(key));
    }
  }

  /** Over budget, the list is not empty, and dropping its last item is one step of Retained. */
  lemma EvictionAgrees<T>(entries: map<string, Entry<T>>, lru: seq<Entry<T>>, heap: set<Entry<T>>, bytes: nat,
                          b: M.Budget, size: nat)
    requires Agree(entries, lru, heap, bytes, b) && 0 < b.maxEntries && size <= b.limit
    requires |lru| >= b.maxEntries || bytes > b.limit - size
    ensures lru != []
    ensures M.Retained(M.Without(Items(lru), lru[|lru| - 1].key), size, b) == M.Retained(Items(lru), size, b)
  {
    var s := Items(lru);
    assert s != [];
    M.WithoutLast(s);
    assert s[|s| - 1] == ItemOf(lru[|lru| - 1]);
  }

  lemma EvictionEnds<T>(entries: map<string, Entry<T>>, lru: seq<Entry<T>>, heap: set<Entry<T>>, bytes: nat,
                        b: M.Budget, size: nat)
    requires Agree(entries, lru, heap, bytes, b) && |lru| < b.maxEntries && bytes <= b.limit - size
    ensures M.Retained(Items(lru), size, b) == Items(lru)
  {
  }

  class Cache<T> {
    const maxEntries: nat
    const maxBytes: Size
    /** The options were invalid: the cache refuses every request. */
    const broken: bool
    const expiry: ExpiryHeap<T>
    var entries: map<string, Entry<T>>
    var flights: map<string, Flight<T>>
    var lru: seq<Entry<T>>
    var bytes: Size

    constructor (maxEntries: nat, maxBytes: Size, broken: bool)
      ensures Valid() && fresh(expiry) && this.maxEntries == maxEntries && this.maxBytes == maxBytes
              && this.broken == broken
      ensures Model() == M.Model([], map[])
    {
      this.maxEntries, this.maxBytes, this.broken := maxEntries, maxBytes, broken;
      expiry := new ExpiryHeap();
      entries, flights, lru, bytes := map[], map[], [], 0;
    }

    function Limit(): Size { if maxBytes == 0 then 0x7FFF_FFFF_FFFF_FFFF else maxBytes }

    ghost function Budget(): M.Budget { M.Budget(maxEntries, Limit() as nat) }

    ghost function Model(): M.Model<T, Flight<T>>
      reads this
    {
      M.Model(Items(lru), flights)
    }

    /** The map, the recency list, the heap and the byte counter agree, and both budgets hold. */
    ghost predicate Valid()
      reads this, expiry, expiry.nodes
    {
      && expiry.Valid() && |entries| == |expiry.nodes| == |lru|
      && Agree(entries, lru, expiry.members, bytes as nat, Budget())
    }

    method RemoveLocked(e: Entry<T>)
      requires Valid() && e in lru
      modifies this, expiry`nodes, expiry`members, expiry.members`expiryIndex
      ensures Valid() && flights == old(flights)
      ensures |lru| == |old(lru)| - 1 && entries == old(entries) - {e.key}
      ensures Items(lru) == M.Without(old(Items(lru)), e.key)
      ensures expiry.members == old(expiry.members) - {e}
    {
      hide Agree, ExpiryHeap.Valid, M.Without, M.Find, M.TotalSize, M.WithinBudget, M.Retained, Items, Unlink;
      RemovalAgrees(entries, lru, expiry.members, bytes as nat, Budget(), e);
      entries := entries - {e.key};
      lru := Unlink(lru, e);
      expiry.Located(e);
      expiry.Remove(e.expiryIndex);
      bytes := bytes - e.size;
    }

    method DropKey(key: string)
      requires Valid()
      modifies this, expiry`nodes, expiry`members, expiry.members`expiryIndex
      ensures Valid() && flights == old(flights) && entries == old(entries) - {key}
      ensures Items(lru) == M.Without(old(Items(lru)), key)
      ensures expiry.members <= old(expiry.members)
    {
      hide Agree, ExpiryHeap.Valid, M.Without, M.Find, M.TotalSize, M.WithinBudget, M.Retained, Items, Unlink;
      LookupAgrees(entries, lru, expiry.members, bytes as nat, Budget(), key);
      if key in entries {
        RemoveLocked(entries[key]);
      }
    }

    /** Reclaims exactly the entries whose deadline has come. */
    method ExpireLocked(now: int)
      requires Valid()
      modifies this, expiry`nodes, expiry`members, expiry.members`expiryIndex
      ensures Valid() && flights == old(flights)
      ensures Items(lru) == M.Live(old(Items(lru)), now)
      ensures expiry.members <= old(expiry.members)
    {
      hide ExpiryHeap.Valid, M.TotalSize;
      while |expiry.nodes| > 0 && !(now < expiry.nodes[0].expires)
        invariant Valid() && flights == old(flights) && expiry.members <= old(expiry.members)
        invariant M.Live(Items(lru), now) == M.Live(old(Items(lru)), now)
        decreases |expiry.nodes|
      {
        var e := expiry.nodes[0];
        expiry.RootListed();
        RemovalAgrees(entries, lru, expiry.members, bytes as nat, Budget(), e);
        LookupAgrees(entries, lru, expiry.members, bytes as nat, Budget(), e.key);
        forall x | x in Items(lru) && x.key == e.key ensures !M.IsLive(now)(x) {
          M.FindInDistinct(Items(lru), x);
        }
        KeepAfterRemoval(Items(lru), e.key, M.IsLive(now));
        RemoveLocked(e);
      }
      forall x | x in Items(lru) ensures M.IsLive(now)(x) {
        var i :| 0 <= i < |lru| && Items(lru)[i] == x;
        assert lru[i] == entries[lru[i].key];
        expiry.RootFirst(lru[i]);
      }
      M.KeepAll(Items(lru), M.IsLive(now));
    }

    /** The eviction loop: it stops before the list is empty, having evicted from the least recent end. */
    method MakeRoom(size: Size)
      requires Valid() && 0 < maxEntries && size <= Limit()
      modifies this, expiry`nodes, expiry`members, expiry.members`expiryIndex
      ensures Valid() && flights == old(flights) && entries.Keys <= old(entries.Keys)
      ensures Items(lru) == M.Retained(old(Items(lru)), size as nat, Budget())
      ensures |entries| < maxEntries && bytes <= Limit() - size
      ensures expiry.members <= old(expiry.members)
    {
      hide Agree, ExpiryHeap.Valid, M.Without, M.Find, M.TotalSize, M.WithinBudget, M.Retained, Items;
      while |entries| >= maxEntries || bytes > Limit() - size
        invariant Valid() && flights == old(flights) && entries.Keys <= old(entries.Keys)
        invariant expiry.members <= old(expiry.members)
        invariant M.Retained(Items(lru), size as nat, Budget()) == M.Retained(old(Items(lru)), size as nat, Budget())
        decreases |lru|
      {
        EvictionAgrees(entries, lru, expiry.members, bytes as nat, Budget(), size as nat);
        RemoveLocked(lru[|lru| - 1]);
      }
      EvictionEnds(entries, lru, expiry.members, bytes as nat, Budget(), size as nat);
    }

    /** Admits a value as the most recent one. */
    method InsertLocked(key: string, value: T, size: Size, observed: int, expires: int)
      requires Valid() && key !in entries && 0 < maxEntries
      modifies this, expiry`nodes, expiry`members, expiry.members`expiryIndex
      ensures Valid() && flights == old(flights)
      ensures Items(lru) == M.Insert(old(Items(lru)), M.Item(key, value, size as nat, observed, expires), Budget())
    {
      hide Agree, ExpiryHeap.Valid, M.Without, M.Find, M.TotalSize, M.WithinBudget, M.Retained, Items, Unlink;
      if size > Limit() { return; }
      MakeRoom(size);
      var e := new Entry(key, value, size, observed, expires);
      InsertionAgrees(entries, lru, expiry.members, bytes as nat, Budget(), e);
      lru := [e] + lru;
      expiry.Push(e);
      entries := entries[key := e];
      bytes := bytes + size;
    }

    method Publish(key: string, value: T, size: Size, now: int, observed: int, retainTTL: int)
      requires Valid() && (retainTTL > 0 ==> 0 < maxEntries)
      modifies this, expiry`nodes, expiry`members, expiry.members`expiryIndex
      ensures Valid() && flights == old(flights)
      ensures Items(lru) == M.Publish(old(Items(lru)), key, value, size as nat, now, observed, retainTTL, Budget())
    {
      hide Agree, ExpiryHeap.Valid, M.Without, M.Find, M.TotalSize, M.WithinBudget, M.Retained, Items, Unlink;
      ExpireLocked(now);
      DropKey(key);
      if retainTTL > 0 && now < observed + retainTTL {
        InsertLocked(key, value, size, observed, observed + retainTTL);
      }
    }

    /** GetWithin's first locked region. `leader` is the load this caller would start. */
    method Begin(key: string, now: int, maxAge: int, hasLoader: bool)
      returns (r: M.Lookup<T, Flight<T>>, leader: Flight<T>)
      requires Valid()
      modifies this, expiry`nodes, expiry`members, expiry.members`expiryIndex
      ensures Valid() && fresh(leader) && !leader.done
      ensures (r, Model()) == M.Begin(old(Model()), key, now, maxAge, hasLoader, leader)
    {
      hide Agree, ExpiryHeap.Valid, M.Without, M.Find, M.TotalSize, M.WithinBudget, M.Retained, Items, Unlink;
      leader := new Flight();
      ExpireLocked(now);
      LookupAgrees(entries, lru, expiry.members, bytes as nat, Budget(), key);
      if key in entries && maxAge > 0 && now < entries[key].observed + maxAge {
        var e := entries[key];
        TouchAgrees(entries, lru, expiry.members, bytes as nat, Budget(), e);
        lru := [e] + Unlink(lru, e);
        r := M.Hit(e.value);
      } else if key in flights {
        r := M.Join(flights[key]);
      } else if !hasLoader {
        r := M.NoLoader;
      } else {
        flights := flights[key := leader];
        r := M.Lead;
      }
    }

    /** complete: wake the waiters in any case; publish only if the load is still attached. */
    method Complete(key: string, f: Flight<T>, loaded: Result<T, LoadError>, size: Size, now: int, observed: int,
                    retainTTL: int, canceled: bool)
      requires Valid() && !f.done && (retainTTL > 0 ==> 0 < maxEntries)
      modifies this, expiry`nodes, expiry`members, expiry.members`expiryIndex, f`done, f`outcome
      ensures Valid() && f.done
      ensures f.outcome == if loaded.Ok? && canceled then Err(Canceled) else loaded
      ensures Model() == M.Complete(old(Model()), key, f, Published(f.outcome), size as nat, now, observed, retainTTL,
                                    Budget())
    {
      hide Agree, ExpiryHeap.Valid, M.Without, M.Find, M.TotalSize, M.WithinBudget, M.Retained, Items, Unlink;
      f.outcome := if loaded.Ok? && canceled then Err(Canceled) else loaded;
      if key in flights && flights[key] == f {
        flights := flights - {key};
        if f.outcome.Ok? {
          Publish(key, f.outcome.value, size, now, observed, retainTTL);
        }
      }
      f.done := true;
    }

    /** runLoad after the loader returned: judge the value, then complete. Nothing observed in the
        future and nothing of negative size is ever published. */
    method FinishLoad(key: string, f: Flight<T>, loaded: Result<T, LoadError>, now: int, source: Option<int>,
                      measured: int64, retainTTL: int, canceled: bool)
      requires Valid() && !f.done && (retainTTL > 0 ==> 0 < maxEntries)
      modifies this, expiry`nodes, expiry`members, expiry.members`expiryIndex, f`done, f`outcome
      ensures Valid() && f.done
      ensures f.outcome.Ok? <==>
              loaded.Ok? && !canceled && (source.Some? ==> source.value <= now)
              && (retainTTL > 0 ==> 0 <= measured)
      ensures f.outcome.Ok? ==> f.outcome == loaded
      ensures Model() == M.Complete(old(Model()), key, f, Published(f.outcome),
                                    if retainTTL > 0 && measured > 0 then measured as nat else 0, now,
                                    if source.Some? then source.value else now, retainTTL, Budget())
    {
      var verdict := loaded;
      var size: Size, observed := 0, now;
      if verdict.Ok? && canceled { verdict := Err(Canceled); }
      if source.Some? { observed := source.value; }
      if verdict.Ok? {
        if observed > now { verdict := Err(FutureObservation); }
        if retainTTL > 0 {
          if measured < 0 { verdict := Err(NegativeSize); } else { size := measured; }
        }
      }
      Complete(key, f, verdict, size, now, observed, retainTTL, canceled);
    }

    method PeekWithin(key: string, now: int, maxAge: int) returns (r: Option<(T, int)>)
      requires Valid()
      modifies this, expiry`nodes, expiry`members, expiry.members`expiryIndex
      ensures Valid() && Model() == M.Model(M.Live(old(Items(lru)), now), old(flights))
      ensures r == if broken then None else M.Peek(Items(lru), key, now, maxAge)
    {
      hide Agree, ExpiryHeap.Valid, M.Without, M.Find, M.TotalSize, M.WithinBudget, M.Retained, Items, Unlink;
      ExpireLocked(now);
      LookupAgrees(entries, lru, expiry.members, bytes as nat, Budget(), key);
      if broken || key !in entries || maxAge <= 0 || !(now < entries[key].observed + maxAge) {
        return None;
      }
      return Some((entries[key].value, entries[key].observed));
    }

    method Invalidate(key: string)
      requires Valid()
      modifies this, expiry`nodes, expiry`members, expiry.members`expiryIndex
      ensures Valid() && Model() == M.Invalidate(old(Model()), key) && expiry.members <= old(expiry.members)
    {
      hide Agree, ExpiryHeap.Valid, M.Without, M.Find, M.TotalSize, M.WithinBudget, M.Retained, Items, Unlink;
      DropKey(key);
      flights := flights - {key};
    }

    method InvalidatePrefix(prefix: string)
      requires Valid()
      modifies this, expiry`nodes, expiry`members, expiry.members`expiryIndex
      ensures Valid() && Model() == M.InvalidatePrefix(old(Model()), prefix) && expiry.members <= old(expiry.members)
    {
      hide ExpiryHeap.Valid, M.Keep, M.Find, M.TotalSize, M.WithinBudget, Agree, Items, M.Without, M.IsOutside;
      var todo := entries.Keys;
      while todo != {}
        invariant Valid() && flights == old(flights) && expiry.members <= old(expiry.members)
        invariant M.Outside(Items(lru), prefix) == M.Outside(old(Items(lru)), prefix)
        invariant forall k | k in entries && HasPrefix(k, prefix) :: k in todo
      {
        var key :| key in todo;
        todo := todo - {key};
        if HasPrefix(key, prefix) {
          RemovalKeepsOutside(Items(lru), key, prefix);
          DropKey(key);
        }
      }
      AllOutside(entries, lru, expiry.members, bytes as nat, Budget(), prefix);
      DetachPrefix(prefix);
    }

    method DetachPrefix(prefix: string)
      modifies this`flights
      ensures flights == map k | k in old(flights) && !HasPrefix(k, prefix) :: old(flights)[k]
    {
      var pending := flights.Keys;
      while pending != {}
        invariant flights == map k | k in old(flights) && !(HasPrefix(k, prefix) && k !in pending) :: old(flights)[k]
        invariant pending <= old(flights.Keys)
      {
        var key :| key in pending;
        pending := pending - {key};
        if HasPrefix(key, prefix) { flights := flights - {key}; }
      }
    }

    method Clear()
      requires Valid()
      modifies this, expiry`nodes, expiry`members
      ensures Valid() && Model() == M.Model([], map[])
    {
      entries, flights, lru, bytes := map[], map[], [], 0;
      expiry.nodes, expiry.members := [], {};
    }
  }
}
