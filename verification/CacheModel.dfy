/** What the expiring cache does, on values: a plain recency-ordered list of items (newest first)
    and the loads attached to it (internal/cache/cache.go). The class in CacheStore is proved to
    compute these functions; CacheProtocol runs them under every interleaving. */
module CacheModel {
  import opened Prelude

  datatype Item<T> = Item(key: string, value: T, size: nat, observed: int, expires: int)

  /** `limit` is MaxBytes, or the whole int64 range when MaxBytes is zero. */
  datatype Budget = Budget(maxEntries: nat, limit: nat)

  /** F identifies a load in flight; two loads of one key are different identities. */
  datatype Model<T, F> = Model(items: seq<Item<T>>, flights: map<string, F>)

  datatype Lookup<T, F> = Hit(value: T) | Join(flight: F) | Lead | NoLoader

  ghost predicate DistinctKeys<T>(s: seq<Item<T>>) {
    s == [] || ((forall x | x in s[1..] :: x.key != s[0].key) && DistinctKeys(s[1..]))
  }

  function Keep<A>(s: seq<A>, p: A -> bool): (r: seq<A>)
    ensures (forall x | x in r :: x in s && p(x)) && (forall x | x in s && p(x) :: x in r)
    ensures |r| <= |s|
  {
    if s == [] then [] else if p(s[0]) then [s[0]] + Keep(s[1..], p) else Keep(s[1..], p)
  }

  function TotalSize<T>(s: seq<Item<T>>): nat {
    if s == [] then 0 else s[0].size + TotalSize(s[1..])
  }

  function IsLive<T>(now: int): Item<T> -> bool { (x: Item<T>) => now < x.expires }
  function IsNot<T>(key: string): Item<T> -> bool { (x: Item<T>) => x.key != key }
  function IsOutside<T>(prefix: string): Item<T> -> bool { (x: Item<T>) => !HasPrefix(x.key, prefix) }

  function Live<T>(s: seq<Item<T>>, now: int): seq<Item<T>> { Keep(s, IsLive(now)) }
  function Without<T>(s: seq<Item<T>>, key: string): seq<Item<T>> { Keep(s, IsNot(key)) }
  function Outside<T>(s: seq<Item<T>>, prefix: string): seq<Item<T>> { Keep(s, IsOutside(prefix)) }

  function Find<T>(s: seq<Item<T>>, key: string): Option<Item<T>> {
    if s == [] then None else if s[0].key == key then Some(s[0]) else Find(s[1..], key)
  }

  predicate Fits<T>(s: seq<Item<T>>, size: nat, b: Budget) {
    |s| < b.maxEntries && TotalSize(s) + size <= b.limit
  }

  /** Evict from the least recent end until a value of `size` fits. */
  function Retained<T>(s: seq<Item<T>>, size: nat, b: Budget): seq<Item<T>>
    requires 0 < b.maxEntries && size <= b.limit
  {
    if Fits(s, size, b) || s == [] then s else Retained(s[..|s| - 1], size, b)
  }

  function Insert<T>(s: seq<Item<T>>, item: Item<T>, b: Budget): seq<Item<T>>
    requires 0 < b.maxEntries
  {
    if item.size > b.limit then s else [item] + Retained(s, item.size, b)
  }

  /** The first locked region of GetWithin: a hit, a load to join, or the duty to load. */
  function Begin<T, F>(m: Model<T, F>, key: string, now: int, maxAge: int, hasLoader: bool, leader: F)
    : (Lookup<T, F>, Model<T, F>)
  {
    var live := Live(m.items, now);
    var found := Find(live, key);
    if found.Some? && maxAge > 0 && now < found.value.observed + maxAge then
      (Hit(found.value.value), Model([found.value] + Without(live, key), m.flights))
    else if key in m.flights then
      (Join(m.flights[key]), Model(live, m.flights))
    else if !hasLoader then
      (NoLoader, Model(live, m.flights))
    else
      (Lead, Model(live, m.flights[key := leader]))
  }

  /** A published value replaces its key's old one, and is retained while its own source is young enough. */
  function Publish<T>(s: seq<Item<T>>, key: string, value: T, size: nat, now: int, observed: int, retainTTL: int,
                      b: Budget): seq<Item<T>>
    requires retainTTL > 0 ==> 0 < b.maxEntries
  {
    var rest := Without(Live(s, now), key);
    if retainTTL > 0 && now < observed + retainTTL
      then Insert(rest, Item(key, value, size, observed, observed + retainTTL), b)
    else rest
  }

  /** complete's effect on the cache: only a still-attached load may publish or detach. */
  function Complete<T, F(==)>(m: Model<T, F>, key: string, f: F, loaded: Option<T>, size: nat,
                         now: int, observed: int, retainTTL: int, b: Budget): Model<T, F>
    requires retainTTL > 0 ==> 0 < b.maxEntries
  {
    if key !in m.flights || m.flights[key] != f then m
    else
      var flights := m.flights - {key};
      if loaded.None? then Model(m.items, flights)
      else
        Model(Publish(m.items, key, loaded.value, size, now, observed, retainTTL, b), flights)
  }

  function Peek<T>(live: seq<Item<T>>, key: string, now: int, maxAge: int): Option<(T, int)> {
    var found := Find(live, key);
    if found.None? || maxAge <= 0 || !(now < found.value.observed + maxAge) then None
    else Some((found.value.value, found.value.observed))
  }

  function Invalidate<T, F>(m: Model<T, F>, key: string): Model<T, F> {
    Model(Without(m.items, key), m.flights - {key})
  }

  function InvalidatePrefix<T, F>(m: Model<T, F>, prefix: string): Model<T, F> {
    Model(Outside(m.items, prefix), map k | k in m.flights && !HasPrefix(k, prefix) :: m.flights[k])
  }

  /** Eviction keeps the longest most-recent prefix that fits: the evicted suffix is the shortest possible. */
  lemma {:induction false} RetainedIsLongestFit<T>(s: seq<Item<T>>, size: nat, b: Budget)
    requires 0 < b.maxEntries && size <= b.limit
    ensures var r := Retained(s, size, b);
            && r <= s && Fits(r, size, b)
            && forall k | |r| < k <= |s| :: !Fits(s[..k], size, b)
  {
    if !Fits(s, size, b) && s != [] {
      var t := s[..|s| - 1];
      RetainedIsLongestFit(t, size, b);
      var r := Retained(s, size, b);
      forall k | |r| < k <= |s| ensures !Fits(s[..k], size, b) {
        if k < |s| { assert s[..k] == t[..k]; } else { assert s[..k] == s; }
      }
    }
  }

  lemma {:induction false} KeepAll<A>(s: seq<A>, p: A -> bool)
    requires forall x | x in s :: p(x)
    ensures Keep(s, p) == s
  {
    if s != [] {
      KeepAll(s[1..], p);
      assert s == [s[0]] + s[1..];
    }
  }

  lemma {:induction false} KeepDistinct<T>(s: seq<Item<T>>, p: Item<T> -> bool)
    requires DistinctKeys(s)
    ensures DistinctKeys(Keep(s, p))
  {
    if s != [] {
      KeepDistinct(s[1..], p);
      assert p(s[0]) ==> Keep(s, p)[1..] == Keep(s[1..], p);
    }
  }

  lemma {:induction false} KeepSmaller<T>(s: seq<Item<T>>, p: Item<T> -> bool)
    ensures TotalSize(Keep(s, p)) <= TotalSize(s) && |Keep(s, p)| <= |s|
  {
    if s != [] {
      KeepSmaller(s[1..], p);
      if p(s[0]) { assert Keep(s, p)[1..] == Keep(s[1..], p); }
    }
  }

  lemma {:induction false} FindInDistinct<T>(s: seq<Item<T>>, x: Item<T>)
    requires DistinctKeys(s) && x in s
    ensures Find(s, x.key) == Some(x)
  {
    if s[0] != x {
      FindInDistinct(s[1..], x);
    }
  }

  lemma {:induction false} WithoutLast<T>(s: seq<Item<T>>)
    requires DistinctKeys(s) && s != []
    ensures Without(s, s[|s| - 1].key) == s[..|s| - 1]
  {
    var t := s[1..];
    if t != [] {
      WithoutLast(t);
      assert t[|t| - 1] == s[|s| - 1] && t[|t| - 1] in t;
      assert s[..|s| - 1] == [s[0]] + t[..|t| - 1];
    }
  }

  lemma {:induction false} FindAbsent<T>(s: seq<Item<T>>, key: string)
    ensures Find(s, key).None? <==> forall x | x in s :: x.key != key
    ensures Find(s, key).Some? ==> Find(s, key).value in s && Find(s, key).value.key == key
  {
    if s != [] {
      FindAbsent(s[1..], key);
    }
  }

  /** The invariant every operation keeps: one item per key, within both budgets. */
  ghost predicate WithinBudget<T>(s: seq<Item<T>>, b: Budget) {
    && DistinctKeys(s)
    && (s != [] ==> |s| <= b.maxEntries)
    && TotalSize(s) <= b.limit
  }

  lemma EmptyWithinBudget<T>(b: Budget)
    ensures WithinBudget<T>([], b)
  {
  }

  lemma KeepWithinBudget<T>(s: seq<Item<T>>, p: Item<T> -> bool, b: Budget)
    requires WithinBudget(s, b)
    ensures WithinBudget(Keep(s, p), b)
  {
    KeepDistinct(s, p);
    KeepSmaller(s, p);
  }

  lemma {:induction false} PrefixDistinct<T>(r: seq<Item<T>>, s: seq<Item<T>>)
    requires r <= s && DistinctKeys(s)
    ensures DistinctKeys(r)
  {
    if r != [] {
      PrefixDistinct(r[1..], s[1..]);
      assert forall x | x in r[1..] :: x in s[1..];
    }
  }

  lemma InsertWithinBudget<T>(s: seq<Item<T>>, item: Item<T>, b: Budget)
    requires WithinBudget(s, b) && 0 < b.maxEntries && forall x | x in s :: x.key != item.key
    ensures WithinBudget(Insert(s, item, b), b)
  {
    if item.size <= b.limit {
      RetainedIsLongestFit(s, item.size, b);
      var r := Retained(s, item.size, b);
      PrefixDistinct(r, s);
      assert ([item] + r)[1..] == r;
      assert forall x | x in r :: x in s;
    }
  }

  lemma PrependWithinBudget<T>(s: seq<Item<T>>, x: Item<T>, b: Budget)
    requires WithinBudget(s, b) && |s| < b.maxEntries && TotalSize(s) + x.size <= b.limit
    requires Find(s, x.key).None?
    ensures WithinBudget([x] + s, b) && TotalSize([x] + s) == TotalSize(s) + x.size
  {
    FindAbsent(s, x.key);
    assert ([x] + s)[1..] == s;
  }

  /** Moving an item to the front changes neither how many items there are nor how many bytes. */
  lemma {:induction false} TouchKeepsTotals<T>(s: seq<Item<T>>, x: Item<T>)
    requires DistinctKeys(s) && x in s
    ensures TotalSize(Without(s, x.key)) == TotalSize(s) - x.size
    ensures |Without(s, x.key)| == |s| - 1
    ensures TotalSize([x] + Without(s, x.key)) == TotalSize(s)
  {
    var w := Without(s, x.key);
    assert ([x] + w)[1..] == w;
    if s[0] == x {
      KeepAll(s[1..], IsNot(x.key));
    } else {
      TouchKeepsTotals(s[1..], x);
      assert w == [s[0]] + Without(s[1..], x.key);
      assert w[1..] == Without(s[1..], x.key);
    }
  }

  lemma TouchWithinBudget<T>(s: seq<Item<T>>, x: Item<T>, b: Budget)
    requires WithinBudget(s, b) && x in s
    ensures WithinBudget([x] + Without(s, x.key), b)
  {
    TouchKeepsTotals(s, x);
    KeepDistinct(s, IsNot(x.key));
    assert forall y | y in Without(s, x.key) :: y.key != x.key;
  }

  lemma BeginWithinBudget<T, F>(m: Model<T, F>, key: string, now: int, maxAge: int, hasLoader: bool, leader: F,
                                b: Budget)
    requires WithinBudget(m.items, b)
    ensures WithinBudget(Begin(m, key, now, maxAge, hasLoader, leader).1.items, b)
  {
    KeepWithinBudget(m.items, IsLive(now), b);
    var live := Live(m.items, now);
    FindAbsent(live, key);
    if Find(live, key).Some? {
      TouchWithinBudget(live, Find(live, key).value, b);
    }
  }

  lemma CompleteWithinBudget<T, F>(m: Model<T, F>, key: string, f: F, loaded: Option<T>, size: nat,
                                   now: int, observed: int, retainTTL: int, b: Budget)
    requires WithinBudget(m.items, b) && (retainTTL > 0 ==> 0 < b.maxEntries)
    ensures WithinBudget(Complete(m, key, f, loaded, size, now, observed, retainTTL, b).items, b)
  {
    KeepWithinBudget(m.items, IsLive(now), b);
    var live := Live(m.items, now);
    KeepWithinBudget(live, IsNot(key), b);
    if retainTTL > 0 && loaded.Some? {
      InsertWithinBudget(Without(live, key), Item(key, loaded.value, size, observed, observed + retainTTL), b);
    }
  }

  /** A hit was observed less than maxAge ago and its retention has not run out either. */
  lemma HitIsYoung<T, F>(m: Model<T, F>, key: string, now: int, maxAge: int, hasLoader: bool, leader: F)
    requires Begin(m, key, now, maxAge, hasLoader, leader).0.Hit?
    ensures exists x | x in m.items ::
              && x.key == key && x.value == Begin(m, key, now, maxAge, hasLoader, leader).0.value
              && now < x.expires && now < x.observed + maxAge
  {
    FindAbsent(Live(m.items, now), key);
    var x := Find(Live(m.items, now), key).value;
    assert IsLive(now)(x) && x in m.items;
  }

  lemma BeginOnlyKeeps<T, F>(m: Model<T, F>, key: string, now: int, maxAge: int, hasLoader: bool, leader: F)
    ensures forall x | x in Begin(m, key, now, maxAge, hasLoader, leader).1.items :: x in m.items
  {
    FindAbsent(Live(m.items, now), key);
  }

  /** Publishing adds at most the published item; everything else was there before. */
  lemma CompleteOnlyAdds<T, F>(m: Model<T, F>, key: string, f: F, loaded: Option<T>, size: nat,
                               now: int, observed: int, retainTTL: int, b: Budget)
    requires retainTTL > 0 ==> 0 < b.maxEntries
    ensures forall x | x in Complete(m, key, f, loaded, size, now, observed, retainTTL, b).items ::
              || x in m.items
              || (key in m.flights && m.flights[key] == f && loaded.Some?
                  && x == Item(key, loaded.value, size, observed, observed + retainTTL))
  {
    var rest := Without(Live(m.items, now), key);
    if retainTTL > 0 && size <= b.limit {
      RetainedIsLongestFit(rest, size, b);
      assert forall x | x in Retained(rest, size, b) :: x in rest;
    }
  }

  /** A completed load is worth its while: as long as its source is young enough and it fits the byte limit, the
      next caller of the key hits it, whatever was evicted to make room. */
  lemma CompletedValueIsHit<T, F>(m: Model<T, F>, key: string, f: F, value: T, size: nat, now: int, observed: int,
                                  retainTTL: int, b: Budget, later: int, maxAge: int, hasLoader: bool, leader: F)
    requires 0 < b.maxEntries && size <= b.limit && key in m.flights && m.flights[key] == f
    requires now <= later < observed + retainTTL && later < observed + maxAge && retainTTL > 0 && maxAge > 0
    ensures Begin(Complete(m, key, f, Some(value), size, now, observed, retainTTL, b), key, later, maxAge, hasLoader,
                  leader).0
            == Hit(value)
  {
    var c := Complete(m, key, f, Some(value), size, now, observed, retainTTL, b);
    var item := Item(key, value, size, observed, observed + retainTTL);
    assert c.items[0] == item && IsLive(later)(item);
    hide Retained, Complete;
    assert Live(c.items, later)[0] == item;
  }

  /** A load that was invalidated away changes nothing when it completes. */
  lemma DetachedLoadIsIgnored<T, F>(m: Model<T, F>, key: string, f: F, loaded: Option<T>, size: nat, now: int,
                                    observed: int, retainTTL: int, b: Budget, prefix: string)
    requires (retainTTL > 0 ==> 0 < b.maxEntries) && HasPrefix(key, prefix)
    ensures Complete(Invalidate(m, key), key, f, loaded, size, now, observed, retainTTL, b) == Invalidate(m, key)
    ensures Complete(InvalidatePrefix(m, prefix), key, f, loaded, size, now, observed, retainTTL, b) ==
            InvalidatePrefix(m, prefix)
  {
  }

  /** After an invalidation the next caller of the key neither hits nor joins: it must load. */
  lemma InvalidatedKeyLoadsAgain<T, F>(m: Model<T, F>, key: string, prefix: string, now: int, maxAge: int, leader: F)
    requires HasPrefix(key, prefix)
    ensures Begin(Invalidate(m, key), key, now, maxAge, true, leader).0 == Lead
    ensures Begin(InvalidatePrefix(m, prefix), key, now, maxAge, true, leader).0 == Lead
  {
    FindAbsent(Live(Invalidate(m, key).items, now), key);
    FindAbsent(Live(InvalidatePrefix(m, prefix).items, now), key);
    assert forall x | x in Invalidate(m, key).items :: IsNot(key)(x);
    assert forall x | x in InvalidatePrefix(m, prefix).items :: IsOutside(prefix)(x);
  }
}
