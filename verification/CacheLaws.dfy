/** What the cache's operations mean, item by item (internal/cache/cache.go): who is served, who stays, in which
    order, and who is evicted. */
module CacheLaws {
  import opened Prelude
  import opened CacheModel

  /** The list is in order of rank, the highest first. */
  ghost predicate Descending<T>(s: seq<Item<T>>, rank: map<string, nat>) {
    && (forall x | x in s :: x.key in rank)
    && forall i, j | 0 <= i < j < |s| :: rank[s[i].key] > rank[s[j].key]
  }

  /** A retained item that may be served at `now` to a caller that accepts values younger than maxAge. */
  predicate Serves<T>(x: Item<T>, key: string, now: int, maxAge: int) {
    x.key == key && now < x.expires && maxAge > 0 && now < x.observed + maxAge
  }

  lemma DescendingStep<T>(s: seq<Item<T>>, rank: map<string, nat>)
    requires s != []
    ensures Descending(s, rank) <==>
            && Descending(s[1..], rank) && s[0].key in rank
            && forall x | x in s[1..] :: x.key in rank && rank[x.key] < rank[s[0].key]
  {
    assert forall i | 0 <= i < |s[1..]| :: s[1..][i] == s[i + 1];
    assert forall j | 0 < j < |s| :: s[j] == s[1..][j - 1];
  }

  lemma {:induction false} KeepDescends<T>(s: seq<Item<T>>, p: Item<T> -> bool, rank: map<string, nat>)
    requires Descending(s, rank)
    ensures Descending(Keep(s, p), rank)
  {
    if s != [] {
      hide Descending;
      DescendingStep(s, rank);
      KeepDescends(s[1..], p, rank);
      var rest := Keep(s[1..], p);
      DescendingStep([s[0]] + rest, rank);
      assert ([s[0]] + rest)[1..] == rest;
    }
  }

  lemma RerankDescends<T>(s: seq<Item<T>>, rank: map<string, nat>, key: string, top: nat)
    requires Descending(s, rank) && forall x | x in s :: x.key != key
    ensures Descending(s, rank[key := top])
  {
  }

  lemma FrontDescends<T>(x: Item<T>, s: seq<Item<T>>, rank: map<string, nat>)
    requires Descending(s, rank) && x.key in rank && forall y | y in s :: rank[y.key] < rank[x.key]
    ensures Descending([x] + s, rank)
  {
  }

  // ----- reading ------------------------------------------------------------------------------

  /** Which of the four answers a caller gets, and what the read leaves behind: everything that has not expired. */
  lemma BeginDecides<T, F>(m: Model<T, F>, key: string, now: int, maxAge: int, hasLoader: bool, leader: F)
    requires DistinctKeys(m.items)
    ensures var (r, n) := Begin(m, key, now, maxAge, hasLoader, leader);
            var served := exists x | x in m.items :: Serves(x, key, now, maxAge);
            && (forall x | x in m.items && Serves(x, key, now, maxAge) :: r == Hit(x.value))
            && (!served ==>
                r == if key in m.flights then Join(m.flights[key]) else if hasLoader then Lead else NoLoader)
            && n.flights == (if r == Lead then m.flights[key := leader] else m.flights)
            && (forall x :: x in n.items <==> x in m.items && now < x.expires)
  {
    var live := Live(m.items, now);
    KeepDistinct(m.items, IsLive(now));
    FindAbsent(live, key);
    forall x | x in m.items && Serves(x, key, now, maxAge)
      ensures Begin(m, key, now, maxAge, hasLoader, leader).0 == Hit(x.value)
    {
      assert IsLive(now)(x);
      FindInDistinct(live, x);
    }
    OnlyOneOfAKey(live, key);
    assert forall x | x in live :: IsLive(now)(x) && x in m.items;
    assert forall x | x in m.items && now < x.expires :: IsLive(now)(x);
    assert forall x | x in live && x.key != key :: IsNot(key)(x);
  }

  lemma OnlyOneOfAKey<T>(s: seq<Item<T>>, key: string)
    requires DistinctKeys(s)
    ensures forall x | x in s && x.key == key :: Find(s, key) == Some(x)
  {
    forall x | x in s && x.key == key ensures Find(s, key) == Some(x) { FindInDistinct(s, x); }
  }

  /** A hit becomes the most recent item; nothing else changes places. */
  lemma HitComesFirst<T, F>(m: Model<T, F>, key: string, now: int, maxAge: int, hasLoader: bool, leader: F,
                            rank: map<string, nat>, top: nat)
    requires DistinctKeys(m.items) && Descending(m.items, rank) && forall x | x in m.items :: rank[x.key] < top
    ensures var (r, n) := Begin(m, key, now, maxAge, hasLoader, leader);
            && Descending(n.items, if r.Hit? then rank[key := top] else rank)
            && (r.Hit? ==> n.items != [] && n.items[0].key == key)
  {
    var live := Live(m.items, now);
    KeepDescends(m.items, IsLive(now), rank);
    FindAbsent(live, key);
    if Begin(m, key, now, maxAge, hasLoader, leader).0.Hit? {
      var x, rest := Find(live, key).value, Without(live, key);
      KeepDescends(live, IsNot(key), rank);
      assert forall y | y in rest :: IsNot(key)(y) && y in m.items;
      RerankDescends(rest, rank, key, top);
      FrontDescends(x, rest, rank[key := top]);
    }
  }

  /** Peeking serves exactly what reading would. */
  lemma PeekServesHits<T, F>(m: Model<T, F>, key: string, now: int, maxAge: int, hasLoader: bool, leader: F)
    ensures var found := Peek(Live(m.items, now), key, now, maxAge);
            var r := Begin(m, key, now, maxAge, hasLoader, leader).0;
            (found.Some? <==> r.Hit?) && (found.Some? ==> r == Hit(found.value.0))
  {
  }

  /** Peeking finds exactly a retained item that may be served, with its observation. */
  lemma PeekDecides<T>(s: seq<Item<T>>, key: string, now: int, maxAge: int)
    requires DistinctKeys(s)
    ensures var found := Peek(Live(s, now), key, now, maxAge);
            && (forall x | x in s && Serves(x, key, now, maxAge) :: found == Some((x.value, x.observed)))
            && (found.Some? ==>
                exists x | x in s :: Serves(x, key, now, maxAge) && found == Some((x.value, x.observed)))
  {
    var live := Live(s, now);
    KeepDistinct(s, IsLive(now));
    FindAbsent(live, key);
    forall x | x in s && Serves(x, key, now, maxAge)
      ensures Peek(live, key, now, maxAge) == Some((x.value, x.observed))
    {
      assert IsLive(now)(x);
      FindInDistinct(live, x);
    }
    var found := Find(live, key);
    assert found.Some? ==> found.value in s && IsLive(now)(found.value);
  }

  // ----- publishing ---------------------------------------------------------------------------

  /** Whether a finished load's value is worth retaining. */
  predicate Retains(size: nat, now: int, observed: int, retainTTL: int, b: Budget) {
    retainTTL > 0 && now < observed + retainTTL && size <= b.limit
  }

  /** Only an attached load detaches and publishes; a published value replaces its key's item and expired ones, and
      an item of another key leaves only for room. */
  lemma CompleteDecides<T, F>(m: Model<T, F>, key: string, f: F, loaded: Option<T>, size: nat, now: int, observed: int,
                              retainTTL: int, b: Budget)
    requires DistinctKeys(m.items) && (retainTTL > 0 ==> 0 < b.maxEntries)
    ensures var n := Complete(m, key, f, loaded, size, now, observed, retainTTL, b);
            var attached := key in m.flights && m.flights[key] == f;
            && n.flights == (if attached then m.flights - {key} else m.flights)
            && (!attached || loaded.None? ==> n.items == m.items)
            && (attached && loaded.Some? ==>
                && (forall x | x in n.items && x.key != key :: x in m.items && now < x.expires)
                && (forall x | x in n.items && x.key == key ::
                      x == Item(key, loaded.value, size, observed, observed + retainTTL))
                && ((exists x | x in n.items :: x.key == key) <==> Retains(size, now, observed, retainTTL, b))
                && (Retains(size, now, observed, retainTTL, b) ==> n.items[0].key == key)
                && (!Retains(size, now, observed, retainTTL, b) ==>
                    forall x | x in m.items && now < x.expires && x.key != key :: x in n.items))
  {
    if key in m.flights && m.flights[key] == f && loaded.Some? {
      var rest := Without(Live(m.items, now), key);
      OthersStay(m.items, key, now);
      if Retains(size, now, observed, retainTTL, b) {
        RetainedIsLongestFit(rest, size, b);
        assert Complete(m, key, f, loaded, size, now, observed, retainTTL, b).items[0].key == key;
        assert forall x | x in Retained(rest, size, b) :: x in rest;
      }
    }
  }

  lemma OthersStay<T>(s: seq<Item<T>>, key: string, now: int)
    ensures forall x :: x in Without(Live(s, now), key) <==> x in s && now < x.expires && x.key != key
  {
    forall x ensures x in Without(Live(s, now), key) <==> x in s && now < x.expires && x.key != key {
      assert x in Live(s, now) <==> x in s && IsLive(now)(x);
      assert x in Without(Live(s, now), key) <==> x in Live(s, now) && IsNot(key)(x);
    }
  }

  /** A retained value becomes the most recent item; nothing else changes places, and whoever is evicted ranks
      below everyone who stays. */
  lemma PublishedComesFirst<T, F>(m: Model<T, F>, key: string, f: F, loaded: Option<T>, size: nat, now: int,
                                  observed: int, retainTTL: int, b: Budget, rank: map<string, nat>, top: nat)
    requires DistinctKeys(m.items) && (retainTTL > 0 ==> 0 < b.maxEntries)
    requires Descending(m.items, rank) && forall x | x in m.items :: rank[x.key] < top
    ensures var n := Complete(m, key, f, loaded, size, now, observed, retainTTL, b);
            var published := key in m.flights && m.flights[key] == f && loaded.Some?
                             && Retains(size, now, observed, retainTTL, b);
            && Descending(n.items, if published then rank[key := top] else rank)
            && forall x, y | x in m.items && now < x.expires && x.key != key && x !in n.items
                             && y in n.items && y.key != key :: rank[x.key] < rank[y.key]
  {
    if key in m.flights && m.flights[key] == f && loaded.Some? {
      hide Descending, Retained, Keep, Live, Without, DistinctKeys;
      var rest := Without(Live(m.items, now), key);
      OthersStay(m.items, key, now);
      OthersDescend(m.items, key, now, rank);
      if Retains(size, now, observed, retainTTL, b) {
        InsertDescends(rest, Item(key, loaded.value, size, observed, observed + retainTTL), b, rank, top);
      }
    }
  }

  lemma OthersDescend<T>(s: seq<Item<T>>, key: string, now: int, rank: map<string, nat>)
    requires Descending(s, rank)
    ensures Descending(Without(Live(s, now), key), rank)
  {
    KeepDescends(s, IsLive(now), rank);
    KeepDescends(Live(s, now), IsNot(key), rank);
  }

  lemma InsertDescends<T>(s: seq<Item<T>>, item: Item<T>, b: Budget, rank: map<string, nat>, top: nat)
    requires Descending(s, rank) && 0 < b.maxEntries && item.size <= b.limit
    requires forall x | x in s :: x.key in rank && rank[x.key] < top && x.key != item.key
    ensures Descending(Insert(s, item, b), rank[item.key := top])
    ensures forall x, y | x in s && x !in Insert(s, item, b) && y in Insert(s, item, b) && y.key != item.key ::
              x.key in rank && y.key in rank && rank[x.key] < rank[y.key]
  {
    RetainedIsLongestFit(s, item.size, b);
    var kept := Retained(s, item.size, b);
    hide Retained;
    PrefixDescends(kept, s, rank);
    RerankDescends(kept, rank, item.key, top);
    FrontDescends(item, kept, rank[item.key := top]);
  }

  lemma PrefixDescends<T>(r: seq<Item<T>>, s: seq<Item<T>>, rank: map<string, nat>)
    requires r <= s && Descending(s, rank)
    ensures Descending(r, rank)
    ensures forall x, y | x in s && x !in r && y in r :: rank[x.key] < rank[y.key]
  {
    forall x, y | x in s && x !in r && y in r ensures rank[x.key] < rank[y.key] {
      var i :| 0 <= i < |s| && s[i] == x;
      var j :| 0 <= j < |r| && r[j] == y;
      assert r[j] == s[j];
      BeyondPrefix(r, s, i);
    }
  }

  lemma BeyondPrefix<A>(r: seq<A>, s: seq<A>, i: nat)
    requires r <= s && i < |s| && s[i] !in r
    ensures |r| <= i
  {
    assert forall k | 0 <= k < |r| :: s[k] == r[k];
  }

  /** No more is evicted than room demands: with the most recent evicted item back, a budget would be exceeded. */
  lemma EvictsOnlyForRoom<T, F>(m: Model<T, F>, key: string, f: F, loaded: Option<T>, size: nat, now: int,
                                observed: int, retainTTL: int, b: Budget)
    requires DistinctKeys(m.items) && (retainTTL > 0 ==> 0 < b.maxEntries)
    requires exists x | x in m.items :: now < x.expires && x.key != key
                        && x !in Complete(m, key, f, loaded, size, now, observed, retainTTL, b).items
    ensures var n := Complete(m, key, f, loaded, size, now, observed, retainTTL, b);
            exists x | x in m.items :: && now < x.expires && x.key != key && x !in n.items
              && (|n.items| + 1 > b.maxEntries || TotalSize(n.items) + x.size > b.limit)
  {
    CompleteDecides(m, key, f, loaded, size, now, observed, retainTTL, b);
    var rest := Without(Live(m.items, now), key);
    OthersStay(m.items, key, now);
    KeepDistinct(m.items, IsLive(now));
    KeepDistinct(Live(m.items, now), IsNot(key));
    var item := Item(key, loaded.value, size, observed, observed + retainTTL);
    assert Complete(m, key, f, loaded, size, now, observed, retainTTL, b).items == [item] + Retained(rest, size, b);
    hide Retained, Complete, Keep, Live, Without;
    InsertEvictsOnlyForRoom(rest, item, b);
  }

  lemma InsertEvictsOnlyForRoom<T>(s: seq<Item<T>>, item: Item<T>, b: Budget)
    requires DistinctKeys(s) && 0 < b.maxEntries && item.size <= b.limit
    requires exists x | x in s :: x !in [item] + Retained(s, item.size, b)
    requires forall x | x in s :: x.key != item.key
    ensures var n := [item] + Retained(s, item.size, b);
            exists x | x in s :: x !in n && (|n| + 1 > b.maxEntries || TotalSize(n) + x.size > b.limit)
  {
    RetainedIsLongestFit(s, item.size, b);
    var kept := Retained(s, item.size, b);
    hide Retained;
    assert kept == s[..|kept|];
    assert |kept| < |s|;
    var x := s[|kept|];
    assert s[..|kept| + 1] == kept + [x];
    TotalOfMore(kept, x);
    assert ([item] + kept)[1..] == kept;
    NextIsNotBefore(s, |kept|);
    assert x !in [item] + kept;
  }

  lemma {:induction false} TotalOfMore<T>(s: seq<Item<T>>, x: Item<T>)
    ensures TotalSize(s + [x]) == TotalSize(s) + x.size
  {
    if s == [] {
      assert ([x])[1..] == [] && s + [x] == [x];
    } else {
      TotalOfMore(s[1..], x);
      assert (s + [x])[1..] == s[1..] + [x];
    }
  }

  lemma {:induction false} NextIsNotBefore<T>(s: seq<Item<T>>, k: nat)
    requires DistinctKeys(s) && k < |s|
    ensures s[k] !in s[..k]
  {
    if k > 0 {
      NextIsNotBefore(s[1..], k - 1);
      assert s[..k] == [s[0]] + s[1..][..k - 1] && s[k] == s[1..][k - 1];
    }
  }

  // ----- invalidating -------------------------------------------------------------------------

  /** An invalidation takes exactly what it covers; the rest keeps its order. */
  lemma InvalidationSparesOthers<T, F>(m: Model<T, F>, key: string, prefix: string, rank: map<string, nat>)
    requires Descending(m.items, rank)
    ensures var n := Invalidate(m, key);
            && (forall x :: x in n.items <==> x in m.items && x.key != key) && Descending(n.items, rank)
            && (forall k :: k in n.flights <==> k in m.flights && k != key)
            && (forall k | k in n.flights :: n.flights[k] == m.flights[k])
    ensures var n := InvalidatePrefix(m, prefix);
            && (forall x :: x in n.items <==> x in m.items && !HasPrefix(x.key, prefix)) && Descending(n.items, rank)
            && (forall k :: k in n.flights <==> k in m.flights && !HasPrefix(k, prefix))
            && (forall k | k in n.flights :: n.flights[k] == m.flights[k])
  {
    KeepDescends(m.items, IsNot(key), rank);
    KeepDescends(m.items, IsOutside(prefix), rank);
    forall x ensures x in Without(m.items, key) <==> x in m.items && x.key != key {
      assert x in Without(m.items, key) <==> x in m.items && IsNot(key)(x);
    }
    forall x ensures x in Outside(m.items, prefix) <==> x in m.items && !HasPrefix(x.key, prefix) {
      assert x in Outside(m.items, prefix) <==> x in m.items && IsOutside(prefix)(x);
    }
  }
}
