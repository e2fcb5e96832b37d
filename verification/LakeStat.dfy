/** Stat in front of the pair of caches, and the erasures of a mutator, as they run on the caches themselves
    (internal/workspacefs/cached_clients.go). */
module LakeStat {
  import opened Prelude
  import M = CacheModel
  import L = CacheLaws
  import S = CacheStore
  import opened CacheProtocol
  import opened LakeCache

  /** `dated` is false for an entry listed without a modification time. */
  datatype Info = Info(path: string, dated: bool, isDir: bool, etag: string)

  datatype Listing = Listing(items: seq<Info>)

  /** A retained listing told it, or the stat cache was asked. */
  datatype Answer = Told(info: Info) | Asked(lookup: M.Lookup<Info, S.Flight<Info>>)

  /** A listed entry that says all a Stat of the path would. */
  predicate Tells(info: Info, relative: string) {
    info.path == relative && info.dated && (info.isDir || info.etag != "")
  }

  function Least(a: int, b: int): int { if a < b then a else b }

  /** The first entry that tells. */
  function Teller(items: seq<Info>, relative: string): (r: Option<Info>)
    ensures r.Some? <==> exists i | i in items :: Tells(i, relative)
    ensures r.Some? ==> r.value in items && Tells(r.value, relative)
  {
    if items == [] then None else if Tells(items[0], relative) then Some(items[0]) else Teller(items[1..], relative)
  }

  /** No retained listing or stat and no load under way could answer a Stat of q. */
  ghost predicate MustAsk(stats: M.Model<Info, S.Flight<Info>>, lists: M.Model<Listing, S.Flight<Listing>>, q: Path) {
    && (forall x | x in stats.items :: x.key != LakeKey(q)) && LakeKey(q) !in stats.flights
    && (LastSlash(q.relative) >= 0 ==> forall x | x in lists.items :: x.key != LakeKey(Parent(q)))
  }

  /** A retained listing of the path's parent, young enough, that tells. */
  ghost predicate ToldBy(x: M.Item<Listing>, p: Path, now: int, maxAge: int, info: Info) {
    && 0 <= LastSlash(p.relative) && L.Serves(x, LakeKey(Parent(p)), now, maxAge)
    && Teller(x.value.items, p.relative) == Some(info)
  }

  predicate CoveredBy(script: seq<Target>, which: Which, key: string) {
    exists t | t in script :: t.which == which && Covers(t.scope, key)
  }

  /** Exactly what these targets cover is gone. */
  ghost predicate Erased<T, F>(was: M.Model<T, F>, now: M.Model<T, F>, script: seq<Target>, which: Which) {
    && (forall x | x in now.items :: x in was.items && !CoveredBy(script, which, x.key))
    && (forall x | x in was.items && !CoveredBy(script, which, x.key) :: x in now.items)
    && (forall k :: k in now.flights <==> k in was.flights && !CoveredBy(script, which, k))
    && forall k | k in now.flights :: now.flights[k] == was.flights[k]
  }

  /** One more target of this cache. */
  lemma ErasedMore<T, F>(was: M.Model<T, F>, m: M.Model<T, F>, now: M.Model<T, F>, script: seq<Target>, t: Target)
    requires Erased(was, m, script, t.which) && Erased(m, now, [t], t.which)
    ensures Erased(was, now, script + [t], t.which)
  {
    forall k ensures CoveredBy(script + [t], t.which, k) <==>
      CoveredBy(script, t.which, k) || CoveredBy([t], t.which, k) {
      if CoveredBy(script, t.which, k) {
        var u :| u in script && u.which == t.which && Covers(u.scope, k);
        assert u in script + [t];
      }
      assert t in [t] && t in script + [t];
    }
    hide CoveredBy;
  }

  lemma KeyErased<T, F>(m: M.Model<T, F>, which: Which, key: string)
    ensures Erased(m, M.Invalidate(m, key), [Target(which, Exact(key))], which)
  {
    forall k ensures CoveredBy([Target(which, Exact(key))], which, k) <==> k == key {
      assert Target(which, Exact(key)) in [Target(which, Exact(key))];
    }
    assert forall x | x in m.items && x.key != key :: M.IsNot(key)(x);
    hide CoveredBy;
  }

  lemma PrefixErased<T, F>(m: M.Model<T, F>, which: Which, prefix: string)
    ensures Erased(m, M.InvalidatePrefix(m, prefix), [Target(which, Prefix(prefix))], which)
  {
    forall k ensures CoveredBy([Target(which, Prefix(prefix))], which, k) <==> HasPrefix(k, prefix) {
      assert Target(which, Prefix(prefix)) in [Target(which, Prefix(prefix))];
    }
    assert forall x | x in m.items && !HasPrefix(x.key, prefix) :: M.IsOutside(prefix)(x);
    hide CoveredBy;
  }

  function Under(key: string, which: Which): seq<Target> {
    [Target(which, Exact(key))] + [Target(which, Prefix(key + "/"))]
  }

  /** What invalidating p erases in one of the caches. */
  function Mine(p: Path, which: Which): seq<Target> {
    var key := LakeKey(p);
    var split := LastSlash(key);
    Under(key, which) + if split >= 0 then [Target(which, Exact(key[..split]))] else []
  }

  lemma NothingMore(p: Path, which: Which)
    ensures LastSlash(LakeKey(p)) < 0 ==> Mine(p, which) == Under(LakeKey(p), which)
  {
  }

  lemma MineIsTheScript(p: Path, which: Which)
    ensures forall k :: CoveredBy(Mine(p, which), which, k) <==> CoveredBy(Script(p), which, k)
  {
    hide LakeKey, Covers;
    forall t: Target ensures t.which == which ==> (t in Mine(p, which) <==> t in Script(p)) {}
    hide Mine, Script;
  }

  lemma SameErased<T, F>(was: M.Model<T, F>, now: M.Model<T, F>, p: Path, which: Which)
    requires Erased(was, now, Mine(p, which), which)
    ensures Erased(was, now, Script(p), which)
  {
    MineIsTheScript(p, which);
    hide CoveredBy, Mine, Script;
  }

  /** After p was invalidated, a Stat of p or of anything below it must ask. */
  lemma InvalidatedMustAsk(p: Path, q: Path,
                           stats0: M.Model<Info, S.Flight<Info>>, stats: M.Model<Info, S.Flight<Info>>,
                           lists0: M.Model<Listing, S.Flight<Listing>>, lists: M.Model<Listing, S.Flight<Listing>>)
    requires Below(p, q) && Erased(stats0, stats, Script(p), Stats) && Erased(lists0, lists, Script(p), Lists)
    ensures MustAsk(stats, lists, q)
  {
    StatIsErased(p, q, Consult(Stats, LakeKey(q)));
    assert CoveredBy(Script(p), Stats, LakeKey(q));
    if LastSlash(q.relative) >= 0 {
      StatIsErased(p, q, Consult(Lists, LakeKey(Parent(q))));
      assert CoveredBy(Script(p), Lists, LakeKey(Parent(q)));
    }
    hide Script, CoveredBy, LakeKey;
  }

  lemma Unaskable(stats: M.Model<Info, S.Flight<Info>>, lists: M.Model<Listing, S.Flight<Listing>>, p: Path)
    ensures forall x, now, maxAge, info | MustAsk(stats, lists, p) && x in lists.items ::
            !ToldBy(x, p, now, maxAge, info)
  {
    hide LakeKey, Teller;
  }

  lemma MustLead(stats: M.Model<Info, S.Flight<Info>>, lists: M.Model<Listing, S.Flight<Listing>>, p: Path, now: int,
                 attr: int, leader: S.Flight<Info>)
    requires MustAsk(stats, lists, p) && M.DistinctKeys(stats.items)
    ensures M.Begin(stats, LakeKey(p), now, attr, true, leader).0 == M.Lead
  {
    L.BeginDecides(stats, LakeKey(p), now, attr, true, leader);
    hide LakeKey, M.Begin, M.DistinctKeys;
  }

  class CachedLake {
    const stats: S.Cache<Info>
    const lists: S.Cache<Listing>

    constructor (stats: S.Cache<Info>, lists: S.Cache<Listing>)
      ensures this.stats == stats && this.lists == lists
    {
      this.stats, this.lists := stats, lists;
    }

    /** What a retained listing of the parent directory says about the path. */
    method LookInParent(p: Path, now: int, maxAge: int) returns (r: Option<Info>)
      requires stats.Valid() && lists.Valid()
      modifies lists, lists.expiry`nodes, lists.expiry`members, lists.expiry.members`expiryIndex
      ensures lists.Valid() && stats.Valid() && stats.Model() == old(stats.Model())
      ensures r.Some? ==>
                !lists.broken && exists x | x in old(lists.Model().items) :: ToldBy(x, p, now, maxAge, r.value)
      ensures !lists.broken ==>
                forall x, info | x in old(lists.Model().items) && ToldBy(x, p, now, maxAge, info) :: r == Some(info)
    {
      hide S.Agree, M.DistinctKeys, LakeKey;
      r := None;
      if LastSlash(p.relative) < 0 { return; }
      Distinct(lists);
      var key := LakeKey(Parent(p));
      L.PeekDecides(lists.Model().items, key, now, maxAge);
      ghost var was := lists.Model().items;
      var found := lists.PeekWithin(key, now, maxAge);
      if found.None? { return; }
      var items := found.value.0.items;
      assert items[0..] == items;
      for i := 0 to |items|
        invariant Teller(items, p.relative) == Teller(items[i..], p.relative)
      {
        assert items[i..][1..] == items[i + 1..];
        if Tells(items[i], p.relative) { return Some(items[i]); }
      }
    }

    lemma Distinct<T>(c: S.Cache<T>)
      requires c.Valid()
      ensures M.DistinctKeys(c.Model().items)
    {
    }

    /** Stat up to the point where it has its answer, waits for a load, or must run one. */
    method Stat(p: Path, now: int, attr: int, directory: int) returns (r: Answer, leader: S.Flight<Info>)
      requires stats.Valid() && lists.Valid()
      modifies lists, lists.expiry`nodes, lists.expiry`members, lists.expiry.members`expiryIndex
      modifies stats, stats.expiry`nodes, stats.expiry`members, stats.expiry.members`expiryIndex
      ensures stats.Valid() && lists.Valid()
      ensures r.Told? ==>
                && stats.Model() == old(stats.Model())
                && exists x | x in old(lists.Model().items) :: ToldBy(x, p, now, Least(attr, directory), r.info)
      ensures !lists.broken ==>
                forall x, info | x in old(lists.Model().items) && ToldBy(x, p, now, Least(attr, directory), info) ::
                  r == Told(info)
      ensures r.Asked? ==> (r.lookup, stats.Model()) == M.Begin(old(stats.Model()), LakeKey(p), now, attr, true, leader)
      ensures old(MustAsk(stats.Model(), lists.Model(), p)) ==> r == Asked(M.Lead)
    {
      hide S.Agree, M.DistinctKeys, LakeKey, M.Begin, Teller, MustAsk, ToldBy, Parent, LastSlash;
      leader := new S.Flight();
      Unaskable(stats.Model(), lists.Model(), p);
      var told := LookInParent(p, now, Least(attr, directory));
      if told.Some? { return Told(told.value), leader; }
      Distinct(stats);
      var lookup;
      ghost var was := stats.Model();
      lookup, leader := stats.Begin(LakeKey(p), now, attr, true);
      if MustAsk(was, old(lists.Model()), p) { MustLead(was, old(lists.Model()), p, now, attr, leader); }
      r := Asked(lookup);
    }

    /** invalidate: what may have changed with p, in both caches. */
    method Invalidate(p: Path)
      requires stats.Valid() && lists.Valid()
      modifies lists, lists.expiry`nodes, lists.expiry`members, lists.expiry.members`expiryIndex
      modifies stats, stats.expiry`nodes, stats.expiry`members, stats.expiry.members`expiryIndex
      ensures stats.Valid() && lists.Valid()
      ensures Erased(old(stats.Model()), stats.Model(), Script(p), Stats)
      ensures Erased(old(lists.Model()), lists.Model(), Script(p), Lists)
    {
      var key := LakeKey(p);
      hide S.Agree, Erased, M.Invalidate, M.InvalidatePrefix, LakeKey;
      ghost var stats0, lists0 := stats.Model(), lists.Model();
      EraseUnder(stats, key, Stats);
      EraseUnder(lists, key, Lists);
      var split := LastSlash(key);
      if split >= 0 {
        EraseAlso(stats, key[..split], Stats, stats0, Under(key, Stats));
        EraseAlso(lists, key[..split], Lists, lists0, Under(key, Lists));
      }
      NothingMore(p, Stats);
      NothingMore(p, Lists);
      SameErased(stats0, stats.Model(), p, Stats);
      SameErased(lists0, lists.Model(), p, Lists);
    }

    /** Exactly the key, and everything below it. */
    method EraseUnder<T>(c: S.Cache<T>, key: string, ghost which: Which)
      requires c.Valid()
      modifies c, c.expiry`nodes, c.expiry`members, c.expiry.members`expiryIndex
      ensures c.Valid() && c.expiry.members <= old(c.expiry.members)
      ensures Erased(old(c.Model()), c.Model(), Under(key, which), which)
    {
      hide S.Agree, Erased, M.Invalidate, M.InvalidatePrefix;
      ghost var m0 := c.Model();
      c.Invalidate(key);
      KeyErased(m0, which, key);
      ghost var m1 := c.Model();
      c.InvalidatePrefix(key + "/");
      PrefixErased(m1, which, key + "/");
      ErasedMore(m0, m1, c.Model(), [Target(which, Exact(key))], Target(which, Prefix(key + "/")));
    }

    method EraseAlso<T>(c: S.Cache<T>, key: string, ghost which: Which, ghost was: M.Model<T, S.Flight<T>>,
                        ghost script: seq<Target>)
      requires c.Valid() && Erased(was, c.Model(), script, which)
      modifies c, c.expiry`nodes, c.expiry`members, c.expiry.members`expiryIndex
      ensures c.Valid() && Erased(was, c.Model(), script + [Target(which, Exact(key))], which)
    {
      hide S.Agree, Erased, M.Invalidate;
      ghost var m := c.Model();
      c.Invalidate(key);
      KeyErased(m, which, key);
      ErasedMore(was, m, c.Model(), script, Target(which, Exact(key)));
    }
  }
}
