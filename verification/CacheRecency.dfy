/** Order and sharing over whole runs of the cache (internal/cache/cache.go): the list is in order of last use, room
    is made at its old end, and one key is loaded once at a time. */
module CacheRecency {
  import opened Prelude
  import M = CacheModel
  import L = CacheLaws
  import opened CacheProtocol

  // ----- last use -----------------------------------------------------------------------------

  /** The key a step uses, told by what is seen around it: a call served at once uses its key, and so does a load
      whose value is retained. Peeking is not a use. */
  ghost function Uses<V>(s: Shared<V>, step: Step<V>, t: Shared<V>): Option<string> {
    match step
    case Get(c, key, _, _, _) =>
      if c in t.calls && t.calls[c].Returned? && t.calls[c].answer.Served? then Some(key) else None
    case Finish(c, _, _, _, _, _) =>
      if c in s.calls && s.calls[c].Leading? && exists x | x in t.cache.items :: x.value.load == s.calls[c].load
      then Some(s.calls[c].key) else None
    case _ => None
  }

  ghost function Noted<V>(s: Shared<V>, step: Step<V>, t: Shared<V>, used: map<string, nat>): map<string, nat> {
    var key := Uses(s, step, t);
    if key.Some? then used[key.value := s.time] else used
  }

  /** At which step each key was last used in a run. */
  ghost function LastUses<V>(s: Shared<V>, trace: seq<Step<V>>, b: M.Budget, used: map<string, nat>): map<string, nat>
    requires Runs(s, trace, b)
    decreases |trace|
  {
    if trace == [] then used
    else
      var t := Apply(s, trace[0], b);
      LastUses(t, trace[1..], b, Noted(s, trace[0], t, used))
  }

  ghost predicate Recent<V>(s: Shared<V>, used: map<string, nat>) {
    L.Descending(s.cache.items, used) && forall x | x in s.cache.items :: used[x.key] < s.time
  }

  lemma UsedKeys<V>(s: Shared<V>, used: map<string, nat>)
    requires Recent(s, used)
    ensures forall y | y in s.cache.items :: y.key in used
  {
  }

  lemma GetKeepsRecent<V>(s: Shared<V>, step: Step<V>, b: M.Budget, used: map<string, nat>)
    requires Inv(s, b) && Recent(s, used) && step.Get? && Enabled(s, step, b)
    ensures Recent(Apply(s, step, b), Noted(s, step, Apply(s, step, b), used))
  {
    UsedKeys(s, used);
    hide M.Begin, L.Descending;
    L.HitComesFirst(s.cache, step.key, step.now, step.maxAge, step.hasLoader, |s.loads|, used, s.time);
    L.BeginDecides(s.cache, step.key, step.now, step.maxAge, step.hasLoader, |s.loads|);
  }

  /** A load's value is retained exactly when some item carries that load afterwards. */
  lemma FinishUses<V>(s: Shared<V>, step: Step<V>, b: M.Budget)
    requires Inv(s, b) && step.Finish? && Enabled(s, step, b)
    ensures var key, f := s.calls[step.call].key, s.calls[step.call].load;
            Uses(s, step, Apply(s, step, b)) ==
            if key in s.cache.flights && s.cache.flights[key] == f && step.loaded.Some?
               && L.Retains(step.size, step.now, step.observed, step.retainTTL, b)
            then Some(key) else None
  {
    var key, f := s.calls[step.call].key, s.calls[step.call].load;
    var reading := if step.loaded.Some? then Some(Reading(f, step.loaded.value)) else None;
    assert GoodCall(s, s.calls[step.call]);
    assert forall x | x in s.cache.items :: GoodItem(s, x);
    hide M.Complete, GoodCall, M.DistinctKeys;
    L.CompleteDecides(s.cache, key, f, reading, step.size, step.now, step.observed, step.retainTTL, b);
  }

  lemma FinishKeepsRecent<V>(s: Shared<V>, step: Step<V>, b: M.Budget, used: map<string, nat>)
    requires Inv(s, b) && Recent(s, used) && step.Finish? && Enabled(s, step, b)
    ensures Recent(Apply(s, step, b), Noted(s, step, Apply(s, step, b), used))
  {
    FinishUses(s, step, b);
    var key, f := s.calls[step.call].key, s.calls[step.call].load;
    var reading := if step.loaded.Some? then Some(Reading(f, step.loaded.value)) else None;
    hide M.Complete, L.Descending, Uses, M.DistinctKeys;
    L.CompleteDecides(s.cache, key, f, reading, step.size, step.now, step.observed, step.retainTTL, b);
    L.PublishedComesFirst(s.cache, key, f, reading, step.size, step.now, step.observed, step.retainTTL, b, used,
                          s.time);
  }

  lemma OthersKeepRecent<V>(s: Shared<V>, step: Step<V>, b: M.Budget, used: map<string, nat>)
    requires Inv(s, b) && Recent(s, used) && !step.Get? && !step.Finish? && Enabled(s, step, b)
    ensures Recent(Apply(s, step, b), Noted(s, step, Apply(s, step, b), used))
  {
    hide M.Peek;
    match step {
      case Peek(_, _, now, _) => L.KeepDescends(s.cache.items, M.IsLive(now), used);
      case Erase(scope) =>
        match scope {
          case Exact(k) => L.KeepDescends(s.cache.items, M.IsNot(k), used);
          case Prefix(p) => L.KeepDescends(s.cache.items, M.IsOutside(p), used);
          case Everything =>
        }
      case _ =>
    }
  }

  lemma StepKeepsRecent<V>(s: Shared<V>, step: Step<V>, b: M.Budget, used: map<string, nat>)
    requires Inv(s, b) && Recent(s, used) && Enabled(s, step, b)
    ensures Recent(Apply(s, step, b), Noted(s, step, Apply(s, step, b), used))
  {
    hide *;
    match step {
      case Get(_, _, _, _, _) => GetKeepsRecent(s, step, b, used);
      case Finish(_, _, _, _, _, _) => FinishKeepsRecent(s, step, b, used);
      case _ => OthersKeepRecent(s, step, b, used);
    }
  }

  lemma {:induction false} RunKeepsRecent<V>(s: Shared<V>, trace: seq<Step<V>>, b: M.Budget, used: map<string, nat>)
    requires Inv(s, b) && Recent(s, used) && Runs(s, trace, b)
    ensures Recent(After(s, trace, b), LastUses(s, trace, b, used))
    decreases |trace|
  {
    if trace != [] {
      hide Inv, Recent, Apply, Enabled, Noted;
      StepKeepsInv(s, trace[0], b);
      StepKeepsRecent(s, trace[0], b, used);
      var t := Apply(s, trace[0], b);
      RunKeepsRecent(t, trace[1..], b, Noted(s, trace[0], t, used));
    }
  }

  /** Over every run, the recency list is strictly in order of last use. */
  lemma ListIsInOrderOfUse<V>(trace: seq<Step<V>>, b: M.Budget)
    requires Runs(Start(), trace, b)
    ensures var items, used := After(Start(), trace, b).cache.items, LastUses(Start(), trace, b, map[]);
            && (forall x | x in items :: x.key in used)
            && forall i, j | 0 <= i < j < |items| :: used[items[i].key] > used[items[j].key]
  {
    RunKeepsRecent(Start(), trace, b, map[]);
  }

  /** Why an item may be gone after a step. */
  ghost predicate MayLeave<V>(s: Shared<V>, step: Step<V>, t: Shared<V>, x: M.Item<Reading<V>>, used: map<string, nat>,
                              b: M.Budget) {
    match step
    case Get(_, _, now, _, _) => x.expires <= now
    case Peek(_, _, now, _) => x.expires <= now
    case Erase(scope) => Covers(scope, x.key)
    case Finish(c, _, _, now, _, _) =>
      && c in s.calls
      && (x.expires <= now || x.key == s.calls[c].key || EvictedFor(s, t, s.calls[c].key, now, x, used, b))
    case _ => false
  }

  /** Everyone who stays was used later, and with the last used of those that left back, a budget would be exceeded. */
  ghost predicate EvictedFor<V>(s: Shared<V>, t: Shared<V>, key: string, now: int, x: M.Item<Reading<V>>,
                                used: map<string, nat>, b: M.Budget) {
    && x.key in used
    && (forall y | y in t.cache.items && y.key != key :: y.key in used && used[x.key] < used[y.key])
    && exists z | z in s.cache.items :: && now < z.expires && z.key != key && z !in t.cache.items
         && (|t.cache.items| + 1 > b.maxEntries || M.TotalSize(t.cache.items) + z.size > b.limit)
  }

  /** What a finished load leaves in the cache. */
  function Left<V>(s: Shared<V>, step: Step<V>, b: M.Budget): M.Model<Reading<V>, nat>
    requires step.Finish? && Enabled(s, step, b)
  {
    var call := s.calls[step.call];
    var reading := if step.loaded.Some? then Some(Reading(call.load, step.loaded.value)) else None;
    M.Complete(s.cache, call.key, call.load, reading, step.size, step.now, step.observed, step.retainTTL, b)
  }

  lemma LeavesLeft<V>(s: Shared<V>, step: Step<V>, b: M.Budget)
    requires step.Finish? && Enabled(s, step, b)
    ensures Apply(s, step, b).cache == Left(s, step, b)
  {
    hide M.Complete;
  }

  lemma EvictedRanksBelow<V>(s: Shared<V>, step: Step<V>, b: M.Budget, used: map<string, nat>, x: M.Item<Reading<V>>)
    requires M.DistinctKeys(s.cache.items) && Recent(s, used) && step.Finish? && Enabled(s, step, b)
    requires x in s.cache.items && step.now < x.expires && x.key != s.calls[step.call].key
    requires x !in Left(s, step, b).items
    ensures x.key in used
    ensures forall y | y in Left(s, step, b).items && y.key != s.calls[step.call].key ::
              y.key in used && used[x.key] < used[y.key]
  {
    var key, f := s.calls[step.call].key, s.calls[step.call].load;
    var reading := if step.loaded.Some? then Some(Reading(f, step.loaded.value)) else None;
    UsedKeys(s, used);
    hide M.Complete, L.Descending, M.DistinctKeys, L.Retains;
    L.CompleteDecides(s.cache, key, f, reading, step.size, step.now, step.observed, step.retainTTL, b);
    L.PublishedComesFirst(s.cache, key, f, reading, step.size, step.now, step.observed, step.retainTTL, b, used,
                          s.time);
  }

  lemma FinishEvicts<V>(s: Shared<V>, step: Step<V>, b: M.Budget, used: map<string, nat>, x: M.Item<Reading<V>>)
    requires Inv(s, b) && Recent(s, used) && step.Finish? && Enabled(s, step, b)
    requires x in s.cache.items && x !in Apply(s, step, b).cache.items
    ensures MayLeave(s, step, Apply(s, step, b), x, used, b)
  {
    LeavesLeft(s, step, b);
    assert M.DistinctKeys(s.cache.items);
    var key, f := s.calls[step.call].key, s.calls[step.call].load;
    hide Apply, Inv, Recent, M.Complete, M.DistinctKeys, M.TotalSize;
    if step.now < x.expires && x.key != key {
      var reading := if step.loaded.Some? then Some(Reading(f, step.loaded.value)) else None;
      EvictedRanksBelow(s, step, b, used, x);
      L.EvictsOnlyForRoom(s.cache, key, f, reading, step.size, step.now, step.observed, step.retainTTL, b);
    }
  }

  lemma OthersLeave<V>(s: Shared<V>, step: Step<V>, b: M.Budget, used: map<string, nat>, x: M.Item<Reading<V>>)
    requires Inv(s, b) && Recent(s, used) && !step.Finish? && Enabled(s, step, b)
    requires x in s.cache.items && x !in Apply(s, step, b).cache.items
    ensures MayLeave(s, step, Apply(s, step, b), x, used, b)
  {
    hide M.Begin, M.DistinctKeys;
    match step {
      case Get(_, key, now, maxAge, hasLoader) => L.BeginDecides(s.cache, key, now, maxAge, hasLoader, |s.loads|);
      case Peek(_, _, now, _) => assert M.IsLive(now)(x) <==> now < x.expires;
      case Erase(scope) =>
        match scope {
          case Exact(k) => assert M.IsNot(k)(x) <==> x.key != k;
          case Prefix(p) => assert M.IsOutside(p)(x) <==> !HasPrefix(x.key, p);
          case Everything =>
        }
      case _ =>
    }
  }

  /** Over every run, at every step: an item leaves only because it expired, was invalidated, was replaced, or was the
      least recently used when there was no room. */
  lemma ItemsLeaveForAReason<V>(trace: seq<Step<V>>, b: M.Budget, step: Step<V>, x: M.Item<Reading<V>>)
    requires Runs(Start(), trace, b) && Enabled(After(Start(), trace, b), step, b)
    requires var s := After(Start(), trace, b); x in s.cache.items && x !in Apply(s, step, b).cache.items
    ensures var s := After(Start(), trace, b);
            MayLeave(s, step, Apply(s, step, b), x, LastUses(Start(), trace, b, map[]), b)
  {
    assert Inv(Start<V>(), b) && Recent(Start<V>(), map[]);
    hide *;
    RunKeepsInv(Start(), trace, b);
    RunKeepsRecent(Start(), trace, b, map[]);
    var s := After(Start(), trace, b);
    if step.Finish? { FinishEvicts(s, step, b, LastUses(Start(), trace, b, map[]), x); }
    else { OthersLeave(s, step, b, LastUses(Start(), trace, b, map[]), x); }
  }

  // ----- one load at a time -------------------------------------------------------------------

  /** Some covering invalidation took place after step `from` and before step `to`. */
  ghost predicate ErasedBetween<V>(s: Shared<V>, key: string, from: nat, to: nat) {
    exists e | e in s.log :: Covers(e.scope, key) && from < e.at < to
  }

  /** An unfinished load is the one its key's callers join, or was invalidated since it began; and of two unfinished
      loads of a key, the first was invalidated before the second began. */
  ghost predicate Single<V>(s: Shared<V>) {
    && (forall f: nat | f < |s.loads| && !s.loads[f].finished ::
          || (s.loads[f].key in s.cache.flights && s.cache.flights[s.loads[f].key] == f)
          || ErasedBetween(s, s.loads[f].key, s.loads[f].started, s.time))
    && (forall f: nat, g: nat | f < g < |s.loads| && !s.loads[f].finished && !s.loads[g].finished
                                && s.loads[f].key == s.loads[g].key ::
          ErasedBetween(s, s.loads[f].key, s.loads[f].started, s.loads[g].started))
  }

  lemma StillErased<V>(s: Shared<V>, t: Shared<V>)
    requires (forall e | e in s.log :: e in t.log) && s.time <= t.time
    ensures forall key, from: nat, to: nat | ErasedBetween(s, key, from, to) :: ErasedBetween(t, key, from, to)
    ensures forall key, from: nat | ErasedBetween(s, key, from, s.time) :: ErasedBetween(t, key, from, t.time)
  {
    forall key, from: nat, to: nat | ErasedBetween(s, key, from, to) ensures ErasedBetween(t, key, from, to) {
      var e :| e in s.log && Covers(e.scope, key) && from < e.at < to;
      assert e in t.log;
    }
    forall key, from: nat | ErasedBetween(s, key, from, s.time) ensures ErasedBetween(t, key, from, t.time) {
      var e :| e in s.log && Covers(e.scope, key) && from < e.at < s.time;
      assert e in t.log;
    }
  }

  lemma GetKeepsSingle<V>(s: Shared<V>, step: Step<V>, b: M.Budget)
    requires Inv(s, b) && Single(s) && step.Get? && Enabled(s, step, b)
    ensures Single(Apply(s, step, b))
  {
    hide M.Begin, M.DistinctKeys, GoodCall, GoodItem, GoodFlight;
    var t := Apply(s, step, b);
    L.BeginDecides(s.cache, step.key, step.now, step.maxAge, step.hasLoader, |s.loads|);
    StillErased(s, t);
    hide ErasedBetween;
  }

  lemma FinishDetaches<V>(s: Shared<V>, step: Step<V>, b: M.Budget)
    requires M.WithinBudget(s.cache.items, b) && step.Finish? && Enabled(s, step, b)
    ensures var call := s.calls[step.call];
            Apply(s, step, b).cache.flights ==
            if call.key in s.cache.flights && s.cache.flights[call.key] == call.load then s.cache.flights - {call.key}
            else s.cache.flights
  {
    LeavesLeft(s, step, b);
    var call := s.calls[step.call];
    var reading := if step.loaded.Some? then Some(Reading(call.load, step.loaded.value)) else None;
    hide M.Complete, L.Retains, Apply;
    L.CompleteDecides(s.cache, call.key, call.load, reading, step.size, step.now, step.observed, step.retainTTL, b);
  }

  lemma FinishKeepsSingle<V>(s: Shared<V>, step: Step<V>, b: M.Budget)
    requires Inv(s, b) && Single(s) && step.Finish? && Enabled(s, step, b)
    ensures Single(Apply(s, step, b))
  {
    FinishDetaches(s, step, b);
    assert GoodCall(s, s.calls[step.call]);
    hide M.Complete, M.WithinBudget, GoodItem, GoodFlight, Inv, ErasedBetween;
    StillErased(s, Apply(s, step, b));
  }

  lemma EraseKeepsSingle<V>(s: Shared<V>, step: Step<V>, b: M.Budget)
    requires Inv(s, b) && Single(s) && step.Erase?
    ensures Single(Apply(s, step, b))
  {
    var t := Apply(s, step, b);
    StillErased(s, t);
    forall f: nat | f < |t.loads| && !t.loads[f].finished && Covers(step.scope, t.loads[f].key)
      ensures ErasedBetween(t, t.loads[f].key, t.loads[f].started, t.time)
    {
      assert Erasure(step.scope, s.time) in t.log;
    }
    hide ErasedBetween, GoodCall, GoodItem, GoodFlight;
  }

  lemma StepKeepsSingle<V>(s: Shared<V>, step: Step<V>, b: M.Budget)
    requires Inv(s, b) && Single(s) && Enabled(s, step, b)
    ensures Single(Apply(s, step, b))
  {
    match step {
      case Get(_, _, _, _, _) => GetKeepsSingle(s, step, b);
      case Finish(_, _, _, _, _, _) => FinishKeepsSingle(s, step, b);
      case Erase(_) => EraseKeepsSingle(s, step, b);
      case _ =>
        StillErased(s, Apply(s, step, b));
        hide ErasedBetween, Inv;
    }
  }

  lemma {:induction false} RunKeepsSingle<V>(s: Shared<V>, trace: seq<Step<V>>, b: M.Budget)
    requires Inv(s, b) && Single(s) && Runs(s, trace, b)
    ensures Single(After(s, trace, b))
    decreases |trace|
  {
    if trace != [] {
      hide Inv, Single, Apply, Enabled;
      StepKeepsInv(s, trace[0], b);
      StepKeepsSingle(s, trace[0], b);
      RunKeepsSingle(Apply(s, trace[0], b), trace[1..], b);
    }
  }

  /** Over every run, a key is loaded once at a time: a second load begins while a first is running only after an
      invalidation of that key. */
  lemma OneLoadAtATime<V>(trace: seq<Step<V>>, b: M.Budget, f: nat, g: nat)
    requires Runs(Start(), trace, b)
    requires var s := After(Start(), trace, b);
             f < g < |s.loads| && !s.loads[f].finished && !s.loads[g].finished && s.loads[f].key == s.loads[g].key
    ensures var s := After(Start(), trace, b);
            exists e | e in s.log :: Covers(e.scope, s.loads[f].key) && s.loads[f].started < e.at < s.loads[g].started
  {
    RunKeepsInv(Start(), trace, b);
    RunKeepsSingle(Start(), trace, b);
    var s := After(Start(), trace, b);
    assert ErasedBetween(s, s.loads[f].key, s.loads[f].started, s.loads[g].started);
  }
}
