/** Every interleaving of the cache's callers (internal/cache/cache.go, GetWithin, runLoad, complete and the
    invalidations). Loads run outside the lock, so a step is one lock-protected region; `time` counts steps. */
module CacheProtocol {
  import opened Prelude
  import M = CacheModel

  datatype Scope = Exact(key: string) | Prefix(prefix: string) | Everything

  /** An invalidation that took place at step `at`. */
  datatype Erasure = Erasure(scope: Scope, at: nat)

  predicate Covers(scope: Scope, key: string) {
    match scope
    case Exact(k) => k == key
    case Prefix(p) => HasPrefix(key, p)
    case Everything => true
  }

  /** A retained value remembers which load produced it; the cache itself never looks at `load`. */
  datatype Reading<V> = Reading(load: nat, value: V)

  datatype Load<V> = Load(key: string, started: nat, finished: bool, outcome: Option<V>)

  datatype Answer<V> = Served(load: nat, value: V) | Failed(load: nat) | Canceled | Missed

  datatype Call<V> =
    | Leading(key: string, began: nat, load: nat)
    | Waiting(key: string, began: nat, load: nat)
    | Returned(key: string, began: nat, answer: Answer<V>)

  datatype Shared<V> = Shared(
    cache: M.Model<Reading<V>, nat>,
    loads: seq<Load<V>>,
    calls: map<nat, Call<V>>,
    log: seq<Erasure>,
    time: nat)

  datatype Step<V> =
    | Get(call: nat, key: string, now: int, maxAge: int, hasLoader: bool)
    | Finish(call: nat, loaded: Option<V>, size: nat, now: int, observed: int, retainTTL: int)
    | Wake(call: nat, live: bool)
    | GiveUp(call: nat)
    | Peek(call: nat, key: string, now: int, maxAge: int)
    | Erase(scope: Scope)
    | Tick

  function Start<V>(): Shared<V> { Shared(M.Model([], map[]), [], map[], [], 0) }

  predicate Enabled<V>(s: Shared<V>, step: Step<V>, b: M.Budget) {
    match step
    case Get(c, _, _, _, _) => c !in s.calls
    case Finish(c, _, _, _, _, ttl) => c in s.calls && s.calls[c].Leading? && s.calls[c].load < |s.loads|
      && (ttl > 0 ==> 0 < b.maxEntries)
    case Wake(c, _) => c in s.calls && s.calls[c].Waiting? && s.calls[c].load < |s.loads|
      && s.loads[s.calls[c].load].finished
    case GiveUp(c) => c in s.calls && s.calls[c].Waiting?
    case Peek(c, _, _, _) => c !in s.calls
    case Erase(_) => true
    case Tick => true
  }

  function ErasedCache<V>(m: M.Model<Reading<V>, nat>, scope: Scope): M.Model<Reading<V>, nat> {
    match scope
    case Exact(k) => M.Invalidate(m, k)
    case Prefix(p) => M.InvalidatePrefix(m, p)
    case Everything => M.Model([], map[])
  }

  function AnswerOf<V>(f: nat, outcome: Option<V>): Answer<V> {
    match outcome
    case Some(v) => Served(f, v)
    case None => Failed(f)
  }

  function Apply<V>(s: Shared<V>, step: Step<V>, b: M.Budget): Shared<V>
    requires Enabled(s, step, b)
  {
    var t := s.(time := s.time + 1);
    match step
    case Get(c, key, now, maxAge, hasLoader) =>
      var (r, cache) := M.Begin(s.cache, key, now, maxAge, hasLoader, |s.loads|);
      var u := t.(cache := cache);
      (match r
       case Hit(v) => u.(calls := s.calls[c := Returned(key, s.time, Served(v.load, v.value))])
       case Join(f) => u.(calls := s.calls[c := Waiting(key, s.time, f)])
       case NoLoader => u.(calls := s.calls[c := Returned(key, s.time, Missed)])
       case Lead => u.(calls := s.calls[c := Leading(key, s.time, |s.loads|)],
                       loads := s.loads + [Load(key, s.time, false, None)]))
    case Finish(c, loaded, size, now, observed, ttl) =>
      var call := s.calls[c];
      var f := call.load;
      var reading := if loaded.Some? then Some(Reading(f, loaded.value)) else None;
      t.(cache := M.Complete(s.cache, call.key, f, reading, size, now, observed, ttl, b),
         loads := s.loads[f := s.loads[f].(finished := true, outcome := loaded)],
         calls := s.calls[c := Returned(call.key, call.began, AnswerOf(f, loaded))])
    case Wake(c, live) =>
      var call := s.calls[c];
      var answer := if live then AnswerOf(call.load, s.loads[call.load].outcome) else Canceled;
      t.(calls := s.calls[c := Returned(call.key, call.began, answer)])
    case GiveUp(c) =>
      t.(calls := s.calls[c := Returned(s.calls[c].key, s.calls[c].began, Canceled)])
    case Peek(c, key, now, maxAge) =>
      var live := M.Live(s.cache.items, now);
      var found := M.Peek(live, key, now, maxAge);
      var answer := if found.Some? then Served(found.value.0.load, found.value.0.value) else Missed;
      t.(cache := s.cache.(items := live), calls := s.calls[c := Returned(key, s.time, answer)])
    case Erase(scope) =>
      t.(cache := ErasedCache(s.cache, scope), log := s.log + [Erasure(scope, s.time)])
    case Tick => t
  }

  /** Load f began after every invalidation so far that covers its key. */
  ghost predicate Current<V>(s: Shared<V>, f: nat)
    requires f < |s.loads|
  {
    forall e | e in s.log && Covers(e.scope, s.loads[f].key) :: e.at < s.loads[f].started
  }

  /** Load f is for `key` and began after every covering invalidation that preceded `began`. */
  ghost predicate FreshFor<V>(s: Shared<V>, f: nat, key: string, began: nat) {
    && f < |s.loads| && s.loads[f].key == key
    && forall e | e in s.log && Covers(e.scope, key) && e.at < began :: e.at < s.loads[f].started
  }

  ghost predicate GoodItem<V>(s: Shared<V>, x: M.Item<Reading<V>>) {
    && x.value.load < |s.loads| && s.loads[x.value.load].key == x.key
    && s.loads[x.value.load].finished && s.loads[x.value.load].outcome == Some(x.value.value)
    && Current(s, x.value.load)
  }

  ghost predicate GoodFlight<V>(s: Shared<V>, key: string, f: nat) {
    && f < |s.loads| && s.loads[f].key == key && !s.loads[f].finished && Current(s, f)
  }

  ghost predicate GoodCall<V>(s: Shared<V>, call: Call<V>) {
    && call.began < s.time
    && match call
       case Leading(key, began, f) => FreshFor(s, f, key, began) && !s.loads[f].finished
       case Waiting(key, began, f) => FreshFor(s, f, key, began)
       case Returned(key, began, Served(f, v)) =>
         FreshFor(s, f, key, began) && s.loads[f].finished && s.loads[f].outcome == Some(v)
       case Returned(key, began, Failed(f)) =>
         FreshFor(s, f, key, began) && s.loads[f].finished && s.loads[f].outcome.None?
       case Returned(_, _, _) => true
  }

  /** What holds between any two steps of any run. */
  ghost predicate Inv<V>(s: Shared<V>, b: M.Budget) {
    && M.WithinBudget(s.cache.items, b)
    && (forall f | 0 <= f < |s.loads| :: s.loads[f].started < s.time)
    && (forall e | e in s.log :: e.at < s.time)
    && (forall x | x in s.cache.items :: GoodItem(s, x))
    && (forall k | k in s.cache.flights :: GoodFlight(s, k, s.cache.flights[k]))
    && (forall c | c in s.calls :: GoodCall(s, s.calls[c]))
    && (forall c, d | c in s.calls && d in s.calls && c != d && s.calls[c].Leading? && s.calls[d].Leading? ::
          s.calls[c].load != s.calls[d].load)
  }

  /** Facts about loads survive a step that erases nothing and finishes no load. */
  lemma StillGood<V>(s: Shared<V>, t: Shared<V>)
    requires s.loads <= t.loads && t.log == s.log && s.time <= t.time
    ensures forall x | GoodItem(s, x) :: GoodItem(t, x)
    ensures forall k, f | GoodFlight(s, k, f) :: GoodFlight(t, k, f)
    ensures forall c | GoodCall(s, c) :: GoodCall(t, c)
  {
  }

  /** A step that moves one call on, starts at most one load and finishes none. */
  lemma OneCallKeepsInv<V>(s: Shared<V>, t: Shared<V>, c: nat, b: M.Budget)
    requires Inv(s, b) && t.log == s.log && t.time == s.time + 1
    requires s.loads <= t.loads && forall f | |s.loads| <= f < |t.loads| :: t.loads[f].started < t.time
    requires M.WithinBudget(t.cache.items, b) && forall x | x in t.cache.items :: GoodItem(s, x)
    requires forall k | k in t.cache.flights :: GoodFlight(t, k, t.cache.flights[k])
    requires c in t.calls && t.calls == s.calls[c := t.calls[c]] && GoodCall(t, t.calls[c])
    requires t.calls[c].Leading? ==> t.calls[c].load >= |s.loads|
    ensures Inv(t, b)
  {
    StillGood(s, t);
    forall d | d in s.calls && s.calls[d].Leading? ensures s.calls[d].load < |s.loads| {
      assert GoodCall(s, s.calls[d]);
    }
    hide GoodCall, GoodItem, GoodFlight, M.WithinBudget;
  }

  /** A hit is answered from a good item. */
  lemma HitIsGood<V>(s: Shared<V>, step: Step<V>, b: M.Budget)
    requires Inv(s, b) && step.Get?
    requires M.Begin(s.cache, step.key, step.now, step.maxAge, step.hasLoader, |s.loads|).0.Hit?
    ensures var v := M.Begin(s.cache, step.key, step.now, step.maxAge, step.hasLoader, |s.loads|).0.value;
            && FreshFor(s, v.load, step.key, s.time) && s.loads[v.load].finished
            && s.loads[v.load].outcome == Some(v.value)
  {
    M.HitIsYoung(s.cache, step.key, step.now, step.maxAge, step.hasLoader, |s.loads|);
    hide M.Begin, M.WithinBudget;
    var r := M.Begin(s.cache, step.key, step.now, step.maxAge, step.hasLoader, |s.loads|).0;
    var x :| x in s.cache.items && x.key == step.key && x.value == r.value;
    assert GoodItem(s, x);
  }

  /** What a lookup leaves in the cache and answers, against the loads that had been started. */
  ghost predicate LooksUp<V>(s: Shared<V>, step: Step<V>, b: M.Budget)
    requires step.Get?
  {
    var (r, m) := M.Begin(s.cache, step.key, step.now, step.maxAge, step.hasLoader, |s.loads|);
    && M.WithinBudget(m.items, b) && (forall x | x in m.items :: GoodItem(s, x))
    && (forall k | k in m.flights && (r.Lead? ==> k != step.key) :: GoodFlight(s, k, m.flights[k]))
    && match r
       case Hit(v) => FreshFor(s, v.load, step.key, s.time) && s.loads[v.load].finished
         && s.loads[v.load].outcome == Some(v.value)
       case Join(f) => GoodFlight(s, step.key, f)
       case NoLoader => true
       case Lead => step.key in m.flights && m.flights[step.key] == |s.loads|
  }

  lemma LookupIsGood<V>(s: Shared<V>, step: Step<V>, b: M.Budget)
    requires Inv(s, b) && step.Get? && Enabled(s, step, b)
    ensures LooksUp(s, step, b)
  {
    M.BeginWithinBudget(s.cache, step.key, step.now, step.maxAge, step.hasLoader, |s.loads|, b);
    M.BeginOnlyKeeps(s.cache, step.key, step.now, step.maxAge, step.hasLoader, |s.loads|);
    if M.Begin(s.cache, step.key, step.now, step.maxAge, step.hasLoader, |s.loads|).0.Hit? { HitIsGood(s, step, b); }
    hide M.WithinBudget, M.Live, M.Without, M.Find, GoodItem, GoodCall, GoodFlight, FreshFor;
  }

  lemma CallerIsGood<V>(s: Shared<V>, step: Step<V>, b: M.Budget)
    requires Inv(s, b) && step.Get? && Enabled(s, step, b) && LooksUp(s, step, b)
    ensures var t := Apply(s, step, b);
            && GoodCall(t, t.calls[step.call])
            && (t.calls[step.call].Leading? ==> GoodFlight(t, step.key, |s.loads|))
  {
    hide M.Begin, M.WithinBudget, GoodItem;
  }

  lemma GetKeepsInv<V>(s: Shared<V>, step: Step<V>, b: M.Budget)
    requires Inv(s, b) && step.Get? && Enabled(s, step, b)
    ensures Inv(Apply(s, step, b), b)
  {
    LookupIsGood(s, step, b);
    CallerIsGood(s, step, b);
    hide M.Begin, M.WithinBudget, Inv, GoodItem, GoodFlight, GoodCall, FreshFor;
    var t := Apply(s, step, b);
    StillGood(s, t);
    OneCallKeepsInv(s, t, step.call, b);
  }

  lemma FinishKeepsInv<V>(s: Shared<V>, step: Step<V>, b: M.Budget)
    requires Inv(s, b) && step.Finish? && Enabled(s, step, b)
    ensures Inv(Apply(s, step, b), b)
  {
    hide M.WithinBudget, M.TotalSize, M.Find, M.Keep, M.Retained;
    var t := Apply(s, step, b);
    var call := s.calls[step.call];
    var f := call.load;
    assert GoodCall(s, call);
    var reading := if step.loaded.Some? then Some(Reading(f, step.loaded.value)) else None;
    M.CompleteWithinBudget(s.cache, call.key, f, reading, step.size, step.now, step.observed, step.retainTTL, b);
    M.CompleteOnlyAdds(s.cache, call.key, f, reading, step.size, step.now, step.observed, step.retainTTL, b);
    forall x | x in t.cache.items ensures GoodItem(t, x) {
      if x in s.cache.items { assert GoodItem(s, x); } else { assert GoodFlight(s, call.key, f); }
    }
    forall k | k in t.cache.flights ensures GoodFlight(t, k, t.cache.flights[k]) {
      assert k in s.cache.flights && GoodFlight(s, k, s.cache.flights[k]);
    }
    forall c | c in t.calls ensures GoodCall(t, t.calls[c]) {
      assert GoodCall(s, s.calls[c]);
    }
  }

  lemma EraseKeepsInv<V>(s: Shared<V>, step: Step<V>, b: M.Budget)
    requires Inv(s, b) && step.Erase?
    ensures Inv(Apply(s, step, b), b)
  {
    hide M.WithinBudget, M.TotalSize, M.Find, M.Keep, M.Retained;
    var t := Apply(s, step, b);
    match step.scope {
      case Exact(k) =>
        M.KeepWithinBudget(s.cache.items, M.IsNot(k), b);
      case Prefix(p) => M.KeepWithinBudget(s.cache.items, M.IsOutside(p), b);
      case Everything => M.EmptyWithinBudget<Reading<V>>(b);
    }
    forall x | x in t.cache.items ensures GoodItem(t, x) {
      assert x in s.cache.items && GoodItem(s, x) && !Covers(step.scope, x.key);
    }
    forall k | k in t.cache.flights ensures GoodFlight(t, k, t.cache.flights[k]) {
      assert k in s.cache.flights && GoodFlight(s, k, s.cache.flights[k]) && !Covers(step.scope, k);
    }
    forall c | c in t.calls ensures GoodCall(t, t.calls[c]) {
      assert GoodCall(s, s.calls[c]);
    }
  }

  lemma OtherStepsKeepInv<V>(s: Shared<V>, step: Step<V>, b: M.Budget)
    requires Inv(s, b) && (step.Wake? || step.GiveUp? || step.Peek? || step.Tick?) && Enabled(s, step, b)
    ensures Inv(Apply(s, step, b), b)
  {
    hide M.WithinBudget, M.TotalSize, M.Find, M.Keep, M.Retained;
    var t := Apply(s, step, b);
    StillGood(s, t);
    match step {
      case Peek(c, key, now, maxAge) =>
        M.KeepWithinBudget(s.cache.items, M.IsLive(now), b);
        M.FindAbsent(M.Live(s.cache.items, now), key);
        assert M.Peek(M.Live(s.cache.items, now), key, now, maxAge).Some? ==>
            GoodItem(s, M.Find(M.Live(s.cache.items, now), key).value);
        OneCallKeepsInv(s, t, c, b);
      case Wake(c, _) => assert GoodCall(s, s.calls[c]); OneCallKeepsInv(s, t, c, b);
      case GiveUp(c) => assert GoodCall(s, s.calls[c]); OneCallKeepsInv(s, t, c, b);
      case Tick => hide GoodCall, GoodItem, GoodFlight;
    }
  }

  lemma StepKeepsInv<V>(s: Shared<V>, step: Step<V>, b: M.Budget)
    requires Inv(s, b) && Enabled(s, step, b)
    ensures Inv(Apply(s, step, b), b)
  {
    match step
    case Get(_, _, _, _, _) => GetKeepsInv(s, step, b);
    case Finish(_, _, _, _, _, _) => FinishKeepsInv(s, step, b);
    case Erase(_) => EraseKeepsInv(s, step, b);
    case _ => OtherStepsKeepInv(s, step, b);
  }

  /** A run: steps taken one after another, each allowed where it is taken. */
  ghost predicate Runs<V>(s: Shared<V>, trace: seq<Step<V>>, b: M.Budget)
    decreases |trace|
  {
    trace == [] || (Enabled(s, trace[0], b) && Runs(Apply(s, trace[0], b), trace[1..], b))
  }

  ghost function After<V>(s: Shared<V>, trace: seq<Step<V>>, b: M.Budget): Shared<V>
    requires Runs(s, trace, b)
    decreases |trace|
  {
    if trace == [] then s else After(Apply(s, trace[0], b), trace[1..], b)
  }

  lemma {:induction false} RunKeepsInv<V>(s: Shared<V>, trace: seq<Step<V>>, b: M.Budget)
    requires Inv(s, b) && Runs(s, trace, b)
    ensures Inv(After(s, trace, b), b)
    decreases |trace|
  {
    if trace != [] {
      StepKeepsInv(s, trace[0], b);
      RunKeepsInv(Apply(s, trace[0], b), trace[1..], b);
    }
  }

  /** For every run of every mix of callers and invalidations: a value is only ever served from a finished
      load of the asked key, exactly as that load returned it, and the load began after every covering
      invalidation that happened before the call. */
  lemma ServedValuesAreFresh<V>(trace: seq<Step<V>>, b: M.Budget, c: nat)
    requires Runs(Start(), trace, b)
    requires var s := After(Start(), trace, b); c in s.calls && s.calls[c].Returned? && s.calls[c].answer.Served?
    ensures var s := After(Start(), trace, b);
            var call := s.calls[c];
            && call.answer.load < |s.loads|
            && var load := s.loads[call.answer.load];
               && load.key == call.key && load.finished && load.outcome == Some(call.answer.value)
               && forall e | e in s.log && Covers(e.scope, call.key) && e.at < call.began :: e.at < load.started
  {
    RunKeepsInv(Start(), trace, b);
    var s := After(Start(), trace, b);
    assert GoodCall(s, s.calls[c]);
  }

  /** For every run: whatever is retained, and whatever load a new caller could join, began after the last
      invalidation covering its key. */
  lemma RetainedAndJoinableAreCurrent<V>(trace: seq<Step<V>>, b: M.Budget)
    requires Runs(Start(), trace, b)
    ensures var s := After(Start(), trace, b);
            && M.WithinBudget(s.cache.items, b)
            && (forall x | x in s.cache.items ::
                  x.value.load < |s.loads| && s.loads[x.value.load].key == x.key && Current(s, x.value.load))
            && (forall k | k in s.cache.flights ::
                  s.cache.flights[k] < |s.loads| && s.loads[s.cache.flights[k]].key == k
                  && !s.loads[s.cache.flights[k]].finished && Current(s, s.cache.flights[k]))
  {
    RunKeepsInv(Start(), trace, b);
    var s := After(Start(), trace, b);
    forall x | x in s.cache.items ensures x.value.load < |s.loads| && s.loads[x.value.load].key == x.key
      && Current(s, x.value.load) {
      assert GoodItem(s, x);
    }
    forall k | k in s.cache.flights
      ensures s.cache.flights[k] < |s.loads| && s.loads[s.cache.flights[k]].key == k
           && !s.loads[s.cache.flights[k]].finished && Current(s, s.cache.flights[k])
    {
      assert GoodFlight(s, k, s.cache.flights[k]);
    }
  }

  /** Somebody is still running load f. */
  ghost predicate LedBy<V>(s: Shared<V>, f: nat) {
    exists c | c in s.calls :: s.calls[c].Leading? && s.calls[c].load == f
  }

  ghost predicate Led<V>(s: Shared<V>) {
    forall f: nat | f < |s.loads| && !s.loads[f].finished :: LedBy(s, f)
  }

  lemma StepKeepsLed<V>(s: Shared<V>, step: Step<V>, b: M.Budget)
    requires Inv(s, b) && Led(s) && Enabled(s, step, b)
    ensures Led(Apply(s, step, b))
  {
    hide M.Begin, M.Complete, M.Live, M.Peek, ErasedCache, M.WithinBudget, GoodCall, GoodItem, GoodFlight;
    var t := Apply(s, step, b);
    forall f: nat | f < |t.loads| && !t.loads[f].finished ensures LedBy(t, f) {
      if f < |s.loads| {
        assert LedBy(s, f);
        var c :| c in s.calls && s.calls[c].Leading? && s.calls[c].load == f;
        assert c in t.calls && t.calls[c] == s.calls[c];
      } else {
        assert step.Get? && t.calls[step.call].Leading?;
      }
    }
  }

  lemma {:induction false} RunKeepsLed<V>(s: Shared<V>, trace: seq<Step<V>>, b: M.Budget)
    requires Inv(s, b) && Led(s) && Runs(s, trace, b)
    ensures Led(After(s, trace, b))
    decreases |trace|
  {
    if trace != [] {
      StepKeepsInv(s, trace[0], b);
      StepKeepsLed(s, trace[0], b);
      hide Inv, Led, Apply, Enabled;
      RunKeepsLed(Apply(s, trace[0], b), trace[1..], b);
    }
  }

  /** For every run: nobody waits for a load that no one will finish. A joiner's load is either finished, and then
      its caller, if it is still interested, returns that load's outcome; or some leader is still running it. */
  lemma JoinersAreNeverStranded<V>(trace: seq<Step<V>>, b: M.Budget, c: nat)
    requires Runs(Start(), trace, b)
    requires var s := After(Start(), trace, b); c in s.calls && s.calls[c].Waiting?
    ensures var s := After(Start(), trace, b);
            var call := s.calls[c];
            && call.load < |s.loads| && s.loads[call.load].key == call.key
            && if s.loads[call.load].finished
               then && Enabled(s, Wake(c, true), b)
                    && Apply(s, Wake(c, true), b).calls[c]
                         == Returned(call.key, call.began, AnswerOf(call.load, s.loads[call.load].outcome))
               else LedBy(s, call.load)
  {
    RunKeepsInv(Start(), trace, b);
    RunKeepsLed(Start(), trace, b);
    var s := After(Start(), trace, b);
    assert GoodCall(s, s.calls[c]);
  }
}
