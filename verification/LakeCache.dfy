/** The pair of caches in front of a Lakehouse and what its mutators promise: read your writes
    (internal/workspacefs/cached_clients.go). A mutator first finishes its remote request and then
    erases cache keys one lock-protected region at a time, while any other callers keep loading. */
module LakeCache {
  import opened Prelude
  import M = CacheModel
  import opened CacheProtocol

  datatype Path = Path(workspace: string, item: string, relative: string)

  datatype Which = Stats | Lists

  /** One erasure in one of the two caches. */
  datatype Target = Target(which: Which, scope: Scope)

  /** One keyed read of one of the two caches. */
  datatype Consult = Consult(which: Which, key: string)

  function LakeKey(p: Path): string { p.workspace + "/" + p.item + "/" + p.relative }

  /** strings.LastIndexByte(s, '/'). */
  function LastSlash(s: string): (r: int)
    ensures -1 <= r < |s|
    ensures 0 <= r ==> s[r] == '/'
    ensures forall i | r < i < |s| :: s[i] != '/'
  {
    if s == [] then -1 else if s[|s| - 1] == '/' then |s| - 1 else LastSlash(s[..|s| - 1])
  }

  function Parent(p: Path): Path
    requires 0 <= LastSlash(p.relative)
  {
    p.(relative := p.relative[..LastSlash(p.relative)])
  }

  predicate Below(p: Path, q: Path) {
    && q.workspace == p.workspace && q.item == p.item
    && (q.relative == p.relative || HasPrefix(q.relative, p.relative + "/"))
  }

  /** cachedLakeAPI.invalidate. */
  function Script(p: Path): seq<Target> {
    var key := LakeKey(p);
    var split := LastSlash(key);
    [Target(Stats, Exact(key)), Target(Stats, Prefix(key + "/")),
     Target(Lists, Exact(key)), Target(Lists, Prefix(key + "/"))]
    + if split >= 0 then [Target(Stats, Exact(key[..split])), Target(Lists, Exact(key[..split]))] else []
  }

  /** Put, Mkdir and Remove invalidate one path; Rename its destination and then its source. */
  function FullScript(paths: seq<Path>): seq<Target> {
    if paths == [] then [] else Script(paths[0]) + FullScript(paths[1..])
  }

  /** Stat first looks for the path in its parent's retained listing, then in its own retained stat. */
  function StatConsults(q: Path): seq<Consult> {
    (if LastSlash(q.relative) >= 0 then [Consult(Lists, LakeKey(Parent(q)))] else []) + [Consult(Stats, LakeKey(q))]
  }

  ghost predicate Erases(script: seq<Target>, c: Consult) {
    exists t | t in script :: t.which == c.which && Covers(t.scope, c.key)
  }

  lemma KeyParent(p: Path)
    requires 0 <= LastSlash(p.relative)
    ensures var key := LakeKey(p); 0 <= LastSlash(key) && key[..LastSlash(key)] == LakeKey(Parent(p))
  {
    var head := p.workspace + "/" + p.item + "/";
    var key := LakeKey(p);
    assert key == head + p.relative;
    var at := |head| + LastSlash(p.relative);
    assert key[at] == '/';
    assert forall i | at < i < |key| :: key[i] == p.relative[i - |head|];
    assert LastSlash(key) == at;
    assert key[..at] == head + p.relative[..LastSlash(p.relative)];
  }

  lemma KeyPrefix(p: Path, q: Path)
    requires q.workspace == p.workspace && q.item == p.item && HasPrefix(q.relative, p.relative + "/")
    ensures HasPrefix(LakeKey(q), LakeKey(p) + "/")
  {
    var head := p.workspace + "/" + p.item + "/";
    var n := |p.relative| + 1;
    assert LakeKey(q) == head + q.relative && LakeKey(p) + "/" == head + (p.relative + "/");
    assert LakeKey(q)[..|head| + n] == head + q.relative[..n];
  }

  /** Invalidating p erases everything a Stat of p or of anything below it can consult. */
  lemma StatIsErased(p: Path, q: Path, c: Consult)
    requires Below(p, q) && c in StatConsults(q)
    ensures Erases(Script(p), c)
  {
    if c == Consult(Stats, LakeKey(q)) {
      if q.relative == p.relative {
        assert Target(Stats, Exact(LakeKey(p))) in Script(p);
      } else {
        KeyPrefix(p, q);
        assert Target(Stats, Prefix(LakeKey(p) + "/")) in Script(p);
      }
    } else if q.relative == p.relative {
      KeyParent(p);
      assert Target(Lists, Exact(LakeKey(Parent(p)))) in Script(p);
    } else {
      var at := LastSlash(q.relative);
      var up := Parent(q);
      assert q.relative[|p.relative|] == (p.relative + "/")[|p.relative|] == '/';
      assert at >= |p.relative|;
      if at == |p.relative| {
        assert q.relative[..at] == (p.relative + "/")[..at] == p.relative;
        assert Target(Lists, Exact(LakeKey(p))) in Script(p);
      } else {
        assert up.relative[..|p.relative| + 1] == q.relative[..|p.relative| + 1];
        KeyPrefix(p, up);
        assert Target(Lists, Prefix(LakeKey(p) + "/")) in Script(p);
      }
    }
  }

  /** Invalidating p erases what a List of p, of anything below it, or of its parent consults. */
  lemma ListIsErased(p: Path, q: Path)
    requires Below(p, q) || (0 <= LastSlash(p.relative) && q == Parent(p))
    ensures Erases(Script(p), Consult(Lists, LakeKey(q)))
  {
    if 0 <= LastSlash(p.relative) && q == Parent(p) {
      KeyParent(p);
      assert Target(Lists, Exact(LakeKey(q))) in Script(p);
    } else if q.relative == p.relative {
      assert Target(Lists, Exact(LakeKey(p))) in Script(p);
    } else {
      KeyPrefix(p, q);
      assert Target(Lists, Prefix(LakeKey(p) + "/")) in Script(p);
    }
  }

  lemma {:induction false} FullScriptErases(paths: seq<Path>, p: Path, c: Consult)
    requires p in paths && Erases(Script(p), c)
    ensures Erases(FullScript(paths), c)
  {
    if p == paths[0] {
      var t :| t in Script(p) && t.which == c.which && Covers(t.scope, c.key);
      assert t in FullScript(paths);
    } else {
      FullScriptErases(paths[1..], p, c);
      var t :| t in FullScript(paths[1..]) && t.which == c.which && Covers(t.scope, c.key);
      assert t in FullScript(paths);
    }
  }

  /** A mutator: its remote request finished at `finishedAt`; `stage` erasures are done since. */
  datatype Mutation = Mutation(paths: seq<Path>, finishedAt: nat, stage: nat, returnedAt: Option<nat>)

  datatype Lake<I, L> = Lake(stats: Shared<I>, lists: Shared<L>, mutations: map<nat, Mutation>)

  datatype Limits = Limits(stats: M.Budget, lists: M.Budget)

  /** `StatsStep` and `ListsStep` are any steps of any other callers, including further erasures. */
  datatype Move<I, L> =
    | StatsStep(stat: Step<I>)
    | ListsStep(list: Step<L>)
    | Finished(id: nat, paths: seq<Path>)
    | EraseNext(id: nat)

  function Begin<I, L>(): Lake<I, L> { Lake(Start(), Start(), map[]) }

  predicate Allowed<I, L>(l: Lake<I, L>, m: Move<I, L>, b: Limits) {
    match m
    case StatsStep(step) => Enabled(l.stats, step, b.stats)
    case ListsStep(step) => Enabled(l.lists, step, b.lists)
    case Finished(id, _) => id !in l.mutations
    case EraseNext(id) => id in l.mutations && l.mutations[id].stage < |FullScript(l.mutations[id].paths)|
  }

  /** Both caches share one clock: a step of one is a tick of the other. */
  function Play<I, L>(l: Lake<I, L>, m: Move<I, L>, b: Limits): Lake<I, L>
    requires Allowed(l, m, b)
  {
    match m
    case StatsStep(step) => l.(stats := Apply(l.stats, step, b.stats), lists := Apply(l.lists, Tick, b.lists))
    case ListsStep(step) => l.(stats := Apply(l.stats, Tick, b.stats), lists := Apply(l.lists, step, b.lists))
    case Finished(id, paths) =>
      Lake(Apply(l.stats, Tick, b.stats), Apply(l.lists, Tick, b.lists),
           l.mutations[id := Mutation(paths, l.stats.time, 0, None)])
    case EraseNext(id) =>
      var x := l.mutations[id];
      var script := FullScript(x.paths);
      var target := script[x.stage];
      Lake(Apply(l.stats, if target.which == Stats then Erase(target.scope) else Tick, b.stats),
           Apply(l.lists, if target.which == Lists then Erase(target.scope) else Tick, b.lists),
           l.mutations[id := x.(stage := x.stage + 1,
                                returnedAt := if x.stage + 1 == |script| then Some(l.stats.time) else None)])
  }

  function LogOf<I, L>(l: Lake<I, L>, which: Which): seq<Erasure> {
    if which == Stats then l.stats.log else l.lists.log
  }

  /** Erasure number j of mutation x has happened, after its remote request and before it returned. */
  ghost predicate ErasedSince<I, L>(l: Lake<I, L>, x: Mutation, j: nat)
    requires j < |FullScript(x.paths)|
  {
    var target := FullScript(x.paths)[j];
    exists e | e in LogOf(l, target.which) ::
      e.scope == target.scope && x.finishedAt < e.at && (x.returnedAt.Some? ==> e.at <= x.returnedAt.value)
  }

  ghost predicate GoodMutation<I, L>(l: Lake<I, L>, x: Mutation) {
    && x.finishedAt < l.stats.time
    && x.stage <= |FullScript(x.paths)|
    && (x.returnedAt.Some? ==> x.stage == |FullScript(x.paths)|)
    && forall j | 0 <= j < x.stage :: ErasedSince(l, x, j)
  }

  ghost predicate LakeInv<I, L>(l: Lake<I, L>, b: Limits) {
    && Inv(l.stats, b.stats) && Inv(l.lists, b.lists)
    && l.stats.time == l.lists.time
    && forall id | id in l.mutations :: GoodMutation(l, l.mutations[id])
  }

  lemma LogOnlyGrows<V>(s: Shared<V>, step: Step<V>, b: M.Budget)
    requires Enabled(s, step, b)
    ensures Apply(s, step, b).time == s.time + 1 && forall e | e in s.log :: e in Apply(s, step, b).log
  {
  }

  function StatsMove<I, L>(l: Lake<I, L>, m: Move<I, L>, b: Limits): Step<I>
    requires Allowed(l, m, b)
  {
    match m
    case StatsStep(step) => step
    case EraseNext(id) =>
      var t := FullScript(l.mutations[id].paths)[l.mutations[id].stage];
      if t.which == Stats then Erase(t.scope) else Tick
    case _ => Tick
  }

  function ListsMove<I, L>(l: Lake<I, L>, m: Move<I, L>, b: Limits): Step<L>
    requires Allowed(l, m, b)
  {
    match m
    case ListsStep(step) => step
    case EraseNext(id) =>
      var t := FullScript(l.mutations[id].paths)[l.mutations[id].stage];
      if t.which == Lists then Erase(t.scope) else Tick
    case _ => Tick
  }

  lemma PlayMovesBoth<I, L>(l: Lake<I, L>, m: Move<I, L>, b: Limits)
    requires Allowed(l, m, b)
    ensures var n := Play(l, m, b);
            && Enabled(l.stats, StatsMove(l, m, b), b.stats) && n.stats == Apply(l.stats, StatsMove(l, m, b), b.stats)
            && Enabled(l.lists, ListsMove(l, m, b), b.lists) && n.lists == Apply(l.lists, ListsMove(l, m, b), b.lists)
  {
    hide Apply, FullScript;
  }

  lemma CachesKeepInv<I, L>(l: Lake<I, L>, m: Move<I, L>, b: Limits)
    requires LakeInv(l, b) && Allowed(l, m, b)
    ensures var n := Play(l, m, b);
            && Inv(n.stats, b.stats) && Inv(n.lists, b.lists)
            && n.stats.time == n.lists.time == l.stats.time + 1
            && (forall e | e in l.stats.log :: e in n.stats.log) && (forall e | e in l.lists.log :: e in n.lists.log)
  {
    PlayMovesBoth(l, m, b);
    hide Play, Apply, Inv, StatsMove, ListsMove, Enabled, GoodMutation;
    StepKeepsInv(l.stats, StatsMove(l, m, b), b.stats);
    StepKeepsInv(l.lists, ListsMove(l, m, b), b.lists);
    LogOnlyGrows(l.stats, StatsMove(l, m, b), b.stats);
    LogOnlyGrows(l.lists, ListsMove(l, m, b), b.lists);
  }

  lemma MutationStays<I, L>(l: Lake<I, L>, n: Lake<I, L>, x: Mutation)
    requires GoodMutation(l, x) && l.stats.time <= n.stats.time
    requires (forall e | e in l.stats.log :: e in n.stats.log) && (forall e | e in l.lists.log :: e in n.lists.log)
    ensures GoodMutation(n, x)
  {
    forall j | 0 <= j < x.stage ensures ErasedSince(n, x, j) { assert ErasedSince(l, x, j); }
    hide FullScript;
  }

  lemma PlayKeepsInv<I, L>(l: Lake<I, L>, m: Move<I, L>, b: Limits)
    requires LakeInv(l, b) && Allowed(l, m, b)
    ensures LakeInv(Play(l, m, b), b)
  {
    CachesKeepInv(l, m, b);
    MutationsChangeInTurn(l, m, b);
    hide Play, Apply, Inv, Enabled, GoodMutation, FullScript;
    var n := Play(l, m, b);
    forall id | id in n.mutations ensures GoodMutation(n, n.mutations[id]) {
      if m.Finished? && m.id == id {
        NewMutationIsGood(n, n.mutations[id]);
      } else if m.EraseNext? && m.id == id {
        EraseAdvances(l, m, n, b);
      } else {
        MutationStays(l, n, l.mutations[id]);
      }
    }
  }

  lemma MutationsChangeInTurn<I, L>(l: Lake<I, L>, m: Move<I, L>, b: Limits)
    requires Allowed(l, m, b)
    ensures var n := Play(l, m, b);
            && (m.Finished? ==> n.mutations == l.mutations[m.id := Mutation(m.paths, l.stats.time, 0, None)])
            && (m.StatsStep? || m.ListsStep? ==> n.mutations == l.mutations)
            && (m.EraseNext? ==>
                  var x := l.mutations[m.id]; var script := FullScript(x.paths);
                  n.mutations == l.mutations[m.id := x.(
                    stage := x.stage + 1, returnedAt := if x.stage + 1 == |script| then Some(l.stats.time) else None)])
  {
    hide Apply, FullScript;
  }

  lemma NewMutationIsGood<I, L>(n: Lake<I, L>, x: Mutation)
    requires x.stage == 0 && x.returnedAt == None && x.finishedAt < n.stats.time
    ensures GoodMutation(n, x)
  {
  }

  lemma ErasureIsLogged<I, L>(l: Lake<I, L>, m: Move<I, L>, b: Limits)
    requires Allowed(l, m, b) && m.EraseNext? && l.stats.time == l.lists.time
    ensures var x := l.mutations[m.id]; var target := FullScript(x.paths)[x.stage];
            Erasure(target.scope, l.stats.time) in LogOf(Play(l, m, b), target.which)
  {
  }

  /** The erasure just made is the next of the script, and it falls between the request and the return. */
  lemma EraseAdvances<I, L>(l: Lake<I, L>, m: Move<I, L>, n: Lake<I, L>, b: Limits)
    requires LakeInv(l, b) && Allowed(l, m, b) && m.EraseNext? && n == Play(l, m, b)
    ensures GoodMutation(n, n.mutations[m.id])
  {
    hide Play, Apply, Inv, Enabled, FullScript;
    CachesKeepInv(l, m, b);
    MutationsChangeInTurn(l, m, b);
    ErasureIsLogged(l, m, b);
    LoggedBefore(l, b);
    var x := l.mutations[m.id];
    assert GoodMutation(l, x);
    var y := n.mutations[m.id];
    forall j | 0 <= j < y.stage ensures ErasedSince(n, y, j) {
      if j < x.stage {
        assert ErasedSince(l, x, j);
        var t := FullScript(x.paths)[j];
        var e :| e in LogOf(l, t.which) && e.scope == t.scope && x.finishedAt < e.at;
        assert e in LogOf(n, t.which) && e.at < l.stats.time;
      }
    }
  }

  lemma LoggedBefore<I, L>(l: Lake<I, L>, b: Limits)
    requires LakeInv(l, b)
    ensures (forall e | e in l.stats.log :: e.at < l.stats.time) && (forall e | e in l.lists.log :: e.at < l.stats.time)
  {
  }

  ghost predicate Plays<I, L>(l: Lake<I, L>, trace: seq<Move<I, L>>, b: Limits)
    decreases |trace|
  {
    trace == [] || (Allowed(l, trace[0], b) && Plays(Play(l, trace[0], b), trace[1..], b))
  }

  ghost function Outcome<I, L>(l: Lake<I, L>, trace: seq<Move<I, L>>, b: Limits): Lake<I, L>
    requires Plays(l, trace, b)
    decreases |trace|
  {
    if trace == [] then l else Outcome(Play(l, trace[0], b), trace[1..], b)
  }

  lemma {:induction false} PlaysKeepInv<I, L>(l: Lake<I, L>, trace: seq<Move<I, L>>, b: Limits)
    requires LakeInv(l, b) && Plays(l, trace, b)
    ensures LakeInv(Outcome(l, trace, b), b)
    decreases |trace|
  {
    if trace != [] {
      PlayKeepsInv(l, trace[0], b);
      PlaysKeepInv(Play(l, trace[0], b), trace[1..], b);
    }
  }

  /** The step at which the load behind a served call began, and when that call itself began. */
  ghost predicate ServedAfter<V>(s: Shared<V>, key: string, returnedAt: nat, finishedAt: nat) {
    forall c | c in s.calls && s.calls[c].Returned? && s.calls[c].answer.Served? && s.calls[c].key == key
      && returnedAt < s.calls[c].began ::
      && s.calls[c].answer.load < |s.loads|
      && finishedAt < s.loads[s.calls[c].answer.load].started
  }

  lemma ErasedThenFresh<V>(s: Shared<V>, b: M.Budget, e: Erasure, key: string, returnedAt: nat, finishedAt: nat)
    requires Inv(s, b) && e in s.log && Covers(e.scope, key) && finishedAt < e.at <= returnedAt
    ensures ServedAfter(s, key, returnedAt, finishedAt)
  {
    forall c | c in s.calls && s.calls[c].Returned? && s.calls[c].answer.Served? && s.calls[c].key == key
      && returnedAt < s.calls[c].began
      ensures s.calls[c].answer.load < |s.loads| && finishedAt < s.loads[s.calls[c].answer.load].started
    {
      assert GoodCall(s, s.calls[c]);
    }
  }

  ghost predicate ConsultsAreFresh<I, L>(l: Lake<I, L>, c: Consult, returnedAt: nat, finishedAt: nat) {
    if c.which == Stats then ServedAfter(l.stats, c.key, returnedAt, finishedAt)
    else ServedAfter(l.lists, c.key, returnedAt, finishedAt)
  }

  lemma ErasedConsultsAreFresh<I, L>(l: Lake<I, L>, b: Limits, id: nat, c: Consult)
    requires LakeInv(l, b) && id in l.mutations && l.mutations[id].returnedAt.Some?
    requires Erases(FullScript(l.mutations[id].paths), c)
    ensures ConsultsAreFresh(l, c, l.mutations[id].returnedAt.value, l.mutations[id].finishedAt)
  {
    var x := l.mutations[id];
    assert GoodMutation(l, x);
    var t :| t in FullScript(x.paths) && t.which == c.which && Covers(t.scope, c.key);
    var j :| 0 <= j < |FullScript(x.paths)| && FullScript(x.paths)[j] == t;
    assert ErasedSince(l, x, j);
    var e :| e in LogOf(l, t.which) && e.scope == t.scope && x.finishedAt < e.at && e.at <= x.returnedAt.value;
    if c.which == Stats {
      ErasedThenFresh(l.stats, b.stats, e, c.key, x.returnedAt.value, x.finishedAt);
    } else {
      ErasedThenFresh(l.lists, b.lists, e, c.key, x.returnedAt.value, x.finishedAt);
    }
  }

  /** Read your writes, for every run: once a mutation of p has returned, every later Stat of p or of anything
      below it is answered only from loads that began after the mutation's remote request had finished. */
  lemma StatReadsItsWrites<I, L>(trace: seq<Move<I, L>>, b: Limits, id: nat, p: Path, q: Path, c: Consult)
    requires Plays(Begin(), trace, b)
    requires var l := Outcome(Begin(), trace, b);
             id in l.mutations && l.mutations[id].returnedAt.Some?
             && p in l.mutations[id].paths
    requires Below(p, q) && c in StatConsults(q)
    ensures var l := Outcome(Begin(), trace, b);
            ConsultsAreFresh(l, c, l.mutations[id].returnedAt.value, l.mutations[id].finishedAt)
  {
    var l := Outcome(Begin(), trace, b);
    PlaysKeepInv(Begin(), trace, b);
    StatIsErased(p, q, c);
    FullScriptErases(l.mutations[id].paths, p, c);
    ErasedConsultsAreFresh(l, b, id, c);
  }

  /** The same for a later List of p, of anything below p, or of the directory that contains p. */
  lemma ListReadsItsWrites<I, L>(trace: seq<Move<I, L>>, b: Limits, id: nat, p: Path, q: Path)
    requires Plays(Begin(), trace, b)
    requires var l := Outcome(Begin(), trace, b);
             id in l.mutations && l.mutations[id].returnedAt.Some?
             && p in l.mutations[id].paths
    requires Below(p, q) || (0 <= LastSlash(p.relative) && q == Parent(p))
    ensures var l := Outcome(Begin(), trace, b);
            ConsultsAreFresh(l, Consult(Lists, LakeKey(q)), l.mutations[id].returnedAt.value,
                             l.mutations[id].finishedAt)
  {
    var l := Outcome(Begin(), trace, b);
    PlaysKeepInv(Begin(), trace, b);
    ListIsErased(p, q);
    FullScriptErases(l.mutations[id].paths, p, Consult(Lists, LakeKey(q)));
    ErasedConsultsAreFresh(l, b, id, Consult(Lists, LakeKey(q)));
  }
}
