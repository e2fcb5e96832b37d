/** Open-handle leases and namespace mutations of one mount, and the callers that wait for them
    (internal/workspacefs/types.go, begin, mutation, acquire, notify). */
module Leases {
  import opened Prelude

  datatype Lease = Lease(readers: nat, writers: nat)

  datatype Limits = Limits(maxHandles: nat, maxWriters: nat)

  /** `epoch` numbers the current broadcast channel; every earlier one is closed. */
  datatype State = State(active: map<string, Lease>, handles: nat, writers: nat, mutating: bool, epoch: nat)

  /** What a caller asks for: a handle on a key, or a mutation of the subtrees at some keys. */
  datatype Want = Use(key: string, write: bool) | Mutate(keys: seq<string>)

  function At(s: State, key: string): Lease {
    if key in s.active then s.active[key] else Lease(0, 0)
  }

  predicate Under(key: string, root: string) { key == root || HasPrefix(key, root + "/") }

  predicate Overlaps(s: State, keys: seq<string>) {
    exists k, r | k in s.active && r in keys :: Under(k, r)
  }

  /** The guard of one attempt. */
  predicate Can(s: State, want: Want, lim: Limits) {
    match want
    case Use(key, write) =>
      && !s.mutating && s.handles < lim.maxHandles
      && (write ==> At(s, key).writers == 0 && s.writers < lim.maxWriters)
    case Mutate(keys) => !s.mutating && !Overlaps(s, keys)
  }

  function Taken(s: State, want: Want): State {
    match want
    case Use(key, write) =>
      var l := At(s, key);
      s.(active := s.active[key := if write then l.(writers := l.writers + 1) else l.(readers := l.readers + 1)],
         handles := s.handles + 1, writers := s.writers + if write then 1 else 0)
    case Mutate(_) => s.(mutating := true)
  }

  /** What a release may be called on: something that was taken and not yet given back. */
  predicate Held(s: State, want: Want) {
    match want
    case Use(key, write) => key in s.active && s.handles > 0
      && if write then s.active[key].writers > 0 && s.writers > 0 else s.active[key].readers > 0
    case Mutate(_) => s.mutating
  }

  /** Every release ends by closing the current channel and installing the next. */
  function GivenBack(s: State, want: Want): State
    requires Held(s, want)
  {
    var t := s.(epoch := s.epoch + 1);
    match want
    case Use(key, write) =>
      var l := s.active[key];
      var left := if write then l.(writers := l.writers - 1) else l.(readers := l.readers - 1);
      t.(active := if left == Lease(0, 0) then s.active - {key} else s.active[key := left],
         handles := s.handles - 1, writers := s.writers - if write then 1 else 0)
    case Mutate(_) => t.(mutating := false)
  }

  class Channel {
    var closed: bool

    constructor ()
      ensures !closed
    {
      closed := false;
    }
  }

  /** The filesystem's lock-protected bookkeeping. */
  class FS {
    const limits: Limits
    var active: map<string, Lease>
    var handles: nat
    var writers: nat
    var mutating: bool
    var changed: Channel
    ghost var epoch: nat

    constructor (limits: Limits)
      ensures this.limits == limits && Model() == State(map[], 0, 0, false, 0) && fresh(changed) && !changed.closed
    {
      this.limits, active, handles, writers, mutating := limits, map[], 0, 0, false;
      changed := new Channel();
      epoch := 0;
    }

    ghost function Model(): State
      reads this
    {
      State(active, handles, writers, mutating, epoch)
    }

    /** begin's attempt. */
    method TryUse(key: string, write: bool) returns (ok: bool)
      modifies this`active, this`handles, this`writers
      ensures ok == old(Can(Model(), Use(key, write), limits))
      ensures Model() == if ok then Taken(old(Model()), Use(key, write)) else old(Model())
    {
      var current := if key in active then active[key] else Lease(0, 0);
      if mutating || handles >= limits.maxHandles || (write && (current.writers != 0 || writers >= limits.maxWriters)) {
        return false;
      }
      if write {
        current := current.(writers := current.writers + 1);
        writers := writers + 1;
      } else {
        current := current.(readers := current.readers + 1);
      }
      handles := handles + 1;
      active := active[key := current];
      ok := true;
    }

    /** mutation's attempt scans every active key against every requested root. */
    method TryMutate(keys: seq<string>) returns (ok: bool)
      modifies this`mutating
      ensures ok == old(Can(Model(), Mutate(keys), limits))
      ensures Model() == if ok then Taken(old(Model()), Mutate(keys)) else old(Model())
    {
      if mutating { return false; }
      var todo := active.Keys;
      while todo != {}
        invariant todo <= active.Keys && !mutating && Model() == old(Model())
        invariant forall k, r | k in active && k !in todo && r in keys :: !Under(k, r)
      {
        var k :| k in todo;
        todo := todo - {k};
        for i := 0 to |keys|
          invariant Model() == old(Model())
          invariant forall r | r in keys[..i] :: !Under(k, r)
        {
          if k == keys[i] || HasPrefix(k, keys[i] + "/") {
            assert Under(k, keys[i]) && keys[i] in keys;
            return false;
          }
        }
      }
      mutating := true;
      ok := true;
    }

    method Notify()
      requires !changed.closed
      modifies changed, this`changed, this`epoch
      ensures old(changed).closed && fresh(changed) && !changed.closed && epoch == old(epoch) + 1
    {
      changed.closed := true;
      changed := new Channel();
      epoch := epoch + 1;
    }

    method GiveBackUse(key: string, write: bool)
      requires Held(Model(), Use(key, write)) && !changed.closed
      modifies changed, this
      ensures Model() == GivenBack(old(Model()), Use(key, write))
      ensures old(changed).closed && !changed.closed
    {
      var state := active[key];
      if write {
        state := state.(writers := state.writers - 1);
        writers := writers - 1;
      } else {
        state := state.(readers := state.readers - 1);
      }
      handles := handles - 1;
      if state.readers == 0 && state.writers == 0 {
        active := active - {key};
      } else {
        active := active[key := state];
      }
      Notify();
    }

    method GiveBackMutation(ghost keys: seq<string>)
      requires Held(Model(), Mutate(keys)) && !changed.closed
      modifies changed, this
      ensures Model() == GivenBack(old(Model()), Mutate(keys))
      ensures old(changed).closed && !changed.closed
    {
      mutating := false;
      Notify();
    }
  }

  /** The release function a caller is handed: sync.Once makes every call but the first do nothing. */
  class ReleaseOnce {
    const fs: FS
    const key: string
    const write: bool
    var spent: bool

    constructor (fs: FS, key: string, write: bool)
      ensures this.fs == fs && this.key == key && this.write == write && !spent
    {
      this.fs, this.key, this.write, spent := fs, key, write, false;
    }

    method Call()
      requires !fs.changed.closed && (!spent ==> Held(fs.Model(), Use(key, write)))
      modifies this, fs, fs.changed
      ensures spent && !fs.changed.closed
      ensures fs.Model() == if old(spent) then old(fs.Model()) else GivenBack(old(fs.Model()), Use(key, write))
    {
      if !spent {
        spent := true;
        fs.GiveBackUse(key, write);
      }
    }
  }

  /** A caller of begin or mutation. `Asleep` waits on the channel of its epoch. */
  datatype Caller = Asleep(want: Want, epoch: nat) | Holding(want: Want) | Gone(want: Want)

  datatype System = System(state: State, callers: map<nat, Caller>)

  datatype Step = Arrive(id: nat, want: Want) | Retry(id: nat) | TimeOut(id: nat) | Release(id: nat)

  const Fresh := System(State(map[], 0, 0, false, 0), map[])

  predicate Enabled(s: System, step: Step) {
    match step
    case Arrive(id, _) => id !in s.callers
    case Retry(id) => id in s.callers && s.callers[id].Asleep? && s.callers[id].epoch < s.state.epoch
    case TimeOut(id) => id in s.callers && s.callers[id].Asleep?
    case Release(id) =>
      id in s.callers && !s.callers[id].Asleep?
      && (s.callers[id].Holding? ==> Held(s.state, s.callers[id].want))
  }

  function Attempt(s: System, id: nat, want: Want, lim: Limits): System {
    if Can(s.state, want, lim) then System(Taken(s.state, want), s.callers[id := Holding(want)])
    else s.(callers := s.callers[id := Asleep(want, s.state.epoch)])
  }

  /** One step of one caller; releasing again after the first time changes nothing. */
  function Apply(s: System, step: Step, lim: Limits): System
    requires Enabled(s, step)
  {
    match step
    case Arrive(id, want) => Attempt(s, id, want, lim)
    case Retry(id) => Attempt(s, id, s.callers[id].want, lim)
    case TimeOut(id) => s.(callers := s.callers[id := Gone(s.callers[id].want)])
    case Release(id) =>
      var want := s.callers[id].want;
      if s.callers[id].Holding? then System(GivenBack(s.state, want), s.callers[id := Gone(want)]) else s
  }

  function Weight(l: Lease, writersOnly: bool): nat {
    l.writers + if writersOnly then 0 else l.readers
  }

  /** The leases recorded over all keys, or only the writing ones. */
  ghost function Sum(m: map<string, Lease>, writersOnly: bool): nat {
    if m == map[] then 0
    else
      var k :| k in m;
      Weight(m[k], writersOnly) + Sum(m - {k}, writersOnly)
  }

  function Holders(s: System, want: Want): set<nat> {
    set id | id in s.callers && s.callers[id] == Holding(want)
  }

  function Users(s: System): set<nat> {
    set id | id in s.callers && s.callers[id].Holding? && s.callers[id].want.Use?
  }

  function WritingUsers(s: System): set<nat> {
    set id | id in Users(s) && s.callers[id].want.write
  }

  function Mutators(s: System): set<nat> {
    set id | id in s.callers && s.callers[id].Holding? && s.callers[id].want.Mutate?
  }

  /** The counters are exactly the leases that are out. */
  ghost predicate Counted(s: System) {
    && (forall k :: At(s.state, k) == Lease(|Holders(s, Use(k, false))|, |Holders(s, Use(k, true))|))
    && s.state.handles == |Users(s)| && s.state.writers == |WritingUsers(s)|
    && |Mutators(s)| == (if s.state.mutating then 1 else 0)
    && Summed(s.state)
  }

  /** No key without leases is recorded, and the totals are the sums over the recorded keys. */
  ghost predicate Summed(s: State) {
    && (forall k | k in s.active :: s.active[k] != Lease(0, 0))
    && s.handles == Sum(s.active, false) && s.writers == Sum(s.active, true)
  }

  ghost predicate Capped(s: System, lim: Limits) {
    && s.state.handles <= lim.maxHandles && s.state.writers <= lim.maxWriters
    && forall k :: At(s.state, k).writers <= 1
  }

  /** While a mutation is held, no lease equals or lies below any of its keys. */
  ghost predicate Excluded(s: System) {
    forall id | id in Mutators(s) :: !Overlaps(s.state, s.callers[id].want.keys)
  }

  /** A caller asleep on the channel that is still open would fail again. */
  ghost predicate NoLostWakeup(s: System, lim: Limits) {
    forall id | id in s.callers && s.callers[id].Asleep? ::
      && s.callers[id].epoch <= s.state.epoch
      && (s.callers[id].epoch == s.state.epoch ==> !Can(s.state, s.callers[id].want, lim))
  }

  ghost predicate Inv(s: System, lim: Limits) {
    Counted(s) && Capped(s, lim) && Excluded(s) && NoLostWakeup(s, lim)
  }

  lemma {:induction false} SumSplit(m: map<string, Lease>, k: string, writersOnly: bool)
    requires k in m
    ensures Sum(m, writersOnly) == Weight(m[k], writersOnly) + Sum(m - {k}, writersOnly)
  {
    var j :| j in m && Sum(m, writersOnly) == Weight(m[j], writersOnly) + Sum(m - {j}, writersOnly);
    if j != k {
      SumSplit(m - {j}, k, writersOnly);
      SumSplit(m - {k}, j, writersOnly);
      assert m - {j} - {k} == m - {k} - {j};
    }
  }

  lemma SumUpdate(m: map<string, Lease>, k: string, l: Lease, writersOnly: bool)
    ensures Sum(m[k := l], writersOnly) + Weight(if k in m then m[k] else Lease(0, 0), writersOnly)
         == Sum(m, writersOnly) + Weight(l, writersOnly)
  {
    SumSplit(m[k := l], k, writersOnly);
    assert m[k := l] - {k} == m - {k};
    if k in m { SumSplit(m, k, writersOnly); } else { assert m - {k} == m; }
  }

  lemma TakeKeepsSums(s: State, want: Want)
    requires Summed(s)
    ensures Summed(Taken(s, want))
  {
    if want.Use? {
      var l := Taken(s, want).active[want.key];
      SumUpdate(s.active, want.key, l, false);
      SumUpdate(s.active, want.key, l, true);
    }
  }

  lemma GiveBackKeepsSums(s: State, want: Want)
    requires Summed(s) && Held(s, want)
    ensures Summed(GivenBack(s, want))
  {
    if want.Use? {
      var t := GivenBack(s, want);
      if want.key in t.active {
        SumUpdate(s.active, want.key, t.active[want.key], false);
        SumUpdate(s.active, want.key, t.active[want.key], true);
      } else {
        SumSplit(s.active, want.key, false);
        SumSplit(s.active, want.key, true);
      }
    }
  }

  lemma SetsAfterTake(s: System, t: System, id: nat, want: Want)
    requires (id in s.callers ==> s.callers[id].Asleep?) && t.callers == s.callers[id := Holding(want)]
    ensures forall w :: Holders(t, w) == if w == want then Holders(s, w) + {id} else Holders(s, w)
    ensures forall w :: id !in Holders(s, w)
    ensures id !in Users(s) && id !in WritingUsers(s) && id !in Mutators(s)
    ensures Users(t) == if want.Use? then Users(s) + {id} else Users(s)
    ensures WritingUsers(t) == if want.Use? && want.write then WritingUsers(s) + {id} else WritingUsers(s)
    ensures Mutators(t) == if want.Mutate? then Mutators(s) + {id} else Mutators(s)
  {
    forall w ensures Holders(t, w) == if w == want then Holders(s, w) + {id} else Holders(s, w) {
    }
  }

  lemma SetsAfterGiveBack(s: System, t: System, id: nat)
    requires id in s.callers && s.callers[id].Holding? && t.callers == s.callers[id := Gone(s.callers[id].want)]
    ensures var want := s.callers[id].want;
            && id in Holders(s, want)
            && (want.Use? ==> id in Users(s) && (want.write ==> id in WritingUsers(s)))
            && (want.Mutate? ==> id in Mutators(s))
            && (forall w :: Holders(t, w) == if w == want then Holders(s, w) - {id} else Holders(s, w))
            && Users(t) == (if want.Use? then Users(s) - {id} else Users(s))
            && WritingUsers(t) == (if want.Use? && want.write then WritingUsers(s) - {id} else WritingUsers(s))
            && Mutators(t) == if want.Mutate? then Mutators(s) - {id} else Mutators(s)
  {
    var want := s.callers[id].want;
    forall w ensures Holders(t, w) == if w == want then Holders(s, w) - {id} else Holders(s, w) {
    }
  }

  lemma LeaseAfterTake(s: State, want: Want, k: string)
    ensures At(Taken(s, want), k) ==
            var l := At(s, k);
            if want == Use(k, true) then l.(writers := l.writers + 1)
            else if want == Use(k, false) then l.(readers := l.readers + 1)
            else l
  {
  }

  lemma HoldersAfterTake(s: System, t: System, id: nat, want: Want, w: Want)
    requires (id in s.callers ==> s.callers[id].Asleep?) && t.callers == s.callers[id := Holding(want)]
    ensures |Holders(t, w)| == |Holders(s, w)| + if w == want then 1 else 0
  {
    SetsAfterTake(s, t, id, want);
    hide Holders;
    assert Holders(t, w) == if w == want then Holders(s, w) + {id} else Holders(s, w);
  }

  lemma KeyAfterTake(s: System, t: System, id: nat, want: Want, k: string)
    requires Counted(s) && (id in s.callers ==> s.callers[id].Asleep?)
    requires t == System(Taken(s.state, want), s.callers[id := Holding(want)])
    ensures At(t.state, k) == Lease(|Holders(t, Use(k, false))|, |Holders(t, Use(k, true))|)
  {
    assert At(s.state, k) == Lease(|Holders(s, Use(k, false))|, |Holders(s, Use(k, true))|);
    hide *;
    LeaseAfterTake(s.state, want, k);
    HoldersAfterTake(s, t, id, want, Use(k, false));
    HoldersAfterTake(s, t, id, want, Use(k, true));
  }

  lemma TakeKeepsCounted(s: System, id: nat, want: Want, lim: Limits)
    requires Counted(s) && (id in s.callers ==> s.callers[id].Asleep?) && Can(s.state, want, lim)
    ensures Counted(System(Taken(s.state, want), s.callers[id := Holding(want)]))
  {
    var t := System(Taken(s.state, want), s.callers[id := Holding(want)]);
    TakeKeepsSums(s.state, want);
    SetsAfterTake(s, t, id, want);
    forall k ensures At(t.state, k) == Lease(|Holders(t, Use(k, false))|, |Holders(t, Use(k, true))|) {
      KeyAfterTake(s, t, id, want, k);
    }
    hide Holders, Users, WritingUsers, Mutators, Summed, Overlaps, At;
  }

  lemma KeyAfterGiveBack(s: System, t: System, id: nat, k: string)
    requires Counted(s) && id in s.callers && s.callers[id].Holding? && Held(s.state, s.callers[id].want)
    requires t == System(GivenBack(s.state, s.callers[id].want), s.callers[id := Gone(s.callers[id].want)])
    ensures At(t.state, k) == Lease(|Holders(t, Use(k, false))|, |Holders(t, Use(k, true))|)
  {
    SetsAfterGiveBack(s, t, id);
    hide Holders, Users, WritingUsers, Mutators, Summed;
    assert At(s.state, k) == Lease(|Holders(s, Use(k, false))|, |Holders(s, Use(k, true))|);
    var want := s.callers[id].want;
    if want == Use(k, true) {
      assert Holders(t, Use(k, true)) == Holders(s, Use(k, true)) - {id};
      assert Holders(t, Use(k, false)) == Holders(s, Use(k, false));
    } else if want == Use(k, false) {
      assert Holders(t, Use(k, false)) == Holders(s, Use(k, false)) - {id};
      assert Holders(t, Use(k, true)) == Holders(s, Use(k, true));
    } else {
      assert Holders(t, Use(k, true)) == Holders(s, Use(k, true));
      assert Holders(t, Use(k, false)) == Holders(s, Use(k, false));
      assert At(t.state, k) == At(s.state, k);
    }
  }

  lemma GiveBackKeepsCounted(s: System, id: nat)
    requires Counted(s) && id in s.callers && s.callers[id].Holding? && Held(s.state, s.callers[id].want)
    ensures Counted(System(GivenBack(s.state, s.callers[id].want), s.callers[id := Gone(s.callers[id].want)]))
  {
    var t := System(GivenBack(s.state, s.callers[id].want), s.callers[id := Gone(s.callers[id].want)]);
    GiveBackKeepsSums(s.state, s.callers[id].want);
    forall k ensures At(t.state, k) == Lease(|Holders(t, Use(k, false))|, |Holders(t, Use(k, true))|) {
      KeyAfterGiveBack(s, t, id, k);
    }
    SetsAfterGiveBack(s, t, id);
    hide Holders, Users, WritingUsers, Mutators, Summed, At;
  }

  lemma SameCount(s: System, t: System)
    requires Counted(s) && t.state == s.state
    requires forall id, w | id in t.callers && t.callers[id] == Holding(w) ::
             id in s.callers
             && s.callers[id] == Holding(w)
    requires forall id | id in s.callers && s.callers[id].Holding? :: id in t.callers && t.callers[id] == s.callers[id]
    ensures Counted(t)
  {
    forall w ensures Holders(t, w) == Holders(s, w) {
    }
    assert Users(t) == Users(s) && WritingUsers(t) == WritingUsers(s) && Mutators(t) == Mutators(s);
  }

  /** A holder can always give back what it holds: no counter ever goes below zero. */
  lemma HolderCanRelease(s: System, id: nat)
    requires Counted(s) && id in s.callers && s.callers[id].Holding?
    ensures Held(s.state, s.callers[id].want)
  {
    match s.callers[id].want
    case Use(key, write) =>
      assert id in Holders(s, Use(key, write)) && id in Users(s);
      assert write ==> id in WritingUsers(s);
      assert At(s.state, key) == Lease(|Holders(s, Use(key, false))|, |Holders(s, Use(key, true))|);
    case Mutate(keys) =>
      assert id in Mutators(s);
  }

  /** Between two notifications nothing can turn a failing guard into a passing one. */
  lemma GuardsOnlyHarden(s: State, taken: Want, want: Want, lim: Limits)
    requires Can(s, taken, lim) && !Can(s, want, lim)
    ensures !Can(Taken(s, taken), want, lim)
  {
    if want.Mutate? && !s.mutating {
      var k, r :| k in s.active && r in want.keys && Under(k, r);
      assert k in Taken(s, taken).active;
    }
  }

  lemma AttemptKeepsInv(s: System, id: nat, want: Want, lim: Limits)
    requires Inv(s, lim) && (id in s.callers ==> s.callers[id].Asleep?)
    ensures Inv(Attempt(s, id, want, lim), lim)
  {
    var t := Attempt(s, id, want, lim);
    if Can(s.state, want, lim) {
      TakeKeepsCounted(s, id, want, lim);
      forall i | i in t.callers && t.callers[i].Asleep? && t.callers[i].epoch == t.state.epoch
        ensures !Can(t.state, t.callers[i].want, lim)
      {
        GuardsOnlyHarden(s.state, want, t.callers[i].want, lim);
      }
      forall i | i in Mutators(t) ensures !Overlaps(t.state, t.callers[i].want.keys) {
        assert i == id || i in Mutators(s);
      }
      forall k ensures At(t.state, k).writers <= 1 {
        assert At(s.state, k).writers <= 1;
      }
    } else {
      SameCount(s, t);
      assert Mutators(t) == Mutators(s);
    }
  }

  lemma StepKeepsInv(s: System, step: Step, lim: Limits)
    requires Inv(s, lim) && Enabled(s, step)
    ensures Inv(Apply(s, step, lim), lim)
  {
    var t := Apply(s, step, lim);
    match step
    case Arrive(id, want) => AttemptKeepsInv(s, id, want, lim);
    case Retry(id) => AttemptKeepsInv(s, id, s.callers[id].want, lim);
    case TimeOut(id) =>
      SameCount(s, t);
      assert Mutators(t) == Mutators(s);
      hide Counted, Can;
    case Release(id) =>
      if s.callers[id].Holding? { ReleaseKeepsInv(s, id, lim); }
  }

  lemma ReleaseKeepsInv(s: System, id: nat, lim: Limits)
    requires Inv(s, lim) && id in s.callers && s.callers[id].Holding? && Held(s.state, s.callers[id].want)
    ensures Inv(System(GivenBack(s.state, s.callers[id].want), s.callers[id := Gone(s.callers[id].want)]), lim)
  {
    var t := System(GivenBack(s.state, s.callers[id].want), s.callers[id := Gone(s.callers[id].want)]);
    GiveBackKeepsCounted(s, id);
    hide Counted, Can, Under;
    forall i | i in Mutators(t) ensures !Overlaps(t.state, t.callers[i].want.keys) {
      assert i in Mutators(s);
      assert t.state.active.Keys <= s.state.active.Keys;
    }
    forall k ensures At(t.state, k).writers <= 1 {
      assert At(s.state, k).writers <= 1;
    }
  }

  ghost predicate Runs(s: System, trace: seq<Step>, lim: Limits)
    decreases |trace|
  {
    trace == [] || (Enabled(s, trace[0]) && Runs(Apply(s, trace[0], lim), trace[1..], lim))
  }

  ghost function After(s: System, trace: seq<Step>, lim: Limits): System
    requires Runs(s, trace, lim)
    decreases |trace|
  {
    if trace == [] then s else After(Apply(s, trace[0], lim), trace[1..], lim)
  }

  lemma {:induction false} RunKeepsInv(s: System, trace: seq<Step>, lim: Limits)
    requires Inv(s, lim) && Runs(s, trace, lim)
    ensures Inv(After(s, trace, lim), lim)
    decreases |trace|
  {
    if trace != [] {
      StepKeepsInv(s, trace[0], lim);
      RunKeepsInv(Apply(s, trace[0], lim), trace[1..], lim);
    }
  }

  /** Over every run of every set of callers: the counters are the outstanding leases, both caps and the
      single-writer rule hold, a held mutation excludes every lease below its keys, and nobody sleeps on an
      open channel while able to proceed. */
  lemma LeasesAreSafe(trace: seq<Step>, lim: Limits)
    requires Runs(Fresh, trace, lim)
    ensures var s := After(Fresh, trace, lim);
            && Counted(s) && Capped(s, lim) && Excluded(s) && NoLostWakeup(s, lim)
            && forall id | id in s.callers && s.callers[id].Holding? :: Held(s.state, s.callers[id].want)
  {
    RunKeepsInv(Fresh, trace, lim);
    var s := After(Fresh, trace, lim);
    forall id | id in s.callers && s.callers[id].Holding? ensures Held(s.state, s.callers[id].want) {
      HolderCanRelease(s, id);
    }
  }

  /** What stands in the way of a caller, told by who holds what. */
  ghost predicate Free(s: System, want: Want, lim: Limits) {
    && Mutators(s) == {}
    && match want
       case Use(key, write) =>
         && |Users(s)| < lim.maxHandles
         && (write ==> Holders(s, Use(key, true)) == {} && |WritingUsers(s)| < lim.maxWriters)
       case Mutate(keys) =>
         forall i, r | i in Users(s) && r in keys :: !Under(s.callers[i].want.key, r)
  }

  lemma RecordedIffHeld(s: System, k: string)
    requires Counted(s)
    ensures k in s.state.active <==> exists i :: i in Users(s) && s.callers[i].want.key == k
  {
    assert At(s.state, k) == Lease(|Holders(s, Use(k, false))|, |Holders(s, Use(k, true))|);
    if k in s.state.active {
      assert s.state.active[k] != Lease(0, 0);
      if Holders(s, Use(k, false)) != {} {
        var i :| i in Holders(s, Use(k, false));
        assert i in Users(s);
      } else {
        assert Holders(s, Use(k, true)) != {};
        var i :| i in Holders(s, Use(k, true));
        assert i in Users(s);
      }
    }
    if i :| i in Users(s) && s.callers[i].want.key == k {
      assert i in Holders(s, Use(k, s.callers[i].want.write));
    }
  }

  lemma CanIffFree(s: System, want: Want, lim: Limits)
    requires Counted(s)
    ensures Can(s.state, want, lim) <==> Free(s, want, lim)
  {
    assert s.state.mutating <==> Mutators(s) != {} by { hide Mutators; }
    match want {
      case Use(key, write) =>
        assert At(s.state, key).writers == |Holders(s, Use(key, true))|;
        hide Holders, Users, WritingUsers, Mutators, At;
      case Mutate(keys) =>
        forall k ensures k in s.state.active <==> exists i :: i in Users(s) && s.callers[i].want.key == k {
          RecordedIffHeld(s, k);
        }
        hide Users, Mutators, Counted, Under;
    }
  }

  /** Over every run, an attempt succeeds exactly when nothing that is held stands in its way: no mutation, no full
      house, no other writer of the key; for a mutation, no lease at or below its keys. */
  lemma GrantedExactlyWhenFree(trace: seq<Step>, lim: Limits, id: nat, want: Want)
    requires Runs(Fresh, trace, lim)
    ensures var s := After(Fresh, trace, lim);
            && (id !in s.callers ==> (Apply(s, Arrive(id, want), lim).callers[id].Holding? <==> Free(s, want, lim)))
            && (Enabled(s, Retry(id)) ==>
                (Apply(s, Retry(id), lim).callers[id].Holding? <==> Free(s, s.callers[id].want, lim)))
  {
    RunKeepsInv(Fresh, trace, lim);
    var s := After(Fresh, trace, lim);
    CanIffFree(s, want, lim);
    if Enabled(s, Retry(id)) { CanIffFree(s, s.callers[id].want, lim); }
    hide Can, Free, Counted, Capped, Excluded, NoLostWakeup;
  }
}
