/** The bounded coordinator that tells the kernel to forget cached attributes and entries
    (internal/fusefs/invalidation_linux.go). Requests flip flags under a lock; one worker notifies. */
module Invalidator {
  import opened Prelude

  /** An empty name asks for the inode's attributes to be forgotten, any other for that directory entry. */
  datatype Target = Target(inode: nat, name: string)

  datatype Job = Job(targets: seq<Target>, dirty: bool, retired: bool)

  /** Where the worker loop stands: waiting for a wake-up, about to scan, between two jobs of its batch,
      or with some of one job's copied targets still to notify. */
  datatype Worker<J> = Idle | Scanning | Working(batch: seq<J>) | Notifying(job: J, queue: seq<Target>, rest: seq<J>)

  /** J identifies a reservation. A reservation outlives its registration in `jobs`. `sent` records every
      notification, and `owed` those promised by a change but not yet sent: neither influences the rest. */
  datatype State<J> = State(
    objects: map<J, Job>, jobs: set<J>, limit: nat, err: int, closed: bool, wake: bool,
    worker: Worker<J>, sent: seq<(J, Target)>, owed: set<(J, Target)>)

  const ENODEV := 19
  const EAGAIN := 11
  const ENOENT := 2

  ghost function Refusal<J>(s: State<J>): int {
    if s.closed then ENODEV else if s.err != 0 then s.err else if |s.jobs| >= s.limit then EAGAIN else 0
  }

  ghost function Reserved<J>(s: State<J>, c: J, targets: seq<Target>): State<J> {
    s.(objects := s.objects[c := Job(targets, false, false)], jobs := s.jobs + {c})
  }

  ghost function Added<J>(s: State<J>, c: J, inode: nat): State<J>
    requires c in s.objects
  {
    var job := s.objects[c];
    s.(objects := s.objects[c := job.(targets := job.targets + [Target(inode, "")])])
  }

  ghost function Promises<J>(c: J, targets: seq<Target>): set<(J, Target)> { set t | t in targets :: (c, t) }

  ghost function Changed<J>(s: State<J>, c: J, retire: bool): State<J>
    requires c in s.objects
  {
    if s.closed then s
    else
      var job := s.objects[c];
      s.(objects := s.objects[c := job.(dirty := true, retired := job.retired || retire)], wake := true,
         owed := if c in s.jobs then s.owed + Promises(c, job.targets) else s.owed)
  }

  /** The batch is every registered dirty job, in whatever order the map yields them. */
  ghost predicate IsBatch<J>(s: State<J>, batch: seq<J>) {
    && NoDuplicates(batch)
    && (forall c | c in batch :: c in s.jobs && c in s.objects && s.objects[c].dirty)
    && (forall c | c in s.jobs && c in s.objects && s.objects[c].dirty :: c in batch)
  }

  ghost function Scanned<J>(s: State<J>, batch: seq<J>): State<J> {
    s.(objects := map c | c in s.objects :: if c in batch then s.objects[c].(dirty := false) else s.objects[c],
       worker := Working(batch))
  }

  /** Attributes first, then entries. */
  function Pick(targets: seq<Target>, entries: bool): (r: seq<Target>)
    ensures forall t | t in targets && (t.name != "") == entries :: t in r
    ensures forall t | t in r :: t in targets
  {
    if targets == [] then [] else
    (if (targets[0].name != "") == entries then [targets[0]] else []) + Pick(targets[1..], entries)
  }

  function Queue(targets: seq<Target>): (r: seq<Target>)
    ensures forall t :: t in r <==> t in targets
  {
    Pick(targets, false) + Pick(targets, true)
  }

  ghost function Copied<J>(s: State<J>): State<J>
    requires s.worker.Working? && s.worker.batch != [] && s.worker.batch[0] in s.objects
  {
    var c := s.worker.batch[0];
    s.(worker := Notifying(c, Queue(s.objects[c].targets), s.worker.batch[1..]))
  }

  /** The first failure other than "already forgotten" stops all further mutations. */
  ghost function Failure<J>(s: State<J>, code: int): State<J> {
    if code != 0 && code != ENOENT && !s.closed && s.err == 0 then s.(err := code) else s
  }

  ghost function Notified<J>(s: State<J>, code: int): State<J>
    requires s.worker.Notifying? && s.worker.queue != []
  {
    var notice := (s.worker.job, s.worker.queue[0]);
    Failure(s, code).(worker := s.worker.(queue := s.worker.queue[1..]),
                      sent := s.sent + [notice], owed := s.owed - {notice})
  }

  ghost function Retired<J>(s: State<J>): State<J>
    requires s.worker.Notifying? && s.worker.queue == [] && s.worker.job in s.objects
  {
    var job := s.objects[s.worker.job];
    s.(jobs := if job.retired && !job.dirty then s.jobs - {s.worker.job} else s.jobs, worker := Working(s.worker.rest))
  }

  datatype Step<J> =
    | Reserve(job: J, targets: seq<Target>)
    | Add(job: J, inode: nat)
    | Change(job: J, retire: bool)
    | Close
    | TakeWake
    | Scan(batch: seq<J>)
    | Copy
    | Notify(code: int)
    | Retire
    | Rest

  ghost predicate Enabled<J>(s: State<J>, step: Step<J>) {
    match step
    case Reserve(c, _) => c !in s.objects && Refusal(s) == 0
    case Add(c, _) => c in s.objects
    case Change(c, _) => c in s.objects
    case Close => true
    case TakeWake => s.worker == Idle && s.wake
    case Scan(batch) => s.worker == Scanning && IsBatch(s, batch)
    case Copy => s.worker.Working? && s.worker.batch != [] && s.worker.batch[0] in s.objects
    case Notify(_) => s.worker.Notifying? && s.worker.queue != []
    case Retire => s.worker.Notifying? && s.worker.queue == [] && s.worker.job in s.objects
    case Rest => s.worker == Working([])
  }

  ghost function Apply<J>(s: State<J>, step: Step<J>): State<J>
    requires Enabled(s, step)
  {
    match step
    case Reserve(c, targets) => Reserved(s, c, targets)
    case Add(c, inode) => Added(s, c, inode)
    case Change(c, retire) => Changed(s, c, retire)
    case Close => s.(closed := true)
    case TakeWake => s.(wake := false, worker := Scanning)
    case Scan(batch) => Scanned(s, batch)
    case Copy => Copied(s)
    case Notify(code) => Notified(s, code)
    case Retire => Retired(s)
    case Rest => s.(worker := Idle)
  }

  /** The jobs the worker still has ahead of it in this batch, the current one included. */
  ghost function Ahead<J>(w: Worker<J>): seq<J> {
    match w
    case Idle => []
    case Scanning => []
    case Working(batch) => batch
    case Notifying(c, _, rest) => [c] + rest
  }

  /** Job c will get its targets notified again, or its target t is still queued. */
  ghost predicate Pending<J>(s: State<J>, c: J, t: Target)
    requires c in s.objects
  {
    || s.objects[c].dirty
    || (c in Ahead(s.worker) && (s.worker.Notifying? && c == s.worker.job ==> t in s.worker.queue))
  }

  ghost predicate Inv<J>(s: State<J>) {
    && s.jobs <= s.objects.Keys && |s.jobs| <= s.limit
    && NoDuplicates(Ahead(s.worker)) && (forall c | c in Ahead(s.worker) :: c in s.jobs)
    && (forall c | c in s.jobs && s.objects[c].retired :: s.objects[c].dirty || c in Ahead(s.worker))
    && (forall p | p in s.owed :: p.0 in s.jobs && p.1 in s.objects[p.0].targets && Pending(s, p.0, p.1))
    && (forall c | c in s.jobs && s.objects[c].dirty :: s.wake || s.worker == Scanning)
  }

  ghost predicate IsRequest<J>(step: Step<J>) {
    step.Reserve? || step.Add? || step.Change? || step.Close?
  }

  lemma RequestKeepsInv<J>(s: State<J>, step: Step<J>)
    requires Inv(s) && IsRequest(step) && Enabled(s, step) && !Apply(s, step).closed
    ensures Inv(Apply(s, step))
  {
  }

  lemma ScanKeepsInv<J>(s: State<J>, batch: seq<J>)
    requires Inv(s) && Enabled(s, Scan(batch))
    ensures Inv(Scanned(s, batch))
  {
    var t := Scanned(s, batch);
    assert Ahead(t.worker) == batch;
    forall p | p in t.owed ensures p.0 in t.jobs && p.1 in t.objects[p.0].targets && Pending(t, p.0, p.1) {
      assert Pending(s, p.0, p.1);
    }
  }

  lemma RetireKeepsInv<J>(s: State<J>)
    requires Inv(s) && Enabled(s, Retire)
    ensures Inv(Retired(s))
  {
    var t := Retired(s);
    assert Ahead(s.worker)[0] == s.worker.job && Ahead(t.worker) == Ahead(s.worker)[1..];
    forall p | p in t.owed ensures p.0 in t.jobs && p.1 in t.objects[p.0].targets && Pending(t, p.0, p.1) {
      assert Pending(s, p.0, p.1);
    }
  }

  lemma NotifyKeepsInv<J>(s: State<J>, code: int)
    requires Inv(s) && Enabled(s, Notify(code))
    ensures Inv(Notified(s, code))
  {
    var t := Notified(s, code);
    assert Ahead(t.worker) == Ahead(s.worker);
    forall p | p in t.owed ensures p.0 in t.jobs && p.1 in t.objects[p.0].targets && Pending(t, p.0, p.1) {
      assert Pending(s, p.0, p.1);
    }
  }

  lemma WorkerKeepsInv<J>(s: State<J>, step: Step<J>)
    requires Inv(s) && !IsRequest(step) && Enabled(s, step)
    ensures Inv(Apply(s, step))
  {
    match step {
      case Scan(batch) => ScanKeepsInv(s, batch);
      case Copy => assert Ahead(Apply(s, step).worker) == Ahead(s.worker);
      case Retire => RetireKeepsInv(s);
      case Notify(code) => NotifyKeepsInv(s, code);
      case _ =>
    }
  }

  ghost predicate Runs<J>(s: State<J>, trace: seq<Step<J>>)
    decreases |trace|
  {
    trace == [] || (Enabled(s, trace[0]) && Runs(Apply(s, trace[0]), trace[1..]))
  }

  ghost function After<J>(s: State<J>, trace: seq<Step<J>>): State<J>
    requires Runs(s, trace)
    decreases |trace|
  {
    if trace == [] then s else After(Apply(s, trace[0]), trace[1..])
  }

  ghost function Fresh<J>(limit: nat): State<J> {
    State(map[], {}, limit, 0, false, false, Idle, [], {})
  }

  lemma {:induction false} RunKeepsInv<J>(s: State<J>, trace: seq<Step<J>>)
    requires Inv(s) && Runs(s, trace) && !After(s, trace).closed
    ensures Inv(After(s, trace))
    decreases |trace|
  {
    if trace != [] {
      var t := Apply(s, trace[0]);
      if t.closed { ClosedForGood(t, trace[1..]); }
      if IsRequest(trace[0]) { RequestKeepsInv(s, trace[0]); } else { WorkerKeepsInv(s, trace[0]); }
      RunKeepsInv(t, trace[1..]);
    }
  }

  lemma {:induction false} ClosedForGood<J>(s: State<J>, trace: seq<Step<J>>)
    requires Runs(s, trace) && s.closed
    ensures After(s, trace).closed
    decreases |trace|
  {
    if trace != [] { ClosedForGood(Apply(s, trace[0]), trace[1..]); }
  }

  lemma OwedIsPending<J>(s: State<J>)
    requires Inv(s)
    ensures s.worker == Idle && !s.wake ==> s.owed == {}
  {
  }

  /** Over every run that has not been closed: reservations never exceed the limit, a retired one is always
      dirty or still ahead in the worker's batch, and when the worker idles without a wake-up nothing is owed
      and no retired reservation still occupies a slot. */
  lemma NothingIsLost<J>(trace: seq<Step<J>>, limit: nat)
    requires Runs(Fresh<J>(limit), trace) && !After(Fresh<J>(limit), trace).closed
    ensures var s := After(Fresh<J>(limit), trace);
            && s.jobs <= s.objects.Keys && |s.jobs| <= s.limit
            && (forall c | c in s.jobs && s.objects[c].retired :: s.objects[c].dirty || c in Ahead(s.worker))
            && (forall p | p in s.owed :: p.0 in s.jobs)
            && (s.worker == Idle && !s.wake ==> s.owed == {} && forall c | c in s.jobs :: !s.objects[c].retired)
  {
    RunKeepsInv(Fresh<J>(limit), trace);
    var s := After(Fresh<J>(limit), trace);
    OwedIsPending(s);
  }

  /** What was owed stops being owed in one way only: that very notification is sent. */
  lemma OwedUntilSent<J>(s: State<J>, step: Step<J>, p: (J, Target))
    requires Inv(s) && Enabled(s, step) && p in s.owed && p !in Apply(s, step).owed
    ensures step.Notify? && Apply(s, step).sent == s.sent + [p]
  {
  }

  /** Over any run: what is owed stays owed until it is sent. */
  lemma {:induction false} OwedIsKeptOrSent<J>(s: State<J>, trace: seq<Step<J>>, p: (J, Target))
    requires Inv(s) && Runs(s, trace) && !After(s, trace).closed && p in s.owed
    ensures s.sent <= After(s, trace).sent
    ensures p in After(s, trace).owed || p in After(s, trace).sent[|s.sent|..]
    decreases |trace|
  {
    if trace != [] {
      var u := Apply(s, trace[0]);
      if u.closed { ClosedForGood(u, trace[1..]); }
      if IsRequest(trace[0]) { RequestKeepsInv(s, trace[0]); } else { WorkerKeepsInv(s, trace[0]); }
      SentOnlyGrows(s, trace[0]);
      if p in u.owed {
        hide Inv, Apply, Enabled;
        OwedIsKeptOrSent(u, trace[1..], p);
        var v := After(u, trace[1..]);
        if p !in v.owed { SentSince(s.sent, u.sent, v.sent, p); }
      } else {
        OwedUntilSent(s, trace[0], p);
        hide Inv, Apply, Enabled;
        SentOverRun(u, trace[1..]);
        assert After(u, trace[1..]).sent[|s.sent|] == p;
      }
    }
  }

  lemma SentOnlyGrows<J>(s: State<J>, step: Step<J>)
    requires Enabled(s, step)
    ensures s.sent <= Apply(s, step).sent
  {
  }

  lemma {:induction false} SentOverRun<J>(s: State<J>, trace: seq<Step<J>>)
    requires Runs(s, trace)
    ensures s.sent <= After(s, trace).sent
    decreases |trace|
  {
    if trace != [] {
      SentOnlyGrows(s, trace[0]);
      hide Apply, Enabled;
      SentOverRun(Apply(s, trace[0]), trace[1..]);
    }
  }

  lemma SentSince<A>(a: seq<A>, b: seq<A>, c: seq<A>, p: A)
    requires a <= b <= c && p in c[|b|..]
    ensures p in c[|a|..]
  {
    var i :| 0 <= i < |c[|b|..]| && c[|b|..][i] == p;
    assert c[|a|..][i + |b| - |a|] == p;
  }

  /** A reservation nobody has retired is still registered. */
  ghost predicate Kept<J>(s: State<J>) {
    forall c | c in s.objects && !s.objects[c].retired :: c in s.jobs
  }

  lemma {:induction false} UnretiredStayRegistered<J>(s: State<J>, trace: seq<Step<J>>)
    requires Kept(s) && Runs(s, trace)
    ensures Kept(After(s, trace))
    decreases |trace|
  {
    if trace != [] { UnretiredStayRegistered(Apply(s, trace[0]), trace[1..]); }
  }

  lemma NothingIsUnkept<J>(limit: nat)
    ensures Kept(Fresh<J>(limit)) && Inv(Fresh<J>(limit))
  {
  }

  /** The guarantee to a caller that has not yet retired its reservation, whatever requests interleave: each target
      it held at its change is notified after the change, or still owed; and nothing is owed any more once the
      reservation is gone or the worker idles. */
  lemma EveryChangeIsSent<J>(before: seq<Step<J>>, limit: nat, c: J, retire: bool, t: Target, later: seq<Step<J>>)
    requires Runs(Fresh<J>(limit), before)
    requires var s := After(Fresh<J>(limit), before);
             && c in s.objects && !s.objects[c].retired && t in s.objects[c].targets
             && Runs(Changed(s, c, retire), later) && !After(Changed(s, c, retire), later).closed
    ensures var s := After(Fresh<J>(limit), before); var u := After(Changed(s, c, retire), later);
            && s.sent <= u.sent
            && ((c, t) in u.sent[|s.sent|..] || ((c, t) in u.owed && c in u.jobs && (u.worker != Idle || u.wake)))
  {
    var s := After(Fresh<J>(limit), before);
    var v := Changed(s, c, retire);
    NothingIsUnkept<J>(limit);
    if s.closed { ClosedForGood(v, later); }
    UnretiredStayRegistered(Fresh<J>(limit), before);
    RunKeepsInv(Fresh<J>(limit), before);
    if v.closed { ClosedForGood(v, later); }
    RequestKeepsInv(s, Change(c, retire));
    assert v == Apply(s, Change(c, retire)) && v.sent == s.sent && (c, t) in v.owed;
    OwedIsKeptOrSent(v, later, (c, t));
    RunKeepsInv(v, later);
    OwedIsPending(After(v, later));
  }

  ghost function Listing<J>(x: set<J>): (r: seq<J>)
    ensures NoDuplicates(r) && (forall c | c in r :: c in x) && (forall c | c in x :: c in r)
  {
    if x == {} then []
    else
      var c :| c in x;
      [c] + Listing(x - {c})
  }

  /** The worker's next step when nobody else moves; `codes` are the kernel's answers, by position in `sent`. */
  ghost function NextWork<J>(s: State<J>, codes: nat -> int): (step: Step<J>)
    requires Inv(s) && (s.worker != Idle || s.wake)
    ensures Enabled(s, step) && !IsRequest(step)
  {
    match s.worker
    case Idle => TakeWake
    case Scanning => Scan(Listing(set c | c in s.jobs && s.objects[c].dirty))
    case Working(batch) =>
      if batch == [] then Rest
      else
        assert batch[0] in Ahead(s.worker);
        Copy
    case Notifying(c, queue, _) =>
      assert Ahead(s.worker)[0] == c;
      if queue == [] then Retire else Notify(codes(|s.sent|))
  }

  ghost function Phase<J>(w: Worker<J>): nat { if w == Scanning then 2 else if w == Idle then 0 else 1 }

  ghost function BatchLeft<J>(w: Worker<J>): nat {
    match w
    case Working(batch) => 2 * |batch|
    case Notifying(_, _, rest) => 2 * |rest| + 1
    case _ => 0
  }

  ghost function QueueLeft<J>(w: Worker<J>): nat { if w.Notifying? then |w.queue| else 0 }

  /** Let the worker run alone until it sleeps; it always does. */
  ghost function Drain<J>(s: State<J>, codes: nat -> int): State<J>
    requires Inv(s)
    decreases if s.wake then 1 else 0, Phase(s.worker), BatchLeft(s.worker), QueueLeft(s.worker)
  {
    if s.worker == Idle && !s.wake then s
    else
      var step := NextWork(s, codes);
      WorkerKeepsInv(s, step);
      Drain(Apply(s, step), codes)
  }

  /** Drained: the worker sleeps, nothing is owed, and every retired slot is free again. */
  lemma {:induction false} DrainComesToRest<J>(s: State<J>, codes: nat -> int)
    requires Inv(s)
    ensures var t := Drain(s, codes);
            && Inv(t) && t.worker == Idle && !t.wake && t.owed == {}
            && t.jobs <= s.jobs && (forall c | c in t.jobs :: !t.objects[c].retired && !t.objects[c].dirty)
    decreases if s.wake then 1 else 0, Phase(s.worker), BatchLeft(s.worker), QueueLeft(s.worker)
  {
    if s.worker == Idle && !s.wake {
      OwedIsPending(s);
    } else {
      var step := NextWork(s, codes);
      WorkerKeepsInv(s, step);
      DrainComesToRest(Apply(s, step), codes);
    }
  }

  lemma WorkSends<J>(s: State<J>, step: Step<J>)
    requires Inv(s) && !IsRequest(step) && Enabled(s, step)
    ensures var u := Apply(s, step);
            && s.sent <= u.sent && u.jobs <= s.jobs
            && (forall p | p in u.sent[|s.sent|..] :: p.0 in s.jobs)
            && (forall p | p in s.owed :: p in u.owed || p in u.sent[|s.sent|..])
  {
    if step.Notify? { assert s.worker.job == Ahead(s.worker)[0]; }
  }

  /** Everything owed is sent, in full, and nothing is sent for an unregistered reservation. */
  lemma {:induction false} DrainSendsWhatIsOwed<J>(s: State<J>, codes: nat -> int)
    requires Inv(s)
    ensures var t := Drain(s, codes);
            && s.sent <= t.sent && (forall p | p in s.owed :: p in t.sent[|s.sent|..])
            && (forall p | p in t.sent[|s.sent|..] :: p.0 in s.jobs)
    decreases if s.wake then 1 else 0, Phase(s.worker), BatchLeft(s.worker), QueueLeft(s.worker)
  {
    if s.worker == Idle && !s.wake {
      DrainComesToRest(s, codes);
    } else {
      var step := NextWork(s, codes);
      WorkerKeepsInv(s, step);
      WorkSends(s, step);
      var u := Apply(s, step);
      hide Inv, Apply, Enabled, NextWork;
      DrainSendsWhatIsOwed(u, codes);
      var t := Drain(u, codes);
      assert t.sent[|s.sent|..] == u.sent[|s.sent|..] + t.sent[|u.sent|..];
    }
  }

  /** Exactly when a change reaches the kernel: while its reservation is still registered. A change made after
      the worker has already dropped a retired reservation sets a flag nobody will read. */
  lemma ChangeIsSentIffRegistered<J>(s: State<J>, c: J, retire: bool, t: Target, codes: nat -> int)
    requires Inv(s) && !s.closed && c in s.objects && t in s.objects[c].targets
    ensures Inv(Changed(s, c, retire)) && s.sent <= Drain(Changed(s, c, retire), codes).sent
    ensures (c, t) in Drain(Changed(s, c, retire), codes).sent[|s.sent|..] <==> c in s.jobs
  {
    RequestKeepsInv(s, Change(c, retire));
    var u := Changed(s, c, retire);
    assert u == Apply(s, Change(c, retire));
    DrainSendsWhatIsOwed(u, codes);
    if c in s.jobs { assert (c, t) in u.owed; }
  }

  /** One reservation made, changed and retired, and carried out by the worker. */
  ghost function OneRound<J>(c: J, t: Target): seq<Step<J>> {
    [Reserve(c, [t])] + ([Change(c, true)] + Carried(c))
  }

  ghost function Carried<J>(c: J): seq<Step<J>> {
    [TakeWake] + ([Scan([c])] + ([Copy] + ([Notify(0)] + ([Retire] + []))))
  }

  lemma RunsOn<J>(s: State<J>, step: Step<J>, rest: seq<Step<J>>)
    requires Enabled(s, step) && Runs(Apply(s, step), rest)
    ensures Runs(s, [step] + rest) && After(s, [step] + rest) == After(Apply(s, step), rest)
  {
    hide Apply, Enabled;
    assert ([step] + rest)[1..] == rest;
  }

  ghost function Asked<J>(c: J, t: Target): State<J> {
    State(map[c := Job([t], true, true)], {c}, 1, 0, false, true, Idle, [], {(c, t)})
  }

  lemma AskingRuns<J>(c: J, t: Target)
    ensures var s := Fresh<J>(1);
            && Enabled(s, Reserve(c, [t])) && Enabled(Apply(s, Reserve(c, [t])), Change(c, true))
            && Apply(Apply(s, Reserve(c, [t])), Change(c, true)) == Asked(c, t)
  {
    assert Promises(c, [t]) == {(c, t)};
  }

  lemma QueueOne(t: Target)
    requires t.name == ""
    ensures Queue([t]) == [t]
  {
    var one, none: seq<Target> := [t], [];
    assert one[1..] == none && Pick(none, false) == none && Pick(none, true) == none;
    assert Pick(one, false) == [t] + none && Pick(one, true) == none + none;
  }

  lemma CarryingRuns<J>(c: J, t: Target)
    requires t.name == ""
    ensures Runs(Asked(c, t), Carried(c))
    ensures After(Asked(c, t), Carried(c))
            == State(map[c := Job([t], false, true)], {}, 1, 0, false, false, Working([]), [(c, t)], {})
  {
    var clean := map[c := Job([t], false, true)];
    var s3 := Asked(c, t).(wake := false, worker := Scanning);
    var s4 := s3.(objects := clean, worker := Working([c]));
    var s5 := s4.(worker := Notifying(c, [t], []));
    var s6 := s5.(worker := Notifying(c, [], []), sent := [(c, t)], owed := {});
    var s7 := s6.(worker := Working([]), jobs := {});
    assert Apply(Asked(c, t), TakeWake) == s3;
    assert IsBatch(s3, [c]) && Scanned(s3, [c]) == s4;
    QueueOne(t);
    var batch := [c];
    assert batch[1..] == [];
    assert Copied(s4) == s5;
    assert Notified(s5, 0) == s6;
    assert Retired(s6) == s7;
    CarriedStep(s6, Retire, s7, []);
    CarriedStep(s5, Notify(0), s6, [Retire] + []);
    CarriedStep(s4, Copy, s5, [Notify(0)] + ([Retire] + []));
    hide Scanned, Copied, Notified, Retired, IsBatch, Queue;
    CarriedStep(s3, Scan([c]), s4, [Copy] + ([Notify(0)] + ([Retire] + [])));
    CarriedStep(Asked(c, t), TakeWake, s3, [Scan([c])] + ([Copy] + ([Notify(0)] + ([Retire] + []))));
  }

  lemma CarriedStep<J>(s: State<J>, step: Step<J>, u: State<J>, rest: seq<Step<J>>)
    requires Enabled(s, step) && Apply(s, step) == u && Runs(u, rest)
    ensures Runs(s, [step] + rest) && After(s, [step] + rest) == After(u, rest)
  {
    RunsOn(s, step, rest);
  }

  lemma OneRoundRuns<J>(c: J, t: Target)
    requires t.name == ""
    ensures Runs(Fresh<J>(1), OneRound(c, t))
    ensures var s := After(Fresh<J>(1), OneRound(c, t));
            !s.closed && c in s.objects && s.objects[c].targets == [t] && c !in s.jobs
  {
    AskingRuns(c, t);
    CarryingRuns(c, t);
    hide Apply, Enabled, Fresh, Carried, Asked;
    var s := Fresh<J>(1);
    RunsOn(Apply(s, Reserve(c, [t])), Change(c, true), Carried(c));
    RunsOn(s, Reserve(c, [t]), [Change(c, true)] + Carried(c));
  }

  /** The hypothesis is needed: after a reservation was retired and carried out, another change of it is never sent. */
  lemma ChangeAfterRetiringCanBeLost<J>(c: J, t: Target, codes: nat -> int)
    requires t.name == ""
    ensures Runs(Fresh<J>(1), OneRound(c, t))
    ensures var s := After(Fresh<J>(1), OneRound(c, t));
            && !s.closed && c in s.objects && t in s.objects[c].targets
            && var u := Changed(s, c, false);
               Inv(u) && s.sent <= Drain(u, codes).sent && (c, t) !in Drain(u, codes).sent[|s.sent|..]
  {
    OneRoundRuns(c, t);
    NothingIsUnkept<J>(1);
    RunKeepsInv(Fresh<J>(1), OneRound(c, t));
    hide Runs, After, Inv, OneRound, Fresh;
    ChangeIsSentIffRegistered(After(Fresh<J>(1), OneRound(c, t)), c, false, t, codes);
  }

  // ----- failing ------------------------------------------------------------------------------

  /** An answer of the kernel that ends all further reservations. */
  predicate Fatal(code: int) { code != 0 && code != ENOENT }

  lemma {:induction false} FailureStays<J>(s: State<J>, trace: seq<Step<J>>)
    requires Runs(s, trace) && s.err != 0
    ensures After(s, trace).err == s.err
    decreases |trace|
  {
    if trace != [] { FailureStays(Apply(s, trace[0]), trace[1..]); }
  }

  lemma {:induction false} NoFailureYet<J>(s: State<J>, trace: seq<Step<J>>)
    requires Runs(s, trace) && s.err == 0
    requires forall k | 0 <= k < |trace| && trace[k].Notify? :: !Fatal(trace[k].code)
    ensures After(s, trace).err == 0
    decreases |trace|
  {
    if trace != [] {
      assert forall k | 0 <= k < |trace[1..]| :: trace[1..][k] == trace[k + 1];
      NoFailureYet(Apply(s, trace[0]), trace[1..]);
    }
  }

  lemma {:induction false} FirstFailureIsKept<J>(s: State<J>, trace: seq<Step<J>>, k: nat)
    requires Runs(s, trace) && s.err == 0 && !After(s, trace).closed
    requires k < |trace| && trace[k].Notify? && Fatal(trace[k].code)
    requires forall j | 0 <= j < k && trace[j].Notify? :: !Fatal(trace[j].code)
    ensures After(s, trace).err == trace[k].code
    decreases |trace|
  {
    var t := Apply(s, trace[0]);
    if t.closed { ClosedForGood(t, trace[1..]); }
    if k == 0 {
      FailureStays(t, trace[1..]);
    } else {
      assert forall j | 0 <= j < |trace[1..]| :: trace[1..][j] == trace[j + 1];
      FirstFailureIsKept(t, trace[1..], k - 1);
    }
  }

  /** Over every run that has not been closed: once the kernel has answered with anything but success or "already
      forgotten", every reservation is refused with the first such answer; before that, only when all slots are
      taken. */
  lemma FirstFailureRefusesAll<J>(trace: seq<Step<J>>, limit: nat, c: J, targets: seq<Target>)
    requires Runs(Fresh<J>(limit), trace) && !After(Fresh<J>(limit), trace).closed
    ensures var s := After(Fresh<J>(limit), trace);
            && (forall k | 0 <= k < |trace| && trace[k].Notify? && Fatal(trace[k].code)
                           && (forall j | 0 <= j < k && trace[j].Notify? :: !Fatal(trace[j].code)) ::
                  Refusal(s) == trace[k].code && !Enabled(s, Reserve(c, targets)))
            && ((forall k | 0 <= k < |trace| && trace[k].Notify? :: !Fatal(trace[k].code)) ==>
                Refusal(s) == if |s.jobs| >= limit then EAGAIN else 0)
  {
    var s := After(Fresh<J>(limit), trace);
    LimitStays(Fresh<J>(limit), trace);
    forall k | 0 <= k < |trace| && trace[k].Notify? && Fatal(trace[k].code)
               && (forall j | 0 <= j < k && trace[j].Notify? :: !Fatal(trace[j].code))
      ensures Refusal(s) == trace[k].code
    {
      FirstFailureIsKept(Fresh<J>(limit), trace, k);
    }
    if forall k | 0 <= k < |trace| && trace[k].Notify? :: !Fatal(trace[k].code) {
      NoFailureYet(Fresh<J>(limit), trace);
    }
    hide Runs, After, Apply;
  }

  lemma {:induction false} LimitStays<J>(s: State<J>, trace: seq<Step<J>>)
    requires Runs(s, trace)
    ensures After(s, trace).limit == s.limit
    decreases |trace|
  {
    if trace != [] { LimitStays(Apply(s, trace[0]), trace[1..]); }
  }

  lemma {:induction false} PickedKinds(targets: seq<Target>)
    ensures forall t | t in Pick(targets, false) :: t.name == ""
    ensures forall t | t in Pick(targets, true) :: t.name != ""
    ensures multiset(Pick(targets, false)) + multiset(Pick(targets, true)) == multiset(targets)
  {
    if targets != [] {
      PickedKinds(targets[1..]);
      assert targets == [targets[0]] + targets[1..];
    }
  }

  /** A job's notifications are its targets, each as often as it was given, attributes before entries. */
  lemma AttributesComeFirst(targets: seq<Target>)
    ensures multiset(Queue(targets)) == multiset(targets)
    ensures forall i, j | 0 <= i < j < |Queue(targets)| :: Queue(targets)[j].name == "" ==> Queue(targets)[i].name == ""
  {
    PickedKinds(targets);
    var a: seq<Target>, e: seq<Target> := Pick(targets, false), Pick(targets, true);
    var q := a + e;
    forall i | 0 <= i < |q| ensures q[i].name == "" <==> i < |a| {
      if i < |a| { assert a[i] in a; } else { assert e[i - |a|] in e; }
    }
  }

  /** One reservation, held by the request that made it. */
  class Invalidation {
    var targets: seq<Target>
    var dirty: bool
    var retired: bool

    constructor (targets: seq<Target>)
      ensures this.targets == targets && !dirty && !retired
    {
      this.targets, dirty, retired := targets, false, false;
    }
  }

  /** The coordinator's locked regions. `all` are the reservations ever made. */
  class Coordinator {
    const limit: nat
    var jobs: set<Invalidation>
    var err: int
    var closed: bool
    var wake: bool
    ghost var all: set<Invalidation>
    ghost var worker: Worker<Invalidation>
    ghost var sent: seq<(Invalidation, Target)>
    ghost var owed: set<(Invalidation, Target)>

    constructor (limit: nat)
      ensures Model() == Fresh(limit)
    {
      this.limit, jobs, err, closed, wake := limit, {}, 0, false, false;
      all, worker, sent, owed := {}, Idle, [], {};
    }

    ghost function Objects(): map<Invalidation, Job>
      reads this, all
    {
      map c | c in all :: Job(c.targets, c.dirty, c.retired)
    }

    ghost function Model(): State<Invalidation>
      reads this, all
    {
      State(Objects(), jobs, limit, err, closed, wake, worker, sent, owed)
    }

    method Reserve(targets: seq<Target>) returns (r: Result<Invalidation, int>)
      modifies this`jobs, this`all
      ensures r.Ok? <==> old(Refusal(Model())) == 0
      ensures r.Err? ==> r.error == old(Refusal(Model())) && Model() == old(Model())
      ensures r.Ok? ==> fresh(r.value) && Model() == Reserved(old(Model()), r.value, targets)
    {
      if closed { return Err(ENODEV); }
      if err != 0 { return Err(err); }
      if |jobs| >= limit { return Err(EAGAIN); }
      var change := new Invalidation(targets);
      jobs := jobs + {change};
      all := all + {change};
      r := Ok(change);
    }

    /** check: what a holder of a reservation learns before it goes on. */
    method Check() returns (code: int)
      ensures code == if closed then ENODEV else err
    {
      if closed { return ENODEV; }
      code := err;
    }

    method Add(c: Invalidation, inode: nat)
      requires c in all
      modifies c`targets
      ensures Model() == Added(old(Model()), c, inode)
    {
      c.targets := c.targets + [Target(inode, "")];
    }

    method Change(c: Invalidation, retire: bool)
      requires c in all
      modifies c, this`wake, this`owed
      ensures Model() == Changed(old(Model()), c, retire)
    {
      hide Promises;
      if !closed {
        c.dirty := true;
        c.retired := c.retired || retire;
        assert Objects() == old(Objects())[c := Job(c.targets, true, c.retired)];
        wake := true;
        owed := if c in jobs then owed + Promises(c, c.targets) else owed;
      }
    }

    /** The worker's scan. */
    method ScanJobs() returns (batch: seq<Invalidation>)
      requires jobs <= all && worker == Scanning
      modifies jobs`dirty, this`worker
      ensures IsBatch(old(Model()), batch) && Model() == Scanned(old(Model()), batch)
    {
      batch := [];
      var todo := jobs;
      while todo != {}
        invariant todo <= jobs && NoDuplicates(batch)
        invariant forall c | c in batch :: c in jobs - todo && old(c.dirty)
        invariant forall c | c in jobs - todo && old(c.dirty) :: c in batch
        invariant forall c | c in all :: c.targets == old(c.targets) && c.retired == old(c.retired)
        invariant forall c | c in all :: c.dirty == if c in batch then false else old(c.dirty)
      {
        var change :| change in todo;
        todo := todo - {change};
        if change.dirty {
          change.dirty := false;
          batch := batch + [change];
        }
      }
      worker := Working(batch);
    }

    method CopyTargets(c: Invalidation) returns (queue: seq<Target>)
      requires worker.Working? && worker.batch != [] && worker.batch[0] == c && c in all
      modifies this`worker
      ensures Model() == Copied(old(Model())) && worker == Notifying(c, queue, old(worker.batch)[1..])
    {
      queue := Queue(c.targets);
      worker := Notifying(c, queue, worker.batch[1..]);
    }

    /** One answer from the kernel. */
    method Answered(code: int)
      requires worker.Notifying? && worker.queue != []
      modifies this`err, this`worker, this`sent, this`owed
      ensures Model() == Notified(old(Model()), code)
    {
      sent, owed := sent + [(worker.job, worker.queue[0])], owed - {(worker.job, worker.queue[0])};
      worker := worker.(queue := worker.queue[1..]);
      if code == 0 || code == ENOENT { return; }
      if !closed && err == 0 { err := code; }
    }

    method FinishJob(c: Invalidation)
      requires worker.Notifying? && worker.queue == [] && worker.job == c && c in all
      modifies this`jobs, this`worker
      ensures Model() == Retired(old(Model()))
    {
      if c.retired && !c.dirty { jobs := jobs - {c}; }
      worker := Working(worker.rest);
    }
  }
}
