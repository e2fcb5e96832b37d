/** Four slots for definition exports, with foreground callers that wait and background work that never
    queues (internal/workspacefs/definition_gate.go). */
module DefinitionGate {
  import opened Prelude

  const SLOTS: nat := 4

  /** `open` is the channel waiters sleep on, if one has been made since the last release; channels are
      numbered as they are made, and every one but `open` is closed. */
  datatype State = State(active: nat, waiting: nat, open: Option<nat>, made: nat)

  function Entered(s: State): State { s.(waiting := s.waiting + 1) }

  /** A waiting foreground caller checks: it passes, or it sleeps on the (possibly new) open channel. */
  function Checked(s: State): State
    requires s.waiting > 0
  {
    if s.active < SLOTS then s.(waiting := s.waiting - 1, active := s.active + 1)
    else if s.open.None? then s.(open := Some(s.made), made := s.made + 1)
    else s
  }

  function Abandoned(s: State): State
    requires s.waiting > 0
  {
    s.(waiting := s.waiting - 1)
  }

  predicate BackgroundMay(s: State) { s.waiting == 0 && s.active < SLOTS }

  function Released(s: State): State
    requires s.active > 0
  {
    s.(active := s.active - 1, open := None)
  }

  class Channel {
    var closed: bool
    ghost const number: nat

    constructor (ghost number: nat)
      ensures !closed && this.number == number
    {
      closed, this.number := false, number;
    }
  }

  class Gate {
    var active: nat
    var waiting: nat
    var changed: Channel?
    ghost var made: nat

    constructor ()
      ensures Valid() && Model() == State(0, 0, None, 0)
    {
      active, waiting, changed, made := 0, 0, null, 0;
    }

    /** The remembered channel is still open and is the last one made. */
    ghost predicate Valid()
      reads this, changed
    {
      changed != null ==> !changed.closed && changed.number + 1 == made
    }

    ghost function Model(): State
      reads this
    {
      State(active, waiting, if changed == null then None else Some(changed.number), made)
    }

    /** acquire, from its call to its first sleep or its return. */
    method Enter(canceled: bool) returns (passed: bool, sleepOn: Channel?)
      requires Valid()
      modifies this
      ensures Valid()
      ensures canceled ==> !passed && sleepOn == null && Model() == Abandoned(Entered(old(Model())))
      ensures !canceled ==> Model() == Checked(Entered(old(Model()))) && passed == (old(active) < SLOTS)
      ensures !canceled && !passed ==> sleepOn == changed && changed != null
    {
      waiting := waiting + 1;
      passed, sleepOn := Recheck(canceled);
    }

    /** One turn of acquire's loop with the lock held. */
    method Recheck(canceled: bool) returns (passed: bool, sleepOn: Channel?)
      requires Valid() && waiting > 0
      modifies this
      ensures Valid()
      ensures canceled ==> !passed && sleepOn == null && Model() == Abandoned(old(Model()))
      ensures !canceled ==> Model() == Checked(old(Model())) && passed == (old(active) < SLOTS)
      ensures !canceled && !passed ==> sleepOn == changed && changed != null
    {
      passed, sleepOn := false, null;
      if canceled {
        waiting := waiting - 1;
        return;
      }
      if active < SLOTS {
        waiting := waiting - 1;
        active := active + 1;
        passed := true;
        return;
      }
      if changed == null {
        changed := new Channel(made);
        made := made + 1;
      }
      sleepOn := changed;
    }

    method TryBackground() returns (ok: bool)
      requires Valid()
      modifies this`active
      ensures Valid() && ok == BackgroundMay(old(Model()))
      ensures Model() == if ok then old(Model()).(active := old(active) + 1) else old(Model())
    {
      if waiting != 0 || active >= SLOTS { return false; }
      active := active + 1;
      ok := true;
    }

    /** Every release closes the channel all sleepers share. */
    method Release()
      requires Valid() && active > 0
      modifies this, changed
      ensures Valid() && Model() == Released(old(Model()))
      ensures old(changed) != null ==> old(changed).closed
    {
      active := active - 1;
      if changed != null {
        changed.closed := true;
        changed := null;
      }
    }
  }

  /** A caller: asleep on channel number `on`, holding a slot, or done. */
  datatype Caller = Asleep(on: nat) | Holding | Done

  datatype System = System(gate: State, callers: map<nat, Caller>)

  datatype Step =
    | Acquire(id: nat, canceled: bool)
    | Awake(id: nat, canceled: bool)
    | Background(id: nat)
    | GiveBack(id: nat)

  const Start := System(State(0, 0, None, 0), map[])

  predicate Closed(g: State, channel: nat) { g.open != Some(channel) }

  /** A sleeper wakes when its channel is closed or its own context ends. */
  predicate Enabled(s: System, step: Step) {
    match step
    case Acquire(id, _) => id !in s.callers
    case Awake(id, canceled) =>
      id in s.callers && s.callers[id].Asleep? && s.gate.waiting > 0 && (canceled || Closed(s.gate, s.callers[id].on))
    case Background(id) => id !in s.callers
    case GiveBack(id) => id in s.callers && s.callers[id].Holding? && s.gate.active > 0
  }

  function Turn(s: System, g: State, id: nat, canceled: bool): System
    requires g.waiting > 0
  {
    if canceled then System(Abandoned(g), s.callers[id := Done])
    else
      var h := Checked(g);
      System(h, s.callers[id := if g.active < SLOTS then Holding else Asleep(if h.open.Some? then h.open.value else 0)])
  }

  function Apply(s: System, step: Step): System
    requires Enabled(s, step)
  {
    match step
    case Acquire(id, canceled) => Turn(s, Entered(s.gate), id, canceled)
    case Awake(id, canceled) => Turn(s, s.gate, id, canceled)
    case Background(id) =>
      if BackgroundMay(s.gate) then System(s.gate.(active := s.gate.active + 1), s.callers[id := Holding])
      else s.(callers := s.callers[id := Done])
    case GiveBack(id) => System(Released(s.gate), s.callers[id := Done])
  }

  function Sleepers(s: System): set<nat> { set id | id in s.callers && s.callers[id].Asleep? }
  function Slots(s: System): set<nat> { set id | id in s.callers && s.callers[id].Holding? }

  ghost predicate Inv(s: System) {
    && s.gate.active == |Slots(s)| <= SLOTS
    && s.gate.waiting == |Sleepers(s)|
    && (s.gate.open.Some? ==> s.gate.open.value < s.gate.made && s.gate.active == SLOTS)
    && forall id | id in Sleepers(s) :: s.callers[id].on < s.gate.made
  }

  function One(b: bool): nat { if b then 1 else 0 }

  lemma CountUpdate(a: set<nat>, b: set<nat>, id: nat, member: bool)
    requires b == if member then a + {id} else a - {id}
    ensures |b| == |a| + One(member) - One(id in a)
  {
    if id in a && member { assert a + {id} == a; }
    if id !in a && !member { assert a - {id} == a; }
  }

  lemma SetsAfter(s: System, id: nat, c: Caller, t: System)
    requires t.callers == s.callers[id := c]
    ensures Sleepers(t) == if c.Asleep? then Sleepers(s) + {id} else Sleepers(s) - {id}
    ensures Slots(t) == if c.Holding? then Slots(s) + {id} else Slots(s) - {id}
    ensures id in Sleepers(s) <==> id in s.callers && s.callers[id].Asleep?
    ensures id in Slots(s) <==> id in s.callers && s.callers[id].Holding?
  {
  }

  lemma CountsAfter(s: System, id: nat, c: Caller, t: System)
    requires t.callers == s.callers[id := c]
    ensures |Sleepers(t)| == |Sleepers(s)| + One(c.Asleep?) - One(id in s.callers && s.callers[id].Asleep?)
    ensures |Slots(t)| == |Slots(s)| + One(c.Holding?) - One(id in s.callers && s.callers[id].Holding?)
    ensures forall i | i in Sleepers(t) && i != id :: i in Sleepers(s)
  {
    SetsAfter(s, id, c, t);
    hide Sleepers, Slots;
    CountUpdate(Sleepers(s), Sleepers(t), id, c.Asleep?);
    CountUpdate(Slots(s), Slots(t), id, c.Holding?);
  }

  lemma StepKeepsInv(s: System, step: Step)
    requires Inv(s) && Enabled(s, step)
    ensures Inv(Apply(s, step))
  {
    var t := Apply(s, step);
    CountsAfter(s, step.id, t.callers[step.id], t);
    hide Slots;
  }

  ghost predicate Runs(s: System, trace: seq<Step>)
    decreases |trace|
  {
    trace == [] || (Enabled(s, trace[0]) && Runs(Apply(s, trace[0]), trace[1..]))
  }

  ghost function After(s: System, trace: seq<Step>): System
    requires Runs(s, trace)
    decreases |trace|
  {
    if trace == [] then s else After(Apply(s, trace[0]), trace[1..])
  }

  lemma {:induction false} RunKeepsInv(s: System, trace: seq<Step>)
    requires Inv(s) && Runs(s, trace)
    ensures Inv(After(s, trace))
    decreases |trace|
  {
    if trace != [] {
      StepKeepsInv(s, trace[0]);
      RunKeepsInv(Apply(s, trace[0]), trace[1..]);
    }
  }

  /** Over every run: no more than four slots are out and they are exactly the ones held; whoever sleeps on an
      open channel could not pass now; whoever sleeps on a closed one can take a turn; and background work
      takes no slot while any foreground caller waits. */
  lemma GateIsSafe(trace: seq<Step>, id: nat)
    requires Runs(Start, trace)
    ensures var s := After(Start, trace);
            && s.gate.active == |Slots(s)| <= SLOTS
            && (id in Sleepers(s) && !Closed(s.gate, s.callers[id].on) ==> s.gate.active == SLOTS)
            && (id in Sleepers(s) && Closed(s.gate, s.callers[id].on) ==> Enabled(s, Awake(id, false)))
            && (id in Slots(s) ==> Enabled(s, GiveBack(id)))
            && (id !in s.callers && Apply(s, Background(id)).callers[id].Holding? ==> Sleepers(s) == {})
  {
    RunKeepsInv(Start, trace);
    var s := After(Start, trace);
    assert id in Sleepers(s) ==> |Sleepers(s)| > 0;
    assert id in Slots(s) ==> |Slots(s)| > 0;
  }

  /** Over every run, who gets a slot: a foreground caller exactly when fewer than four are held, and background work
      exactly when moreover no foreground caller waits. */
  lemma SlotsAreGivenWhenFree(trace: seq<Step>, id: nat)
    requires Runs(Start, trace)
    ensures var s := After(Start, trace);
            && (id !in s.callers ==>
                && (Apply(s, Acquire(id, false)).callers[id].Holding? <==> |Slots(s)| < SLOTS)
                && (Apply(s, Background(id)).callers[id].Holding? <==> |Slots(s)| < SLOTS && Sleepers(s) == {}))
            && (Enabled(s, Awake(id, false)) ==>
                (Apply(s, Awake(id, false)).callers[id].Holding? <==> |Slots(s)| < SLOTS))
  {
    RunKeepsInv(Start, trace);
    var s := After(Start, trace);
    hide Slots, Sleepers;
    assert Sleepers(s) == {} <==> |Sleepers(s)| == 0;
  }
}
