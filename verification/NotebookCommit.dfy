/** Saving a notebook through a service without conditional updates: compare, then write, and recognise an earlier
    ambiguous save (internal/workspacefs/definitions.go). */
module NotebookCommit {
  import opened Prelude

  datatype Part = Part(path: string, payload: string, payloadType: string, extra: map<string, string>)

  datatype Definition = Definition(format: string, parts: seq<Part>, extra: map<string, string>)

  datatype SaveError = TooLarge | BadNotebook | NoDigest | PartMissing | FetchFailed | Conflict | UpdateFailed

  /** What the closure is given: digest and payload encoding, and the preparation of a notebook's bytes. */
  datatype Tools = Tools(
    digest: Definition -> Option<string>,
    encode: seq<byte> -> string,
    prepare: seq<byte> -> Option<seq<byte>>,
    maxSize: nat)

  /** No two definitions share a digest. */
  ghost predicate Injective(t: Tools) {
    forall d, e | t.digest(d).Some? && t.digest(d) == t.digest(e) :: d == e
  }

  /** What becomes of one update request. */
  datatype UpdateFate = Applied | AppliedUnanswered | NotApplied

  /** What happens around one save: whether the preflight answers, an edit by someone else between preflight and
      update, and the fate of the update. */
  datatype Weather = Weather(answers: bool, race: Option<Definition>, update: UpdateFate)

  // ----- the definition to write --------------------------------------------------------------

  function Replaced(parts: seq<Part>, path: string, payload: string): (r: seq<Part>)
    ensures |r| == |parts|
  {
    if parts == [] then []
    else
      var p := parts[0];
      [if p.path == path then p.(payload := payload, payloadType := "InlineBase64") else p]
        + Replaced(parts[1..], path, payload)
  }

  predicate HasPart(parts: seq<Part>, path: string) { exists i | 0 <= i < |parts| :: parts[i].path == path }

  function Desired(base: Definition, path: string, payload: string): Definition {
    Definition("ipynb", Replaced(base.parts, path, payload), base.extra)
  }

  /** Equal but for the one part's payload and the format. */
  ghost predicate SameElse(d: Definition, e: Definition, path: string) {
    && d.extra == e.extra && |d.parts| == |e.parts|
    && forall i | 0 <= i < |d.parts| ::
         && d.parts[i].path == e.parts[i].path && d.parts[i].extra == e.parts[i].extra
         && (d.parts[i].path != path ==> d.parts[i] == e.parts[i])
  }

  /** A save touches one part only. */
  lemma {:induction false} ReplacedAt(parts: seq<Part>, path: string, payload: string, i: nat)
    requires i < |parts|
    ensures Replaced(parts, path, payload)[i] ==
            if parts[i].path == path then parts[i].(payload := payload, payloadType := "InlineBase64") else parts[i]
  {
    if i > 0 { ReplacedAt(parts[1..], path, payload, i - 1); }
  }

  lemma DesiredPreservesTheRest(base: Definition, path: string, payload: string)
    ensures SameElse(base, Desired(base, path, payload), path)
    ensures Desired(base, path, payload).format == "ipynb"
    ensures forall i | 0 <= i < |base.parts| && base.parts[i].path == path ::
              var r := Desired(base, path, payload).parts[i]; r.payload == payload && r.payloadType == "InlineBase64"
  {
    forall i | 0 <= i < |base.parts|
      ensures var r := Desired(base, path, payload).parts[i];
              && r.path == base.parts[i].path && r.extra == base.parts[i].extra
              && (base.parts[i].path != path ==> r == base.parts[i])
                 && (base.parts[i].path == path ==> r.payload == payload && r.payloadType == "InlineBase64")
    {
      ReplacedAt(base.parts, path, payload, i);
    }
  }

  /** A later save supersedes an earlier one. */
  lemma {:induction false} ReplacedTwice(parts: seq<Part>, path: string, first: string, second: string)
    ensures Replaced(Replaced(parts, path, first), path, second) == Replaced(parts, path, second)
  {
    if parts != [] {
      ReplacedTwice(parts[1..], path, first, second);
      assert Replaced(parts, path, first)[1..] == Replaced(parts[1..], path, first);
    }
  }

  /** What a writer that opened `snapshot` may come to know: the snapshot, or a save of its own. */
  ghost predicate Known(snapshot: Definition, path: string, d: Definition) {
    d == snapshot || exists payload :: d == Desired(snapshot, path, payload)
  }

  lemma DesiredIsKnown(snapshot: Definition, path: string, base: Definition, payload: string)
    requires Known(snapshot, path, base)
    ensures Known(snapshot, path, Desired(base, path, payload))
  {
    if base != snapshot {
      var first :| base == Desired(snapshot, path, first);
      ReplacedTwice(snapshot.parts, path, first, payload);
      assert Desired(base, path, payload) == Desired(snapshot, path, payload);
    }
  }

  lemma KnownPreservesTheRest(snapshot: Definition, path: string, d: Definition)
    requires Known(snapshot, path, d)
    ensures SameElse(snapshot, d, path)
  {
    if d != snapshot {
      var payload :| d == Desired(snapshot, path, payload);
      DesiredPreservesTheRest(snapshot, path, payload);
    }
  }

  // ----- one save -----------------------------------------------------------------------------

  /** What the closure remembers, and what the service holds; `updates` lists the effective updates, as pairs of
      the definition overwritten and the definition written. */
  datatype State = State(base: Definition, before: Option<string>, remote: Definition,
                         updates: seq<(Definition, Definition)>)

  function Outcome(s: State, t: Tools, path: string, data: seq<byte>, w: Weather): (State, Option<SaveError>) {
    var prepared := t.prepare(data);
    if s.before.None? then (s, Some(NoDigest))
    else if |data| > t.maxSize then (s, Some(TooLarge))
    else if prepared.None? then (s, Some(BadNotebook))
    else if |prepared.value| > t.maxSize then (s, Some(TooLarge))
    else if !HasPart(s.base.parts, path) then (s, Some(PartMissing))
    else if !w.answers then (s, Some(FetchFailed))
    else
      var desired := Desired(s.base, path, t.encode(prepared.value));
      var actual, after := t.digest(s.remote), t.digest(desired);
      if actual.None? || after.None? then (s, Some(NoDigest))
      else if actual == after then (s.(base := s.remote, before := actual), None)
      else if actual != s.before then (s, Some(Conflict))
      else
        var raced := if w.race.Some? then s.(remote := w.race.value) else s;
        var written := raced.(remote := desired, updates := s.updates + [(raced.remote, desired)]);
        match w.update
        case NotApplied => (raced, Some(UpdateFailed))
        case AppliedUnanswered => (written, Some(UpdateFailed))
        case Applied => (written.(base := desired, before := after), None)
  }

  /** The loop over a copy of the parts. */
  method WithPayload(was: seq<Part>, path: string, payload: string) returns (parts: seq<Part>, found: bool)
    ensures parts == Replaced(was, path, payload) && found == HasPart(was, path)
  {
    parts, found := was, false;
    hide Replaced;
    for i := 0 to |was|
      invariant |parts| == |was| && parts[i..] == was[i..]
      invariant parts[..i] == Replaced(was, path, payload)[..i]
      invariant found == exists k | 0 <= k < i :: was[k].path == path
    {
      ReplacedAt(was, path, payload, i);
      assert parts[i] == was[i] by { assert parts[i..][0] == was[i..][0]; }
      if parts[i].path == path {
        parts := parts[i := parts[i].(payload := payload, payloadType := "InlineBase64")];
        found := true;
      }
    }
  }

  /** The service: one definition, replaced whole. */
  class Service {
    var definition: Definition
    ghost var updates: seq<(Definition, Definition)>

    constructor (definition: Definition)
      ensures this.definition == definition && updates == []
    {
      this.definition := definition;
      this.updates := [];
    }

    method Update(desired: Definition, w: Weather) returns (ok: bool)
      modifies this
      ensures ok <==> w.update == Applied
      ensures var found := if w.race.Some? then w.race.value else old(definition);
              if w.update == NotApplied then definition == found && updates == old(updates)
              else definition == desired && updates == old(updates) + [(found, desired)]
    {
      if w.race.Some? { definition := w.race.value; }
      if w.update == NotApplied { return false; }
      updates := updates + [(definition, desired)];
      definition := desired;
      ok := w.update == Applied;
    }
  }

  class Committer {
    const tools: Tools
    const path: string
    const service: Service
    var base: Definition
    var before: Option<string>

    ghost function Model(): State
      reads this, service
    {
      State(base, before, service.definition, service.updates)
    }

    constructor (tools: Tools, path: string, service: Service, snapshot: Definition)
      ensures base == snapshot && before == tools.digest(snapshot) && this.tools == tools && this.path == path
              && this.service == service
    {
      this.tools, this.path, this.service := tools, path, service;
      this.base, this.before := snapshot, tools.digest(snapshot);
    }

    method Save(data: seq<byte>, w: Weather) returns (err: Option<SaveError>)
      modifies this, service
      ensures (Model(), err) == Outcome(old(Model()), tools, path, data, w)
    {
      if before.None? { return Some(NoDigest); }
      if |data| > tools.maxSize { return Some(TooLarge); }
      var prepared := tools.prepare(data);
      if prepared.None? { return Some(BadNotebook); }
      if |prepared.value| > tools.maxSize { return Some(TooLarge); }
      var payload := tools.encode(prepared.value);
      var parts, found := WithPayload(base.parts, path, payload);
      hide HasPart, Replaced;
      if !found { return Some(PartMissing); }
      var desired := Definition("ipynb", parts, base.extra);
      if !w.answers { return Some(FetchFailed); }
      var current := service.definition;
      var actual, after := tools.digest(current), tools.digest(desired);
      if actual.None? || after.None? { return Some(NoDigest); }
      if actual == after {
        base, before := current, actual;
        return None;
      }
      if actual != before { return Some(Conflict); }
      var ok := service.Update(desired, w);
      if !ok { return Some(UpdateFailed); }
      base, before := desired, after;
      err := None;
    }
  }

  // ----- what saves guarantee -----------------------------------------------------------------

  /** The closure's comparison base is what its digest stands for: the snapshot opened, or a save of its own. */
  ghost predicate Remembers(s: State, t: Tools, path: string, snapshot: Definition) {
    s.before == t.digest(s.base) && Known(snapshot, path, s.base)
  }

  /** Success means the service holds exactly what was asked for, whatever happened around the save; and all parts
      but the notebook's are as they were when the notebook was opened. */
  lemma SuccessMeansSaved(s: State, t: Tools, path: string, snapshot: Definition, data: seq<byte>, w: Weather)
    requires Injective(t) && Remembers(s, t, path, snapshot) && Outcome(s, t, path, data, w).1 == None
    ensures var (u, _) := Outcome(s, t, path, data, w);
            && t.prepare(data).Some? && u.remote == Desired(s.base, path, t.encode(t.prepare(data).value))
            && u.base == u.remote && Remembers(u, t, path, snapshot) && SameElse(snapshot, u.remote, path)
  {
    var desired := Desired(s.base, path, t.encode(t.prepare(data).value));
    DesiredIsKnown(snapshot, path, s.base, t.encode(t.prepare(data).value));
    KnownPreservesTheRest(snapshot, path, desired);
  }

  /** A failed save moves nothing the closure remembers. */
  lemma FailureForgetsNothing(s: State, t: Tools, path: string, data: seq<byte>, w: Weather)
    requires Outcome(s, t, path, data, w).1.Some?
    ensures var (u, _) := Outcome(s, t, path, data, w); u.base == s.base && u.before == s.before
  {
  }

  /** The update overwrites exactly the base when nobody edits between the preflight and the update; the service
      offers no condition that could promise more. */
  lemma UpdateOverwritesBaseIffNoRace(s: State, t: Tools, path: string, snapshot: Definition, data: seq<byte>,
                                      w: Weather)
    requires Injective(t) && Remembers(s, t, path, snapshot)
    requires |Outcome(s, t, path, data, w).0.updates| > |s.updates|
    ensures var u := Outcome(s, t, path, data, w).0;
            && |u.updates| == |s.updates| + 1 && u.updates[..|s.updates|] == s.updates
            && (u.updates[|s.updates|].0 == s.base <==> w.race == None || w.race == Some(s.base))
  {
    var u := Outcome(s, t, path, data, w).0;
    assert u.updates[..|s.updates|] == s.updates;
  }

  datatype Event = Edit(definition: Definition) | Save(data: seq<byte>, weather: Weather)

  function Happens(s: State, t: Tools, path: string, e: Event): State {
    match e
    case Edit(d) => s.(remote := d)
    case Save(data, w) => Outcome(s, t, path, data, w).0
  }

  function Run(s: State, t: Tools, path: string, events: seq<Event>): State
    decreases |events|
  {
    if events == [] then s else Run(Happens(s, t, path, events[0]), t, path, events[1..])
  }

  predicate NoRaces(events: seq<Event>) {
    forall i | 0 <= i < |events| && events[i].Save? :: events[i].weather.race.None?
  }

  /** Every update overwrote the definition opened or a save of this writer, and wrote a save of it. */
  ghost predicate OverwritesOnlyKnown(updates: seq<(Definition, Definition)>, snapshot: Definition, path: string) {
    forall i | 0 <= i < |updates| :: Known(snapshot, path, updates[i].0) && Known(snapshot, path, updates[i].1)
  }

  lemma HappensKeeps(s: State, t: Tools, path: string, snapshot: Definition, e: Event)
    requires Injective(t) && Remembers(s, t, path, snapshot) && OverwritesOnlyKnown(s.updates, snapshot, path)
    requires e.Save? ==> e.weather.race.None?
    ensures var u := Happens(s, t, path, e);
            Remembers(u, t, path, snapshot) && OverwritesOnlyKnown(u.updates, snapshot, path)
  {
    if e.Save? {
      var (u, err) := Outcome(s, t, path, e.data, e.weather);
      if t.prepare(e.data).Some? {
        DesiredIsKnown(snapshot, path, s.base, t.encode(t.prepare(e.data).value));
        hide Known, Desired;
      }
      if err == None {
        SuccessMeansSaved(s, t, path, snapshot, e.data, e.weather);
      }
    }
  }

  /** Over any sequence of saves, failures and outside edits, with no edit inside a preflight: no update that took
      effect overwrote anything but the definition opened or this writer's own saves. */
  lemma {:induction false} RunsOverwriteOnlyKnown(s: State, t: Tools, path: string, snapshot: Definition,
                                                  events: seq<Event>)
    requires Injective(t) && Remembers(s, t, path, snapshot) && OverwritesOnlyKnown(s.updates, snapshot, path)
             && NoRaces(events)
    ensures var u := Run(s, t, path, events);
            Remembers(u, t, path, snapshot)
            && OverwritesOnlyKnown(u.updates, snapshot, path)
    decreases |events|
  {
    if events != [] {
      HappensKeeps(s, t, path, snapshot, events[0]);
      hide Injective, Remembers, OverwritesOnlyKnown, Happens;
      RunsOverwriteOnlyKnown(Happens(s, t, path, events[0]), t, path, snapshot, events[1..]);
    }
  }

  // ----- outside edits and retries ------------------------------------------------------------

  /** Saves, of any bytes in any weather, that all fail. */
  predicate FailInTurn(s: State, t: Tools, path: string, events: seq<Event>)
    decreases |events|
  {
    events == [] || (
      && events[0].Save? && Outcome(s, t, path, events[0].data, events[0].weather).1.Some?
      && FailInTurn(Happens(s, t, path, events[0]), t, path, events[1..]))
  }

  /** An outside edit that no save of this writer could have produced. */
  ghost predicate Foreign(s: State, path: string) {
    s.remote != s.base && forall payload :: s.remote != Desired(s.base, path, payload)
  }

  /** A save that meets an outside edit fails and changes nothing; with a conflict, if nothing failed before. */
  lemma OutsideEditsConflict(s: State, t: Tools, path: string, data: seq<byte>, w: Weather)
    requires Injective(t) && s.before == t.digest(s.base) && s.remote != s.base
    requires t.prepare(data).Some? ==> s.remote != Desired(s.base, path, t.encode(t.prepare(data).value))
    ensures var (u, err) := Outcome(s, t, path, data, w); err.Some? && u == s
    ensures && |data| <= t.maxSize && t.prepare(data).Some? && |t.prepare(data).value| <= t.maxSize
            && HasPart(s.base.parts, path) && s.before.Some? && w.answers && t.digest(s.remote).Some?
            && t.digest(Desired(s.base, path, t.encode(t.prepare(data).value))).Some? ==>
              Outcome(s, t, path, data, w).1 == Some(Conflict)
  {
  }

  /** However often this writer saves, and whatever it saves, an outside edit stays and every save fails. */
  lemma {:induction false} OutsideEditsSurvive(s: State, t: Tools, path: string, events: seq<Event>)
    requires Injective(t) && s.before == t.digest(s.base) && Foreign(s, path) && forall e | e in events :: e.Save?
    ensures Run(s, t, path, events) == s && FailInTurn(s, t, path, events)
    decreases |events|
  {
    if events != [] {
      OutsideEditsConflict(s, t, path, events[0].data, events[0].weather);
      hide Injective, Outcome, Foreign;
      OutsideEditsSurvive(s, t, path, events[1..]);
    }
  }

  /** While the service holds something other than the base, a failing save does nothing at all. */
  lemma FailureAwayFromBaseIsHarmless(s: State, t: Tools, path: string, data: seq<byte>, w: Weather)
    requires Injective(t) && s.before == t.digest(s.base) && s.remote != s.base
    requires Outcome(s, t, path, data, w).1.Some?
    ensures Outcome(s, t, path, data, w).0 == s
  {
  }

  lemma {:induction false} FailuresAwayFromBaseAreHarmless(s: State, t: Tools, path: string, events: seq<Event>)
    requires Injective(t) && s.before == t.digest(s.base) && s.remote != s.base && FailInTurn(s, t, path, events)
    ensures Run(s, t, path, events) == s
    decreases |events|
  {
    if events != [] {
      FailureAwayFromBaseIsHarmless(s, t, path, events[0].data, events[0].weather);
      hide Injective, Outcome;
      FailuresAwayFromBaseAreHarmless(s, t, path, events[1..]);
    }
  }

  /** After an update that took effect but failed, and then any number of failing saves of anything, saving the same
      bytes again succeeds without a second update. */
  lemma {:induction false} RetryRecovers(s: State, t: Tools, path: string, snapshot: Definition, data: seq<byte>,
                                         w: Weather, between: seq<Event>, again: Weather)
    requires Injective(t) && Remembers(s, t, path, snapshot) && w.update == AppliedUnanswered && again.answers
    requires |Outcome(s, t, path, data, w).0.updates| > |s.updates|
    requires FailInTurn(Outcome(s, t, path, data, w).0, t, path, between)
    ensures Outcome(s, t, path, data, w).1 == Some(UpdateFailed)
    ensures var u := Outcome(s, t, path, data, w).0;
            var (v, err) := Outcome(Run(u, t, path, between), t, path, data, again);
            err == None && v.remote == u.remote && v.updates == u.updates && v.base == u.remote
  {
    FailureForgetsNothing(s, t, path, data, w);
    FailuresAwayFromBaseAreHarmless(Outcome(s, t, path, data, w).0, t, path, between);
  }

  // ----- a save left alone --------------------------------------------------------------------

  /** The bytes can be prepared and everything involved has a digest. */
  predicate Savable(s: State, t: Tools, path: string, data: seq<byte>) {
    && |data| <= t.maxSize && t.prepare(data).Some? && |t.prepare(data).value| <= t.maxSize
    && HasPart(s.base.parts, path) && s.before.Some? && t.digest(s.remote).Some?
    && t.digest(Desired(s.base, path, t.encode(t.prepare(data).value))).Some?
  }

  /** With nobody editing in between, a save of good bytes succeeds exactly when the service already holds what is
      asked for, or holds the base and takes the update; and it writes, once and over the base, exactly in the
      second case. */
  lemma SaveSucceedsIff(s: State, t: Tools, path: string, data: seq<byte>, w: Weather)
    requires Injective(t) && s.before == t.digest(s.base) && Savable(s, t, path, data) && w.answers && w.race == None
    ensures var (u, err) := Outcome(s, t, path, data, w);
            var desired := Desired(s.base, path, t.encode(t.prepare(data).value));
            && (err == None <==> s.remote == desired || (s.remote == s.base && w.update == Applied))
            && (err == None ==> u.base == desired && u.remote == desired)
            && u.remote == (if s.remote == s.base && w.update != NotApplied then desired else s.remote)
            && u.updates == s.updates
                            + if s.remote == s.base && desired != s.base && w.update != NotApplied
                              then [(s.base, desired)] else []
  {
  }

  /** Bad bytes, a missing part or digest, or a service that does not answer: the save fails and nothing is tried. */
  lemma NothingIsTried(s: State, t: Tools, path: string, data: seq<byte>, w: Weather)
    requires !Savable(s, t, path, data) || !w.answers
    ensures Outcome(s, t, path, data, w).0 == s && Outcome(s, t, path, data, w).1.Some?
  {
  }
}
