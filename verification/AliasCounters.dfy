/** The remembered ordinals of the alias catalog: exactly when they are only a speed-up
    (internal/namespace/catalog.go). */
module AliasCounters {
  import opened Prelude
  import opened Names
  import opened Sorting
  import opened Aliases
  import opened AliasLaws

  /** The duplicates that share one base name and type suffix in one scope. */
  datatype Series = Series(scope: string, base: string, suffix: string)

  function SeriesOf(scope: string, r: Request): Series { Series(scope, r.base, r.suffix) }

  /** Any request of a series; allocation of ordinals never looks at the identity. */
  function Probe(q: Series): Request { Request("", q.base, q.suffix) }

  /** Every ordinal the counter skips is taken. */
  ghost predicate Skips(b: Book, scope: string, r: Request) {
    forall n: nat | 2 <= n < Counter(b, scope, r) :: OwnerKey(scope, Alias(r, n)) in b.owners
  }

  ghost predicate AllSkip(b: Book, series: set<Series>) {
    forall q | q in series :: Skips(b, q.scope, Probe(q))
  }

  /** No two different (base, type suffix) pairs of one scope concatenate to the same counter key. */
  ghost predicate Apart(series: set<Series>) {
    forall p, q | p in series && q in series && p.scope == q.scope && p.base + p.suffix == q.base + q.suffix ::
      p.base == q.base
  }

  ghost predicate PlainSeries(series: set<Series>) {
    forall q | q in series :: PlainRequest(Probe(q))
  }

  // ----- apart: the counter shows nowhere -----------------------------------------------------

  lemma CounterKeyDecides(s1: string, r1: Request, s2: string, r2: Request)
    requires PlainRequest(r1) && PlainRequest(r2)
    ensures CounterKey(s1, r1) == CounterKey(s2, r2) <==> s1 == s2 && Genuine(r1) == Genuine(r2)
  {
    assert CounterKey(s1, r1) == OwnerKey(s1, Genuine(r1)) && CounterKey(s2, r2) == OwnerKey(s2, Genuine(r2));
    if CounterKey(s1, r1) == CounterKey(s2, r2) { OwnerKeyInjective(s1, Genuine(r1), s2, Genuine(r2)); }
  }

  lemma SkipsSurvive(b: Book, c: Book, scope: string, r: Request)
    requires Skips(b, scope, r) && Extends(b, c) && Counter(b, scope, r) == Counter(c, scope, r)
    ensures Skips(c, scope, r)
  {
    hide OwnerKey, Alias, Counter;
  }

  lemma GenuineKeepsSkips(b: Book, series: set<Series>, scope: string, r: Request)
    requires AllSkip(b, series) && Consistent(b) && PlainRequest(r)
    ensures AllSkip(ClaimGenuine(b, scope, r), series)
  {
    GenuineIsSound(b, scope, r);
    var c := ClaimGenuine(b, scope, r);
    forall q | q in series ensures Skips(c, q.scope, Probe(q)) {
      assert Counter(b, q.scope, Probe(q)) == Counter(c, q.scope, Probe(q));
      hide Consistent, ClaimGenuine, Counter;
      SkipsSurvive(b, c, q.scope, Probe(q));
    }
  }

  /** Allocating in one series leaves its counter exact, and moves no counter of a series apart from it. */
  lemma OrdinalKeepsSkips(b: Book, series: set<Series>, scope: string, r: Request)
    requires AllSkip(b, series) && Apart(series) && PlainSeries(series)
    requires Consistent(b) && PlainRequest(r) && OwnerKey(scope, Genuine(r)) in b.owners && SeriesOf(scope, r) in series
    ensures AllSkip(ClaimOrdinal(b, scope, r), series)
  {
    OrdinalIsSound(b, scope, r);
    var c := ClaimOrdinal(b, scope, r);
    forall q | q in series ensures Skips(c, q.scope, Probe(q)) {
      assert Skips(b, q.scope, Probe(q));
      CounterKeyDecides(scope, r, q.scope, Probe(q));
      if CounterKey(scope, r) == CounterKey(q.scope, Probe(q)) {
        assert SeriesOf(scope, r).base == q.base;
        assert r.base + r.suffix == r.base + q.suffix;
        assert (r.base + r.suffix)[|r.base|..] == r.suffix && (r.base + q.suffix)[|r.base|..] == q.suffix;
        OwnCounterAdvances(b, scope, r, Probe(q));
      } else {
        OtherCounterStays(b, scope, r, q.scope, Probe(q));
        hide Consistent, ClaimOrdinal, Counter, CounterKey;
        SkipsSurvive(b, c, q.scope, Probe(q));
      }
    }
  }

  lemma OtherCounterStays(b: Book, scope: string, r: Request, other: string, q: Request)
    requires PlainRequest(r) && CounterKey(scope, r) != CounterKey(other, q)
    ensures Counter(ClaimOrdinal(b, scope, r), other, q) == Counter(b, other, q)
  {
    hide CounterKey, KeyOf, OwnerKey, FirstFree;
  }

  lemma OwnCounterAdvances(b: Book, scope: string, r: Request, q: Request)
    requires PlainRequest(r) && q.base == r.base && q.suffix == r.suffix && Skips(b, scope, q)
    ensures Skips(ClaimOrdinal(b, scope, r), scope, q)
  {
    var c := ClaimOrdinal(b, scope, r);
    if KeyOf(scope, r) !in b.assignments {
      var k := FirstFree(b.owners, scope, r, Counter(b, scope, r));
      assert forall n :: Alias(q, n) == Alias(r, n);
      assert Counter(b, scope, q) == Counter(b, scope, r) && Counter(c, scope, q) == k + 1;
      hide KeyOf, CounterKey;
      forall n: nat | 2 <= n < Counter(c, scope, q) ensures OwnerKey(scope, Alias(q, n)) in c.owners {
        if n < Counter(b, scope, r) { assert OwnerKey(scope, Alias(q, n)) in b.owners; }
      }
    }
  }

  /** The same allocation without counters: each search starts from 2. */
  function Forget(b: Book): Book { b.(next := map[]) }

  function PatientTurn(b: Book, scope: string, rs: seq<Request>): Book
    requires AllPlain(rs)
    decreases |rs|
  {
    if rs == [] then Forget(b) else PatientTurn(ClaimOrdinal(Forget(b), scope, rs[0]), scope, rs[1..])
  }

  lemma PatientForgets(b: Book, c: Book, scope: string, rs: seq<Request>)
    requires AllPlain(rs) && Forget(b) == Forget(c)
    ensures PatientTurn(b, scope, rs) == PatientTurn(c, scope, rs)
  {
  }

  lemma ClaimForgets(b: Book, scope: string, r: Request)
    requires PlainRequest(r) && Skips(b, scope, r)
    ensures Forget(ClaimOrdinal(b, scope, r)) == Forget(ClaimOrdinal(Forget(b), scope, r))
  {
    var fast, slow := FirstFree(b.owners, scope, r, Counter(b, scope, r)), FirstFree(b.owners, scope, r, 2);
    assert OwnerKey(scope, Alias(r, slow)) !in b.owners;
    assert fast == slow;
  }

  lemma {:induction false} OrdinalTurnIsPatient(b: Book, series: set<Series>, scope: string, rs: seq<Request>)
    requires AllPlain(rs) && AllSkip(b, series) && Apart(series) && PlainSeries(series) && Consistent(b)
    requires forall r | r in rs :: SeriesOf(scope, r) in series && OwnerKey(scope, Genuine(r)) in b.owners
    ensures Forget(OrdinalTurn(b, scope, rs)) == PatientTurn(b, scope, rs)
    ensures AllSkip(OrdinalTurn(b, scope, rs), series)
    decreases |rs|
  {
    if rs != [] {
      var r := rs[0];
      assert r in rs;
      assert Skips(b, scope, r) by {
        assert Skips(b, scope, Probe(SeriesOf(scope, r)));
        SkipsIgnoresIdentity(b, scope, r);
      }
      ClaimForgets(b, scope, r);
      OrdinalKeepsSkips(b, series, scope, r);
      OrdinalIsSound(b, scope, r);
      var c := ClaimOrdinal(b, scope, r);
      hide ClaimOrdinal, Skips, AllSkip, Apart, PlainSeries, PlainRequest, Consistent, OwnerKey;
      PatientForgets(c, ClaimOrdinal(Forget(b), scope, r), scope, rs[1..]);
      OrdinalTurnIsPatient(c, series, scope, rs[1..]);
    }
  }

  lemma SkipsIgnoresIdentity(b: Book, scope: string, r: Request)
    ensures Skips(b, scope, r) <==> Skips(b, scope, Probe(SeriesOf(scope, r)))
  {
    var q := Probe(SeriesOf(scope, r));
    assert Counter(b, scope, q) == Counter(b, scope, r);
    assert forall n :: Alias(q, n) == Alias(r, n);
    hide Counter, Alias, OwnerKey;
  }

  lemma {:induction false} GenuineTurnKeepsSkips(b: Book, series: set<Series>, scope: string, rs: seq<Request>)
    requires AllPlain(rs) && AllSkip(b, series) && Consistent(b)
    ensures AllSkip(GenuineTurn(b, scope, rs), series)
            && Forget(GenuineTurn(b, scope, rs)) == GenuineTurn(Forget(b), scope, rs)
    decreases |rs|
  {
    if rs != [] {
      GenuineKeepsSkips(b, series, scope, rs[0]);
      GenuineIsSound(b, scope, rs[0]);
      var c := ClaimGenuine(b, scope, rs[0]);
      assert Forget(c) == ClaimGenuine(Forget(b), scope, rs[0]);
      hide ClaimGenuine, Consistent, AllSkip, PlainRequest;
      GenuineTurnKeepsSkips(c, series, scope, rs[1..]);
    }
  }

  // ----- whole calls and histories ------------------------------------------------------------

  function PatientBound(b: Book, scope: string, rs: seq<Request>): Book
    requires AllPlain(rs)
  {
    PatientTurn(GenuineTurn(b, scope, rs), scope, rs)
  }

  /** Names without counters. */
  function PatientNamed(b: Book, scope: string, labels: seq<Label>, tag: string -> string): Result<Book, CatalogError>
    requires AllBytes(labels) && IsTag(tag)
  {
    var rs := Requests(labels, tag);
    if rs.Err? then Err(rs.error)
    else if Unbound(b, scope, rs.value) > ALIAS_LIMIT - |b.assignments| then Err(LimitExceeded)
    else
      RequestsAreTheLabels(labels, tag);
      SortedKeepsMembers(IdOf, rs.value);
      Ok(PatientBound(b, scope, Sorted(IdOf, rs.value)))
  }

  function PatientPerform(b: Book, call: Call, tag: string -> string): Book
    requires WellTyped(call) && IsTag(tag)
  {
    var r := match call
      case Reserve(scope, name) => Reserved(b, scope, name)
      case NameAll(scope, labels) => PatientNamed(b, scope, labels, tag);
    if r.Ok? then r.value else b
  }

  function PatientRun(b: Book, calls: seq<Call>, tag: string -> string): Book
    requires (forall i | 0 <= i < |calls| :: WellTyped(calls[i])) && IsTag(tag)
    decreases |calls|
  {
    if calls == [] then b else PatientRun(PatientPerform(b, calls[0], tag), calls[1..], tag)
  }

  lemma BoundIsPatient(b: Book, series: set<Series>, scope: string, rs: seq<Request>)
    requires AllPlain(rs) && AllSkip(b, series) && Apart(series) && PlainSeries(series) && Consistent(b)
    requires forall r | r in rs :: SeriesOf(scope, r) in series
    ensures Forget(Bound(b, scope, rs)) == PatientBound(Forget(b), scope, rs) && AllSkip(Bound(b, scope, rs), series)
  {
    GenuineTurnKeepsSkips(b, series, scope, rs);
    GenuineTurnIsSound(b, scope, rs);
    var c := GenuineTurn(b, scope, rs);
    hide GenuineTurn, Consistent, AllSkip, Apart, PlainSeries, PlainRequest, OwnerKey;
    OrdinalTurnIsPatient(c, series, scope, rs);
    PatientForgets(c, GenuineTurn(Forget(b), scope, rs), scope, rs);
  }

  /** The requests of a call all belong to these series. */
  ghost predicate CallIn(call: Call, series: set<Series>, tag: string -> string)
    requires WellTyped(call)
  {
    call.NameAll? && Requests(call.labels, tag).Ok? ==>
      forall r | r in Requests(call.labels, tag).value :: SeriesOf(call.scope, r) in series
  }

  lemma {:induction false} UnboundForgets(b: Book, scope: string, rs: seq<Request>)
    ensures Unbound(Forget(b), scope, rs) == Unbound(b, scope, rs)
  {
    hide KeyOf;
    if rs != [] { UnboundForgets(b, scope, rs[..|rs| - 1]); }
  }

  lemma NamedIsPatient(b: Book, series: set<Series>, call: Call, tag: string -> string)
    requires call.NameAll? && WellTyped(call) && IsTag(tag) && CallIn(call, series, tag)
    requires AllSkip(b, series) && Apart(series) && PlainSeries(series) && Consistent(b)
    ensures var n, p := Named(b, call.scope, call.labels, tag), PatientNamed(Forget(b), call.scope, call.labels, tag);
            && (n.Ok? <==> p.Ok?) && (n.Ok? ==> Forget(n.value) == p.value && AllSkip(n.value, series))
  {
    var rs := Requests(call.labels, tag);
    if rs.Ok? {
      RequestsAreTheLabels(call.labels, tag);
      hide IsTag, Requests, Bound, PatientBound, Unbound, Consistent, AllSkip, Apart, PlainSeries, PlainRequest, Sorted,
           DistinctKeys;
      SortedKeepsMembers(IdOf, rs.value);
      UnboundForgets(b, call.scope, rs.value);
      BoundIsPatient(b, series, call.scope, Sorted(IdOf, rs.value));
    }
  }

  lemma ReservedIsPatient(b: Book, series: set<Series>, scope: string, name: string)
    requires AllSkip(b, series) && Consistent(b)
    ensures var r, p := Reserved(b, scope, name), Reserved(Forget(b), scope, name);
            && (r.Ok? <==> p.Ok?) && (r.Ok? ==> Forget(r.value) == p.value && AllSkip(r.value, series))
  {
    if Reserved(b, scope, name).Ok? {
      ReservedIsSound(b, scope, name);
      var c := Reserved(b, scope, name).value;
      forall q | q in series ensures Skips(c, q.scope, Probe(q)) {
        assert Counter(b, q.scope, Probe(q)) == Counter(c, q.scope, Probe(q));
        hide Consistent, Reserved, Counter;
        SkipsSurvive(b, c, q.scope, Probe(q));
      }
    }
  }

  lemma PerformIsPatient(b: Book, series: set<Series>, call: Call, tag: string -> string)
    requires WellTyped(call) && IsTag(tag) && CallIn(call, series, tag)
    requires AllSkip(b, series) && Apart(series) && PlainSeries(series) && Consistent(b)
    ensures Forget(Perform(b, call, tag)) == PatientPerform(Forget(b), call, tag)
            && AllSkip(Perform(b, call, tag), series)
  {
    match call {
      case Reserve(scope, name) => ReservedIsPatient(b, series, scope, name);
      case NameAll(_, _) => NamedIsPatient(b, series, call, tag);
    }
    hide Named, PatientNamed, Reserved, AllSkip, IsTag;
  }

  /** Over any history whose labels fall into series that are apart, the counters show nowhere: every name is the one
      a search from 2 gives. */
  lemma {:induction false} RunIsPatient(b: Book, series: set<Series>, calls: seq<Call>, tag: string -> string)
    requires (forall i | 0 <= i < |calls| :: WellTyped(calls[i]) && CallIn(calls[i], series, tag)) && IsTag(tag)
    requires AllSkip(b, series) && Apart(series) && PlainSeries(series) && Consistent(b)
    ensures Forget(Run(b, calls, tag)) == PatientRun(Forget(b), calls, tag) && AllSkip(Run(b, calls, tag), series)
    decreases |calls|
  {
    if calls != [] {
      PerformIsPatient(b, series, calls[0], tag);
      PerformIsSound(b, calls[0], tag);
      hide Perform, PatientPerform, AllSkip, Apart, PlainSeries, Consistent, CallIn, IsTag, WellTyped;
      RunIsPatient(Perform(b, calls[0], tag), series, calls[1..], tag);
    }
  }

  /** A catalog that remembered nothing. */
  lemma EmptySkips(series: set<Series>)
    ensures AllSkip(EMPTY, series)
  {
  }

  // ----- not apart: the counter skips a free name ---------------------------------------------

  /** Two different series share a counter key only when one item has no type suffix and its base name is the
      other's base name and suffix together. */
  lemma SharingShape(r: Request, q: Request)
    requires KnownSuffix(r.suffix) && KnownSuffix(q.suffix) && Genuine(r) == Genuine(q) && r.base != q.base
    ensures (q.suffix == "" && r.suffix != "" && q.base == r.base + r.suffix)
         || (r.suffix == "" && q.suffix != "" && r.base == q.base + q.suffix)
  {
    var g := Genuine(r);
    assert g[..|r.base|] == r.base && g[|r.base|..] == r.suffix;
    assert g[..|q.base|] == q.base && g[|q.base|..] == q.suffix;
    if r.suffix != "" && q.suffix != "" { SuffixesEndApart(g, r.suffix, q.suffix); }
  }

  lemma SuffixesEndApart(g: string, s: string, t: string)
    requires KnownSuffix(s) && KnownSuffix(t) && s != "" && t != "" && |s| <= |g| && |t| <= |g|
    requires g[|g| - |s|..] == s && g[|g| - |t|..] == t
    ensures s == t
  {
    assert g[|g| - 3] == s[|s| - 3] == t[|t| - 3];
  }

  /** Their ordinal aliases differ at the end of the shorter base name: a space against the suffix's dot. */
  lemma SharersAliasesDiffer(r: Request, q: Request, m: nat, n: nat)
    requires KnownSuffix(r.suffix) && KnownSuffix(q.suffix) && Genuine(r) == Genuine(q) && r.base != q.base
    ensures Alias(r, m) != Alias(q, n)
  {
    SharingShape(r, q);
    if q.suffix == "" { LongerBaseDiffers(r, q, m, n); } else { LongerBaseDiffers(q, r, n, m); }
  }

  lemma LongerBaseDiffers(r: Request, q: Request, m: nat, n: nat)
    requires KnownSuffix(r.suffix) && r.suffix != "" && q.base == r.base + r.suffix
    ensures Alias(r, m) != Alias(q, n)
  {
    var k := |r.base|;
    assert Alias(r, m)[k] == ' ' && Alias(q, n)[k] == q.base[k] == r.suffix[0] == '.';
  }

  lemma OwnAliasIsLonger(r: Request, n: nat)
    ensures Alias(r, n) != Genuine(r)
  {
    assert |Alias(r, n)| > |Genuine(r)|;
  }

  /** What the first two items of a series leave behind: its genuine name, its second one, and a counter of 3. */
  lemma TwoOfASeries(scope: string, r1: Request, r2: Request)
    requires PlainRequest(r1) && PlainRequest(r2) && r1.base == r2.base && r1.suffix == r2.suffix && r1.id != r2.id
    ensures var b := ClaimOrdinal(ClaimGenuine(EMPTY, scope, r1), scope, r2);
            && b.assignments.Keys == {KeyOf(scope, r1), KeyOf(scope, r2)}
            && b.owners.Keys == {OwnerKey(scope, Genuine(r1)), OwnerKey(scope, Alias(r2, 2))}
            && b.next == map[CounterKey(scope, r2) := 3]
  {
    var c := ClaimGenuine(EMPTY, scope, r1);
    OtherKeys(scope, r1, r2);
    AliasIsPlain(r2, 2);
    OwnAliasIsLonger(r2, 2);
    OtherNamesAreFree(scope, Alias(r2, 2), Genuine(r1), Genuine(r1));
    assert c == Claim(EMPTY, scope, r1, Genuine(r1));
    hide OwnerKey, KeyOf, CounterKey, Alias;
    assert FirstFree(c.owners, scope, r2, 2) == 2;
  }

  /** A third request of another series under the same counter key: ordinal 2 is free, and it is passed over. */
  lemma SharerIsSkipped(scope: string, r1: Request, r2: Request, r3: Request)
    requires PlainRequest(r1) && PlainRequest(r2) && r1.base == r2.base && r1.suffix == r2.suffix && r1.id != r2.id
    requires PlainRequest(r3) && r3.id != r1.id && r3.id != r2.id && Genuine(r3) == Genuine(r1) && r3.base != r1.base
    requires KnownSuffix(r1.suffix) && KnownSuffix(r3.suffix)
    ensures var b := ClaimOrdinal(ClaimGenuine(EMPTY, scope, r1), scope, r2);
            && KeyOf(scope, r3) !in b.assignments && OwnerKey(scope, Genuine(r3)) in b.owners
            && FirstFree(b.owners, scope, r3, 2) == 2 && FirstFree(b.owners, scope, r3, Counter(b, scope, r3)) > 2
  {
    TwoOfASeries(scope, r1, r2);
    CounterKeyDecides(scope, r2, scope, r3);
    AliasIsPlain(r3, 2);
    AliasIsPlain(r2, 2);
    SharersAliasesDiffer(r2, r3, 2, 2);
    OwnAliasIsLonger(r3, 2);
    OtherNamesAreFree(scope, Alias(r3, 2), Genuine(r1), Alias(r2, 2));
    OtherKeys(scope, r3, r1);
    OtherKeys(scope, r3, r2);
    hide OwnerKey, KeyOf, CounterKey, Alias, ClaimOrdinal, ClaimGenuine, PlainRequest;
  }

  lemma OtherNamesAreFree(scope: string, name: string, a: string, c: string)
    requires Plain(name) && Plain(a) && Plain(c) && name != a && name != c
    ensures OwnerKey(scope, name) !in {OwnerKey(scope, a), OwnerKey(scope, c)}
  {
    if OwnerKey(scope, name) == OwnerKey(scope, a) { OwnerKeyInjective(scope, name, scope, a); }
    if OwnerKey(scope, name) == OwnerKey(scope, c) { OwnerKeyInjective(scope, name, scope, c); }
  }

  lemma OtherKeys(scope: string, r: Request, q: Request)
    requires PlainRequest(r) && PlainRequest(q) && r.id != q.id
    ensures KeyOf(scope, r) != KeyOf(scope, q)
  {
    if KeyOf(scope, r) == KeyOf(scope, q) { BindingKeyInjective(scope, r.id, Genuine(r), scope, q.id, Genuine(q)); }
  }

  // ----- which labels are safe ----------------------------------------------------------------

  /** What a caller knows of an item besides its identity: the scope it lives in, its display name, its type suffix. */
  datatype Kind = Kind(scope: string, displayName: string, suffix: string)

  /** A well-formed identity for each digit. */
  function Id(c: char): string {
    seq(36, i => if i == 8 || i == 13 || i == 18 || i == 23 then '-' else c)
  }

  function LabelOf(c: char, k: Kind): Label { Label(Id(c), k.displayName, k.suffix) }

  /** The series of an item; none when its labels are refused. */
  function KindSeries(k: Kind, tag: string -> string): Option<Series>
    requires IsBytes(k.displayName)
  {
    var r := RequestOf(LabelOf('0', k), tag);
    if r.Ok? then Some(SeriesOf(k.scope, r.value)) else None
  }

  predicate KindsAreBytes(kinds: set<Kind>) { forall k | k in kinds :: IsBytes(k.displayName) }

  function AllSeries(kinds: set<Kind>, tag: string -> string): set<Series>
    requires KindsAreBytes(kinds)
  {
    set k | k in kinds && KindSeries(k, tag).Some? :: KindSeries(k, tag).value
  }

  /** A history that names only such items; it may reserve any names. */
  ghost predicate CallsOf(calls: seq<Call>, kinds: set<Kind>) {
    forall i | 0 <= i < |calls| ::
      && WellTyped(calls[i])
      && (calls[i].NameAll? ==> forall l | l in calls[i].labels ::
          Kind(calls[i].scope, l.displayName, l.suffix) in kinds)
  }

  lemma SeriesIgnoresIdentity(l: Label, k: Kind, tag: string -> string)
    requires IsBytes(l.displayName) && l.displayName == k.displayName && l.suffix == k.suffix && RequestOf(l, tag).Ok?
    ensures KindSeries(k, tag) == Some(SeriesOf(k.scope, RequestOf(l, tag).value))
  {
    RequestForm(l, tag);
    assert ValidID(Id('0'));
    hide IsBytes, ValidID, Lower, Id, Encode, Shortened, Protected;
  }

  lemma LabelForm(c: char, k: Kind, tag: string -> string)
    requires '0' <= c <= '9' && IsBytes(k.displayName) && KindSeries(k, tag).Some? && IsTag(tag)
    ensures RequestOf(LabelOf(c, k), tag).Ok?
    ensures var r := RequestOf(LabelOf(c, k), tag).value;
            && PlainRequest(r) && KnownSuffix(r.suffix) && r.id == Id(c)
            && SeriesOf(k.scope, r) == KindSeries(k, tag).value
  {
    assert ValidID(Id('0')) && ValidID(Id(c));
    assert Lower(Id(c)) == Id(c);
    RequestIsPlain(LabelOf(c, k), tag);
    hide IsBytes, ValidID, Lower, Id, Encode, Shortened, Protected, IsTag;
  }

  function ThreeCalls(k: Kind, l: Kind): seq<Call> {
    [NameAll(k.scope, [LabelOf('0', k)]), NameAll(k.scope, [LabelOf('1', k)]), NameAll(k.scope, [LabelOf('2', l)])]
  }

  lemma JoinsNothing(l: Label, tag: string -> string)
    requires IsBytes(l.displayName) && RequestOf(l, tag).Ok?
    ensures AllBytes([]) && Joins([], l, tag)
  {
    NoLabels([], tag);
    hide Requests, RequestOf, IsBytes;
  }

  lemma OneRequest(l: Label, tag: string -> string)
    requires IsBytes(l.displayName) && RequestOf(l, tag).Ok?
    ensures AllBytes([l]) && Requests([l], tag) == Ok([RequestOf(l, tag).value])
  {
    hide *;
    NoLabels([], tag);
    JoinsNothing(l, tag);
    RequestsAppend([], l, tag);
    assert [] + [l] == [l] && [] + [RequestOf(l, tag).value] == [RequestOf(l, tag).value];
  }

  lemma OneTurn(b: Book, scope: string, r: Request)
    requires PlainRequest(r)
    ensures Sorted(IdOf, [r]) == [r] && Bound(b, scope, [r]) == ClaimOrdinal(ClaimGenuine(b, scope, r), scope, r)
    ensures PatientBound(b, scope, [r]) == Forget(ClaimOrdinal(Forget(ClaimGenuine(b, scope, r)), scope, r))
    ensures Unbound(b, scope, [r]) <= 1
  {
    hide ClaimOrdinal, ClaimGenuine, KeyOf, PlainRequest;
    assert [r][..0] == [] && [r][1..] == [];
    assert Sorted(IdOf, []) == [] && Unbound(b, scope, []) == 0;
    var g := ClaimGenuine(b, scope, r);
    assert GenuineTurn(g, scope, []) == g && GenuineTurn(b, scope, [r]) == g;
    assert OrdinalTurn(ClaimOrdinal(g, scope, r), scope, []) == ClaimOrdinal(g, scope, r);
    assert PatientTurn(ClaimOrdinal(Forget(g), scope, r), scope, []) == Forget(ClaimOrdinal(Forget(g), scope, r));
  }

  /** A call for a single item, by either allocation. */
  lemma OneCall(b: Book, scope: string, l: Label, tag: string -> string)
    requires IsBytes(l.displayName) && IsTag(tag) && RequestOf(l, tag).Ok? && |b.assignments| < ALIAS_LIMIT
    ensures WellTyped(NameAll(scope, [l])) && PlainRequest(RequestOf(l, tag).value)
    ensures var r := RequestOf(l, tag).value;
            && Perform(b, NameAll(scope, [l]), tag) == ClaimOrdinal(ClaimGenuine(b, scope, r), scope, r)
            && PatientPerform(b, NameAll(scope, [l]), tag) ==
               Forget(ClaimOrdinal(Forget(ClaimGenuine(b, scope, r)), scope, r))
  {
    var r := RequestOf(l, tag).value;
    OneRequest(l, tag);
    RequestIsPlain(l, tag);
    OneTurn(b, scope, r);
    hide RequestOf, Requests, Bound, PatientBound, Unbound, ClaimOrdinal, ClaimGenuine, IsTag, IsBytes, PlainRequest,
         Sorted;
  }

  lemma FirstOfASeries(scope: string, r: Request)
    requires PlainRequest(r)
    ensures var b := ClaimGenuine(EMPTY, scope, r);
            && ClaimOrdinal(b, scope, r) == b && Forget(b) == b && |b.assignments| == 1
            && OwnerKey(scope, Genuine(r)) in b.owners
  {
    hide OwnerKey, KeyOf;
  }

  lemma GenuineNameTaken(b: Book, scope: string, r: Request)
    requires OwnerKey(scope, Genuine(r)) in b.owners
    ensures ClaimGenuine(b, scope, r) == b && ClaimGenuine(Forget(b), scope, r) == Forget(b)
  {
  }

  lemma OrdinalGiven(b: Book, scope: string, r: Request)
    requires PlainRequest(r) && KeyOf(scope, r) !in b.assignments
    ensures var given := Forget(ClaimOrdinal(b, scope, r)).assignments;
            && KeyOf(scope, r) in given
            && given[KeyOf(scope, r)] == Alias(r, FirstFree(b.owners, scope, r, Counter(b, scope, r)))
    ensures var given := Forget(ClaimOrdinal(Forget(b), scope, r)).assignments;
            KeyOf(scope, r) in given && given[KeyOf(scope, r)] == Alias(r, FirstFree(b.owners, scope, r, 2))
  {
    hide KeyOf, Alias;
  }

  /** The third name differs, counter or no counter. */
  lemma ThirdNameDiffers(scope: string, r1: Request, r2: Request, r3: Request)
    requires PlainRequest(r1) && PlainRequest(r2) && r1.base == r2.base && r1.suffix == r2.suffix && r1.id != r2.id
    requires PlainRequest(r3) && r3.id != r1.id && r3.id != r2.id && Genuine(r3) == Genuine(r1) && r3.base != r1.base
    requires KnownSuffix(r1.suffix) && KnownSuffix(r3.suffix)
    ensures var b := ClaimOrdinal(ClaimGenuine(EMPTY, scope, r1), scope, r2);
            && ClaimGenuine(b, scope, r3) == b && ClaimGenuine(Forget(b), scope, r3) == Forget(b)
            && |b.assignments| <= 2
            && Forget(ClaimOrdinal(b, scope, r3)) != Forget(ClaimOrdinal(Forget(b), scope, r3))
  {
    SharerIsSkipped(scope, r1, r2, r3);
    TwoOfASeries(scope, r1, r2);
    hide *;
    var b := ClaimOrdinal(ClaimGenuine(EMPTY, scope, r1), scope, r2);
    GenuineNameTaken(b, scope, r3);
    OrdinalGiven(b, scope, r3);
    var fast, slow := FirstFree(b.owners, scope, r3, Counter(b, scope, r3)), FirstFree(b.owners, scope, r3, 2);
    if Alias(r3, fast) == Alias(r3, slow) { AliasesDiffer(r3, fast, slow); }
    AtMostTwo(b.assignments.Keys, KeyOf(scope, r1), KeyOf(scope, r2));
  }

  lemma AtMostTwo<A>(s: set<A>, a: A, c: A)
    requires s == {a, c}
    ensures |s| <= 2
  {
  }

  lemma RunStep(b: Book, calls: seq<Call>, tag: string -> string)
    requires (forall i | 0 <= i < |calls| :: WellTyped(calls[i])) && IsTag(tag) && calls != []
    ensures Run(b, calls, tag) == Run(Perform(b, calls[0], tag), calls[1..], tag)
    ensures PatientRun(b, calls, tag) == PatientRun(PatientPerform(b, calls[0], tag), calls[1..], tag)
  {
    hide Perform, PatientPerform;
  }

  lemma RunOfThree(b: Book, c1: Call, c2: Call, c3: Call, tag: string -> string)
    requires WellTyped(c1) && WellTyped(c2) && WellTyped(c3) && IsTag(tag)
    ensures Run(b, [c1, c2, c3], tag) == Perform(Perform(Perform(b, c1, tag), c2, tag), c3, tag)
    ensures PatientRun(b, [c1, c2, c3], tag) ==
            PatientPerform(PatientPerform(PatientPerform(b, c1, tag), c2, tag), c3, tag)
  {
    hide Perform, PatientPerform, WellTyped, IsTag;
    RunStep(b, [c1, c2, c3], tag);
    assert [c1, c2, c3][1..] == [c2, c3] && [c2, c3][1..] == [c3] && [c3][1..] == [];
    var d, e := Perform(b, c1, tag), PatientPerform(b, c1, tag);
    RunStep(d, [c2, c3], tag);
    RunStep(e, [c2, c3], tag);
    RunStep(Perform(d, c2, tag), [c3], tag);
    RunStep(PatientPerform(e, c2, tag), [c3], tag);
  }

  /** Three calls for one item each, the second and the third called like the first. */
  lemma RunsOfSharers(s: string, l1: Label, l2: Label, l3: Label, tag: string -> string)
    requires IsBytes(l1.displayName) && IsBytes(l2.displayName) && IsBytes(l3.displayName) && IsTag(tag)
    requires RequestOf(l1, tag).Ok? && RequestOf(l2, tag).Ok? && RequestOf(l3, tag).Ok?
    requires var r1, r2, r3 := RequestOf(l1, tag).value, RequestOf(l2, tag).value, RequestOf(l3, tag).value;
             && PlainRequest(r1) && PlainRequest(r2) && PlainRequest(r3) && Genuine(r2) == Genuine(r1)
             && var b := ClaimOrdinal(ClaimGenuine(EMPTY, s, r1), s, r2);
                && ClaimGenuine(b, s, r3) == b && ClaimGenuine(Forget(b), s, r3) == Forget(b) && |b.assignments| <= 2
    ensures var calls := [NameAll(s, [l1]), NameAll(s, [l2]), NameAll(s, [l3])];
            && (forall i | 0 <= i < 3 :: WellTyped(calls[i]))
            && var r1, r2, r3 := RequestOf(l1, tag).value, RequestOf(l2, tag).value, RequestOf(l3, tag).value;
               var b := ClaimOrdinal(ClaimGenuine(EMPTY, s, r1), s, r2);
               && Run(EMPTY, calls, tag) == ClaimOrdinal(b, s, r3)
               && PatientRun(EMPTY, calls, tag) == Forget(ClaimOrdinal(Forget(b), s, r3))
  {
    assert ALIAS_LIMIT > 2 && |EMPTY.assignments| == 0;
    hide *;
    var r1, r2, r3 := RequestOf(l1, tag).value, RequestOf(l2, tag).value, RequestOf(l3, tag).value;
    var b1 := ClaimGenuine(EMPTY, s, r1);
    var b2 := ClaimOrdinal(b1, s, r2);
    FirstOfASeries(s, r1);
    GenuineNameTaken(b1, s, r2);
    ForgetTwice(b2);
    OneCall(EMPTY, s, l1, tag);
    OneCall(b1, s, l2, tag);
    OneCall(b2, s, l3, tag);
    OneCall(Forget(b2), s, l3, tag);
    RunOfThree(EMPTY, NameAll(s, [l1]), NameAll(s, [l2]), NameAll(s, [l3]), tag);
  }

  lemma SameSeries(scope: string, r1: Request, r2: Request)
    requires SeriesOf(scope, r1) == SeriesOf(scope, r2)
    ensures r1.base == r2.base && r1.suffix == r2.suffix && Genuine(r1) == Genuine(r2)
  {
  }

  /** Sharing one counter key always shows: two items of one kind and then one of the other, and the last of them
      passes over a name that is free. */
  lemma SharingShows(k: Kind, l: Kind, tag: string -> string)
    requires IsBytes(k.displayName) && IsBytes(l.displayName) && IsTag(tag)
    requires KindSeries(k, tag).Some? && KindSeries(l, tag).Some? && k.scope == l.scope
    requires var p, q := KindSeries(k, tag).value, KindSeries(l, tag).value;
             p.base + p.suffix == q.base + q.suffix && p.base != q.base
    ensures forall i | 0 <= i < 3 :: WellTyped(ThreeCalls(k, l)[i])
    ensures Forget(Run(EMPTY, ThreeCalls(k, l), tag)) != PatientRun(EMPTY, ThreeCalls(k, l), tag)
  {
    LabelForm('0', k, tag);
    LabelForm('1', k, tag);
    LabelForm('2', l, tag);
    IdsDiffer();
    var l1, l2, l3 := LabelOf('0', k), LabelOf('1', k), LabelOf('2', l);
    var r1, r2, r3 := RequestOf(l1, tag).value, RequestOf(l2, tag).value, RequestOf(l3, tag).value;
    SameSeries(k.scope, r1, r2);
    assert Genuine(r3) == Genuine(r1) && r3.base != r1.base;
    assert ThreeCalls(k, l) == [NameAll(k.scope, [l1]), NameAll(k.scope, [l2]), NameAll(k.scope, [l3])];
    assert IsBytes(l1.displayName) && IsBytes(l2.displayName) && IsBytes(l3.displayName);
    hide *;
    ThirdNameDiffers(k.scope, r1, r2, r3);
    RunsOfSharers(k.scope, l1, l2, l3, tag);
  }

  lemma IdsDiffer()
    ensures Id('0') != Id('1') && Id('0') != Id('2') && Id('1') != Id('2')
  {
    assert Id('0')[0] == '0' && Id('1')[0] == '1' && Id('2')[0] == '2';
  }

  lemma ForgetTwice(b: Book)
    ensures Forget(Forget(b)) == Forget(b) && Forget(b).assignments == b.assignments && Forget(EMPTY) == EMPTY
  {
  }

  lemma CallsStayInSeries(calls: seq<Call>, kinds: set<Kind>, tag: string -> string)
    requires KindsAreBytes(kinds) && CallsOf(calls, kinds) && IsTag(tag)
    ensures forall i | 0 <= i < |calls| :: WellTyped(calls[i]) && CallIn(calls[i], AllSeries(kinds, tag), tag)
  {
    forall i | 0 <= i < |calls| ensures WellTyped(calls[i]) && CallIn(calls[i], AllSeries(kinds, tag), tag) {
      var call := calls[i];
      if call.NameAll? && Requests(call.labels, tag).Ok? {
        RequestsAreTheLabels(call.labels, tag);
        hide Requests, RequestOf, KindSeries, IsBytes, PlainRequest, DistinctKeys, IsTag;
        var rs := Requests(call.labels, tag).value;
        forall r | r in rs ensures SeriesOf(call.scope, r) in AllSeries(kinds, tag) {
          var j :| 0 <= j < |rs| && rs[j] == r;
          var l := call.labels[j];
          var k := Kind(call.scope, l.displayName, l.suffix);
          assert k in kinds;
          SeriesIgnoresIdentity(l, k, tag);
        }
      }
    }
  }

  lemma SeriesArePlain(kinds: set<Kind>, tag: string -> string)
    requires KindsAreBytes(kinds) && IsTag(tag)
    ensures PlainSeries(AllSeries(kinds, tag))
  {
    forall q | q in AllSeries(kinds, tag) ensures PlainRequest(Probe(q)) {
      var k :| k in kinds && KindSeries(k, tag) == Some(q);
      LabelForm('0', k, tag);
    }
  }

  /** Which items are safe from the counter: over every history of any of their labels, in any calls, each item gets
      the name a search from 2 gives, exactly when no two different (base, type suffix) pairs of one scope
      concatenate to the same text. */
  lemma CounterIsOnlyASpeedUpIffApart(kinds: set<Kind>, tag: string -> string)
    requires KindsAreBytes(kinds) && IsTag(tag)
    ensures (forall calls | CallsOf(calls, kinds) :: Forget(Run(EMPTY, calls, tag)) == PatientRun(EMPTY, calls, tag))
            <==> Apart(AllSeries(kinds, tag))
  {
    var series := AllSeries(kinds, tag);
    if Apart(series) {
      forall calls | CallsOf(calls, kinds) ensures Forget(Run(EMPTY, calls, tag)) == PatientRun(EMPTY, calls, tag) {
        CallsStayInSeries(calls, kinds, tag);
        SeriesArePlain(kinds, tag);
        EmptySkips(series);
        EmptyIsConsistent();
        ForgetTwice(EMPTY);
        RunIsPatient(EMPTY, series, calls, tag);
      }
    } else {
      var p, q :| p in series && q in series && p.scope == q.scope && p.base + p.suffix == q.base + q.suffix
        && p.base != q.base;
      var k :| k in kinds && KindSeries(k, tag) == Some(p);
      var l :| l in kinds && KindSeries(l, tag) == Some(q);
      SharingShows(k, l, tag);
      ThreeCallsAreOf(k, l, kinds);
    }
  }

  lemma ThreeCallsAreOf(k: Kind, l: Kind, kinds: set<Kind>)
    requires k in kinds && l in kinds && k.scope == l.scope && forall i | 0 <= i < 3 :: WellTyped(ThreeCalls(k, l)[i])
    ensures CallsOf(ThreeCalls(k, l), kinds)
  {
  }
}
