/** What alias allocation guarantees over whole lifetimes of a catalog (internal/namespace/catalog.go). */
module AliasLaws {
  import opened Prelude
  import opened Names
  import opened Sorting
  import opened Aliases

  // ----- permanence ---------------------------------------------------------------------------

  datatype Call = Reserve(scope: string, name: string) | NameAll(scope: string, labels: seq<Label>)

  predicate WellTyped(call: Call) { call.NameAll? ==> AllBytes(call.labels) }

  /** The catalog after one call; a call that fails leaves it alone. */
  function Perform(b: Book, call: Call, tag: string -> string): Book
    requires WellTyped(call) && IsTag(tag)
  {
    var r := match call
      case Reserve(scope, name) => Reserved(b, scope, name)
      case NameAll(scope, labels) => Named(b, scope, labels, tag);
    if r.Ok? then r.value else b
  }

  function Run(b: Book, calls: seq<Call>, tag: string -> string): Book
    requires (forall i | 0 <= i < |calls| :: WellTyped(calls[i])) && IsTag(tag)
    decreases |calls|
  {
    if calls == [] then b else Run(Perform(b, calls[0], tag), calls[1..], tag)
  }

  lemma NamedIsSound(b: Book, scope: string, labels: seq<Label>, tag: string -> string)
    requires Consistent(b) && AllBytes(labels) && IsTag(tag) && Named(b, scope, labels, tag).Ok?
    ensures var c := Named(b, scope, labels, tag).value; var rs := Requests(labels, tag);
            && Consistent(c) && Extends(b, c) && rs.Ok? && AllPlain(rs.value)
            && DistinctKeys(IdOf, rs.value) && forall r | r in rs.value :: KeyOf(scope, r) in c.assignments
  {
    RequestsAreTheLabels(labels, tag);
    hide Consistent, IsTag, Requests, PlainRequest, KeyOf, Sorted, DistinctKeys, Bound, AllBytes;
    var rs := Requests(labels, tag).value;
    SortedKeepsMembers(IdOf, rs);
    BoundIsSound(b, scope, Sorted(IdOf, rs));
  }

  lemma PerformIsSound(b: Book, call: Call, tag: string -> string)
    requires Consistent(b) && WellTyped(call) && IsTag(tag)
    ensures Consistent(Perform(b, call, tag)) && Extends(b, Perform(b, call, tag))
  {
    match call
    case Reserve(scope, name) =>
      if Reserved(b, scope, name).Ok? { ReservedIsSound(b, scope, name); }
    case NameAll(scope, labels) =>
      if Named(b, scope, labels, tag).Ok? { NamedIsSound(b, scope, labels, tag); }
  }

  lemma ExtendsIsTransitive(b: Book, c: Book, d: Book)
    requires Extends(b, c) && Extends(c, d)
    ensures Extends(b, d)
  {
  }

  lemma {:induction false} RunIsSound(b: Book, calls: seq<Call>, tag: string -> string)
    requires Consistent(b) && (forall i | 0 <= i < |calls| :: WellTyped(calls[i])) && IsTag(tag)
    ensures Consistent(Run(b, calls, tag)) && Extends(b, Run(b, calls, tag))
    decreases |calls|
  {
    if calls != [] {
      PerformIsSound(b, calls[0], tag);
      var c := Perform(b, calls[0], tag);
      RunIsSound(c, calls[1..], tag);
      hide Perform, Consistent, Extends;
      ExtendsIsTransitive(b, c, Run(c, calls[1..], tag));
    }
  }

  const EMPTY: Book := Book(map[], map[], map[])

  /** A catalog that has lived through any calls, names some labels, lives on, and names others: a name given
      first never comes back for another identity, and the same request always gets the same name. */
  lemma NamesArePermanent(past: seq<Call>, scope: string, labels1: seq<Label>, between: seq<Call>, labels2: seq<Label>,
                          r1: Request, r2: Request, tag: string -> string)
    requires (forall i | 0 <= i < |past| :: WellTyped(past[i]))
             && (forall i | 0 <= i < |between| :: WellTyped(between[i]))
    requires AllBytes(labels1) && AllBytes(labels2) && IsTag(tag)
    requires var b := Run(EMPTY, past, tag);
             && Named(b, scope, labels1, tag).Ok?
             && Named(Run(Named(b, scope, labels1, tag).value, between, tag), scope, labels2, tag).Ok?
    requires Requests(labels1, tag).Ok? && r1 in Requests(labels1, tag).value
    requires Requests(labels2, tag).Ok? && r2 in Requests(labels2, tag).value
    ensures var c := Named(Run(EMPTY, past, tag), scope, labels1, tag).value;
            var d := Named(Run(c, between, tag), scope, labels2, tag).value;
            var k1, k2 := KeyOf(scope, r1), KeyOf(scope, r2);
            && k1 in c.assignments && k2 in d.assignments
            && (c.assignments[k1] == d.assignments[k2] ==> r1.id == r2.id)
            && (r1 == r2 ==> c.assignments[k1] == d.assignments[k2])
  {
    hide Run, Named, Consistent, KeyOf, Requests, IsTag, AllBytes, WellTyped, PlainRequest;
    EmptyIsConsistent();
    RunIsSound(EMPTY, past, tag);
    var b := Run(EMPTY, past, tag);
    NamedIsSound(b, scope, labels1, tag);
    var c := Named(b, scope, labels1, tag).value;
    RunIsSound(c, between, tag);
    var m := Run(c, between, tag);
    NamedIsSound(m, scope, labels2, tag);
    var d := Named(m, scope, labels2, tag).value;
    ExtendsIsTransitive(c, m, d);
    if c.assignments[KeyOf(scope, r1)] == d.assignments[KeyOf(scope, r2)] {
      NamesAddressOneIdentity(d, scope, r1, r2);
    }
  }

  lemma EmptyIsConsistent()
    ensures Consistent(EMPTY)
  {
  }

  // ----- order does not matter ----------------------------------------------------------------

  lemma UnboundAppend(b: Book, scope: string, rs: seq<Request>, r: Request)
    ensures Unbound(b, scope, rs + [r]) == Unbound(b, scope, rs) + if KeyOf(scope, r) in b.assignments then 0 else 1
  {
    assert (rs + [r])[..|rs|] == rs;
  }

  predicate Joins(front: seq<Label>, l: Label, tag: string -> string)
    requires AllBytes(front) && IsBytes(l.displayName)
  {
    Requests(front, tag).Ok? && RequestOf(l, tag).Ok?
      && !HasKey(IdOf, Requests(front, tag).value, RequestOf(l, tag).value.id)
  }

  lemma RequestsAppend(front: seq<Label>, l: Label, tag: string -> string)
    requires AllBytes(front) && IsBytes(l.displayName)
    ensures AllBytes(front + [l])
    ensures Requests(front + [l], tag).Ok? <==> Joins(front, l, tag)
    ensures Joins(front, l, tag) ==>
            Requests(front + [l], tag).value == Requests(front, tag).value + [RequestOf(l, tag).value]
  {
    hide IsBytes, HasKey, RequestOf;
    assert (front + [l])[..|front|] == front;
  }

  lemma HasIdAppend(rs: seq<Request>, r: Request, id: string)
    ensures HasKey(IdOf, rs + [r], id) <==> HasKey(IdOf, rs, id) || r.id == id
  {
    if HasKey(IdOf, rs, id) {
      var q :| q in rs && q.id == id;
      assert q in rs + [r];
    }
    assert r in rs + [r];
  }

  lemma AllBytesConcat(a: seq<Label>, b: seq<Label>)
    requires AllBytes(a) && AllBytes(b)
    ensures AllBytes(a + b)
  {
  }

  /** A label anywhere in a call counts as if it came last. */
  ghost predicate CountsAsLast(b: Book, scope: string, whole: seq<Label>, rest: seq<Label>, l: Label,
                               tag: string -> string)
    requires AllBytes(whole) && AllBytes(rest) && IsBytes(l.displayName)
  {
    && (Requests(whole, tag).Ok? <==> Joins(rest, l, tag))
    && (Joins(rest, l, tag) ==>
          var was, now, r := Requests(rest, tag).value, Requests(whole, tag).value, RequestOf(l, tag).value;
          && multiset(now) == multiset(was) + multiset{r}
          && Unbound(b, scope, now) == Unbound(b, scope, was + [r]))
  }

  lemma LastCountsAsLast(b: Book, scope: string, rest: seq<Label>, l: Label, tag: string -> string)
    requires AllBytes(rest) && IsBytes(l.displayName)
    ensures AllBytes(rest + [l]) && CountsAsLast(b, scope, rest + [l], rest, l, tag)
  {
    RequestsAppend(rest, l, tag);
    hide Requests, RequestOf, HasKey, AllBytes, IsBytes, Unbound;
  }

  /** Appending one more label on both sides changes nothing about that. */
  lemma CountsAsLastStep(b: Book, scope: string, whole: seq<Label>, rest: seq<Label>, l: Label, m: Label,
                         tag: string -> string)
    requires AllBytes(whole) && AllBytes(rest) && IsBytes(l.displayName) && IsBytes(m.displayName)
    requires CountsAsLast(b, scope, whole, rest, l, tag)
    ensures AllBytes(whole + [m]) && AllBytes(rest + [m]) && CountsAsLast(b, scope, whole + [m], rest + [m], l, tag)
  {
    RequestsAppend(whole, m, tag);
    RequestsAppend(rest, m, tag);
    hide Requests, RequestOf, AllBytes, IsBytes, HasKey, Unbound;
    if Requests(rest, tag).Ok? && RequestOf(l, tag).Ok? && RequestOf(m, tag).Ok? {
      var was, r, q := Requests(rest, tag).value, RequestOf(l, tag).value, RequestOf(m, tag).value;
      HasIdAppend(was, q, r.id);
      if Requests(whole, tag).Ok? { AppendBoth(b, scope, was, Requests(whole, tag).value, r, q); }
    }
  }

  lemma AppendBoth(b: Book, scope: string, was: seq<Request>, now: seq<Request>, r: Request, q: Request)
    requires multiset(now) == multiset(was) + multiset{r} && Unbound(b, scope, now) == Unbound(b, scope, was + [r])
    ensures HasKey(IdOf, now, q.id) <==> HasKey(IdOf, was, q.id) || r.id == q.id
    ensures multiset(now + [q]) == multiset(was + [q]) + multiset{r}
    ensures Unbound(b, scope, now + [q]) == Unbound(b, scope, was + [q] + [r])
  {
    hide *;
    SameKeys(IdOf, now, was + [r], q.id);
    HasIdAppend(was, r, q.id);
    UnboundAppend(b, scope, was, r);
    UnboundAppend(b, scope, was, q);
    UnboundAppend(b, scope, was + [q], r);
    UnboundAppend(b, scope, now, q);
  }

  lemma {:induction false} AnyCountsAsLast(b: Book, scope: string, front: seq<Label>, l: Label, back: seq<Label>,
                                           tag: string -> string)
    requires AllBytes(front) && IsBytes(l.displayName) && AllBytes(back)
    ensures AllBytes(front + [l] + back) && AllBytes(front + back)
    ensures CountsAsLast(b, scope, front + [l] + back, front + back, l, tag)
    decreases |back|
  {
    hide *;
    AllBytesConcat(front, back);
    if back == [] {
      LastCountsAsLast(b, scope, front, l, tag);
      assert front + back == front && front + [l] + back == front + [l];
    } else {
      var back', m := back[..|back| - 1], back[|back| - 1];
      BytesFront(back);
      AnyCountsAsLast(b, scope, front, l, back', tag);
      CountsAsLastStep(b, scope, front + [l] + back', front + back', l, m, tag);
      assert back == back' + [m];
      assert front + [l] + back == front + [l] + back' + [m] && front + back == front + back' + [m];
    }
  }

  lemma BytesFront(labels: seq<Label>)
    requires AllBytes(labels) && labels != []
    ensures AllBytes(labels[..|labels| - 1]) && IsBytes(labels[|labels| - 1].displayName)
  {
  }

  lemma BytesAround(labels: seq<Label>, k: nat)
    requires AllBytes(labels) && k < |labels|
    ensures AllBytes(labels[..k]) && AllBytes(labels[k + 1..]) && IsBytes(labels[k].displayName)
  {
  }

  ghost predicate SameCall(b: Book, scope: string, labels1: seq<Label>, labels2: seq<Label>, tag: string -> string)
    requires AllBytes(labels1) && AllBytes(labels2)
  {
    var r1, r2 := Requests(labels1, tag), Requests(labels2, tag);
    && (r1.Ok? <==> r2.Ok?)
    && (r1.Ok? ==>
        multiset(r1.value) == multiset(r2.value)
        && Unbound(b, scope, r1.value) == Unbound(b, scope, r2.value))
  }

  lemma SameCallStep(b: Book, scope: string, front: seq<Label>, l: Label, rest: seq<Label>, whole: seq<Label>,
                     tag: string -> string)
    requires AllBytes(front) && AllBytes(rest) && AllBytes(whole) && IsBytes(l.displayName)
    requires SameCall(b, scope, front, rest, tag) && CountsAsLast(b, scope, whole, rest, l, tag)
    ensures AllBytes(front + [l]) && SameCall(b, scope, front + [l], whole, tag)
  {
    RequestsAppend(front, l, tag);
    hide Requests, RequestOf, AllBytes, IsBytes, HasKey, Unbound;
    if Requests(front, tag).Ok? && RequestOf(l, tag).Ok? {
      var f, t, r := Requests(front, tag).value, Requests(rest, tag).value, RequestOf(l, tag).value;
      SameKeys(IdOf, f, t, r.id);
      UnboundAppend(b, scope, f, r);
      UnboundAppend(b, scope, t, r);
    }
  }

  lemma TakeOut<A>(s: seq<A>, t: seq<A>, k: nat)
    requires multiset(s) == multiset(t) && k < |t| && s != [] && t[k] == s[|s| - 1]
    ensures t == t[..k] + [t[k]] + t[k + 1..] && multiset(s[..|s| - 1]) == multiset(t[..k] + t[k + 1..])
  {
    assert s == s[..|s| - 1] + [s[|s| - 1]];
    assert t == t[..k] + [t[k]] + t[k + 1..];
    assert multiset(s[..|s| - 1]) == multiset(s) - multiset{t[k]};
    assert multiset(t[..k] + t[k + 1..]) == multiset(t) - multiset{t[k]};
  }

  lemma {:induction false} PermutedIsSameCall(b: Book, scope: string, labels1: seq<Label>, labels2: seq<Label>,
                                              tag: string -> string)
    requires AllBytes(labels1) && AllBytes(labels2) && multiset(labels1) == multiset(labels2)
    ensures SameCall(b, scope, labels1, labels2, tag)
    decreases |labels1|
  {
    hide Requests, RequestOf, AllBytes, IsBytes, HasKey, Unbound, CountsAsLast;
    if labels1 == [] {
      assert |labels2| == |multiset(labels2)| == 0;
      assert labels1 == labels2;
    } else {
      var front, l := labels1[..|labels1| - 1], labels1[|labels1| - 1];
      BytesFront(labels1);
      assert labels1 == front + [l];
      assert l in multiset(labels2);
      var k :| 0 <= k < |labels2| && labels2[k] == l;
      var a, c := labels2[..k], labels2[k + 1..];
      BytesAround(labels2, k);
      AllBytesConcat(a, c);
      TakeOut(labels1, labels2, k);
      AnyCountsAsLast(b, scope, a, l, c, tag);
      PermutedIsSameCall(b, scope, front, a + c, tag);
      SameCallStep(b, scope, front, l, a + c, labels2, tag);
    }
  }

  /** The same labels in another order: accepted alike, and leaving the same catalog. */
  lemma OrderDoesNotMatter(b: Book, scope: string, labels1: seq<Label>, labels2: seq<Label>, tag: string -> string)
    requires AllBytes(labels1) && AllBytes(labels2) && IsTag(tag) && multiset(labels1) == multiset(labels2)
    ensures Named(b, scope, labels1, tag).Ok? <==> Named(b, scope, labels2, tag).Ok?
    ensures Named(b, scope, labels1, tag).Ok? ==> Named(b, scope, labels1, tag) == Named(b, scope, labels2, tag)
  {
    PermutedIsSameCall(b, scope, labels1, labels2, tag);
    if Requests(labels1, tag).Ok? {
      RequestsAreTheLabels(labels1, tag);
      RequestsAreTheLabels(labels2, tag);
      hide Requests, RequestOf, AllBytes, IsTag, DistinctKeys, Sorted, Bound, PlainRequest;
      SortedIsCanonical(IdOf, Requests(labels1, tag).value, Requests(labels2, tag).value);
    }
  }

  // ----- the alias limit ----------------------------------------------------------------------

  ghost function KeysOf(scope: string, rs: seq<Request>): set<string> { set r | r in rs :: KeyOf(scope, r) }

  lemma {:induction false} TurnsBindOnlyRequests(b: Book, scope: string, rs: seq<Request>, keys: set<string>)
    requires AllPlain(rs) && b.assignments.Keys <= keys && forall r | r in rs :: KeyOf(scope, r) in keys
    ensures GenuineTurn(b, scope, rs).assignments.Keys <= keys
    ensures OrdinalTurn(b, scope, rs).assignments.Keys <= keys
    decreases |rs|
  {
    if rs != [] {
      hide KeyOf, FirstFree, PlainRequest, OwnerKey;
      assert rs[0] in rs;
      TurnsBindOnlyRequests(ClaimGenuine(b, scope, rs[0]), scope, rs[1..], keys);
      TurnsBindOnlyRequests(ClaimOrdinal(b, scope, rs[0]), scope, rs[1..], keys);
    }
  }

  lemma {:induction false} UnboundCountsNewKeys(b: Book, scope: string, rs: seq<Request>)
    ensures |b.assignments.Keys + KeysOf(scope, rs)| <= |b.assignments| + Unbound(b, scope, rs)
  {
    hide KeysOf, KeyOf;
    KeysStep(scope, rs);
    if rs == [] {
      assert b.assignments.Keys + KeysOf(scope, rs) == b.assignments.Keys;
    } else {
      var front, k := rs[..|rs| - 1], KeyOf(scope, rs[|rs| - 1]);
      UnboundCountsNewKeys(b, scope, front);
      OneMore(b.assignments.Keys, KeysOf(scope, front), k);
    }
  }

  lemma KeysStep(scope: string, rs: seq<Request>)
    ensures KeysOf(scope, rs) == if rs == [] then {} else KeysOf(scope, rs[..|rs| - 1]) + {KeyOf(scope, rs[|rs| - 1])}
  {
    if rs != [] { assert rs == rs[..|rs| - 1] + [rs[|rs| - 1]]; }
  }

  lemma OneMore<A>(x: set<A>, y: set<A>, k: A)
    ensures |x + (y + {k})| <= |x + y| + if k in x then 0 else 1
  {
    if k in x + y {
      assert x + (y + {k}) == x + y;
    } else {
      assert x + (y + {k}) == (x + y) + {k};
    }
  }

  lemma SubsetSize<A>(x: set<A>, y: set<A>)
    requires x <= y
    ensures |x| <= |y|
  {
    assert y == x + (y - x);
  }

  lemma BoundKeys(b: Book, scope: string, rs: seq<Request>)
    requires AllPlain(rs) && DistinctKeys(IdOf, rs) && AllPlain(Sorted(IdOf, rs))
    ensures Bound(b, scope, Sorted(IdOf, rs)).assignments.Keys <= b.assignments.Keys + KeysOf(scope, rs)
  {
    SortedKeepsMembers(IdOf, rs);
    var keys := b.assignments.Keys + KeysOf(scope, rs);
    assert forall r | r in rs :: KeyOf(scope, r) in keys;
    hide Sorted, PlainRequest, GenuineTurn, OrdinalTurn, KeyOf, KeysOf, DistinctKeys;
    TurnsBindOnlyRequests(b, scope, Sorted(IdOf, rs), keys);
    TurnsBindOnlyRequests(GenuineTurn(b, scope, Sorted(IdOf, rs)), scope, Sorted(IdOf, rs), keys);
  }

  lemma NamedForm(b: Book, scope: string, labels: seq<Label>, tag: string -> string)
    requires AllBytes(labels) && IsTag(tag) && Named(b, scope, labels, tag).Ok?
    ensures Requests(labels, tag).Ok?
    ensures var rs := Requests(labels, tag).value;
            && AllPlain(rs) && DistinctKeys(IdOf, rs) && AllPlain(Sorted(IdOf, rs))
            && |b.assignments| + Unbound(b, scope, rs) <= ALIAS_LIMIT
            && Named(b, scope, labels, tag).value == Bound(b, scope, Sorted(IdOf, rs))
  {
    hide IsTag, AllBytes, Requests, DistinctKeys, Sorted, PlainRequest, Bound, Unbound;
    RequestsAreTheLabels(labels, tag);
    SortedKeepsMembers(IdOf, Requests(labels, tag).value);
  }

  /** The check made before binding anything suffices: the catalog never outgrows its limit. */
  lemma NamedKeepsLimit(b: Book, scope: string, labels: seq<Label>, tag: string -> string)
    requires AllBytes(labels) && IsTag(tag) && Named(b, scope, labels, tag).Ok?
    ensures |Named(b, scope, labels, tag).value.assignments| <= ALIAS_LIMIT
  {
    NamedForm(b, scope, labels, tag);
    hide *;
    var rs := Requests(labels, tag).value;
    BoundKeys(b, scope, rs);
    UnboundCountsNewKeys(b, scope, rs);
    SubsetSize(Bound(b, scope, Sorted(IdOf, rs)).assignments.Keys, b.assignments.Keys + KeysOf(scope, rs));
  }

  lemma LastKeyIsNew(scope: string, rs: seq<Request>)
    requires AllPlain(rs) && DistinctKeys(IdOf, rs) && rs != []
    ensures AllPlain(rs[..|rs| - 1]) && DistinctKeys(IdOf, rs[..|rs| - 1])
    ensures KeyOf(scope, rs[|rs| - 1]) !in KeysOf(scope, rs[..|rs| - 1])
  {
    var front, r := rs[..|rs| - 1], rs[|rs| - 1];
    assert r in rs && forall q | q in front :: q in rs;
    forall q | q in front ensures KeyOf(scope, q) != KeyOf(scope, r) {
      assert q.id != r.id by { assert !HasKey(IdOf, front, r.id); }
      DifferentIds(scope, q, r);
    }
  }

  lemma DifferentIds(scope: string, r: Request, q: Request)
    requires PlainRequest(r) && PlainRequest(q) && r.id != q.id
    ensures KeyOf(scope, r) != KeyOf(scope, q)
  {
    if KeyOf(scope, r) == KeyOf(scope, q) { BindingKeyInjective(scope, r.id, Genuine(r), scope, q.id, Genuine(q)); }
  }

  lemma ExactlyOneMore<A>(x: set<A>, y: set<A>, k: A)
    requires k !in y
    ensures |x + (y + {k})| == |x + y| + if k in x then 0 else 1
  {
    if k in x {
      assert x + (y + {k}) == x + y;
    } else {
      assert x + (y + {k}) == (x + y) + {k};
    }
  }

  lemma {:induction false} UnboundIsExact(b: Book, scope: string, rs: seq<Request>)
    requires AllPlain(rs) && DistinctKeys(IdOf, rs)
    ensures |b.assignments.Keys + KeysOf(scope, rs)| == |b.assignments| + Unbound(b, scope, rs)
  {
    KeysStep(scope, rs);
    if rs == [] {
      assert b.assignments.Keys + KeysOf(scope, rs) == b.assignments.Keys;
    } else {
      hide KeysOf, KeyOf, AllPlain, DistinctKeys;
      var front, k := rs[..|rs| - 1], KeyOf(scope, rs[|rs| - 1]);
      LastKeyIsNew(scope, rs);
      UnboundIsExact(b, scope, front);
      ExactlyOneMore(b.assignments.Keys, KeysOf(scope, front), k);
    }
  }

  /** A call of acceptable labels is refused exactly when the bindings there are and the bindings it asks for are
      together more than the limit. */
  lemma AcceptedIffRoom(b: Book, scope: string, labels: seq<Label>, tag: string -> string)
    requires AllBytes(labels) && IsTag(tag)
    ensures Named(b, scope, labels, tag).Ok? <==>
              Requests(labels, tag).Ok?
              && |b.assignments.Keys + KeysOf(scope, Requests(labels, tag).value)| <= ALIAS_LIMIT
  {
    if Requests(labels, tag).Ok? {
      RequestsAreTheLabels(labels, tag);
      UnboundIsExact(b, scope, Requests(labels, tag).value);
    }
    hide Requests, IsTag, Bound, Unbound, KeysOf, Sorted, AllBytes;
  }

  // ----- reserved names -----------------------------------------------------------------------

  /** Somebody of the scope is called so. */
  ghost predicate Given(b: Book, scope: string, name: string) {
    exists r | PlainRequest(r) :: KeyOf(scope, r) in b.assignments && b.assignments[KeyOf(scope, r)] == name
  }

  /** A name with an owner is reserved, or somebody's. */
  ghost predicate Earned(b: Book) {
    forall scope, name | Plain(name) && OwnerKey(scope, name) in b.owners
      && b.owners[OwnerKey(scope, name)] != INJECTED ::
      Given(b, scope, name)
  }

  lemma StillGiven(b: Book, c: Book, scope: string, name: string)
    requires Given(b, scope, name) && Extends(b, c)
    ensures Given(c, scope, name)
  {
    var r :| PlainRequest(r) && KeyOf(scope, r) in b.assignments && b.assignments[KeyOf(scope, r)] == name;
    assert KeyOf(scope, r) in c.assignments;
  }

  lemma ClaimKeepsEarned(b: Book, scope: string, r: Request, name: string)
    requires Earned(b) && PlainRequest(r) && Plain(name)
    requires KeyOf(scope, r) !in b.assignments && OwnerKey(scope, name) !in b.owners
    ensures Earned(Claim(b, scope, r, name))
  {
    var c := Claim(b, scope, r, name);
    assert Extends(b, c);
    hide Given;
    forall s, n | Plain(n) && OwnerKey(s, n) in c.owners
      && c.owners[OwnerKey(s, n)] != INJECTED ensures Given(c, s, n) {
      if OwnerKey(s, n) == OwnerKey(scope, name) {
        OwnerKeyInjective(s, n, scope, name);
        NowGiven(b, scope, r, name);
      } else {
        StillGiven(b, c, s, n);
      }
    }
  }

  lemma NowGiven(b: Book, scope: string, r: Request, name: string)
    requires PlainRequest(r)
    ensures Given(Claim(b, scope, r, name), scope, name)
  {
    assert KeyOf(scope, r) in Claim(b, scope, r, name).assignments;
  }

  lemma EarnedIgnoresCounters(b: Book, c: Book)
    requires Earned(b) && b.assignments == c.assignments && b.owners == c.owners
    ensures Earned(c)
  {
    forall scope, name | Plain(name) && OwnerKey(scope, name) in c.owners && c.owners[OwnerKey(scope, name)] != INJECTED
      ensures Given(c, scope, name)
    {
      StillGiven(b, c, scope, name);
    }
  }

  lemma OneClaimKeepsEarned(b: Book, scope: string, r: Request)
    requires Earned(b) && PlainRequest(r)
    ensures Earned(ClaimGenuine(b, scope, r)) && Earned(ClaimOrdinal(b, scope, r))
  {
    if KeyOf(scope, r) !in b.assignments {
      if OwnerKey(scope, Genuine(r)) !in b.owners { ClaimKeepsEarned(b, scope, r, Genuine(r)); }
      var n := FirstFree(b.owners, scope, r, Counter(b, scope, r));
      AliasIsPlain(r, n);
      ClaimKeepsEarned(b, scope, r, Alias(r, n));
      hide Earned;
      EarnedIgnoresCounters(Claim(b, scope, r, Alias(r, n)), ClaimOrdinal(b, scope, r));
    }
  }

  lemma {:induction false} TurnsKeepEarned(b: Book, scope: string, rs: seq<Request>)
    requires Earned(b) && AllPlain(rs)
    ensures Earned(GenuineTurn(b, scope, rs)) && Earned(OrdinalTurn(b, scope, rs))
    decreases |rs|
  {
    if rs != [] {
      assert rs[0] in rs;
      hide Earned, ClaimGenuine, ClaimOrdinal, PlainRequest;
      OneClaimKeepsEarned(b, scope, rs[0]);
      TurnsKeepEarned(ClaimGenuine(b, scope, rs[0]), scope, rs[1..]);
      TurnsKeepEarned(ClaimOrdinal(b, scope, rs[0]), scope, rs[1..]);
    }
  }

  lemma ReservedKeepsEarned(b: Book, scope: string, name: string)
    requires Earned(b) && Reserved(b, scope, name).Ok?
    ensures Earned(Reserved(b, scope, name).value)
  {
    var c := Reserved(b, scope, name).value;
    hide Component;
    forall s, n | Plain(n) && OwnerKey(s, n) in c.owners
      && c.owners[OwnerKey(s, n)] != INJECTED ensures Given(c, s, n) {
      assert Given(b, s, n);
    }
  }

  lemma PerformKeepsEarned(b: Book, call: Call, tag: string -> string)
    requires Earned(b) && WellTyped(call) && IsTag(tag)
    ensures Earned(Perform(b, call, tag))
  {
    match call
    case Reserve(scope, name) =>
      if Reserved(b, scope, name).Ok? { ReservedKeepsEarned(b, scope, name); }
    case NameAll(scope, labels) =>
      if Named(b, scope, labels, tag).Ok? {
        NamedForm(b, scope, labels, tag);
        hide Earned, Named, Requests, IsTag, Sorted, GenuineTurn, OrdinalTurn, PlainRequest, DistinctKeys, Unbound;
        var rs := Sorted(IdOf, Requests(labels, tag).value);
        TurnsKeepEarned(b, scope, rs);
        TurnsKeepEarned(GenuineTurn(b, scope, rs), scope, rs);
      }
  }

  lemma {:induction false} RunKeepsEarned(b: Book, calls: seq<Call>, tag: string -> string)
    requires Earned(b) && (forall i | 0 <= i < |calls| :: WellTyped(calls[i])) && IsTag(tag)
    ensures Earned(Run(b, calls, tag))
    decreases |calls|
  {
    if calls != [] {
      PerformKeepsEarned(b, calls[0], tag);
      hide Perform, Earned;
      RunKeepsEarned(Perform(b, calls[0], tag), calls[1..], tag);
    }
  }

  lemma GivenIsNotInjected(b: Book, scope: string, name: string)
    requires Consistent(b) && Given(b, scope, name)
    ensures OwnerKey(scope, name) in b.owners && b.owners[OwnerKey(scope, name)] != INJECTED
  {
    var r :| PlainRequest(r) && KeyOf(scope, r) in b.assignments && b.assignments[KeyOf(scope, r)] == name;
    BindingIsNotInjected(scope, r.id, Genuine(r));
  }

  /** After any history, a name can be reserved exactly when it is a proper component that nobody was given, and then
      nobody is ever given it, whatever happens later. */
  lemma ReservedNamesAreNeverGiven(past: seq<Call>, scope: string, name: string, later: seq<Call>,
                                   tag: string -> string)
    requires (forall i | 0 <= i < |past| :: WellTyped(past[i])) && (forall i | 0 <= i < |later| :: WellTyped(later[i]))
    requires IsTag(tag)
    ensures var b := Run(EMPTY, past, tag);
            && (Reserved(b, scope, name).Ok? <==> Component(name) && !Given(b, scope, name))
            && (Reserved(b, scope, name).Ok? ==> !Given(Run(Reserved(b, scope, name).value, later, tag), scope, name))
  {
    var b := Run(EMPTY, past, tag);
    EmptyIsConsistent();
    RunIsSound(EMPTY, past, tag);
    assert Earned(EMPTY);
    RunKeepsEarned(EMPTY, past, tag);
    hide Run, Given, Consistent, IsTag, WellTyped;
    assert Component(name) ==> Plain(name) by { hide ValidUtf8; }
    if Given(b, scope, name) { GivenIsNotInjected(b, scope, name); }
    if Reserved(b, scope, name).Ok? {
      var c := Reserved(b, scope, name).value;
      ReservedIsSound(b, scope, name);
      RunIsSound(c, later, tag);
      var d := Run(c, later, tag);
      assert c.owners[OwnerKey(scope, name)] == d.owners[OwnerKey(scope, name)] == INJECTED;
      if Given(d, scope, name) { GivenIsNotInjected(d, scope, name); }
    }
  }
}
