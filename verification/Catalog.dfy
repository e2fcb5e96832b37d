/** The catalog itself: three maps updated in place (internal/namespace/catalog.go). */
module Catalog {
  import opened Prelude
  import opened Names
  import opened Sorting
  import opened Aliases

  /** Where the new position goes among positions already in identity order. */
  function Insert(rs: seq<Request>, order: seq<nat>, i: nat): (r: seq<nat>)
    requires i < |rs| && Positions(rs, order)
    ensures Positions(rs, r)
  {
    if order == [] || StringLess(rs[i].id, rs[order[0]].id) then [i] + order
    else [order[0]] + Insert(rs, order[1..], i)
  }

  predicate Positions(rs: seq<Request>, order: seq<nat>) { forall k | 0 <= k < |order| :: order[k] < |rs| }

  function Pick(rs: seq<Request>, order: seq<nat>): (r: seq<Request>)
    requires Positions(rs, order)
    ensures |r| == |order|
  {
    seq(|order|, j requires 0 <= j < |order| => rs[order[j]])
  }

  lemma {:induction false} InsertPicks(rs: seq<Request>, order: seq<nat>, i: nat)
    requires i < |rs| && Positions(rs, order)
    ensures Pick(rs, Insert(rs, order, i)) == Inserted(IdOf, Pick(rs, order), rs[i])
  {
    if order != [] && !StringLess(rs[i].id, rs[order[0]].id) {
      InsertPicks(rs, order[1..], i);
      var rest := Insert(rs, order[1..], i);
      assert Pick(rs, [order[0]] + rest) == [rs[order[0]]] + Pick(rs, rest);
      assert Pick(rs, order)[1..] == Pick(rs, order[1..]);
    } else {
      assert Pick(rs, [i] + order) == [rs[i]] + Pick(rs, order);
    }
  }

  /** sort.Slice over the positions. */
  method SortByIdentity(rs: seq<Request>) returns (order: seq<nat>)
    ensures Positions(rs, order) && Pick(rs, order) == Sorted(IdOf, rs)
  {
    order := [];
    for n := 0 to |rs|
      invariant Positions(rs, order) && Pick(rs, order) == Sorted(IdOf, rs[..n])
    {
      InsertPicks(rs, order, n);
      assert rs[..n + 1][..n] == rs[..n];
      order := Insert(rs, order, n);
    }
    assert rs[..|rs|] == rs;
  }

  /** The names found so far: the bound one, or "" while there is none. */
  predicate Shown(names: seq<string>, rs: seq<Request>, scope: string, assignments: map<string, string>) {
    && |names| == |rs|
    && forall i | 0 <= i < |rs| ::
         names[i] == if KeyOf(scope, rs[i]) in assignments then assignments[KeyOf(scope, rs[i])] else ""
  }

  lemma {:induction false} KeysAreDistinct(rs: seq<Request>, scope: string, i: nat, j: nat)
    requires AllPlain(rs) && DistinctKeys(IdOf, rs) && i < j < |rs|
    ensures KeyOf(scope, rs[i]) != KeyOf(scope, rs[j])
  {
    var front := rs[..|rs| - 1];
    if j == |rs| - 1 {
      assert front[i] in front && rs[i] in rs && rs[j] in rs;
      assert rs[i].id != rs[j].id;
      if KeyOf(scope, rs[i]) == KeyOf(scope, rs[j]) {
        BindingKeyInjective(scope, rs[i].id, Genuine(rs[i]), scope, rs[j].id, Genuine(rs[j]));
      }
    } else {
      KeysAreDistinct(front, scope, i, j);
    }
  }

  lemma ShownStep(names: seq<string>, rs: seq<Request>, scope: string, a: map<string, string>, i: nat, name: string)
    requires Shown(names, rs, scope, a) && AllPlain(rs) && DistinctKeys(IdOf, rs) && i < |rs|
    ensures Shown(names[i := name], rs, scope, a[KeyOf(scope, rs[i]) := name])
  {
    hide KeyOf, DistinctKeys, AllPlain;
    forall j | 0 <= j < |rs| && j != i ensures KeyOf(scope, rs[j]) != KeyOf(scope, rs[i]) {
      if i < j { KeysAreDistinct(rs, scope, i, j); } else { KeysAreDistinct(rs, scope, j, i); }
    }
  }

  lemma BoundNamesAreNotEmpty(b: Book, scope: string, r: Request)
    requires Consistent(b) && PlainRequest(r) && KeyOf(scope, r) in b.assignments
    ensures b.assignments[KeyOf(scope, r)] != ""
  {
  }

  lemma OneNameOneKey(b: Book, scope: string, r: Request, q: Request)
    requires Consistent(b) && PlainRequest(r) && PlainRequest(q)
    requires KeyOf(scope, r) in b.assignments && KeyOf(scope, q) in b.assignments && KeyOf(scope, r) != KeyOf(scope, q)
    ensures b.assignments[KeyOf(scope, r)] != b.assignments[KeyOf(scope, q)]
  {
  }

  lemma NamesAreDistinct(b: Book, scope: string, rs: seq<Request>, names: seq<string>)
    requires Consistent(b) && AllPlain(rs) && DistinctKeys(IdOf, rs) && Shown(names, rs, scope, b.assignments)
    requires forall i | 0 <= i < |rs| :: KeyOf(scope, rs[i]) in b.assignments
    ensures NoDuplicates(names)
  {
    hide KeyOf, DistinctKeys, Consistent, PlainRequest;
    forall i, j | 0 <= i < j < |names| ensures names[i] != names[j] {
      KeysAreDistinct(rs, scope, i, j);
      OneNameOneKey(b, scope, rs[i], rs[j]);
    }
  }

  class Catalog {
    const tag: string -> string
    var assignments: map<string, string>
    var owners: map<string, string>
    var nextSuffix: map<string, nat>

    function Model(): Book
      reads this
    {
      Book(assignments, owners, nextSuffix)
    }

    ghost predicate Valid()
      reads this
    {
      IsTag(tag) && Consistent(Model())
    }

    constructor (tag: string -> string)
      requires IsTag(tag)
      ensures Valid() && Model() == Book(map[], map[], map[]) && this.tag == tag
    {
      this.tag := tag;
      assignments, owners, nextSuffix := map[], map[], map[];
    }

    method ReserveName(scope: string, name: string) returns (err: Option<CatalogError>)
      requires Valid()
      modifies this
      ensures Valid() && Extends(old(Model()), Model())
      ensures match Reserved(old(Model()), scope, name)
              case Err(e) => err == Some(e) && Model() == old(Model())
              case Ok(b) => err == None && Model() == b
    {
      if !Component(name) { return Some(BadName(Invalid)); }
      var key := OwnerKey(scope, name);
      if key in owners && owners[key] != INJECTED { return Some(NameTaken); }
      ReservedIsSound(Model(), scope, name);
      hide Consistent, OwnerKey, Component, Extends;
      owners := owners[key := INJECTED];
      err := None;
    }

    /** The assign closure, without the names slice. */
    method Assign(scope: string, r: Request, name: string) returns (ok: bool)
      modifies this
      ensures ok == (OwnerKey(scope, name) !in old(owners))
      ensures Model() == if ok then Claim(old(Model()), scope, r, name) else old(Model())
    {
      if OwnerKey(scope, name) in owners { return false; }
      assignments, owners := assignments[KeyOf(scope, r) := name], owners[OwnerKey(scope, name) := KeyOf(scope, r)];
      ok := true;
    }

    method TakeGenuine(scope: string, rs: seq<Request>, i: nat, names: seq<string>) returns (out: seq<string>)
      requires Valid() && AllPlain(rs) && DistinctKeys(IdOf, rs) && i < |rs| && Shown(names, rs, scope, assignments)
      modifies this
      ensures Valid() && Model() == ClaimGenuine(old(Model()), scope, rs[i]) && Shown(out, rs, scope, assignments)
    {
      var r := rs[i];
      out := names;
      GenuineIsSound(Model(), scope, r);
      if KeyOf(scope, r) in assignments { BoundNamesAreNotEmpty(Model(), scope, r); }
      ShownStep(names, rs, scope, assignments, i, Genuine(r));
      hide Consistent, KeyOf, OwnerKey, DistinctKeys, AllPlain, IsTag;
      if names[i] == "" {
        var ok := Assign(scope, r, Genuine(r));
        if ok { out := names[i := Genuine(r)]; }
      }
    }

    method TakeOrdinal(scope: string, rs: seq<Request>, i: nat, names: seq<string>) returns (out: seq<string>)
      requires Valid() && AllPlain(rs) && DistinctKeys(IdOf, rs) && i < |rs| && Shown(names, rs, scope, assignments)
      requires OwnerKey(scope, Genuine(rs[i])) in owners
      modifies this
      ensures Valid() && Model() == ClaimOrdinal(old(Model()), scope, rs[i]) && Shown(out, rs, scope, assignments)
    {
      var r := rs[i];
      assert r in rs;
      OrdinalIsSound(Model(), scope, r);
      if KeyOf(scope, r) in assignments { BoundNamesAreNotEmpty(Model(), scope, r); }
      if names[i] != "" { return names; }
      var suffix := Counter(Model(), scope, r);
      hide Consistent, KeyOf, OwnerKey, DistinctKeys, AllPlain, IsTag;
      while true
        invariant Valid() && Model() == old(Model())
        invariant FirstFree(owners, scope, r, suffix) == FirstFree(owners, scope, r, Counter(Model(), scope, r))
        decreases TakenFrom(owners, scope, r, suffix)
      {
        ShownStep(names, rs, scope, assignments, i, Alias(r, suffix));
        var ok := Assign(scope, r, Alias(r, suffix));
        if ok {
          nextSuffix := nextSuffix[CounterKey(scope, r) := suffix + 1];
          return names[i := Alias(r, suffix)];
        }
        SearchAdvances(owners, scope, r, suffix);
        suffix := suffix + 1;
      }
    }

    /** The first loop: checks every label and looks up the names already bound. */
    method Collect(scope: string, labels: seq<Label>)
        returns (rs: Result<seq<Request>, CatalogError>, names: seq<string>, newBindings: nat)
      requires Valid() && AllBytes(labels)
      ensures rs == Requests(labels, tag)
      ensures rs.Ok? ==> Shown(names, rs.value, scope, assignments) && newBindings == Unbound(Model(), scope, rs.value)
    {
      var found: seq<Request> := [];
      var seen: set<string> := {};
      names, newBindings := [], 0;
      assert labels[..0] == [];
      hide RequestOf, KeyOf, IsBytes, IsTag, Consistent;
      for i := 0 to |labels|
        invariant AllBytes(labels[..i]) && Requests(labels[..i], tag) == Ok(found)
        invariant forall id :: id in seen <==> HasKey(IdOf, found, id)
        invariant Shown(names, found, scope, assignments) && newBindings == Unbound(Model(), scope, found)
      {
        BytesUpTo(labels, i);
        RequestsFail(labels, i, tag);
        var r := RequestOf(labels[i], tag);
        if r.Err? { return Err(r.error), [], 0; }
        var id := r.value.id;
        if id in seen { return Err(DuplicateIdentity), [], 0; }
        seen := seen + {id};
        CollectStep(Model(), scope, found, names, r.value);
        var key := KeyOf(scope, r.value);
        var name := if key in assignments then assignments[key] else "";
        if key in assignments {
          assert name != "" by { RequestIsPlain(labels[i], tag); BoundNamesAreNotEmpty(Model(), scope, r.value); }
        }
        if name == "" { newBindings := newBindings + 1; }
        found, names := found + [r.value], names + [name];
      }
      assert labels[..|labels|] == labels;
      rs := Ok(found);
    }

    /** Names: binds a name to every label, or fails and binds nothing. */
    method Names(scope: string, labels: seq<Label>) returns (r: Result<seq<string>, CatalogError>)
      requires Valid() && AllBytes(labels)
      modifies this
      ensures Valid() && Extends(old(Model()), Model())
      ensures r.Err? ==> Model() == old(Model()) && Named(old(Model()), scope, labels, tag) == Err(r.error)
      ensures r.Ok? ==>
                && Named(old(Model()), scope, labels, tag) == Ok(Model()) && |r.value| == |labels|
                && NoDuplicates(r.value)
                && Requests(labels, tag).Ok?
                && forall i | 0 <= i < |labels| ::
                     && KeyOf(scope, Requests(labels, tag).value[i]) in assignments
                     && r.value[i] == assignments[KeyOf(scope, Requests(labels, tag).value[i])]
    {
      hide KeyOf, OwnerKey, PlainRequest, DistinctKeys, Consistent, IsTag, AllBytes, IsBytes, Requests, RequestOf;
      hide Sorted, Unbound, GenuineTurn, OrdinalTurn, NoDuplicates;
      var checked, names, newBindings := Collect(scope, labels);
      if checked.Err? { return Err(checked.error); }
      if newBindings > ALIAS_LIMIT - |assignments| { return Err(LimitExceeded); }
      var rs := checked.value;
      RequestsAreTheLabels(labels, tag);
      SortedKeepsMembers(IdOf, rs);
      var order := SortByIdentity(rs);
      BoundIsSound(Model(), scope, Sorted(IdOf, rs));
      names := GenuineLoop(scope, rs, order, names);
      GenuineTurnIsSound(old(Model()), scope, Sorted(IdOf, rs));
      names := OrdinalLoop(scope, rs, order, names);
      NamesAreDistinct(Model(), scope, rs, names);
      r := Ok(names);
    }

    method GenuineLoop(scope: string, rs: seq<Request>, order: seq<nat>, names: seq<string>) returns (out: seq<string>)
      requires Valid() && AllPlain(rs) && DistinctKeys(IdOf, rs) && Positions(rs, order)
               && Shown(names, rs, scope, assignments)
      modifies this
      ensures Valid() && Model() == GenuineTurn(old(Model()), scope, Pick(rs, order))
              && Shown(out, rs, scope, assignments)
    {
      out := names;
      hide Consistent, KeyOf, OwnerKey, DistinctKeys, AllPlain, IsTag, ClaimGenuine, Shown;
      assert Pick(rs, order)[0..] == Pick(rs, order);
      for j := 0 to |order|
        invariant Valid() && Shown(out, rs, scope, assignments)
        invariant GenuineTurn(Model(), scope, Pick(rs, order)[j..]) == GenuineTurn(old(Model()), scope, Pick(rs, order))
      {
        assert Pick(rs, order)[j..][1..] == Pick(rs, order)[j + 1..];
        out := TakeGenuine(scope, rs, order[j], out);
      }
    }

    method OrdinalLoop(scope: string, rs: seq<Request>, order: seq<nat>, names: seq<string>) returns (out: seq<string>)
      requires Valid() && AllPlain(rs) && DistinctKeys(IdOf, rs) && Positions(rs, order)
               && Shown(names, rs, scope, assignments)
      requires AllPlain(Pick(rs, order))
               && forall j | 0 <= j < |order| :: OwnerKey(scope, Genuine(rs[order[j]])) in owners
      modifies this
      ensures Valid() && Model() == OrdinalTurn(old(Model()), scope, Pick(rs, order))
              && Shown(out, rs, scope, assignments)
    {
      out := names;
      hide Consistent, KeyOf, OwnerKey, DistinctKeys, IsTag, ClaimOrdinal, Shown, PlainRequest;
      var ps := Pick(rs, order);
      assert ps[0..] == ps;
      for j := 0 to |order|
        invariant Valid() && Shown(out, rs, scope, assignments) && AllPlain(ps[j..])
        invariant OrdinalTurn(Model(), scope, ps[j..]) == OrdinalTurn(old(Model()), scope, ps)
        invariant forall k | 0 <= k < |order| :: OwnerKey(scope, Genuine(rs[order[k]])) in owners
      {
        assert ps[j..][1..] == ps[j + 1..];
        ghost var before := Model();
        out := TakeOrdinal(scope, rs, order[j], out);
        OrdinalIsSound(before, scope, rs[order[j]]);
      }
    }
  }

  lemma BytesUpTo(labels: seq<Label>, i: nat)
    requires AllBytes(labels) && i < |labels|
    ensures AllBytes(labels[..i + 1]) && IsBytes(labels[i].displayName)
    ensures labels[..i + 1][..i] == labels[..i] && labels[..i + 1][i] == labels[i]
  {
  }

  /** The first bad label decides the error. */
  lemma {:induction false} RequestsFail(labels: seq<Label>, i: nat, tag: string -> string)
    requires AllBytes(labels) && i < |labels|
    ensures AllBytes(labels[..i + 1])
    ensures Requests(labels[..i + 1], tag).Err? ==> Requests(labels, tag) == Requests(labels[..i + 1], tag)
    decreases |labels|
  {
    hide RequestOf, IsBytes, HasKey;
    if i == |labels| - 1 {
      assert labels[..i + 1] == labels;
    } else {
      var front := labels[..|labels| - 1];
      assert front[..i + 1] == labels[..i + 1];
      RequestsFail(front, i, tag);
    }
  }

  lemma CollectStep(b: Book, scope: string, rs: seq<Request>, names: seq<string>, r: Request)
    requires Shown(names, rs, scope, b.assignments)
    ensures var k := KeyOf(scope, r);
            var name := if k in b.assignments then b.assignments[k] else "";
            && Shown(names + [name], rs + [r], scope, b.assignments)
            && Unbound(b, scope, rs + [r]) == Unbound(b, scope, rs) + if k in b.assignments then 0 else 1
    ensures forall id :: HasKey(IdOf, rs + [r], id) <==> HasKey(IdOf, rs, id) || id == r.id
  {
    assert (rs + [r])[..|rs|] == rs;
    assert r in rs + [r];
    assert forall q | q in rs :: q in rs + [r];
  }
}
