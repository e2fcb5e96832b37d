/** What the alias catalog decides, as a function of its three maps (internal/namespace/catalog.go). */
module Aliases {
  import opened Prelude
  import opened Names
  import opened Sorting

  datatype Label = Label(id: string, displayName: string, suffix: string)

  /** A validated label: its lower-cased identity, its encoded base name and its type suffix. */
  datatype Request = Request(id: string, base: string, suffix: string)

  /** The catalog's three maps. */
  datatype Book = Book(assignments: map<string, string>, owners: map<string, string>, next: map<string, nat>)

  datatype CatalogError = BadName(why: NameError) | BadSuffix | DuplicateIdentity | LimitExceeded | NameTaken

  const NUL: string := [0 as char]
  const INJECTED: string := [0 as char] + "injected-root"
  const ALIAS_LIMIT := 100000

  function OwnerKey(scope: string, name: string): string { scope + NUL + name }
  function BindingKey(scope: string, id: string, name: string): string { scope + NUL + id + NUL + name }
  function Genuine(r: Request): string { r.base + r.suffix }
  function KeyOf(scope: string, r: Request): string { BindingKey(scope, r.id, Genuine(r)) }
  function CounterKey(scope: string, r: Request): string { scope + NUL + r.base + r.suffix }

  predicate Plain(s: string) { (0 as char) !in s }

  predicate PlainRequest(r: Request) { Plain(r.id) && Plain(r.base) && Plain(r.suffix) && r.base != "" }

  function Decimal(n: nat): string {
    var last := '0' + (n % 10) as char;
    if n < 10 then [last] else Decimal(n / 10) + [last]
  }

  /** fmt.Sprintf("%s (%d)%s", base, n, suffix). */
  function Alias(r: Request, n: nat): string { r.base + " (" + Decimal(n) + ")" + r.suffix }

  function Value(s: string): nat {
    if s == [] then 0
    else
      var last := s[|s| - 1];
      Value(s[..|s| - 1]) * 10 + if '0' <= last <= '9' then last as nat - '0' as nat else 0
  }

  lemma {:induction false} DecimalReadsBack(n: nat)
    ensures Value(Decimal(n)) == n && Plain(Decimal(n))
  {
    var last := '0' + (n % 10) as char;
    if n >= 10 {
      DecimalReadsBack(n / 10);
      var d := Decimal(n);
      assert d[..|d| - 1] == Decimal(n / 10) && d[|d| - 1] == last;
    } else {
      assert Decimal(n)[..0] == [];
    }
  }

  lemma AliasesDiffer(r: Request, m: nat, n: nat)
    requires Alias(r, m) == Alias(r, n)
    ensures m == n
  {
    var head := r.base + " (";
    var tail := ")" + r.suffix;
    assert Alias(r, m) == head + Decimal(m) + tail && Alias(r, n) == head + Decimal(n) + tail;
    assert Alias(r, m)[|head|..][..|Decimal(m)|] == Decimal(m);
    assert Alias(r, n)[|head|..][..|Decimal(n)|] == Decimal(n);
    DecimalReadsBack(m);
    DecimalReadsBack(n);
  }

  lemma AliasIsPlain(r: Request, n: nat)
    requires PlainRequest(r)
    ensures Plain(Alias(r, n)) && Alias(r, n) != ""
  {
    DecimalReadsBack(n);
  }

  /** The last NUL separates scope and name, so a key determines both. */
  lemma OwnerKeyInjective(s1: string, n1: string, s2: string, n2: string)
    requires Plain(n1) && Plain(n2) && OwnerKey(s1, n1) == OwnerKey(s2, n2)
    ensures s1 == s2 && n1 == n2
  {
    var k := OwnerKey(s1, n1);
    assert k == s1 + (NUL + n1) && k == s2 + (NUL + n2);
    assert k[|s1|] == k[|s2|] == 0 as char;
    assert forall i | |s1| < i < |k| :: k[i] == n1[i - |s1| - 1] != 0 as char;
    assert forall i | |s2| < i < |k| :: k[i] == n2[i - |s2| - 1] != 0 as char;
    assert k[..|s1|] == s1 && k[..|s2|] == s2 && k[|s1| + 1..] == n1 && k[|s2| + 1..] == n2;
  }

  lemma BindingKeyInjective(s1: string, i1: string, n1: string, s2: string, i2: string, n2: string)
    requires Plain(i1) && Plain(n1) && Plain(i2) && Plain(n2) && BindingKey(s1, i1, n1) == BindingKey(s2, i2, n2)
    ensures s1 == s2 && i1 == i2 && n1 == n2
  {
    OwnerKeyInjective(s1 + NUL + i1, n1, s2 + NUL + i2, n2);
    OwnerKeyInjective(s1, i1, s2, i2);
  }

  /** The taken ordinals from n on: finitely many, which is why the search ends. */
  ghost function TakenFrom(owners: map<string, string>, scope: string, r: Request, n: nat): set<string> {
    set o | o in owners && exists m: nat :: n <= m && o == OwnerKey(scope, Alias(r, m))
  }

  lemma SearchAdvances(owners: map<string, string>, scope: string, r: Request, n: nat)
    requires PlainRequest(r) && OwnerKey(scope, Alias(r, n)) in owners
    ensures TakenFrom(owners, scope, r, n + 1) < TakenFrom(owners, scope, r, n)
  {
    var o := OwnerKey(scope, Alias(r, n));
    assert o in TakenFrom(owners, scope, r, n);
    if o in TakenFrom(owners, scope, r, n + 1) {
      var m: nat :| n + 1 <= m && o == OwnerKey(scope, Alias(r, m));
      AliasIsPlain(r, m);
      AliasIsPlain(r, n);
      OwnerKeyInjective(scope, Alias(r, m), scope, Alias(r, n));
      AliasesDiffer(r, m, n);
    }
  }

  /** The least free ordinal at or after n. */
  function FirstFree(owners: map<string, string>, scope: string, r: Request, n: nat): (k: nat)
    requires PlainRequest(r)
    ensures n <= k && OwnerKey(scope, Alias(r, k)) !in owners
    ensures forall m | n <= m < k :: OwnerKey(scope, Alias(r, m)) in owners
    decreases TakenFrom(owners, scope, r, n)
  {
    if OwnerKey(scope, Alias(r, n)) !in owners then n
    else
      SearchAdvances(owners, scope, r, n);
      FirstFree(owners, scope, r, n + 1)
  }

  function Claim(b: Book, scope: string, r: Request, name: string): Book {
    Book(b.assignments[KeyOf(scope, r) := name], b.owners[OwnerKey(scope, name) := KeyOf(scope, r)], b.next)
  }

  function Counter(b: Book, scope: string, r: Request): nat {
    var ck := CounterKey(scope, r);
    if ck in b.next && b.next[ck] > 2 then b.next[ck] else 2
  }

  /** First turn for one request: its genuine name, if it has no name yet and that one is free. */
  function ClaimGenuine(b: Book, scope: string, r: Request): Book {
    if KeyOf(scope, r) in b.assignments || OwnerKey(scope, Genuine(r)) in b.owners then b
    else Claim(b, scope, r, Genuine(r))
  }

  /** Second turn: the first free ordinal from the remembered counter on. */
  function ClaimOrdinal(b: Book, scope: string, r: Request): Book
    requires PlainRequest(r)
  {
    if KeyOf(scope, r) in b.assignments then b
    else
      var n := FirstFree(b.owners, scope, r, Counter(b, scope, r));
      var c := Claim(b, scope, r, Alias(r, n));
      c.(next := c.next[CounterKey(scope, r) := n + 1])
  }

  function GenuineTurn(b: Book, scope: string, rs: seq<Request>): Book
    decreases |rs|
  {
    if rs == [] then b else GenuineTurn(ClaimGenuine(b, scope, rs[0]), scope, rs[1..])
  }

  function OrdinalTurn(b: Book, scope: string, rs: seq<Request>): Book
    requires forall r | r in rs :: PlainRequest(r)
    decreases |rs|
  {
    if rs == [] then b else OrdinalTurn(ClaimOrdinal(b, scope, rs[0]), scope, rs[1..])
  }

  /** What a call does to the book, for its requests in identity order. */
  function Bound(b: Book, scope: string, rs: seq<Request>): Book
    requires forall r | r in rs :: PlainRequest(r)
  {
    OrdinalTurn(GenuineTurn(b, scope, rs), scope, rs)
  }

  /** ReserveName: an injected root takes a name nobody holds. */
  function Reserved(b: Book, scope: string, name: string): Result<Book, CatalogError> {
    if !Component(name) then Err(BadName(Invalid))
    else if OwnerKey(scope, name) in b.owners && b.owners[OwnerKey(scope, name)] != INJECTED then Err(NameTaken)
    else Ok(b.(owners := b.owners[OwnerKey(scope, name) := INJECTED]))
  }

  /** Every binding gives its identity a name that leads back to it, and its genuine name has an owner. */
  ghost predicate Consistent(b: Book) {
    forall scope, id, name | Plain(id) && Plain(name) && BindingKey(scope, id, name) in b.assignments ::
      && var given := b.assignments[BindingKey(scope, id, name)];
         && given != "" && Plain(given) && OwnerKey(scope, name) in b.owners
         && OwnerKey(scope, given) in b.owners && b.owners[OwnerKey(scope, given)] == BindingKey(scope, id, name)
  }

  /** Nothing bound is ever unbound or rebound. */
  ghost predicate Extends(b: Book, c: Book) {
    && (forall k | k in b.assignments :: k in c.assignments && c.assignments[k] == b.assignments[k])
    && (forall o | o in b.owners :: o in c.owners && c.owners[o] == b.owners[o])
  }

  lemma ClaimIsSound(b: Book, scope: string, r: Request, name: string)
    requires Consistent(b) && PlainRequest(r) && Plain(name) && name != ""
    requires KeyOf(scope, r) !in b.assignments && OwnerKey(scope, name) !in b.owners
    requires name == Genuine(r) || OwnerKey(scope, Genuine(r)) in b.owners
    ensures Consistent(Claim(b, scope, r, name)) && Extends(b, Claim(b, scope, r, name))
  {
    var c := Claim(b, scope, r, name);
    forall s, id, n | Plain(id) && Plain(n) && BindingKey(s, id, n) in c.assignments
      ensures var given := c.assignments[BindingKey(s, id, n)];
              && given != "" && Plain(given) && OwnerKey(s, n) in c.owners
              && OwnerKey(s, given) in c.owners && c.owners[OwnerKey(s, given)] == BindingKey(s, id, n)
    {
      if BindingKey(s, id, n) == KeyOf(scope, r) {
        BindingKeyInjective(s, id, n, scope, r.id, Genuine(r));
      } else {
        assert BindingKey(s, id, n) in b.assignments;
      }
    }
  }

  lemma GenuineIsSound(b: Book, scope: string, r: Request)
    requires Consistent(b) && PlainRequest(r)
    ensures var c := ClaimGenuine(b, scope, r);
            && Consistent(c) && Extends(b, c) && c.next == b.next && OwnerKey(scope, Genuine(r)) in c.owners
  {
    if KeyOf(scope, r) !in b.assignments && OwnerKey(scope, Genuine(r)) !in b.owners {
      ClaimIsSound(b, scope, r, Genuine(r));
    }
  }

  lemma OrdinalIsSound(b: Book, scope: string, r: Request)
    requires Consistent(b) && PlainRequest(r) && OwnerKey(scope, Genuine(r)) in b.owners
    ensures var c := ClaimOrdinal(b, scope, r); Consistent(c) && Extends(b, c) && KeyOf(scope, r) in c.assignments
  {
    if KeyOf(scope, r) !in b.assignments {
      var n := FirstFree(b.owners, scope, r, Counter(b, scope, r));
      AliasIsPlain(r, n);
      ClaimIsSound(b, scope, r, Alias(r, n));
      var c := Claim(b, scope, r, Alias(r, n));
      ConsistentIgnoresCounters(c, ClaimOrdinal(b, scope, r));
    }
  }

  lemma ConsistentIgnoresCounters(b: Book, c: Book)
    requires Consistent(b) && b.assignments == c.assignments && b.owners == c.owners
    ensures Consistent(c)
  {
  }

  lemma {:induction false} GenuineTurnIsSound(b: Book, scope: string, rs: seq<Request>)
    requires Consistent(b) && forall r | r in rs :: PlainRequest(r)
    ensures var c := GenuineTurn(b, scope, rs);
            Consistent(c) && Extends(b, c) && c.next == b.next
              && forall r | r in rs :: OwnerKey(scope, Genuine(r)) in c.owners
    decreases |rs|
  {
    if rs != [] {
      GenuineIsSound(b, scope, rs[0]);
      GenuineTurnIsSound(ClaimGenuine(b, scope, rs[0]), scope, rs[1..]);
      hide Consistent, OwnerKey, ClaimGenuine;
      assert forall r | r in rs :: r == rs[0] || r in rs[1..];
    }
  }

  lemma {:induction false} OrdinalTurnIsSound(b: Book, scope: string, rs: seq<Request>)
    requires Consistent(b) && forall r | r in rs :: PlainRequest(r) && OwnerKey(scope, Genuine(r)) in b.owners
    ensures var c := OrdinalTurn(b, scope, rs);
            Consistent(c) && Extends(b, c) && forall r | r in rs :: KeyOf(scope, r) in c.assignments
    decreases |rs|
  {
    if rs != [] {
      OrdinalIsSound(b, scope, rs[0]);
      OrdinalTurnIsSound(ClaimOrdinal(b, scope, rs[0]), scope, rs[1..]);
      hide Consistent, OwnerKey, ClaimOrdinal, KeyOf;
      assert forall r | r in rs :: r == rs[0] || r in rs[1..];
    }
  }

  /** A call binds every request, and never unbinds or rebinds anything. */
  lemma BoundIsSound(b: Book, scope: string, rs: seq<Request>)
    requires Consistent(b) && forall r | r in rs :: PlainRequest(r)
    ensures var c := Bound(b, scope, rs);
            Consistent(c) && Extends(b, c) && forall r | r in rs :: KeyOf(scope, r) in c.assignments
  {
    GenuineTurnIsSound(b, scope, rs);
    OrdinalTurnIsSound(GenuineTurn(b, scope, rs), scope, rs);
    hide Consistent, OwnerKey, KeyOf, GenuineTurn, OrdinalTurn;
  }

  lemma ReservedIsSound(b: Book, scope: string, name: string)
    requires Consistent(b) && Reserved(b, scope, name).Ok?
    ensures Consistent(Reserved(b, scope, name).value) && Extends(b, Reserved(b, scope, name).value)
  {
    var c := Reserved(b, scope, name).value;
    forall s, id, n | Plain(id) && Plain(n) && BindingKey(s, id, n) in c.assignments
      ensures var given := c.assignments[BindingKey(s, id, n)];
              && given != "" && Plain(given) && OwnerKey(s, n) in c.owners
              && OwnerKey(s, given) in c.owners && c.owners[OwnerKey(s, given)] == BindingKey(s, id, n)
    {
      BindingIsNotInjected(s, id, n);
    }
  }

  lemma BindingIsNotInjected(scope: string, id: string, name: string)
    requires Plain(id) && Plain(name)
    ensures BindingKey(scope, id, name) != INJECTED
  {
    if BindingKey(scope, id, name) == INJECTED {
      var tail := "injected-root";
      assert Plain(tail) && OwnerKey("", tail) == INJECTED;
      OwnerKeyInjective(scope + NUL + id, name, "", tail);
      assert false;
    }
  }

  /** Within a scope one name never addresses two identities. */
  lemma NamesAddressOneIdentity(b: Book, scope: string, r1: Request, r2: Request)
    requires Consistent(b) && PlainRequest(r1) && PlainRequest(r2)
    requires KeyOf(scope, r1) in b.assignments && KeyOf(scope, r2) in b.assignments
    requires b.assignments[KeyOf(scope, r1)] == b.assignments[KeyOf(scope, r2)]
    ensures r1.id == r2.id
  {
    BindingKeyInjective(scope, r1.id, Genuine(r1), scope, r2.id, Genuine(r2));
  }

  // ----- who gets which name ------------------------------------------------------------------

  /** A genuine name that was free goes to a request of this call that is really called so. */
  ghost predicate HeldGenuinely(b: Book, scope: string, name: string, rs: seq<Request>) {
    exists r | r in rs :: Genuine(r) == name && KeyOf(scope, r) in b.assignments
      && b.assignments[KeyOf(scope, r)] == name
  }

  lemma {:induction false} GenuineTurnHonoursNames(b: Book, scope: string, rs: seq<Request>, r: Request)
    requires Consistent(b) && (forall q | q in rs :: PlainRequest(q)) && r in rs
    requires OwnerKey(scope, Genuine(r)) !in b.owners
    ensures HeldGenuinely(GenuineTurn(b, scope, rs), scope, Genuine(r), rs)
    decreases |rs|
  {
    var c := ClaimGenuine(b, scope, rs[0]);
    GenuineIsSound(b, scope, rs[0]);
    GenuineTurnIsSound(c, scope, rs[1..]);
    if Genuine(rs[0]) == Genuine(r) {
      UnboundWhileUnowned(b, scope, rs[0]);
      assert c.assignments[KeyOf(scope, rs[0])] == Genuine(r);
      hide Consistent;
      assert rs[0] in rs;
    } else {
      FreeAfterOther(b, scope, rs[0], Genuine(r));
      GenuineTurnHonoursNames(c, scope, rs[1..], r);
    }
  }

  lemma UnboundWhileUnowned(b: Book, scope: string, r: Request)
    requires Consistent(b) && PlainRequest(r) && OwnerKey(scope, Genuine(r)) !in b.owners
    ensures KeyOf(scope, r) !in b.assignments
  {
  }

  lemma FreeAfterOther(b: Book, scope: string, r: Request, name: string)
    requires PlainRequest(r) && Plain(name) && Genuine(r) != name && OwnerKey(scope, name) !in b.owners
    ensures OwnerKey(scope, name) !in ClaimGenuine(b, scope, r).owners
  {
    if OwnerKey(scope, name) == OwnerKey(scope, Genuine(r)) { OwnerKeyInjective(scope, name, scope, Genuine(r)); }
  }

  /** No ordinal alias ever takes a genuine name that was free when the call began. */
  lemma AliasesYieldToGenuineNames(b: Book, scope: string, rs: seq<Request>, r: Request)
    requires Consistent(b) && (forall q | q in rs :: PlainRequest(q)) && r in rs
    requires OwnerKey(scope, Genuine(r)) !in b.owners
    ensures HeldGenuinely(Bound(b, scope, rs), scope, Genuine(r), rs)
  {
    GenuineTurnHonoursNames(b, scope, rs, r);
    GenuineTurnIsSound(b, scope, rs);
    var c := GenuineTurn(b, scope, rs);
    OrdinalTurnIsSound(c, scope, rs);
    hide Consistent, GenuineTurn, OrdinalTurn, KeyOf, OwnerKey;
    var q :| q in rs && Genuine(q) == Genuine(r) && KeyOf(scope, q) in c.assignments
      && c.assignments[KeyOf(scope, q)] == Genuine(r);
    assert Bound(b, scope, rs).assignments[KeyOf(scope, q)] == Genuine(r);
  }

  // ----- a whole call -------------------------------------------------------------------------

  function IdOf(r: Request): string { r.id }

  predicate KnownSuffix(s: string) { s == "" || s == ".Notebook" || s == ".Lakehouse" || s == ".Environment" }

  function RequestOf(l: Label, tag: string -> string): Result<Request, CatalogError>
    requires IsBytes(l.displayName)
  {
    var base := CatalogName(l.displayName, l.id, tag);
    if base.Err? then Err(BadName(base.error))
    else if !KnownSuffix(l.suffix) then Err(BadSuffix)
    else Ok(Request(Lower(l.id), base.value, l.suffix))
  }

  predicate AllBytes(labels: seq<Label>) { forall i | 0 <= i < |labels| :: IsBytes(labels[i].displayName) }

  /** The labels of a call, checked one by one. */
  function Requests(labels: seq<Label>, tag: string -> string): (r: Result<seq<Request>, CatalogError>)
    requires AllBytes(labels)
    ensures r.Ok? ==> |r.value| == |labels|
  {
    if labels == [] then Ok([])
    else
      var before := Requests(labels[..|labels| - 1], tag);
      if before.Err? then before
      else
        var r := RequestOf(labels[|labels| - 1], tag);
        if r.Err? then Err(r.error)
        else if HasKey(IdOf, before.value, r.value.id) then Err(DuplicateIdentity)
        else Ok(before.value + [r.value])
  }

  function Unbound(b: Book, scope: string, rs: seq<Request>): nat {
    if rs == [] then 0
    else Unbound(b, scope, rs[..|rs| - 1]) + if KeyOf(scope, rs[|rs| - 1]) in b.assignments then 0 else 1
  }

  lemma LoweredIdIsPlain(id: string)
    requires ValidID(id)
    ensures Plain(Lower(id))
  {
    assert forall i | 0 <= i < 36 :: id[i] == '-' || IsHex(id[i]);
  }

  lemma RequestForm(l: Label, tag: string -> string)
    requires IsBytes(l.displayName) && RequestOf(l, tag).Ok?
    ensures var r := RequestOf(l, tag).value; var base := CatalogName(l.displayName, l.id, tag);
            base == Ok(r.base) && r.id == Lower(l.id) && ValidID(l.id) && r.suffix == l.suffix && Plain(r.suffix)
  {
    hide CatalogName, IsBytes, ValidID, Lower;
    CatalogNameNeedsId(l.displayName, l.id, tag);
    KnownSuffixIsPlain(l.suffix);
  }

  lemma CatalogNameNeedsId(displayName: string, id: string, tag: string -> string)
    requires IsBytes(displayName) && CatalogName(displayName, id, tag).Ok?
    ensures ValidID(id)
  {
    hide ValidID, Encode, Shortened, Protected;
  }

  lemma KnownSuffixIsPlain(s: string)
    ensures KnownSuffix(s) ==> Plain(s)
  {
  }

  lemma RequestIsPlain(l: Label, tag: string -> string)
    requires IsBytes(l.displayName) && IsTag(tag) && RequestOf(l, tag).Ok?
    ensures PlainRequest(RequestOf(l, tag).value)
  {
    RequestForm(l, tag);
    hide RequestOf, CatalogName, IsBytes, IsTag, ValidID, Lower;
    CatalogNamesAreBounded(l.displayName, l.id, tag);
    LoweredIdIsPlain(l.id);
    assert IsSeparator(0 as char);
  }

  predicate AllPlain(rs: seq<Request>) { forall r | r in rs :: PlainRequest(r) }

  lemma RequestsStep(labels: seq<Label>, tag: string -> string)
    requires AllBytes(labels) && labels != [] && Requests(labels, tag).Ok?
    ensures var front, l := labels[..|labels| - 1], labels[|labels| - 1];
            && AllBytes(front) && IsBytes(l.displayName) && Requests(front, tag).Ok? && RequestOf(l, tag).Ok?
            && var before, r := Requests(front, tag).value, RequestOf(l, tag).value;
               !HasKey(IdOf, before, r.id) && Requests(labels, tag).value == before + [r]
  {
  }

  lemma DistinctIdsStep(before: seq<Request>, r: Request)
    ensures DistinctKeys(IdOf, before + [r]) <==> !HasKey(IdOf, before, r.id) && DistinctKeys(IdOf, before)
  {
    assert (before + [r])[..|before|] == before;
  }

  lemma AllPlainStep(before: seq<Request>, r: Request)
    requires AllPlain(before) && PlainRequest(r)
    ensures AllPlain(before + [r])
  {
  }

  lemma NoLabels(labels: seq<Label>, tag: string -> string)
    requires labels == []
    ensures AllBytes(labels) && Requests(labels, tag) == Ok([]) && AllPlain([]) && DistinctKeys(IdOf, [])
  {
  }

  lemma BytesAt(labels: seq<Label>, i: nat)
    requires AllBytes(labels) && i < |labels|
    ensures IsBytes(labels[i].displayName)
  {
  }

  /** An accepted call asks for its labels, in order, under distinct identities. */
  lemma {:induction false} RequestsAreTheLabels(labels: seq<Label>, tag: string -> string)
    requires AllBytes(labels) && IsTag(tag) && Requests(labels, tag).Ok?
    ensures var rs := Requests(labels, tag).value;
            && AllPlain(rs) && DistinctKeys(IdOf, rs)
            && forall i | 0 <= i < |labels| :: RequestOf(labels[i], tag) == Ok(rs[i])
  {
    hide *;
    if labels == [] {
      NoLabels(labels, tag);
    } else {
      var front, l := labels[..|labels| - 1], labels[|labels| - 1];
      RequestsStep(labels, tag);
      RequestsAreTheLabels(front, tag);
      RequestIsPlain(l, tag);
      var before, r := Requests(front, tag).value, RequestOf(l, tag).value;
      DistinctIdsStep(before, r);
      AllPlainStep(before, r);
      forall i | 0 <= i < |labels|
        ensures IsBytes(labels[i].displayName) && RequestOf(labels[i], tag) == Ok((before + [r])[i])
      {
        BytesAt(labels, i);
        if i < |front| { assert labels[i] == front[i]; }
      }
    }
  }

  /** Names: the book it leaves, or the error that leaves the book alone. */
  function Named(b: Book, scope: string, labels: seq<Label>, tag: string -> string): Result<Book, CatalogError>
    requires AllBytes(labels) && IsTag(tag)
  {
    var rs := Requests(labels, tag);
    if rs.Err? then Err(rs.error)
    else if Unbound(b, scope, rs.value) > ALIAS_LIMIT - |b.assignments| then Err(LimitExceeded)
    else
      RequestsAreTheLabels(labels, tag);
      SortedKeepsMembers(IdOf, rs.value);
      Ok(Bound(b, scope, Sorted(IdOf, rs.value)))
  }
}
