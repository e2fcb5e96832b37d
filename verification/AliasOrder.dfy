/** Who gets which of several equal names: identity decides (internal/namespace/catalog.go). */
module AliasOrder {
  import opened Prelude
  import opened Names
  import opened Sorting
  import opened Aliases

  // ----- the genuine name ---------------------------------------------------------------------

  /** r comes before everybody else who would be called the same. */
  ghost predicate FirstOfItsName(rs: seq<Request>, r: Request) {
    r in rs && forall q | q in rs && q != r && Genuine(q) == Genuine(r) :: StringLess(r.id, q.id)
  }

  lemma {:induction false} FirstInOrderGetsTheName(b: Book, scope: string, rs: seq<Request>, k: nat)
    requires Consistent(b) && AllPlain(rs) && k < |rs|
    requires OwnerKey(scope, Genuine(rs[k])) !in b.owners && forall i | 0 <= i < k :: Genuine(rs[i]) != Genuine(rs[k])
    ensures var c := GenuineTurn(b, scope, rs);
            KeyOf(scope, rs[k]) in c.assignments && c.assignments[KeyOf(scope, rs[k])] == Genuine(rs[k])
    decreases |rs|
  {
    var c := ClaimGenuine(b, scope, rs[0]);
    assert rs[k] in rs && rs[0] in rs;
    GenuineIsSound(b, scope, rs[0]);
    GenuineTurnIsSound(c, scope, rs[1..]);
    if k == 0 {
      UnboundWhileUnowned(b, scope, rs[0]);
      assert c.assignments[KeyOf(scope, rs[0])] == Genuine(rs[0]);
    } else {
      FreeAfterOther(b, scope, rs[0], Genuine(rs[k]));
      assert rs[1..][k - 1] == rs[k];
      assert forall i | 0 <= i < k - 1 :: rs[1..][i] == rs[i + 1];
      hide Consistent, OwnerKey, KeyOf, Genuine, ClaimGenuine;
      FirstInOrderGetsTheName(c, scope, rs[1..], k - 1);
    }
    hide Consistent, OwnerKey, KeyOf;
  }

  lemma {:induction false} AscendingBefore<T>(key: T -> string, s: seq<T>, i: nat, j: nat)
    requires Ascending(key, s) && i < j < |s|
    ensures StringLess(key(s[i]), key(s[j]))
    decreases |s|
  {
    if i == 0 {
      FirstIsLeast(key, s, s[j]);
      FirstIsLeast(key, s[1..], s[j]);
      StringLessAsymmetric(key(s[0]), key(s[1]));
    } else {
      AscendingBefore(key, s[1..], i - 1, j - 1);
    }
  }

  /** A free name that several requests of a call are called by goes to the one with the least identity. */
  lemma LeastIdentityGetsTheName(b: Book, scope: string, rs: seq<Request>, r: Request)
    requires Consistent(b) && AllPlain(rs) && Ascending(IdOf, rs)
    requires FirstOfItsName(rs, r) && OwnerKey(scope, Genuine(r)) !in b.owners
    ensures var c := Bound(b, scope, rs);
            KeyOf(scope, r) in c.assignments && c.assignments[KeyOf(scope, r)] == Genuine(r)
  {
    var k :| 0 <= k < |rs| && rs[k] == r;
    forall i | 0 <= i < k ensures Genuine(rs[i]) != Genuine(r) {
      AscendingBefore(IdOf, rs, i, k);
      StringLessAsymmetric(rs[i].id, r.id);
      assert rs[i] in rs;
    }
    FirstInOrderGetsTheName(b, scope, rs, k);
    GenuineTurnIsSound(b, scope, rs);
    OrdinalTurnIsSound(GenuineTurn(b, scope, rs), scope, rs);
    hide Consistent, OwnerKey, KeyOf, GenuineTurn, OrdinalTurn;
  }

  // ----- ordinals -----------------------------------------------------------------------------

  /** No two of these requests are bound together. */
  ghost predicate Apart(scope: string, rs: seq<Request>) {
    forall i, j | 0 <= i < j < |rs| :: KeyOf(scope, rs[i]) != KeyOf(scope, rs[j])
  }

  lemma AscendingIsApart(scope: string, rs: seq<Request>)
    requires AllPlain(rs) && Ascending(IdOf, rs)
    ensures Apart(scope, rs)
  {
    forall i, j | 0 <= i < j < |rs| ensures KeyOf(scope, rs[i]) != KeyOf(scope, rs[j]) {
      AscendingBefore(IdOf, rs, i, j);
      StringLessAsymmetric(rs[i].id, rs[j].id);
      assert rs[i] in rs && rs[j] in rs;
      DistinctIdsAreApart(scope, rs[i], rs[j]);
    }
  }

  lemma DistinctIdsAreApart(scope: string, r: Request, q: Request)
    requires PlainRequest(r) && PlainRequest(q) && r.id != q.id
    ensures KeyOf(scope, r) != KeyOf(scope, q)
  {
    if KeyOf(scope, r) == KeyOf(scope, q) { BindingKeyInjective(scope, r.id, Genuine(r), scope, q.id, Genuine(q)); }
  }

  lemma {:induction false} OrdinalTurnRebindsNothing(b: Book, scope: string, rs: seq<Request>)
    requires AllPlain(rs)
    ensures forall k | k in b.assignments ::
              k in OrdinalTurn(b, scope, rs).assignments && OrdinalTurn(b, scope, rs).assignments[k] == b.assignments[k]
    decreases |rs|
  {
    if rs != [] {
      hide KeyOf, OwnerKey, PlainRequest, FirstFree, Alias;
      OrdinalTurnRebindsNothing(ClaimOrdinal(b, scope, rs[0]), scope, rs[1..]);
    }
  }

  lemma ClaimCounts(b: Book, scope: string, r: Request, q: Request)
    requires PlainRequest(r)
    ensures Counter(ClaimOrdinal(b, scope, r), scope, q) >= Counter(b, scope, q)
    ensures KeyOf(scope, r) !in b.assignments ==>
              var n := FirstFree(b.owners, scope, r, Counter(b, scope, r));
              && ClaimOrdinal(b, scope, r).assignments == b.assignments[KeyOf(scope, r) := Alias(r, n)]
              && (CounterKey(scope, q) == CounterKey(scope, r) ==>
                  Counter(ClaimOrdinal(b, scope, r), scope, q) == n + 1)
  {
    hide KeyOf, OwnerKey, Alias, CounterKey;
  }

  /** A request without a name gets an ordinal no smaller than its counter. */
  lemma {:induction false} OrdinalAt(b: Book, scope: string, rs: seq<Request>, j: nat, low: nat) returns (n: nat)
    requires AllPlain(rs) && Apart(scope, rs) && j < |rs|
    requires KeyOf(scope, rs[j]) !in b.assignments && Counter(b, scope, rs[j]) >= low
    ensures var c := OrdinalTurn(b, scope, rs);
            n >= low && KeyOf(scope, rs[j]) in c.assignments && c.assignments[KeyOf(scope, rs[j])] == Alias(rs[j], n)
    decreases |rs|
  {
    assert rs[0] in rs;
    var c := ClaimOrdinal(b, scope, rs[0]);
    ClaimCounts(b, scope, rs[0], rs[j]);
    OrdinalTurnRebindsNothing(c, scope, rs[1..]);
    if j == 0 {
      n := FirstFree(b.owners, scope, rs[0], Counter(b, scope, rs[0]));
    } else {
      assert forall i | 0 <= i < |rs[1..]| :: rs[1..][i] == rs[i + 1];
      assert KeyOf(scope, rs[0]) != KeyOf(scope, rs[j]);
      hide KeyOf, Alias, Counter, PlainRequest;
      n := OrdinalAt(c, scope, rs[1..], j - 1, low);
    }
  }

  /** Among the requests of one counter that end up with ordinals, ordinals rise with identity. */
  lemma {:induction false} OrdinalsRise(b: Book, scope: string, rs: seq<Request>, i: nat, j: nat)
      returns (m: nat, n: nat)
    requires AllPlain(rs) && Apart(scope, rs) && i < j < |rs|
    requires KeyOf(scope, rs[i]) !in b.assignments && KeyOf(scope, rs[j]) !in b.assignments
    requires CounterKey(scope, rs[i]) == CounterKey(scope, rs[j])
    ensures var c := OrdinalTurn(b, scope, rs);
            && KeyOf(scope, rs[i]) in c.assignments && c.assignments[KeyOf(scope, rs[i])] == Alias(rs[i], m)
            && KeyOf(scope, rs[j]) in c.assignments && c.assignments[KeyOf(scope, rs[j])] == Alias(rs[j], n)
            && m < n
    decreases |rs|
  {
    assert rs[0] in rs;
    var c := ClaimOrdinal(b, scope, rs[0]);
    ClaimCounts(b, scope, rs[0], rs[j]);
    OrdinalTurnRebindsNothing(c, scope, rs[1..]);
    assert forall i | 0 <= i < |rs[1..]| :: rs[1..][i] == rs[i + 1];
    assert KeyOf(scope, rs[0]) != KeyOf(scope, rs[j]);
    if i == 0 {
      m := FirstFree(b.owners, scope, rs[0], Counter(b, scope, rs[0]));
      hide KeyOf, Alias, Counter, PlainRequest, CounterKey;
      n := OrdinalAt(c, scope, rs[1..], j - 1, m + 1);
    } else {
      assert KeyOf(scope, rs[0]) != KeyOf(scope, rs[i]);
      hide KeyOf, Alias, Counter, PlainRequest, CounterKey;
      m, n := OrdinalsRise(c, scope, rs[1..], i - 1, j - 1);
    }
  }

  // ----- several new items of one name --------------------------------------------------------

  /** All called the same. */
  ghost predicate Namesakes(rs: seq<Request>) {
    forall r, q | r in rs && q in rs :: r.base == q.base && r.suffix == q.suffix
  }

  ghost predicate NoneBound(b: Book, scope: string, rs: seq<Request>) {
    forall r | r in rs :: KeyOf(scope, r) !in b.assignments
  }

  /** No ordinal alias from n on is taken, and the search begins there. */
  ghost predicate FreeFrom(b: Book, scope: string, r: Request, n: nat) {
    Counter(b, scope, r) == n && forall m: nat | m >= n :: OwnerKey(scope, Alias(r, m)) !in b.owners
  }

  lemma FreeAfterClaim(b: Book, scope: string, r: Request, q: Request, n: nat)
    requires PlainRequest(r) && r.base == q.base && r.suffix == q.suffix
    requires KeyOf(scope, r) !in b.assignments && FreeFrom(b, scope, r, n)
    ensures var c := ClaimOrdinal(b, scope, r);
            c.assignments == b.assignments[KeyOf(scope, r) := Alias(r, n)] && FreeFrom(c, scope, q, n + 1)
  {
    var c := ClaimOrdinal(b, scope, r);
    assert FirstFree(b.owners, scope, r, n) == n;
    assert CounterKey(scope, q) == CounterKey(scope, r);
    ClaimCounts(b, scope, r, q);
    forall m: nat | m >= n + 1 ensures OwnerKey(scope, Alias(q, m)) !in c.owners {
      assert Alias(q, m) == Alias(r, m);
      AliasIsPlain(r, m);
      AliasIsPlain(r, n);
      if OwnerKey(scope, Alias(r, m)) == OwnerKey(scope, Alias(r, n)) {
        OwnerKeyInjective(scope, Alias(r, m), scope, Alias(r, n));
        AliasesDiffer(r, m, n);
      }
    }
  }

  lemma OrdinalStep(b: Book, scope: string, rs: seq<Request>)
    requires AllPlain(rs) && rs != []
    ensures AllPlain(rs[1..]) && PlainRequest(rs[0])
    ensures OrdinalTurn(b, scope, rs) == OrdinalTurn(ClaimOrdinal(b, scope, rs[0]), scope, rs[1..])
  {
    hide ClaimOrdinal, PlainRequest;
    assert rs[0] in rs;
  }

  lemma NextNamesake(b: Book, scope: string, rs: seq<Request>)
    requires rs != [] && AllPlain(rs) && Namesakes(rs) && NoneBound(b, scope, rs)
    ensures PlainRequest(rs[0]) && KeyOf(scope, rs[0]) !in b.assignments
    ensures |rs| > 1 ==> rs[1].base == rs[0].base && rs[1].suffix == rs[0].suffix
  {
    hide PlainRequest, KeyOf;
    assert rs[0] in rs && (|rs| > 1 ==> rs[1] in rs);
  }

  lemma {:induction false} NamesakesAreNumbered(b: Book, scope: string, rs: seq<Request>, n: nat, k: nat)
    requires AllPlain(rs) && Apart(scope, rs) && Namesakes(rs) && NoneBound(b, scope, rs) && k < |rs|
    requires FreeFrom(b, scope, rs[0], n)
    ensures var c := OrdinalTurn(b, scope, rs);
            KeyOf(scope, rs[k]) in c.assignments && c.assignments[KeyOf(scope, rs[k])] == Alias(rs[k], n + k)
    decreases |rs|
  {
    hide *;
    NextNamesake(b, scope, rs);
    var c := ClaimOrdinal(b, scope, rs[0]);
    OrdinalStep(b, scope, rs);
    OrdinalTurnRebindsNothing(c, scope, rs[1..]);
    FreeAfterClaim(b, scope, rs[0], rs[0], n);
    if k > 0 {
      var rest := rs[1..];
      FreeAfterClaim(b, scope, rs[0], rest[0], n);
      LaterStayUnbound(b, scope, rs, Alias(rs[0], n));
      NamesakesAreNumbered(c, scope, rest, n + 1, k - 1);
    }
  }

  lemma LaterStayUnbound(b: Book, scope: string, rs: seq<Request>, name: string)
    requires rs != [] && AllPlain(rs) && Apart(scope, rs) && Namesakes(rs) && NoneBound(b, scope, rs)
    ensures AllPlain(rs[1..]) && Apart(scope, rs[1..]) && Namesakes(rs[1..])
    ensures forall c: Book | c.assignments == b.assignments[KeyOf(scope, rs[0]) := name] :: NoneBound(c, scope, rs[1..])
  {
    hide KeyOf, PlainRequest;
    assert forall i | 0 <= i < |rs[1..]| :: rs[1..][i] == rs[i + 1];
  }

  lemma {:induction false} OwnedNameStays(b: Book, scope: string, rs: seq<Request>)
    requires forall r | r in rs :: OwnerKey(scope, Genuine(r)) in b.owners
    ensures GenuineTurn(b, scope, rs) == b
    decreases |rs|
  {
    if rs != [] {
      assert rs[0] in rs;
      OwnedNameStays(b, scope, rs[1..]);
    }
  }

  /** The first claims the name, and the others are left to the ordinals. */
  lemma FirstClaims(b: Book, scope: string, rs: seq<Request>)
    requires rs != [] && AllPlain(rs) && Namesakes(rs) && KeyOf(scope, rs[0]) !in b.assignments
    requires OwnerKey(scope, Genuine(rs[0])) !in b.owners
    ensures AllPlain(rs[1..])
    ensures Bound(b, scope, rs) == OrdinalTurn(Claim(b, scope, rs[0], Genuine(rs[0])), scope, rs[1..])
  {
    hide KeyOf, OwnerKey, PlainRequest;
    assert rs[0] in rs;
    var c := Claim(b, scope, rs[0], Genuine(rs[0]));
    forall r | r in rs[1..] ensures OwnerKey(scope, Genuine(r)) in c.owners { assert r in rs; }
    OwnedNameStays(c, scope, rs[1..]);
    hide Claim, Namesakes;
    assert GenuineTurn(b, scope, rs) == c;
    assert ClaimOrdinal(c, scope, rs[0]) == c by { BoundAfterClaim(b, scope, rs[0]); }
  }

  lemma BoundAfterClaim(b: Book, scope: string, r: Request)
    requires PlainRequest(r)
    ensures var c := Claim(b, scope, r, Genuine(r)); ClaimOrdinal(c, scope, r) == c
    ensures var c := Claim(b, scope, r, Genuine(r)); c.assignments == b.assignments[KeyOf(scope, r) := Genuine(r)]
  {
  }

  /** What a catalog has never heard of is numbered in order of identity: the first keeps the name itself, and the
      others get 2, 3 and so on. */
  lemma NewNamesakesAreNumbered(b: Book, scope: string, rs: seq<Request>, k: nat)
    requires AllPlain(rs) && Ascending(IdOf, rs) && Namesakes(rs) && NoneBound(b, scope, rs) && k < |rs|
    requires OwnerKey(scope, Genuine(rs[0])) !in b.owners && FreeFrom(b, scope, rs[0], 2)
    ensures var c := Bound(b, scope, rs);
            && KeyOf(scope, rs[k]) in c.assignments
            && c.assignments[KeyOf(scope, rs[k])] == if k == 0 then Genuine(rs[0]) else Alias(rs[k], k + 1)
  {
    hide *;
    AscendingIsApart(scope, rs);
    NextNamesake(b, scope, rs);
    var c := Claim(b, scope, rs[0], Genuine(rs[0]));
    BoundAfterClaim(b, scope, rs[0]);
    FirstClaims(b, scope, rs);
    LaterStayUnbound(b, scope, rs, Genuine(rs[0]));
    OrdinalTurnRebindsNothing(c, scope, rs[1..]);
    if k > 0 {
      FreeAfterGenuine(b, scope, rs[0], rs[1]);
      NamesakesAreNumbered(c, scope, rs[1..], 2, k - 1);
    }
  }

  lemma FreeAfterGenuine(b: Book, scope: string, r: Request, q: Request)
    requires PlainRequest(r) && r.base == q.base && r.suffix == q.suffix && FreeFrom(b, scope, r, 2)
    ensures FreeFrom(Claim(b, scope, r, Genuine(r)), scope, q, 2)
  {
    var c := Claim(b, scope, r, Genuine(r));
    assert CounterKey(scope, q) == CounterKey(scope, r);
    forall m: nat | m >= 2 ensures OwnerKey(scope, Alias(q, m)) !in c.owners {
      assert Alias(q, m) == Alias(r, m) && |Alias(r, m)| > |Genuine(r)|;
      AliasIsPlain(r, m);
      if OwnerKey(scope, Alias(r, m)) == OwnerKey(scope, Genuine(r)) {
        OwnerKeyInjective(scope, Alias(r, m), scope, Genuine(r));
      }
    }
  }

  // ----- a whole call -------------------------------------------------------------------------

  /** A call's requests in order of identity, and what it does with them. */
  lemma CallInOrder(b: Book, scope: string, labels: seq<Label>, tag: string -> string)
    requires AllBytes(labels) && IsTag(tag) && Named(b, scope, labels, tag).Ok?
    ensures Requests(labels, tag).Ok?
    ensures var rs := Requests(labels, tag).value;
            var order := Sorted(IdOf, rs);
            && AllPlain(order) && Ascending(IdOf, order) && (forall r :: r in rs <==> r in order)
            && Named(b, scope, labels, tag).value == Bound(b, scope, order)
  {
    hide IsTag, AllBytes, Requests, DistinctKeys, Sorted, PlainRequest, Bound, Unbound, Ascending;
    RequestsAreTheLabels(labels, tag);
    var rs := Requests(labels, tag).value;
    SortedKeepsMembers(IdOf, rs);
    SortedSorts(IdOf, rs);
  }

  /** Of several labels of a call that are called by the same free name, the one with the least identity gets it. */
  lemma LeastLabelGetsTheName(b: Book, scope: string, labels: seq<Label>, tag: string -> string, r: Request)
    requires Consistent(b) && AllBytes(labels) && IsTag(tag) && Named(b, scope, labels, tag).Ok?
    requires Requests(labels, tag).Ok? && FirstOfItsName(Requests(labels, tag).value, r)
    requires OwnerKey(scope, Genuine(r)) !in b.owners
    ensures var c := Named(b, scope, labels, tag).value;
            KeyOf(scope, r) in c.assignments && c.assignments[KeyOf(scope, r)] == Genuine(r)
  {
    CallInOrder(b, scope, labels, tag);
    hide IsTag, AllBytes, Requests, Sorted, PlainRequest, Bound, Ascending, Named, Consistent, KeyOf, OwnerKey;
    LeastIdentityGetsTheName(b, scope, Sorted(IdOf, Requests(labels, tag).value), r);
  }

  lemma {:induction false} GenuineTurnGivesGenuine(b: Book, scope: string, rs: seq<Request>, r: Request)
    requires AllPlain(rs) && PlainRequest(r) && KeyOf(scope, r) !in b.assignments
    ensures var c := GenuineTurn(b, scope, rs);
            KeyOf(scope, r) in c.assignments ==> c.assignments[KeyOf(scope, r)] == Genuine(r)
    decreases |rs|
  {
    if rs != [] {
      assert rs[0] in rs;
      var c := ClaimGenuine(b, scope, rs[0]);
      if KeyOf(scope, r) in c.assignments {
        BindingKeyInjective(scope, r.id, Genuine(r), scope, rs[0].id, Genuine(rs[0]));
        GenuineTurnRebindsNothing(c, scope, rs[1..]);
      } else {
        hide KeyOf, PlainRequest, OwnerKey, ClaimGenuine;
        GenuineTurnGivesGenuine(c, scope, rs[1..], r);
      }
    }
  }

  lemma {:induction false} GenuineTurnRebindsNothing(b: Book, scope: string, rs: seq<Request>)
    ensures forall k | k in b.assignments ::
              k in GenuineTurn(b, scope, rs).assignments && GenuineTurn(b, scope, rs).assignments[k] == b.assignments[k]
    decreases |rs|
  {
    if rs != [] {
      hide KeyOf, OwnerKey;
      GenuineTurnRebindsNothing(ClaimGenuine(b, scope, rs[0]), scope, rs[1..]);
    }
  }

  /** Whoever is new and does not get its own name has none when the ordinals are given out. */
  lemma LeftToOrdinals(b: Book, scope: string, rs: seq<Request>, r: Request)
    requires AllPlain(rs) && r in rs && KeyOf(scope, r) !in b.assignments
    requires KeyOf(scope, r) in Bound(b, scope, rs).assignments ==>
             Bound(b, scope, rs).assignments[KeyOf(scope, r)] != Genuine(r)
    ensures KeyOf(scope, r) !in GenuineTurn(b, scope, rs).assignments
  {
    GenuineTurnGivesGenuine(b, scope, rs, r);
    OrdinalTurnRebindsNothing(GenuineTurn(b, scope, rs), scope, rs);
    hide KeyOf, GenuineTurn, OrdinalTurn, PlainRequest;
  }

  /** Two new labels of a call that are called the same and both get ordinals: the lesser identity gets the lesser. */
  lemma OrdinalsRiseWithIdentity(b: Book, scope: string, labels: seq<Label>, tag: string -> string, r: Request,
                                 q: Request)
      returns (m: nat, n: nat)
    requires AllBytes(labels) && IsTag(tag) && Named(b, scope, labels, tag).Ok? && Requests(labels, tag).Ok?
    requires r in Requests(labels, tag).value && q in Requests(labels, tag).value && StringLess(r.id, q.id)
    requires r.base == q.base && r.suffix == q.suffix
    requires KeyOf(scope, r) !in b.assignments && KeyOf(scope, q) !in b.assignments
    requires var c := Named(b, scope, labels, tag).value;
             && (KeyOf(scope, r) in c.assignments ==> c.assignments[KeyOf(scope, r)] != Genuine(r))
             && (KeyOf(scope, q) in c.assignments ==> c.assignments[KeyOf(scope, q)] != Genuine(q))
    ensures var c := Named(b, scope, labels, tag).value;
            && KeyOf(scope, r) in c.assignments && c.assignments[KeyOf(scope, r)] == Alias(r, m)
            && KeyOf(scope, q) in c.assignments && c.assignments[KeyOf(scope, q)] == Alias(q, n)
            && m < n
  {
    CallInOrder(b, scope, labels, tag);
    hide IsTag, AllBytes, Requests, Sorted, PlainRequest, Named, KeyOf, Alias, Ascending;
    var order := Sorted(IdOf, Requests(labels, tag).value);
    LeftToOrdinals(b, scope, order, r);
    LeftToOrdinals(b, scope, order, q);
    AscendingIsApart(scope, order);
    var i :| 0 <= i < |order| && order[i] == r;
    var j :| 0 <= j < |order| && order[j] == q;
    InOrder(order, i, j);
    assert CounterKey(scope, r) == CounterKey(scope, q);
    hide Apart, GenuineTurn, OrdinalTurn;
    m, n := OrdinalsRise(GenuineTurn(b, scope, order), scope, order, i, j);
  }

  lemma InOrder(rs: seq<Request>, i: nat, j: nat)
    requires Ascending(IdOf, rs) && i < |rs| && j < |rs| && StringLess(rs[i].id, rs[j].id)
    ensures i < j
  {
    StringLessAsymmetric(rs[i].id, rs[j].id);
    if j < i { AscendingBefore(IdOf, rs, j, i); }
  }

  // ----- which labels are accepted ------------------------------------------------------------

  /** A label is accepted exactly when its identity is one, its type suffix is known, and its name is valid text
      without NUL; an empty name will do. */
  lemma LabelAcceptedIff(l: Label, tag: string -> string)
    requires IsBytes(l.displayName)
    ensures RequestOf(l, tag).Ok? <==>
              ValidID(l.id) && KnownSuffix(l.suffix) && ValidUtf8(l.displayName) && (0 as char) !in l.displayName
  {
    hide ValidID, EncodeRunes, WindowsDeviceName, Shortened, Protected;
    assert ValidUtf8("") && ValidUtf8("unnamed") by { AsciiIsValid("unnamed"); }
    hide ValidUtf8, RuneLen, Percent;
  }

  lemma HasIdIff(rs: seq<Request>, id: string)
    ensures HasKey(IdOf, rs, id) <==> exists i | 0 <= i < |rs| :: rs[i].id == id
  {
    if i :| 0 <= i < |rs| && rs[i].id == id { assert IdOf(rs[i]) == id; }
    if HasKey(IdOf, rs, id) {
      var i :| 0 <= i < |rs| && IdOf(rs[i]) == id;
      assert rs[i].id == id;
    }
  }

  lemma RequestsLast(labels: seq<Label>, tag: string -> string)
    requires AllBytes(labels) && labels != []
    ensures var front, l := labels[..|labels| - 1], labels[|labels| - 1];
            && AllBytes(front) && IsBytes(l.displayName)
            && (Requests(labels, tag).Ok? <==>
                Requests(front, tag).Ok? && RequestOf(l, tag).Ok?
                && !HasKey(IdOf, Requests(front, tag).value, RequestOf(l, tag).value.id))
  {
    hide RequestOf, IsBytes, HasKey;
  }

  /** All identities are distinct, up to case. */
  ghost predicate Distinct(labels: seq<Label>) {
    forall i, j | 0 <= i < j < |labels| :: !SameText(labels[i].id, labels[j].id)
  }

  ghost predicate AllAccepted(labels: seq<Label>, tag: string -> string)
    requires AllBytes(labels)
  {
    forall i | 0 <= i < |labels| :: RequestOf(labels[i], tag).Ok?
  }

  lemma SplitLast(labels: seq<Label>, tag: string -> string)
    requires AllBytes(labels) && labels != []
    ensures var front, l := labels[..|labels| - 1], labels[|labels| - 1];
            && AllBytes(front) && IsBytes(l.displayName)
            && (AllAccepted(labels, tag) <==> AllAccepted(front, tag) && RequestOf(l, tag).Ok?)
            && (Distinct(labels) <==> Distinct(front) && !exists i | 0 <= i < |front| :: SameText(front[i].id, l.id))
  {
    hide RequestOf, SameText, IsBytes;
    var n := |labels| - 1;
    assert forall i | 0 <= i < n :: labels[..n][i] == labels[i];
  }

  /** A call is accepted exactly when each of its labels is and no two have the same identity up to case. */
  lemma {:induction false} LabelsAcceptedIff(labels: seq<Label>, tag: string -> string)
    requires AllBytes(labels) && IsTag(tag)
    ensures Requests(labels, tag).Ok? <==> AllAccepted(labels, tag) && Distinct(labels)
    decreases |labels|
  {
    if labels == [] {
      NoLabels(labels, tag);
    } else {
      hide *;
      var front, l := labels[..|labels| - 1], labels[|labels| - 1];
      RequestsLast(labels, tag);
      SplitLast(labels, tag);
      LabelsAcceptedIff(front, tag);
      if Requests(front, tag).Ok? && RequestOf(l, tag).Ok? { LastIsNew(front, l, tag); }
    }
  }

  lemma LastIsNew(front: seq<Label>, l: Label, tag: string -> string)
    requires AllBytes(front) && IsTag(tag) && IsBytes(l.displayName) && Requests(front, tag).Ok?
             && RequestOf(l, tag).Ok?
    ensures HasKey(IdOf, Requests(front, tag).value, RequestOf(l, tag).value.id) <==>
            exists i | 0 <= i < |front| :: SameText(front[i].id, l.id)
  {
    RequestsAreTheLabels(front, tag);
    var rs, r := Requests(front, tag).value, RequestOf(l, tag).value;
    HasIdIff(rs, r.id);
    RequestForm(l, tag);
    hide IsTag, RequestOf, Requests, SameText, HasKey, Lower, DistinctKeys, AllPlain, CatalogName;
    forall i | 0 <= i < |front| ensures rs[i].id == r.id <==> SameText(front[i].id, l.id) {
      RequestForm(front[i], tag);
      LowerIgnoresCase(front[i].id, l.id);
    }
  }
}
