/** The cache's expiry index: a binary heap of entries that know their own position
    (internal/cache/cache.go, expiryHeap), with container/heap's sifting written against
    its Less, Swap, Push and Pop. */
module CacheHeap {
  import opened Prelude

  /** A measured value size: Go's int64, with negative measurements already rejected. */
  type Size = x: int64 | 0 <= x

  /** One retained value. Everything but its place in the heap is fixed for life. */
  class Entry<T> {
    const key: string
    const value: T
    const size: Size
    const observed: int
    const expires: int
    var expiryIndex: int

    constructor (key: string, value: T, size: Size, observed: int, expires: int)
      ensures this.key == key && this.value == value && this.size == size
      ensures this.observed == observed && this.expires == expires
    {
      this.key, this.value, this.size := key, value, size;
      this.observed, this.expires, this.expiryIndex := observed, expires, -1;
    }
  }

  predicate Less<T>(a: Entry<T>, b: Entry<T>) {
    if a.expires == b.expires then StringLess(a.key, b.key) else a.expires < b.expires
  }

  lemma LessAsymmetric<T>(a: Entry<T>, b: Entry<T>)
    requires Less(a, b)
    ensures !Less(b, a)
  {
    if a.expires == b.expires { StringLessAsymmetric(a.key, b.key); }
  }

  /** "Not before" is transitive, which is what sifting relies on. */
  lemma NotLessTransitive<T>(a: Entry<T>, b: Entry<T>, c: Entry<T>)
    requires !Less(a, b) && !Less(b, c)
    ensures !Less(a, c)
  {
    if a.expires == b.expires == c.expires && StringLess(a.key, c.key) {
      StringLessTotal(a.key, b.key);
      StringLessTotal(b.key, c.key);
      if StringLess(b.key, a.key) { StringLessTransitive(b.key, a.key, c.key); }
    }
  }

  function Parent(i: int): int { (i - 1) / 2 }

  /** Positions 1..n of `s`, other than those in `loose`, do not come before their parents. */
  ghost predicate OrderedBut<T>(s: seq<Entry<T>>, n: int, loose: set<int>)
    requires n <= |s|
  {
    forall k {:trigger Parent(k)} | 0 < k < n && k !in loose :: !Less(s[k], s[Parent(k)])
  }

  /** The children of `i` do not come before i's own parent. */
  ghost predicate BridgedAt<T>(s: seq<Entry<T>>, n: int, i: int)
    requires n <= |s|
  {
    forall k {:trigger Parent(k)} | 0 < k < n && Parent(k) == i && 0 < i :: !Less(s[k], s[Parent(i)])
  }

  lemma {:induction false} RootExpiresFirst<T>(s: seq<Entry<T>>, i: nat)
    requires i < |s| && OrderedBut(s, |s|, {})
    ensures s[0].expires <= s[i].expires
  {
    if i > 0 {
      RootExpiresFirst(s, Parent(i));
    }
  }

  function Swapped<A>(s: seq<A>, i: int, j: int): seq<A>
    requires 0 <= i < |s| && 0 <= j < |s|
  {
    s[i := s[j]][j := s[i]]
  }

  /** One step of sifting up moves the only loose node to its parent's place. */
  lemma UpStep<T>(s: seq<Entry<T>>, j: int)
    requires 0 < j < |s| && Less(s[j], s[Parent(j)])
    requires OrderedBut(s, |s|, {j}) && BridgedAt(s, |s|, j)
    ensures var t := Swapped(s, Parent(j), j);
            OrderedBut(t, |t|, {Parent(j)}) && BridgedAt(t, |t|, Parent(j))
  {
    var i := Parent(j);
    var t := Swapped(s, i, j);
    LessAsymmetric(s[j], s[i]);
    forall k | 0 < k < |t| && k != i ensures !Less(t[k], t[Parent(k)]) {
      if Parent(k) == i && k != j { NotLessTransitive(s[k], s[i], s[j]); }
    }
    forall k | 0 < k < |t| && Parent(k) == i && 0 < i ensures !Less(t[k], t[Parent(i)]) {
      if k != j { NotLessTransitive(s[k], s[i], s[Parent(i)]); }
    }
  }

  /** While a node that began at `start` sinks and is now at `i`, only its own links can be out of order. */
  ghost predicate Sinking<T>(s: seq<Entry<T>>, n: int, start: int, i: int)
    requires n <= |s|
  {
    && BridgedAt(s, n, i)
    && forall k {:trigger Parent(k)} | 0 < k < n && Parent(k) != i && (k != start || i != start) ::
       !Less(s[k], s[Parent(k)])
  }

  lemma SmallerChild<T>(s: seq<Entry<T>>, n: int, i: int, j: int)
    requires 0 <= i < n <= |s| && j < n
    requires j == 2 * i + 1 || j == 2 * i + 2
    requires if j == 2 * i + 1 then j + 1 < n ==> !Less(s[j + 1], s[j]) else Less(s[j], s[j - 1])
    ensures Parent(j) == i && forall k {:trigger Parent(k)} | 0 < k < n && Parent(k) == i :: !Less(s[k], s[j])
  {
    if Less(s[j], s[j]) { LessAsymmetric(s[j], s[j]); }
    if j == 2 * i + 2 { LessAsymmetric(s[j], s[j - 1]); }
    forall k | 0 < k < n && Parent(k) == i ensures !Less(s[k], s[j]) {
      assert k == 2 * i + 1 || k == 2 * i + 2;
    }
  }

  lemma Settled<T>(s: seq<Entry<T>>, n: int, i: int, j: int)
    requires 0 <= i < n <= |s| && 0 < j < n && Parent(j) == i && !Less(s[j], s[i])
    requires forall k {:trigger Parent(k)} | 0 < k < n && Parent(k) == i :: !Less(s[k], s[j])
    ensures forall k {:trigger Parent(k)} | 0 < k < n && Parent(k) == i :: !Less(s[k], s[i])
  {
    forall k | 0 < k < n && Parent(k) == i ensures !Less(s[k], s[i]) {
      NotLessTransitive(s[k], s[j], s[i]);
    }
  }

  lemma DownStep<T>(s: seq<Entry<T>>, n: int, start: int, i: int, j: int)
    requires 0 <= start <= i < n <= |s| && Sinking(s, n, start, i)
    requires 0 < j < n && Parent(j) == i && Less(s[j], s[i])
    requires forall k {:trigger Parent(k)} | 0 < k < n && Parent(k) == i :: !Less(s[k], s[j])
    ensures Sinking(Swapped(s, i, j), n, start, j) && Swapped(s, i, j)[n..] == s[n..]
  {
    var t := Swapped(s, i, j);
    LessAsymmetric(s[j], s[i]);
    assert i < j;
    forall k | 0 < k < n && Parent(k) == j ensures !Less(t[k], t[Parent(j)]) {
      assert !Less(s[k], s[Parent(k)]);
    }
    forall k | 0 < k < n && Parent(k) != j ensures !Less(t[k], t[Parent(k)]) {
      if k != i && k != j && Parent(k) != i { assert t[k] == s[k]; }
    }
  }

  /** The last node may take any place: only that place can then be out of order. */
  lemma LastTakesPlace<T>(s: seq<Entry<T>>, at: int)
    requires 0 <= at < |s| - 1 && OrderedBut(s, |s|, {})
    ensures Sinking(Swapped(s, at, |s| - 1), |s| - 1, at, at)
  {
    forall k | 0 < k < |s| - 1 && Parent(k) == at && 0 < at ensures !Less(s[k], s[Parent(at)]) {
      NotLessTransitive(s[k], s[at], s[Parent(at)]);
    }
  }

  lemma WithoutTheTail<T>(s: seq<Entry<T>>, n: int, loose: set<int>, i: int)
    requires 0 <= n <= |s|
    ensures OrderedBut(s, |s|, loose) || OrderedBut(s, n, loose) ==> OrderedBut(s[..n], n, loose)
    ensures BridgedAt(s, n, i) ==> BridgedAt(s[..n], n, i)
  {
  }

  class ExpiryHeap<T> {
    var nodes: seq<Entry<T>>
    ghost var members: set<Entry<T>>

    constructor ()
      ensures nodes == [] && members == {} && Valid()
    {
      nodes, members := [], {};
    }

    /** Every node records its own position, so no node occurs twice; `members` is the set of nodes. */
    ghost predicate Indexed()
      reads this, nodes
    {
      && (forall i | 0 <= i < |nodes| :: nodes[i].expiryIndex == i && nodes[i] in members)
      && (forall e | e in members :: e in nodes)
    }

    ghost predicate Valid()
      reads this, nodes
    {
      Indexed() && OrderedBut(nodes, |nodes|, {})
    }

    lemma Located(e: Entry<T>)
      requires Valid() && e in members
      ensures 0 <= e.expiryIndex < |nodes| && nodes[e.expiryIndex] == e
    {
    }

    lemma RootListed()
      requires Valid() && nodes != []
      ensures nodes[0] in members
    {
    }

    lemma RootFirst(e: Entry<T>)
      requires Valid() && e in members
      ensures nodes != [] && nodes[0] in members && nodes[0].expires <= e.expires
    {
      RootExpiresFirst(nodes, e.expiryIndex);
    }

    method Swap(i: int, j: int)
      requires Indexed() && 0 <= i < |nodes| && 0 <= j < |nodes|
      modifies `nodes, `members, members`expiryIndex
      ensures Indexed() && nodes == Swapped(old(nodes), i, j)
      ensures members == old(members)
    {
      ghost var before := nodes;
      nodes := Swapped(nodes, i, j);
      nodes[i].expiryIndex := i;
      nodes[j].expiryIndex := j;
      assert nodes[i] == before[j] && nodes[j] == before[i];
      assert forall k | 0 <= k < |before| :: before[k] == nodes[if k == i then j else if k == j then i else k];
    }

    method Up(start: int)
      requires Indexed() && 0 <= start < |nodes|
      requires OrderedBut(nodes, |nodes|, {start}) && BridgedAt(nodes, |nodes|, start)
      modifies `nodes, `members, members`expiryIndex
      ensures Valid() && |nodes| == old(|nodes|) && members == old(members)
    {
      var j := start;
      while j > 0 && Less(nodes[j], nodes[Parent(j)])
        invariant 0 <= j < |nodes| == old(|nodes|) && members == old(members)
        invariant Indexed() && OrderedBut(nodes, |nodes|, {j}) && BridgedAt(nodes, |nodes|, j)
      {
        var i := Parent(j);
        UpStep(nodes, j);
        Swap(i, j);
        j := i;
      }
      assert OrderedBut(nodes, |nodes|, {});
    }

    method Down(start: int, n: int) returns (moved: bool)
      requires Indexed() && 0 <= start < n <= |nodes| && Sinking(nodes, n, start, start)
      modifies `nodes, `members, members`expiryIndex
      ensures Indexed() && |nodes| == old(|nodes|) && members == old(members)
      ensures nodes[n..] == old(nodes[n..])
      ensures OrderedBut(nodes, n, if moved then {} else {start})
      ensures !moved ==> BridgedAt(nodes, n, start)
    {
      var i := start;
      while 2 * i + 1 < n
        invariant start <= i < n <= |nodes| == old(|nodes|)
        invariant Indexed() && members == old(members) && nodes[n..] == old(nodes[n..])
        invariant Sinking(nodes, n, start, i)
        decreases n - i
      {
        var j := 2 * i + 1;
        if j + 1 < n && Less(nodes[j + 1], nodes[j]) {
          j := j + 1;
        }
        SmallerChild(nodes, n, i, j);
        if !Less(nodes[j], nodes[i]) {
          Settled(nodes, n, i, j);
          break;
        }
        DownStep(nodes, n, start, i, j);
        Swap(i, j);
        i := j;
      }
      moved := i > start;
    }

    /** heap.Push. */
    method Push(e: Entry<T>)
      requires Valid() && e !in nodes
      modifies `nodes, `members, members`expiryIndex, e`expiryIndex
      ensures Valid() && members == old(members) + {e} && |nodes| == old(|nodes|) + 1
    {
      e.expiryIndex := |nodes|;
      nodes, members := nodes + [e], members + {e};
      Up(|nodes| - 1);
    }

    /** heap.Remove: exactly the node at position `at` leaves. */
    method Remove(at: int)
      requires Valid() && 0 <= at < |nodes|
      modifies `nodes, `members, members`expiryIndex
      ensures Valid() && members == old(members) - {old(nodes[at])} && |nodes| == old(|nodes|) - 1
    {
      hide Less, Sinking, OrderedBut, BridgedAt;
      var n := |nodes| - 1;
      ghost var victim, all := nodes[at], members;
      var moved := true;
      if at != n {
        LastTakesPlace(nodes, at);
        Swap(at, n);
        moved := Down(at, n);
        assert nodes[n..][0] == victim;
      }
      WithoutTheTail(nodes, n, if moved then {} else {at}, at);
      Pop(victim, all);
      if !moved { Up(at); }
    }

    /** expiryHeap.Pop: the last slot is dropped and its entry forgets its position. */
    method Pop(ghost last: Entry<T>, ghost all: set<Entry<T>>)
      requires Indexed() && |nodes| > 0 && nodes[|nodes| - 1] == last && members == all
      modifies `nodes, `members, members`expiryIndex
      ensures nodes == old(nodes[..|nodes| - 1]) && Indexed() && members == all - {last}
    {
      var e := nodes[|nodes| - 1];
      nodes, members := nodes[..|nodes| - 1], members - {e};
      e.expiryIndex := -1;
    }
  }
}
