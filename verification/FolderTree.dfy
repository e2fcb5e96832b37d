/** The folder hierarchy of a workspace, rebuilt from two flat listings (internal/workspacefs/folders.go). */
module FolderTree {
  import opened Prelude
  import opened Names
  import opened Sorting

  datatype Folder = Folder(id: string, displayName: string, parent: string)

  datatype Item = Item(id: string, displayName: string, kind: string, folder: string, description: string)

  datatype Tree = Tree(
    folders: map<string, Folder>, items: map<string, Item>,
    folderChildren: map<string, seq<Folder>>, itemChildren: map<string, seq<Item>>, bytes: nat)

  datatype TreeError =
    | BadFolder | DuplicateFolder | OrphanFolder | CyclicFolder | BadItem | DuplicateItem | Collision | OrphanItem

  function FolderId(f: Folder): string { f.id }
  function FolderParent(f: Folder): string { f.parent }
  function ItemId(i: Item): string { i.id }
  function ItemFolder(i: Item): string { i.folder }

  // ----- parent chains ------------------------------------------------------------------------

  /** The root is at most `steps` parents up. */
  ghost predicate Reaches(m: map<string, Folder>, id: string, steps: nat)
    decreases steps
  {
    id == "" || (steps > 0 && id in m && Reaches(m, m[id].parent, steps - 1))
  }

  ghost predicate Grounded(m: map<string, Folder>, id: string) { exists n: nat :: Reaches(m, id, n) }

  /** Every parent chain is defined and ends at the root. */
  ghost predicate Rooted(m: map<string, Folder>) { forall id | id in m :: Grounded(m, id) }

  ghost function Climb(m: map<string, Folder>, id: string, n: nat): Option<string>
    decreases n
  {
    if n == 0 then Some(id) else if id in m then Climb(m, m[id].parent, n - 1) else None
  }

  ghost predicate Dangling(m: map<string, Folder>) { exists id | id in m :: m[id].parent != "" && m[id].parent !in m }

  ghost predicate Cyclic(m: map<string, Folder>) {
    exists id, n: nat | id in m && n > 0 :: Climb(m, id, n) == Some(id)
  }

  lemma {:induction false} ClimbingApproachesTheRoot(m: map<string, Folder>, id: string, k: nat, n: nat)
    requires "" !in m && Reaches(m, id, k) && Climb(m, id, n).Some?
    ensures n <= k && Reaches(m, Climb(m, id, n).value, k - n)
    decreases n
  {
    if n > 0 { ClimbingApproachesTheRoot(m, m[id].parent, k - 1, n - 1); }
  }

  lemma {:induction false} CyclesNeverGround(m: map<string, Folder>, id: string, n: nat, k: nat)
    requires "" !in m && n > 0 && Climb(m, id, n) == Some(id)
    ensures !Reaches(m, id, k)
    decreases k
  {
    if Reaches(m, id, k) {
      ClimbingApproachesTheRoot(m, id, k, n);
      CyclesNeverGround(m, id, n, k - n);
    }
  }

  /** A chain of parents, each the child of the next, the last one a child of `current`. */
  ghost predicate Chain(m: map<string, Folder>, path: seq<string>, current: string) {
    path == [] ||
    (var last := path[|path| - 1]; last in m && m[last].parent == current && Chain(m, path[..|path| - 1], last))
  }

  lemma {:induction false} ClimbOnce(m: map<string, Folder>, id: string, n: nat)
    requires Climb(m, id, n).Some? && Climb(m, id, n).value in m
    ensures Climb(m, id, n + 1) == Some(m[Climb(m, id, n).value].parent)
    decreases n
  {
    if n > 0 { ClimbOnce(m, m[id].parent, n - 1); }
  }

  lemma {:induction false} ChainClimbs(m: map<string, Folder>, path: seq<string>, current: string, k: nat)
    requires Chain(m, path, current) && k < |path|
    ensures path[k] in m && Climb(m, path[k], |path| - k) == Some(current)
    decreases |path|
  {
    var front, last := path[..|path| - 1], path[|path| - 1];
    if k < |front| {
      ChainClimbs(m, front, last, k);
      ClimbOnce(m, path[k], |front| - k);
    } else {
      assert Climb(m, last, 0) == Some(last);
      ClimbOnce(m, last, 0);
    }
  }

  lemma {:induction false} ChainGrounds(m: map<string, Folder>, path: seq<string>, current: string, k: nat)
    requires Chain(m, path, current) && k < |path| && Grounded(m, current)
    ensures Grounded(m, path[k])
    decreases |path|
  {
    var front, last := path[..|path| - 1], path[|path| - 1];
    ChildGrounds(m, last);
    if k < |front| { ChainGrounds(m, front, last, k); }
  }

  lemma ChildGrounds(m: map<string, Folder>, id: string)
    requires id in m && Grounded(m, m[id].parent)
    ensures Grounded(m, id)
  {
    var n: nat :| Reaches(m, m[id].parent, n);
    assert Reaches(m, id, n + 1);
  }

  lemma {:induction false} ChainExtends(m: map<string, Folder>, path: seq<string>, current: string)
    requires Chain(m, path, current) && current in m
    ensures Chain(m, path + [current], m[current].parent)
    ensures Members(path + [current]) == Members(path) + {current}
  {
    var longer := path + [current];
    MembersGrow(path, current);
    hide Members;
    assert longer[..|longer| - 1] == path && longer[|longer| - 1] == current;
  }

  lemma MembersGrow(path: seq<string>, p: string)
    ensures Members(path + [p]) == Members(path) + {p}
  {
  }

  lemma Shrinks(m: map<string, Folder>, seen: set<string>, current: string)
    requires current in m && current !in seen
    ensures |m.Keys - (seen + {current})| < |m.Keys - seen|
  {
    assert m.Keys - seen == (m.Keys - (seen + {current})) + {current};
  }

  ghost function Members(path: seq<string>): set<string> { set p | p in path }

  lemma {:induction false} ChainEnds(m: map<string, Folder>, path: seq<string>, current: string)
    requires Chain(m, path, current)
    requires !Dangling(m) && !Cyclic(m) && (path == [] ==> current in m)
    ensures Grounded(m, current)
    decreases |m.Keys - Members(path)|
  {
    if current == "" {
      assert Reaches(m, "", 0);
    } else {
      assert current in m by { if path != [] { assert path[|path| - 1] in m; } }
      forall k | 0 <= k < |path| ensures path[k] != current { ChainClimbs(m, path, current, k); }
      assert current !in path;
      hide Cyclic, Dangling, Chain, Members;
      ChainExtends(m, path, current);
      NotAMember(path, current);
      Shrinks(m, Members(path), current);
      ChainEnds(m, path + [current], m[current].parent);
      ChildGrounds(m, current);
    }
  }

  lemma NotAMember(path: seq<string>, p: string)
    ensures p in Members(path) <==> p in path
  {
  }

  /** The hierarchy is rooted exactly when no parent is missing and no folder is its own ancestor. */
  lemma RootedIffNoFault(m: map<string, Folder>)
    requires "" !in m
    ensures Rooted(m) <==> !Dangling(m) && !Cyclic(m)
  {
    if !Dangling(m) && !Cyclic(m) {
      forall id | id in m ensures Grounded(m, id) { ChainEnds(m, [], id); }
    }
    if Dangling(m) {
      var id :| id in m && m[id].parent != "" && m[id].parent !in m;
      forall n: nat ensures !Reaches(m, id, n) {}
    }
    if Cyclic(m) {
      var id, n: nat :| id in m && n > 0 && Climb(m, id, n) == Some(id);
      forall k: nat ensures !Reaches(m, id, k) { CyclesNeverGround(m, id, n, k); }
    }
  }

  // ----- the colouring walk -------------------------------------------------------------------

  const GREY := 1
  const BLACK := 2

  /** Between walks every coloured folder is black, and black folders are grounded. */
  ghost predicate Blackened(m: map<string, Folder>, states: map<string, int>) {
    forall id | id in states :: id in m && states[id] == BLACK && Grounded(m, id)
  }

  /** During a walk the grey folders are exactly the path walked. */
  ghost predicate Walking(m: map<string, Folder>, before: map<string, int>, states: map<string, int>,
                          visited: seq<string>) {
    && (forall id | id in states :: id in m && (id in before || id in visited))
    && (forall id | id in before :: id in states && states[id] == BLACK && id !in visited)
    && (forall id | id in visited :: id in states && states[id] == GREY)
  }

  lemma WalkOn(m: map<string, Folder>, before: map<string, int>, states: map<string, int>, visited: seq<string>,
               current: string)
    requires Walking(m, before, states, visited) && current in m && current !in states && Chain(m, visited, current)
    ensures Walking(m, before, states[current := GREY], visited + [current])
    ensures Chain(m, visited + [current], m[current].parent)
    ensures m.Keys - states[current := GREY].Keys < m.Keys - states.Keys
  {
    assert (visited + [current])[..|visited|] == visited;
    assert current in m.Keys - states.Keys;
  }

  lemma MissingParentDangles(m: map<string, Folder>, visited: seq<string>, current: string)
    requires Chain(m, visited, current) && visited != [] && current != "" && current !in m
    ensures Dangling(m)
  {
    assert visited[|visited| - 1] in m;
  }

  lemma MeetingThePathIsACycle(m: map<string, Folder>, visited: seq<string>, current: string)
    requires Chain(m, visited, current) && current in visited
    ensures Cyclic(m)
  {
    var k :| 0 <= k < |visited| && visited[k] == current;
    ChainClimbs(m, visited, current, k);
  }

  lemma PathGrounds(m: map<string, Folder>, visited: seq<string>, current: string)
    requires Chain(m, visited, current) && Grounded(m, current)
    ensures forall id | id in visited :: Grounded(m, id)
  {
    forall k | 0 <= k < |visited| ensures Grounded(m, visited[k]) { ChainGrounds(m, visited, current, k); }
  }

  /** One walk up the parents, from one folder to the root or to a black folder. */
  method Walk(m: map<string, Folder>, states: map<string, int>, id: string)
      returns (out: map<string, int>, err: Option<TreeError>)
    requires "" !in m && id in m && Blackened(m, states)
    ensures err == None ==> Blackened(m, out) && states.Keys + {id} <= out.Keys
    ensures err.Some? ==> (err.value == OrphanFolder && Dangling(m)) || (err.value == CyclicFolder && Cyclic(m))
  {
    var current, visited: seq<string> := id, [];
    out := states;
    while current != "" && !(current in out && out[current] == BLACK)
      invariant Chain(m, visited, current) && Walking(m, states, out, visited)
      invariant if visited == [] then current == id else visited[0] == id
      decreases m.Keys - out.Keys
    {
      if current !in m {
        MissingParentDangles(m, visited, current);
        return out, Some(OrphanFolder);
      }
      if current in out && out[current] == GREY {
        MeetingThePathIsACycle(m, visited, current);
        return out, Some(CyclicFolder);
      }
      WalkOn(m, states, out, visited, current);
      out := out[current := GREY];
      visited := visited + [current];
      current := m[current].parent;
    }
    assert Grounded(m, current) by { assert current == "" ==> Reaches(m, current, 0); }
    PathGrounds(m, visited, current);
    hide Chain, Grounded;
    err := None;
    for k := 0 to |visited|
      invariant forall x | x in out :: x in m && (x in states || x in visited)
      invariant forall x | x in out :: out[x] == BLACK || x in visited[k..]
      invariant forall x | x in states || x in visited :: x in out
    {
      out := out[visited[k] := BLACK];
    }
  }

  /** The parent check accepts exactly the rooted hierarchies, and names a real fault otherwise. */
  method CheckParents(m: map<string, Folder>) returns (err: Option<TreeError>)
    requires "" !in m
    ensures err == None <==> Rooted(m)
    ensures err.Some? ==> (err.value == OrphanFolder && Dangling(m)) || (err.value == CyclicFolder && Cyclic(m))
  {
    RootedIffNoFault(m);
    hide Cyclic, Dangling, Grounded;
    var states: map<string, int> := map[];
    var todo := m.Keys;
    while todo != {}
      invariant todo <= m.Keys && Blackened(m, states) && m.Keys - todo <= states.Keys
      decreases |todo|
    {
      var id :| id in todo;
      states, err := Walk(m, states, id);
      if err.Some? { return; }
      todo := todo - {id};
    }
    err := None;
  }

  // ----- child lists --------------------------------------------------------------------------

  /** Every entry of the table is listed once, under its own parent, and nothing else is listed. */
  ghost predicate Grouped<T>(key: T -> string, parent: T -> string, table: map<string, T>,
                             children: map<string, seq<T>>) {
    && (forall k | k in table :: parent(table[k]) in children && table[k] in children[parent(table[k])])
    && (forall p | p in children ::
          && children[p] != [] && DistinctKeys(key, children[p])
          && forall x | x in children[p] :: parent(x) == p && key(x) in table && table[key(x)] == x)
  }

  function Appended<T>(children: map<string, seq<T>>, p: string, x: T): map<string, seq<T>> {
    children[p := (if p in children then children[p] else []) + [x]]
  }

  lemma DistinctAppend<T>(key: T -> string, s: seq<T>, x: T)
    requires DistinctKeys(key, s) && !HasKey(key, s, key(x))
    ensures DistinctKeys(key, s + [x])
  {
    assert (s + [x])[..|s|] == s;
  }

  lemma AppendGroups<T>(key: T -> string, parent: T -> string, table: map<string, T>, children: map<string, seq<T>>,
                        x: T)
    requires Grouped(key, parent, table, children) && key(x) !in table
    requires forall k | k in table :: key(table[k]) == k
    ensures Grouped(key, parent, table[key(x) := x], Appended(children, parent(x), x))
  {
    var p := parent(x);
    if p in children {
      var s := children[p];
      assert forall i | 0 <= i < |s| :: s[i] in s;
      DistinctAppend(key, s, x);
    } else {
      assert DistinctKeys(key, [] + [x]) by { assert DistinctKeys<T>(key, []); DistinctAppend<T>(key, [], x); }
    }
    hide DistinctKeys, HasKey;
    var t, c := table[key(x) := x], Appended(children, p, x);
    forall k | k in t ensures parent(t[k]) in c && t[k] in c[parent(t[k])] {}
  }

  /** Sorted lists: an entry's place is decided by its identity alone. */
  ghost predicate Listed<T>(key: T -> string, parent: T -> string, table: map<string, T>,
                            children: map<string, seq<T>>) {
    && (forall k | k in table :: parent(table[k]) in children && table[k] in children[parent(table[k])])
    && (forall p | p in children ::
          && children[p] != [] && Ascending(key, children[p])
          && forall x | x in children[p] :: parent(x) == p && key(x) in table && table[key(x)] == x)
  }

  method SortAll<T>(key: T -> string, ghost parent: T -> string, ghost table: map<string, T>,
                    children: map<string, seq<T>>)
      returns (out: map<string, seq<T>>)
    requires Grouped(key, parent, table, children)
    ensures Listed(key, parent, table, out) && out.Keys == children.Keys
  {
    hide *;
    out := children;
    var todo := children.Keys;
    while todo != {}
      invariant todo <= out.Keys == children.Keys
      invariant forall p | p in children :: out[p] == if p in todo then children[p] else Sorted(key, children[p])
      decreases |todo|
    {
      var p :| p in todo;
      out := out[p := Sorted(key, out[p])];
      todo := todo - {p};
    }
    SortingLists(key, parent, table, children, out);
  }

  lemma SortingLists<T>(key: T -> string, parent: T -> string, table: map<string, T>, children: map<string, seq<T>>,
                        out: map<string, seq<T>>)
    requires Grouped(key, parent, table, children) && out.Keys == children.Keys
    requires forall p | p in children :: out[p] == Sorted(key, children[p])
    ensures Listed(key, parent, table, out)
  {
    forall p | p in children ensures out[p] != [] && Ascending(key, out[p]) && forall x :: x in out[p] <==>
      x in children[p] {
      SortedSorts(key, children[p]);
      SameMembers(out[p], children[p]);
    }
    hide DistinctKeys, Ascending, Sorted;
  }

  // ----- the two listings ---------------------------------------------------------------------

  function LowerFolder(f: Folder): Folder { f.(id := Lower(f.id), parent := Lower(f.parent)) }

  function LowerItem(i: Item): Item { i.(id := Lower(i.id), folder := Lower(i.folder)) }

  predicate FolderOk(f: Folder) { ValidID(f.id) && (f.parent == "" || ValidID(f.parent)) && f.displayName != "" }

  predicate ItemOk(i: Item) { ValidID(i.id) && i.displayName != "" && i.kind != "" }

  function FolderTable(folders: seq<Folder>): Result<map<string, Folder>, TreeError> {
    if folders == [] then Ok(map[])
    else
      var before, f := FolderTable(folders[..|folders| - 1]), LowerFolder(folders[|folders| - 1]);
      if before.Err? then before
      else if !FolderOk(f) then Err(BadFolder)
      else if f.id in before.value then Err(DuplicateFolder)
      else Ok(before.value[f.id := f])
  }

  function ItemTable(m: map<string, Folder>, items: seq<Item>): Result<map<string, Item>, TreeError> {
    if items == [] then Ok(map[])
    else
      var before, i := ItemTable(m, items[..|items| - 1]), LowerItem(items[|items| - 1]);
      if before.Err? then before
      else if !ItemOk(i) then Err(BadItem)
      else if i.id in before.value then Err(DuplicateItem)
      else if i.id in m then Err(Collision)
      else if i.folder != "" && i.folder !in m then Err(OrphanItem)
      else Ok(before.value[i.id := i])
  }

  function FolderBytes(folders: seq<Folder>): nat {
    if folders == [] then 0
    else
      var f := LowerFolder(folders[|folders| - 1]);
      FolderBytes(folders[..|folders| - 1]) + 256 + |f.id| + |f.parent| + |f.displayName|
  }

  function ItemBytes(items: seq<Item>): nat {
    if items == [] then 0
    else
      var i := LowerItem(items[|items| - 1]);
      ItemBytes(items[..|items| - 1]) + 256 + |i.id| + |i.folder| + |i.displayName| + |i.description| + |i.kind|
  }

  /** A listing is a table when each entry has its own identity. */
  ghost predicate IsTable<T>(key: T -> string, table: map<string, T>, listing: seq<T>) {
    && |table| == |listing|
    && (forall k | k in table :: key(table[k]) == k && k != "")
    && (forall x | x in listing :: key(x) in table && table[key(x)] == x)
  }

  function LowerFolders(folders: seq<Folder>): seq<Folder> {
    if folders == [] then [] else LowerFolders(folders[..|folders| - 1]) + [LowerFolder(folders[|folders| - 1])]
  }

  function LowerItems(items: seq<Item>): seq<Item> {
    if items == [] then [] else LowerItems(items[..|items| - 1]) + [LowerItem(items[|items| - 1])]
  }

  lemma TableAppend<T>(key: T -> string, table: map<string, T>, listing: seq<T>, x: T)
    requires IsTable(key, table, listing) && key(x) !in table && key(x) != ""
    ensures IsTable(key, table[key(x) := x], listing + [x])
  {
    assert table[key(x) := x].Keys == table.Keys + {key(x)};
  }

  /** Folders are accepted exactly when each is well-formed and no identity repeats. */
  lemma {:induction false} FolderTableAccepts(folders: seq<Folder>)
    ensures FolderTable(folders).Ok? <==>
              (forall f | f in LowerFolders(folders) :: FolderOk(f)) && DistinctKeys(FolderId, LowerFolders(folders))
    ensures FolderTable(folders).Ok? ==> IsTable(FolderId, FolderTable(folders).value, LowerFolders(folders))
    ensures FolderTable(folders).Ok? ==> forall k :: k in FolderTable(folders).value <==>
            HasKey(FolderId, LowerFolders(folders), k)
  {
    if folders != [] {
      var front, f := folders[..|folders| - 1], LowerFolder(folders[|folders| - 1]);
      FolderTableAccepts(front);
      var listing := LowerFolders(front);
      assert LowerFolders(folders) == listing + [f];
      hide LowerFolder, FolderOk, ValidID;
      ListingAppend(FolderId, listing, f);
      assert forall g :: g in listing + [f] <==> g in listing || g == f;
      if FolderTable(folders).Ok? {
        assert f.id != "" by { ValidIdIsNotEmpty(f); }
        TableAppend(FolderId, FolderTable(front).value, listing, f);
      }
    }
  }

  lemma ValidIdIsNotEmpty(f: Folder)
    ensures FolderOk(f) ==> f.id != ""
  {
  }

  lemma ListingAppend<T>(key: T -> string, listing: seq<T>, x: T)
    ensures DistinctKeys(key, listing + [x]) <==> DistinctKeys(key, listing) && !HasKey(key, listing, key(x))
    ensures forall k :: HasKey(key, listing + [x], k) <==> HasKey(key, listing, k) || key(x) == k
  {
    var s := listing + [x];
    assert s[..|listing|] == listing;
    assert forall i | 0 <= i < |listing| :: s[i] == listing[i];
    assert s[|listing|] == x;
  }

  predicate ItemFits(m: map<string, Folder>, i: Item) {
    ItemOk(i) && i.id !in m && (i.folder == "" || i.folder in m)
  }

  lemma ValidItemIdIsNotEmpty(i: Item)
    ensures ItemOk(i) ==> i.id != ""
  {
  }

  lemma ItemTableStep(m: map<string, Folder>, items: seq<Item>)
    requires items != []
    ensures var front, i := items[..|items| - 1], LowerItem(items[|items| - 1]);
            && LowerItems(items) == LowerItems(front) + [i]
            && (ItemTable(m, items).Ok? <==>
                ItemTable(m, front).Ok? && ItemFits(m, i) && i.id !in ItemTable(m, front).value)
            && (ItemTable(m, items).Ok? ==>
                i.id != "" && ItemTable(m, items).value == ItemTable(m, front).value[ItemId(i) := i])
  {
    hide LowerItem, ValidID;
    ValidItemIdIsNotEmpty(LowerItem(items[|items| - 1]));
  }

  /** Items are accepted exactly when each is well-formed, collides with no folder, lies in a known folder or the
      root, and no identity repeats. */
  lemma {:induction false} ItemTableAccepts(m: map<string, Folder>, items: seq<Item>)
    ensures ItemTable(m, items).Ok? <==>
              (forall i | i in LowerItems(items) :: ItemFits(m, i)) && DistinctKeys(ItemId, LowerItems(items))
    ensures ItemTable(m, items).Ok? ==> IsTable(ItemId, ItemTable(m, items).value, LowerItems(items))
    ensures ItemTable(m, items).Ok? ==> forall k :: k in ItemTable(m, items).value <==>
            HasKey(ItemId, LowerItems(items), k)
  {
    if items != [] {
      var front, i := items[..|items| - 1], LowerItem(items[|items| - 1]);
      ItemTableStep(m, items);
      ItemTableAccepts(m, front);
      var listing := LowerItems(front);
      hide ItemTable, LowerItems, LowerItem, ItemFits, DistinctKeys, HasKey, IsTable;
      ListingAppend(ItemId, listing, i);
      assert forall g :: g in listing + [i] <==> g in listing || g == i;
      if ItemTable(m, items).Ok? { TableAppend(ItemId, ItemTable(m, front).value, listing, i); }
    }
  }

  /** The first bad entry decides: what fails on a prefix fails on the whole. */
  lemma {:induction false} FolderTableFails(folders: seq<Folder>, n: nat)
    requires n < |folders|
    ensures FolderTable(folders[..n + 1]).Err? ==> FolderTable(folders) == FolderTable(folders[..n + 1])
    decreases |folders|
  {
    hide FolderOk, LowerFolder;
    if n == |folders| - 1 {
      assert folders[..n + 1] == folders;
    } else {
      assert folders[..|folders| - 1][..n + 1] == folders[..n + 1];
      FolderTableFails(folders[..|folders| - 1], n);
    }
  }

  lemma {:induction false} ItemTableFails(m: map<string, Folder>, items: seq<Item>, n: nat)
    requires n < |items|
    ensures ItemTable(m, items[..n + 1]).Err? ==> ItemTable(m, items) == ItemTable(m, items[..n + 1])
    decreases |items|
  {
    hide ItemOk, LowerItem;
    if n == |items| - 1 {
      assert items[..n + 1] == items;
    } else {
      assert items[..|items| - 1][..n + 1] == items[..n + 1];
      ItemTableFails(m, items[..|items| - 1], n);
    }
  }

  // ----- the listings as they are given -------------------------------------------------------

  predicate WellFormed(f: Folder) { ValidID(f.id) && (f.parent == "" || ValidID(f.parent)) && f.displayName != "" }

  /** The folder's chain of parents, by identities up to case, is defined and ends at the root after n steps at most. */
  ghost predicate Settled(folders: seq<Folder>, i: nat, n: nat)
    requires i < |folders|
    decreases n
  {
    || folders[i].parent == ""
    || (n > 0 && exists j | 0 <= j < |folders| ::
          SameText(folders[j].id, folders[i].parent) && Settled(folders, j, n - 1))
  }

  ghost predicate Grounds(folders: seq<Folder>, i: nat)
    requires i < |folders|
  {
    exists n: nat :: Settled(folders, i, n)
  }

  /** Folders that make a hierarchy. */
  ghost predicate FoldersFit(folders: seq<Folder>) {
    && (forall i | 0 <= i < |folders| :: WellFormed(folders[i]))
    && (forall i, j | 0 <= i < j < |folders| :: !SameText(folders[i].id, folders[j].id))
    && (forall i | 0 <= i < |folders| :: Grounds(folders, i))
  }

  /** Items that lie in it. */
  ghost predicate ItemsFit(folders: seq<Folder>, items: seq<Item>) {
    && (forall i | 0 <= i < |items| :: ValidID(items[i].id) && items[i].displayName != "" && items[i].kind != "")
    && (forall i, j | 0 <= i < j < |items| :: !SameText(items[i].id, items[j].id))
    && (forall i, j | 0 <= i < |items| && 0 <= j < |folders| :: !SameText(items[i].id, folders[j].id))
    && (forall i | 0 <= i < |items| && items[i].folder != "" ::
          exists j | 0 <= j < |folders| :: SameText(folders[j].id, items[i].folder))
  }

  /** The entry for the folder: everything as given, identities in lower case. */
  ghost predicate Shows(t: Tree, f: Folder) {
    && Lower(f.id) in t.folders && Lower(f.parent) in t.folderChildren
    && var e := t.folders[Lower(f.id)];
       && e.id == Lower(f.id) && e.parent == Lower(f.parent) && e.displayName == f.displayName
       && e in t.folderChildren[Lower(f.parent)]
  }

  ghost predicate ShowsItem(t: Tree, i: Item) {
    && Lower(i.id) in t.items && Lower(i.folder) in t.itemChildren
    && var e := t.items[Lower(i.id)];
       && e.id == Lower(i.id) && e.folder == Lower(i.folder) && e.displayName == i.displayName
       && e.kind == i.kind && e.description == i.description && e in t.itemChildren[Lower(i.folder)]
  }

  /** Every folder and every item given has its place, and there is nothing else. */
  ghost predicate Places(t: Tree, folders: seq<Folder>, items: seq<Item>) {
    && (forall f | f in folders :: Shows(t, f)) && (forall i | i in items :: ShowsItem(t, i))
    && |t.folders| == |folders| && |t.items| == |items|
  }

  lemma {:induction false} LoweredFolders(folders: seq<Folder>, i: nat)
    requires i < |folders|
    ensures |LowerFolders(folders)| == |folders|
    ensures LowerFolders(folders)[i] == Folder(Lower(folders[i].id), folders[i].displayName, Lower(folders[i].parent))
  {
    var n := |folders| - 1;
    if i < n {
      LoweredFolders(folders[..n], i);
    } else if n > 0 {
      LoweredFolders(folders[..n], 0);
    }
  }

  lemma {:induction false} LoweredItems(items: seq<Item>, i: nat)
    requires i < |items|
    ensures |LowerItems(items)| == |items|
    ensures LowerItems(items)[i] ==
            Item(Lower(items[i].id), items[i].displayName, items[i].kind, Lower(items[i].folder), items[i].description)
  {
    var n := |items| - 1;
    if i < n {
      LoweredItems(items[..n], i);
    } else if n > 0 {
      LoweredItems(items[..n], 0);
    }
  }

  lemma {:induction false} DistinctByIndex<T>(key: T -> string, s: seq<T>)
    ensures DistinctKeys(key, s) <==> forall i, j | 0 <= i < j < |s| :: key(s[i]) != key(s[j])
  {
    if s != [] {
      var n := |s| - 1;
      DistinctByIndex(key, s[..n]);
      assert forall i | 0 <= i < n :: s[..n][i] == s[i];
      hide DistinctKeys;
      DistinctLast(key, s);
    }
  }

  lemma DistinctLast<T>(key: T -> string, s: seq<T>)
    requires s != []
    ensures DistinctKeys(key, s) <==>
            DistinctKeys(key, s[..|s| - 1]) && forall i | 0 <= i < |s| - 1 :: key(s[i]) != key(s[|s| - 1])
  {
    assert forall i | 0 <= i < |s| - 1 :: s[..|s| - 1][i] == s[i];
  }

  lemma LowerKeepsValidity(id: string)
    ensures ValidID(Lower(id)) <==> ValidID(id)
  {
    forall i | 0 <= i < |id| ensures IsHex(Lower(id)[i]) <==> IsHex(id[i]) {}
    forall i | 0 <= i < |id| ensures Lower(id)[i] == '-' <==> id[i] == '-' {}
  }

  /** The table is of the folders given. */
  ghost predicate TableOf(m: map<string, Folder>, folders: seq<Folder>) {
    && |m| == |folders|
    && (forall i | 0 <= i < |folders| ::
          && Lower(folders[i].id) in m
          && m[Lower(folders[i].id)] == Folder(Lower(folders[i].id), folders[i].displayName, Lower(folders[i].parent)))
    && (forall k | k in m :: exists i | 0 <= i < |folders| :: Lower(folders[i].id) == k)
    && "" !in m
  }

  lemma TableLists<T>(key: T -> string, table: map<string, T>, listing: seq<T>)
    requires IsTable(key, table, listing) && forall k :: k in table <==> HasKey(key, listing, k)
    ensures |table| == |listing| && "" !in table
    ensures forall i | 0 <= i < |listing| :: key(listing[i]) in table && table[key(listing[i])] == listing[i]
    ensures forall k | k in table :: exists i | 0 <= i < |listing| :: key(listing[i]) == k
  {
    assert forall i | 0 <= i < |listing| :: listing[i] in listing;
  }

  lemma FoldersLowered(folders: seq<Folder>)
    ensures |LowerFolders(folders)| == |folders|
    ensures forall i | 0 <= i < |folders| ::
              LowerFolders(folders)[i] == Folder(Lower(folders[i].id), folders[i].displayName, Lower(folders[i].parent))
  {
    hide Lower;
    forall i | 0 <= i < |folders|
      ensures |LowerFolders(folders)| == |folders|
      ensures LowerFolders(folders)[i] == Folder(Lower(folders[i].id), folders[i].displayName, Lower(folders[i].parent))
    {
      LoweredFolders(folders, i);
    }
    if folders != [] { LoweredFolders(folders, 0); }
  }

  lemma FolderTableIsOf(folders: seq<Folder>)
    requires FolderTable(folders).Ok?
    ensures TableOf(FolderTable(folders).value, folders)
  {
    hide FolderTable, LowerFolders, Lower, DistinctKeys, FolderOk, IsTable, HasKey;
    FolderTableAccepts(folders);
    TableLists(FolderId, FolderTable(folders).value, LowerFolders(folders));
    FoldersLowered(folders);
    var m, listing := FolderTable(folders).value, LowerFolders(folders);
    forall k | k in m ensures exists i | 0 <= i < |folders| :: Lower(folders[i].id) == k {
      var i :| 0 <= i < |listing| && FolderId(listing[i]) == k;
      assert Lower(folders[i].id) == k;
    }
    forall i | 0 <= i < |folders|
      ensures Lower(folders[i].id) in m
      ensures m[Lower(folders[i].id)] == Folder(Lower(folders[i].id), folders[i].displayName, Lower(folders[i].parent))
    {
      assert FolderId(listing[i]) == Lower(folders[i].id);
    }
  }

  /** Lowered identities repeat exactly when the given ones do, up to case. */
  lemma DistinctUpToCase<T>(key: T -> string, listing: seq<T>, given: seq<T>)
    requires |listing| == |given| && forall i | 0 <= i < |given| :: key(listing[i]) == Lower(key(given[i]))
    ensures DistinctKeys(key, listing) <==>
            forall i, j | 0 <= i < j < |given| :: !SameText(key(given[i]), key(given[j]))
  {
    DistinctByIndex(key, listing);
    hide DistinctKeys, Lower, SameText;
    forall i, j | 0 <= i < j < |given|
      ensures key(listing[i]) == key(listing[j]) <==> SameText(key(given[i]), key(given[j]))
    {
      LowerIgnoresCase(key(given[i]), key(given[j]));
    }
  }

  lemma FoldersOkIff(folders: seq<Folder>)
    ensures (forall f | f in LowerFolders(folders) :: FolderOk(f)) <==>
            forall i | 0 <= i < |folders| :: WellFormed(folders[i])
  {
    var listing := LowerFolders(folders);
    if folders == [] {
      assert listing == [];
    } else {
      LoweredFolders(folders, 0);
      hide LowerFolders, ValidID, Lower;
      forall i | 0 <= i < |folders| ensures FolderOk(listing[i]) <==> WellFormed(folders[i]) {
        LoweredFolders(folders, i);
        LowerKeepsValidity(folders[i].id);
        LowerKeepsValidity(folders[i].parent);
        LoweredIsNothing(folders[i].parent);
      }
      hide WellFormed, FolderOk;
    }
  }

  lemma LoweredAccepts(folders: seq<Folder>)
    ensures FolderTable(folders).Ok? <==>
              && (forall i | 0 <= i < |folders| :: WellFormed(folders[i]))
              && forall i, j | 0 <= i < j < |folders| :: !SameText(folders[i].id, folders[j].id)
  {
    FolderTableAccepts(folders);
    FoldersOkIff(folders);
    assert folders == [] ==> LowerFolders(folders) == [];
    hide FolderTable, LowerFolders, DistinctKeys, HasKey, IsTable, SameText, Lower, WellFormed, FolderOk;
    if folders != [] { LoweredFolders(folders, 0); }
    forall i | 0 <= i < |folders| ensures FolderId(LowerFolders(folders)[i]) == Lower(FolderId(folders[i])) {
      LoweredFolders(folders, i);
    }
    DistinctUpToCase(FolderId, LowerFolders(folders), folders);
  }

  lemma LoweredIsNothing(s: string)
    ensures Lower(s) == "" <==> s == ""
  {
    assert |Lower(s)| == |s|;
  }

  lemma {:induction false} ChainsAgree(folders: seq<Folder>, m: map<string, Folder>, i: nat, n: nat)
    requires TableOf(m, folders) && i < |folders|
    ensures Settled(folders, i, n) <==> Reaches(m, Lower(folders[i].id), n + 1)
    decreases n
  {
    hide Lower, SameText;
    var p := Lower(folders[i].parent);
    LoweredIsNothing(folders[i].parent);
    assert Reaches(m, Lower(folders[i].id), n + 1) <==> Reaches(m, p, n);
    if p != "" && n > 0 {
      forall j | 0 <= j < |folders|
        ensures SameText(folders[j].id, folders[i].parent) && Settled(folders, j, n - 1) <==>
                Lower(folders[j].id) == p && Reaches(m, p, n)
      {
        LowerIgnoresCase(folders[j].id, folders[i].parent);
        if Lower(folders[j].id) == p { ChainsAgree(folders, m, j, n - 1); }
      }
    }
  }

  lemma RootedAgrees(folders: seq<Folder>, m: map<string, Folder>)
    requires TableOf(m, folders)
    ensures Rooted(m) <==> forall i | 0 <= i < |folders| :: Grounds(folders, i)
  {
    hide Lower;
    forall i | 0 <= i < |folders| ensures Grounds(folders, i) <==> Grounded(m, Lower(folders[i].id)) {
      if Grounds(folders, i) {
        var n: nat :| Settled(folders, i, n);
        ChainsAgree(folders, m, i, n);
      }
      if Grounded(m, Lower(folders[i].id)) {
        var n: nat :| Reaches(m, Lower(folders[i].id), n);
        assert n > 0;
        ChainsAgree(folders, m, i, n - 1);
      }
    }
    hide Grounded, Grounds;
    if forall i | 0 <= i < |folders| :: Grounds(folders, i) {
      forall k | k in m ensures Grounded(m, k) {
        var i :| 0 <= i < |folders| && Lower(folders[i].id) == k;
      }
    }
  }

  /** A nonempty identity is a table's key exactly when some entry carries it, up to case. */
  lemma KnownIffListed(folders: seq<Folder>, m: map<string, Folder>, id: string)
    requires TableOf(m, folders)
    ensures Lower(id) in m <==> exists j | 0 <= j < |folders| :: SameText(folders[j].id, id)
  {
    hide Lower, SameText;
    forall j | 0 <= j < |folders| ensures Lower(folders[j].id) == Lower(id) <==> SameText(folders[j].id, id) {
      LowerIgnoresCase(folders[j].id, id);
    }
    if Lower(id) in m {
      var i :| 0 <= i < |folders| && Lower(folders[i].id) == Lower(id);
    }
  }

  ghost predicate ItemSettled(folders: seq<Folder>, i: Item) {
    && ValidID(i.id) && i.displayName != "" && i.kind != ""
    && (forall j | 0 <= j < |folders| :: !SameText(i.id, folders[j].id))
    && (i.folder != "" ==> exists j | 0 <= j < |folders| :: SameText(folders[j].id, i.folder))
  }

  lemma ItemFitsIff(folders: seq<Folder>, m: map<string, Folder>, i: Item)
    requires TableOf(m, folders)
    ensures ItemFits(m, Item(Lower(i.id), i.displayName, i.kind, Lower(i.folder), i.description)) <==>
            ItemSettled(folders, i)
  {
    LowerKeepsValidity(i.id);
    LoweredIsNothing(i.folder);
    KnownIffListed(folders, m, i.id);
    KnownIffListed(folders, m, i.folder);
    hide ValidID, Lower, TableOf;
    assert forall j | 0 <= j < |folders| :: SameText(i.id, folders[j].id) <==> SameText(folders[j].id, i.id);
  }

  lemma ItemsFitEach(folders: seq<Folder>, m: map<string, Folder>, items: seq<Item>)
    requires TableOf(m, folders)
    ensures (forall i | i in LowerItems(items) :: ItemFits(m, i)) <==>
            forall i | 0 <= i < |items| :: ItemSettled(folders, items[i])
  {
    var listing := LowerItems(items);
    if items == [] {
      assert listing == [];
    } else {
      hide LowerItems, Lower, TableOf, ItemFits, ItemSettled;
      LoweredItems(items, 0);
      forall i | 0 <= i < |items| ensures ItemFits(m, listing[i]) <==> ItemSettled(folders, items[i]) {
        LoweredItems(items, i);
        ItemFitsIff(folders, m, items[i]);
      }
    }
  }

  lemma ItemsAccepted(folders: seq<Folder>, m: map<string, Folder>, items: seq<Item>)
    requires TableOf(m, folders)
    ensures ItemTable(m, items).Ok? <==> ItemsFit(folders, items)
  {
    ItemTableAccepts(m, items);
    ItemsFitEach(folders, m, items);
    assert items == [] ==> LowerItems(items) == [];
    hide ItemTable, LowerItems, DistinctKeys, HasKey, IsTable, SameText, Lower, TableOf, ItemFits, ValidID, ItemsFit;
    if items != [] { LoweredItems(items, 0); }
    forall i | 0 <= i < |items| ensures ItemId(LowerItems(items)[i]) == Lower(ItemId(items[i])) {
      LoweredItems(items, i);
    }
    DistinctUpToCase(ItemId, LowerItems(items), items);
    ItemsFitParts(folders, items);
  }

  lemma ItemsFitParts(folders: seq<Folder>, items: seq<Item>)
    ensures ItemsFit(folders, items) <==>
              && (forall i | 0 <= i < |items| :: ItemSettled(folders, items[i]))
              && forall i, j | 0 <= i < j < |items| :: !SameText(items[i].id, items[j].id)
  {
    hide SameText, ValidID;
  }

  /** What is accepted, said of the listings alone. */
  lemma AcceptedIffFit(folders: seq<Folder>, items: seq<Item>)
    ensures Acceptable(folders, items) <==> FoldersFit(folders) && ItemsFit(folders, items)
  {
    LoweredAccepts(folders);
    if FolderTable(folders).Ok? {
      FolderTableIsOf(folders);
      RootedAgrees(folders, FolderTable(folders).value);
      ItemsAccepted(folders, FolderTable(folders).value, items);
    }
    hide FolderTable, ItemTable, Rooted, ItemsFit, WellFormed, SameText, Grounds, TableOf;
  }

  /** The first folder that cannot be accepted decides the error: malformed, or a repeated identity. */
  lemma {:induction false} FirstBadFolderDecides(folders: seq<Folder>)
    requires FolderTable(folders).Err?
    ensures exists i | 0 <= i < |folders| ::
              && FolderTable(folders[..i]).Ok?
              && FolderTable(folders).error == if WellFormed(folders[i]) then DuplicateFolder else BadFolder
  {
    var n := |folders| - 1;
    var front, f := folders[..n], LowerFolder(folders[n]);
    if FolderTable(front).Err? {
      FirstBadFolderDecides(front);
      var i :| 0 <= i < n && FolderTable(front[..i]).Ok?
               && FolderTable(front).error == if WellFormed(front[i]) then DuplicateFolder else BadFolder;
      assert front[..i] == folders[..i];
    } else {
      LowerKeepsValidity(folders[n].id);
      LowerKeepsValidity(folders[n].parent);
      LoweredIsNothing(folders[n].parent);
      hide ValidID, Lower;
      assert WellFormed(folders[n]) <==> FolderOk(f);
    }
  }

  /** Why an item cannot be accepted after those before it. */
  ghost function ItemFault(folders: seq<Folder>, before: seq<Item>, i: Item): TreeError {
    if !ValidID(i.id) || i.displayName == "" || i.kind == "" then BadItem
    else if exists j | 0 <= j < |before| :: SameText(before[j].id, i.id) then DuplicateItem
    else if exists j | 0 <= j < |folders| :: SameText(folders[j].id, i.id) then Collision
    else OrphanItem
  }

  lemma SeenBefore(m: map<string, Folder>, before: seq<Item>, id: string)
    requires ItemTable(m, before).Ok?
    ensures Lower(id) in ItemTable(m, before).value <==> exists j | 0 <= j < |before| :: SameText(before[j].id, id)
  {
    ItemTableAccepts(m, before);
    assert before == [] ==> LowerItems(before) == [];
    hide ItemTable, LowerItems, Lower, SameText, DistinctKeys, IsTable, ItemFits;
    if before != [] { LoweredItems(before, 0); }
    forall j | 0 <= j < |before|
      ensures ItemId(LowerItems(before)[j]) == Lower(id) <==> SameText(before[j].id, id)
    {
      LoweredItems(before, j);
      LowerIgnoresCase(before[j].id, id);
    }
  }

  /** So does the first item, with a fault for each way it can be unacceptable. */
  lemma {:induction false} FirstBadItemDecides(folders: seq<Folder>, m: map<string, Folder>, items: seq<Item>)
    requires TableOf(m, folders) && ItemTable(m, items).Err?
    ensures exists i | 0 <= i < |items| ::
              && ItemTable(m, items[..i]).Ok?
              && ItemTable(m, items).error == ItemFault(folders, items[..i], items[i])
  {
    var n := |items| - 1;
    var front, i := items[..n], items[n];
    if ItemTable(m, front).Err? {
      hide ItemFault, TableOf, LowerItem, ItemOk;
      FirstBadItemDecides(folders, m, front);
      var k :| 0 <= k < n && ItemTable(m, front[..k]).Ok?
               && ItemTable(m, front).error == ItemFault(folders, front[..k], front[k]);
      assert front[..k] == items[..k];
    } else {
      LowerKeepsValidity(i.id);
      SeenBefore(m, front, i.id);
      KnownIffListed(folders, m, i.id);
      hide ValidID, Lower, TableOf, SameText;
      assert ItemTable(m, items).error == ItemFault(folders, front, i);
    }
  }

  /** A parent is missing exactly when some folder names one that no folder is. */
  lemma DanglingIffUnlisted(folders: seq<Folder>, m: map<string, Folder>)
    requires TableOf(m, folders)
    ensures Dangling(m) <==>
            exists i | 0 <= i < |folders| :: folders[i].parent != ""
              && forall j | 0 <= j < |folders| :: !SameText(folders[j].id, folders[i].parent)
  {
    hide Lower, SameText;
    if Dangling(m) {
      var id :| id in m && m[id].parent != "" && m[id].parent !in m;
      var i :| 0 <= i < |folders| && Lower(folders[i].id) == id;
      LoweredIsNothing(folders[i].parent);
      KnownIffListed(folders, m, folders[i].parent);
    }
    forall i | 0 <= i < |folders| && folders[i].parent != ""
             && forall j | 0 <= j < |folders| :: !SameText(folders[j].id, folders[i].parent)
      ensures Dangling(m)
    {
      LoweredIsNothing(folders[i].parent);
      KnownIffListed(folders, m, folders[i].parent);
      assert m[Lower(folders[i].id)].parent == Lower(folders[i].parent);
    }
  }

  lemma PlacesFolder(t: Tree, folders: seq<Folder>, f: Folder)
    requires TableOf(t.folders, folders) && f in folders
    requires Listed(FolderId, FolderParent, t.folders, t.folderChildren)
    ensures Shows(t, f)
  {
    hide Lower, DistinctKeys, Ascending;
    var i :| 0 <= i < |folders| && folders[i] == f;
    assert FolderParent(t.folders[Lower(f.id)]) == Lower(f.parent);
  }

  lemma PlacesItem(t: Tree, items: seq<Item>, x: Item)
    requires IsTable(ItemId, t.items, LowerItems(items)) && x in items
    requires Listed(ItemId, ItemFolder, t.items, t.itemChildren)
    ensures ShowsItem(t, x)
  {
    hide Lower, DistinctKeys, Ascending, LowerItems;
    var i :| 0 <= i < |items| && items[i] == x;
    LoweredItems(items, i);
    var e := LowerItems(items)[i];
    assert e in LowerItems(items) && ItemFolder(e) == Lower(x.folder) && ItemId(e) == Lower(x.id);
  }

  lemma PlacesAll(t: Tree, folders: seq<Folder>, items: seq<Item>)
    requires FolderTable(folders) == Ok(t.folders) && ItemTable(t.folders, items) == Ok(t.items)
    requires Listed(FolderId, FolderParent, t.folders, t.folderChildren)
             && Listed(ItemId, ItemFolder, t.items, t.itemChildren)
    ensures Places(t, folders, items)
  {
    FolderTableIsOf(folders);
    ItemTableAccepts(t.folders, items);
    assert items == [] ==> LowerItems(items) == [];
    if items != [] { LoweredItems(items, 0); }
    forall f | f in folders ensures Shows(t, f) { PlacesFolder(t, folders, f); }
    forall x | x in items ensures ShowsItem(t, x) { PlacesItem(t, items, x); }
    hide FolderTable, ItemTable, LowerItems, Listed, Shows, ShowsItem, HasKey;
  }

  // ----- the whole build ----------------------------------------------------------------------

  method CollectFolders(folders: seq<Folder>) returns (table: Result<map<string, Folder>, TreeError>, bytes: nat)
    ensures table == FolderTable(folders) && (table.Ok? ==> bytes == FolderBytes(folders))
  {
    var m: map<string, Folder> := map[];
    bytes := 0;
    hide FolderOk, LowerFolder;
    for n := 0 to |folders|
      invariant FolderTable(folders[..n]) == Ok(m) && bytes == FolderBytes(folders[..n])
    {
      FolderTableFails(folders, n);
      assert folders[..n + 1][..n] == folders[..n];
      var folder := LowerFolder(folders[n]);
      if !FolderOk(folder) { return Err(BadFolder), 0; }
      if folder.id in m { return Err(DuplicateFolder), 0; }
      m := m[folder.id := folder];
      bytes := bytes + 256 + |folder.id| + |folder.parent| + |folder.displayName|;
    }
    assert folders[..|folders|] == folders;
    table := Ok(m);
  }

  method GroupFolders(m: map<string, Folder>) returns (children: map<string, seq<Folder>>)
    requires forall k | k in m :: m[k].id == k
    ensures Grouped(FolderId, FolderParent, m, children)
  {
    children := map[];
    ghost var grouped: map<string, Folder> := map[];
    var todo := m.Keys;
    hide Grouped;
    assert Grouped(FolderId, FolderParent, grouped, children) by { NothingGroups(FolderId, FolderParent); }
    while todo != {}
      invariant todo <= m.Keys && grouped.Keys == m.Keys - todo && forall k | k in grouped :: grouped[k] == m[k]
      invariant Grouped(FolderId, FolderParent, grouped, children)
      decreases |todo|
    {
      var id :| id in todo;
      var folder := m[id];
      AppendGroups(FolderId, FolderParent, grouped, children, folder);
      children := Appended(children, folder.parent, folder);
      grouped := grouped[id := folder];
      todo := todo - {id};
    }
    assert grouped == m;
  }

  lemma NothingGroups<T>(key: T -> string, parent: T -> string)
    ensures Grouped(key, parent, map[], map[])
  {
  }

  method CollectItems(m: map<string, Folder>, items: seq<Item>)
      returns (table: Result<map<string, Item>, TreeError>, children: map<string, seq<Item>>, bytes: nat)
    ensures table == ItemTable(m, items)
    ensures table.Ok? ==> Grouped(ItemId, ItemFolder, table.value, children) && bytes == ItemBytes(items)
  {
    var t: map<string, Item> := map[];
    children, bytes := map[], 0;
    assert items[..0] == [];
    hide ItemOk, LowerItem, Grouped;
    assert Grouped(ItemId, ItemFolder, t, children) by { NothingGroups(ItemId, ItemFolder); }
    for n := 0 to |items|
      invariant ItemTable(m, items[..n]) == Ok(t) && bytes == ItemBytes(items[..n])
      invariant Grouped(ItemId, ItemFolder, t, children) && forall k | k in t :: t[k].id == k
    {
      ItemTableFails(m, items, n);
      assert items[..n + 1][..n] == items[..n];
      var item := LowerItem(items[n]);
      if !ItemOk(item) { return Err(BadItem), map[], 0; }
      if item.id in t { return Err(DuplicateItem), map[], 0; }
      if item.id in m { return Err(Collision), map[], 0; }
      if item.folder != "" {
        if item.folder !in m { return Err(OrphanItem), map[], 0; }
      }
      AppendGroups(ItemId, ItemFolder, t, children, item);
      t := t[item.id := item];
      children := Appended(children, item.folder, item);
      bytes := bytes + 256 + |item.id| + |item.folder| + |item.displayName| + |item.description| + |item.kind|;
    }
    assert items[..|items|] == items;
    table := Ok(t);
  }

  /** What a listing must satisfy to be accepted. */
  ghost predicate Acceptable(folders: seq<Folder>, items: seq<Item>) {
    && FolderTable(folders).Ok? && Rooted(FolderTable(folders).value)
    && ItemTable(FolderTable(folders).value, items).Ok?
  }

  method BuildFolderTree(folders: seq<Folder>, items: seq<Item>) returns (r: Result<Tree, TreeError>)
    ensures r.Ok? <==> FoldersFit(folders) && ItemsFit(folders, items)
    ensures r.Ok? ==> Places(r.value, folders, items)
    ensures r.Ok? <==> Acceptable(folders, items)
    ensures r.Ok? ==>
              && r.value.folders == FolderTable(folders).value
              && r.value.items == ItemTable(r.value.folders, items).value
              && Listed(FolderId, FolderParent, r.value.folders, r.value.folderChildren)
              && Listed(ItemId, ItemFolder, r.value.items, r.value.itemChildren)
              && r.value.bytes == FolderBytes(folders) + ItemBytes(items)
    ensures FolderTable(folders).Err? ==> r == Err(FolderTable(folders).error)
    ensures FolderTable(folders).Ok? && Rooted(FolderTable(folders).value)
            && ItemTable(FolderTable(folders).value, items).Err? ==>
              r == Err(ItemTable(FolderTable(folders).value, items).error)
    ensures FolderTable(folders).Ok? && !Rooted(FolderTable(folders).value) ==>
            r == Err(OrphanFolder) || r == Err(CyclicFolder)
    ensures r == Err(OrphanFolder) ==> FolderTable(folders).Ok? && Dangling(FolderTable(folders).value)
    ensures r == Err(CyclicFolder) ==> FolderTable(folders).Ok? && Cyclic(FolderTable(folders).value)
  {
    FolderErrors(folders);
    AcceptedIffFit(folders, items);
    var table, folderBytes := CollectFolders(folders);
    if table.Err? { return Err(table.error); }
    var m := table.value;
    FolderTableAccepts(folders);
    hide FolderTable, ItemTable, Rooted, Dangling, Cyclic, Listed, Grouped, DistinctKeys, HasKey, FoldersFit, ItemsFit,
         Places;
    var fault := CheckParents(m);
    if fault.Some? { return Err(fault.value); }
    var grouped := GroupFolders(m);
    ItemErrors(m, items);
    var itemTable, groupedItems, itemBytes := CollectItems(m, items);
    if itemTable.Err? { return Err(itemTable.error); }
    var folderChildren := SortAll(FolderId, FolderParent, m, grouped);
    var itemChildren := SortAll(ItemId, ItemFolder, itemTable.value, groupedItems);
    var tree := Tree(m, itemTable.value, folderChildren, itemChildren, folderBytes + itemBytes);
    PlacesAll(tree, folders, items);
    r := Ok(tree);
  }

  lemma {:induction false} FolderErrors(folders: seq<Folder>)
    ensures FolderTable(folders).Err? ==> FolderTable(folders).error in {BadFolder, DuplicateFolder}
  {
    if folders != [] { FolderErrors(folders[..|folders| - 1]); }
  }

  lemma {:induction false} ItemErrors(m: map<string, Folder>, items: seq<Item>)
    ensures ItemTable(m, items).Err? ==> ItemTable(m, items).error in {BadItem, DuplicateItem, Collision, OrphanItem}
  {
    if items != [] { ItemErrors(m, items[..|items| - 1]); }
  }

  // ----- the tree is a tree -------------------------------------------------------------------

  /** f is listed `depth` levels below the root. */
  ghost predicate AtDepth(children: map<string, seq<Folder>>, f: Folder, depth: nat)
    decreases depth
  {
    if depth == 0 then "" in children && f in children[""]
    else
      f.parent in children && f in children[f.parent]
      && exists g: Folder :: g.id == f.parent && AtDepth(children, g, depth - 1)
  }

  lemma {:induction false} ReachableAtDepth(m: map<string, Folder>, children: map<string, seq<Folder>>, id: string,
                                            steps: nat)
      returns (depth: nat)
    requires Listed(FolderId, FolderParent, m, children) && (forall k | k in m :: m[k].id == k) && "" !in m
    requires id in m && Reaches(m, id, steps)
    ensures AtDepth(children, m[id], depth) && depth < steps
    decreases steps
  {
    var up := m[id].parent;
    if up == "" {
      depth := 0;
    } else {
      var above := ReachableAtDepth(m, children, up, steps - 1);
      assert m[up].id == up;
      depth := above + 1;
    }
  }

  /** Browsing down from the root finds every accepted folder. */
  lemma EveryFolderIsReachable(folders: seq<Folder>, items: seq<Item>, children: map<string, seq<Folder>>, id: string)
    requires Acceptable(folders, items) && Listed(FolderId, FolderParent, FolderTable(folders).value, children)
    requires id in FolderTable(folders).value
    ensures exists depth: nat :: AtDepth(children, FolderTable(folders).value[id], depth)
  {
    FolderTableAccepts(folders);
    var m := FolderTable(folders).value;
    hide FolderTable, Listed, DistinctKeys, HasKey, Reaches;
    var steps: nat :| Reaches(m, id, steps);
    var depth := ReachableAtDepth(m, children, id, steps);
  }

  lemma {:induction false} AscendingMembersDecide<T>(key: T -> string, a: seq<T>, b: seq<T>)
    requires Ascending(key, a) && Ascending(key, b) && forall x :: x in a <==> x in b
    ensures a == b
    decreases |a|
  {
    if b != [] { assert b[0] in a; }
    if a != [] {
      assert a[0] in b;
      FirstIsLeast(key, a, b[0]);
      FirstIsLeast(key, b, a[0]);
      if StringLess(key(a[0]), key(b[0])) { StringLessAsymmetric(key(a[0]), key(b[0])); }
      forall x ensures x in a[1..] <==> x in b[1..] {
        RestIsGreater(key, a, x);
        RestIsGreater(key, b, x);
      }
      AscendingMembersDecide(key, a[1..], b[1..]);
      assert a == [a[0]] + a[1..] && b == [b[0]] + b[1..];
    }
  }

  lemma RestIsGreater<T>(key: T -> string, a: seq<T>, x: T)
    requires Ascending(key, a) && a != []
    ensures x in a[1..] <==> x in a && x != a[0]
  {
    assert a == [a[0]] + a[1..];
    if x in a[1..] {
      FirstIsLeast(key, a[1..], x);
      if x != a[1] { StringLessTransitive(key(a[0]), key(a[1]), key(x)); }
      StringLessAsymmetric(key(a[0]), key(x));
    }
  }

  /** The listings decide the child lists: neither map order nor sort order can show. */
  lemma ChildListsAreDetermined<T>(key: T -> string, parent: T -> string, table: map<string, T>,
                                   children: map<string, seq<T>>, others: map<string, seq<T>>)
    requires Listed(key, parent, table, children) && Listed(key, parent, table, others)
    ensures children == others
  {
    forall p ensures p in children <==> p in others {
      if p in children { assert children[p][0] in children[p]; }
      if p in others { assert others[p][0] in others[p]; }
    }
    forall p | p in children ensures children[p] == others[p] {
      AscendingMembersDecide(key, children[p], others[p]);
    }
  }
}
