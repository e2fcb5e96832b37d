# A model of the Fabric workspace filesystem's state machines

The filesystem mounts remote Fabric workspaces and OneLake storage. This project models the parts of it that have to
stay right under concurrency, failure and hostile names, and proves what they promise.

**The cache** (`CacheHeap`, `CacheModel`, `CacheStore`, `CacheLaws`, `CacheProtocol`, `CacheRecency`, `LakeCache`,
`LakeStat`). A class with the program's own map, recency list, index-tracking expiry heap and byte counter refines a
plain recency-ordered list, whose laws are stated item by item. On top of the list, a step machine interleaves leaders,
joiners and invalidators: freshness, order of use, one load at a time. On top of two such machines, the stat and list
caches of a Lakehouse give read-your-writes.

**The write path** (`OneLake`, `StagedUpload`, `Spool`, `LakeHandle`, `NotebookCommit`). A storage service whose
requests may be refused, lost, or take effect and still report failure, while other clients change anything between
any two requests. The staged upload is all or nothing against it, and a handle's whole life loses no update. A
notebook save has no conditional update to rely on, and its comparison protocol is shown to do what it can.

**Blocking and notification** (`Leases`, `DefinitionGate`, `Invalidator`). Classes for the locked regions, and step
machines over all runs of all callers: caps, exclusion, no lost wakeup, no lost kernel notification.

**Names and hierarchy** (`Names`, `Aliases`, `AliasLaws`, `AliasOrder`, `AliasCounters`, `Catalog`, `Sorting`,
`FolderTree`). The reversible escaping, the permanent alias allocator, who gets which name, exactly when its
accelerated ordinal search shows, and the colouring parent check.

**The notebook text view** (`NotebookText`, `NotebookRoundTrip`, `NotebookLaws`). The printer and the line parser,
exactly when they undo each other, and what the parser makes of any text.

Each imperative part is a class or method proved against a specification function; the laws are lemmas about those
functions, or invariants over every run.

## How to read the contracts

- A step of a concurrent protocol is one lock-protected region; timeouts and cancellations are steps that may happen
  at any time. Times are integers.
- `OneLake.Server.calm` is true when no other client acts and nothing fails. Contracts with `calm` say what an
  operation achieves then; the other clauses hold in every weather.
- An entity tag is a number that stands for one version for ever. Other clients may do anything except write an
  object carrying this upload's random marker, or append to its stage.
- The random name of a stage is a parameter; a draw that somebody already carries counts as a failed one.
- Go strings are sequences of bytes in `Names`, `Aliases` and `FolderTree` (a char below 256 is a byte), and sequences
  of runes in `NotebookText`.
- `strings.ToUpper` and `strings.ToLower` are modelled on ASCII letters. That is exact here: no other rune maps to a
  letter of the listed device names or to a hexadecimal digit.

## Findings

- The remembered ordinal of `internal/namespace/catalog.go:109` is keyed by the concatenation of base name and type
  suffix. Two different pairs can share a key: one item without a type suffix whose base is the other's base and
  suffix. Then a free lower ordinal is skipped. `AliasCounters.CounterIsOnlyASpeedUpIffApart` proves that this sharing
  is exactly what makes the counter show.
- A kernel invalidation changed after its reservation was retired and carried out is never sent
  (`Invalidator.ChangeAfterRetiringCanBeLost`); until a reservation is retired no change of it is lost
  (`Invalidator.EveryChangeIsSent`).
- The notebook round trip holds exactly for the notebooks of `NotebookRoundTrip.WellShaped`; raw cells, lines without
  their newline, CRLF line ends and lines that print as a cell marker come back changed.
- A Lakehouse handle whose commit took effect without an answer keeps its old tag, so every later flush fails rather
  than overwrite anything (`LakeHandle.Handle.Flush`).

## Model

| member | source | states |
|---|---|---|
| `CacheHeap.ExpiryHeap.Swap` | internal/cache/cache.go:409-413 | swapping two heap slots keeps every entry knowing its own position and the set of members |
| `CacheHeap.ExpiryHeap.Up` | internal/cache/cache.go:402-413 | sift-up over the shown order and swap turns a heap that is loose at one slot into a heap, with the same members |
| `CacheHeap.ExpiryHeap.Down` | internal/cache/cache.go:402-413 | sift-down restores the order below a slot, reports whether it moved, and keeps the members |
| `CacheHeap.ExpiryHeap.Push` | internal/cache/cache.go:415-419 | a pushed entry joins the members, and order and positions hold afterwards |
| `CacheHeap.ExpiryHeap.Remove` | internal/cache/cache.go:382-387 | removing at any position takes out exactly that entry and leaves a heap with exact positions |
| `CacheHeap.ExpiryHeap.Pop` | internal/cache/cache.go:421-428 | dropping the last slot removes that entry only |
| `CacheHeap.RootExpiresFirst` | internal/cache/cache.go:389-407 | the root of an ordered heap expires no later than any entry |
| `CacheHeap.NotLessTransitive` | internal/cache/cache.go:402-407 | deadline-then-key order is a total preorder, which the sifts rely on |
| `CacheModel.RetainedIsLongestFit` | internal/cache/cache.go:360-372 | insertion evicts exactly the shortest least-recent suffix that makes room: the result is a prefix, it fits, and no longer prefix does |
| `CacheModel.InsertWithinBudget` | internal/cache/cache.go:360-380 | inserting an item under a new key keeps one item per key, the entry cap and the byte limit |
| `CacheModel.BeginWithinBudget` | internal/cache/cache.go:142-155 | the locked start of a read, with its expiry and its move to the front, keeps both budgets |
| `CacheModel.CompleteWithinBudget` | internal/cache/cache.go:226-252 | publishing a load keeps one item per key and both budgets |
| `CacheModel.TouchKeepsTotals` | internal/cache/cache.go:148-153 | moving a hit to the front loses and adds no item and no byte |
| `CacheModel.HitIsYoung` | internal/cache/cache.go:142-155 | a hit is a retained item of that key, younger than maxAge and before its retention deadline |
| `CacheModel.BeginOnlyKeeps` | internal/cache/cache.go:142-179 | starting a read retains nothing that was not retained |
| `CacheModel.CompleteOnlyAdds` | internal/cache/cache.go:226-252 | completing a load can add only that load's own value, and only while its flight is attached |
| `CacheModel.CompletedValueIsHit` | internal/cache/cache.go:226-252 | the value of an attached load, young enough and within the byte limit, is what the next caller of the key hits, whatever was evicted |
| `CacheModel.InvalidatedKeyLoadsAgain` | internal/cache/cache.go:307-335 | after an invalidation covering a key its next caller neither hits nor joins: it must load |
| `CacheModel.FindInDistinct` | internal/cache/cache.go:144-151 | with one item per key, a lookup finds the item of its key |
| `CacheLaws.BeginDecides` | internal/cache/cache.go:142-179 | who is served, joins or leads, told from the retained items and flights; a read leaves exactly the items that have not expired |
| `CacheLaws.HitComesFirst` | internal/cache/cache.go:148-155 | a hit becomes the most recent item and nothing else changes places |
| `CacheLaws.PeekDecides` | internal/cache/cache.go:292-305 | peeking finds exactly a retained item that may be served |
| `CacheLaws.CompleteDecides` | internal/cache/cache.go:226-252 | what a finished load leaves: flights, its own item, and every other item unless expired or evicted |
| `CacheLaws.PublishedComesFirst` | internal/cache/cache.go:360-380 | a retained value becomes the most recent item, the others keep their order, and whoever is evicted was less recent than everyone who stays |
| `CacheLaws.EvictsOnlyForRoom` | internal/cache/cache.go:370-372 | with the most recent evicted item back, a budget would be exceeded |
| `CacheLaws.InvalidationSparesOthers` | internal/cache/cache.go:310-335 | an invalidation takes exactly the items and flights it covers; the rest keeps its order |
| `CacheStore.Cache.RemoveLocked` | internal/cache/cache.go:382-387 | map, recency list, heap and byte counter lose the same entry together |
| `CacheStore.Cache.ExpireLocked` | internal/cache/cache.go:389-393 | removes exactly the entries whose deadline has come; no other entry is lost or reordered |
| `CacheStore.Cache.MakeRoom` | internal/cache/cache.go:370-372 | the eviction loop ends, never reads an empty list, and leaves what the list model retains, with no 64-bit overflow |
| `CacheStore.Cache.InsertLocked` | internal/cache/cache.go:360-380 | refines insertion into the recency-ordered list, including the refusal of an oversized value |
| `CacheStore.Cache.Publish` | internal/cache/cache.go:235-249 | an attached load replaces its key's entry and is retained only before its deadline |
| `CacheStore.Cache.Begin` | internal/cache/cache.go:142-179 | hit, join, refusal or leadership, exactly as the list model decides; a hit moves to the front; a leader attaches its own flight |
| `CacheStore.Cache.Complete` | internal/cache/cache.go:226-252 | only the attached flight publishes or detaches; the flight always finishes with the load's outcome |
| `CacheStore.Cache.FinishLoad` | internal/cache/cache.go:194-224 | source times in the future and negative sizes turn a success into an error before publishing |
| `CacheStore.Cache.PeekWithin` | internal/cache/cache.go:292-305 | returns a retained young value, or nothing when there is none or the configuration was invalid, and purges expired entries either way |
| `CacheStore.Cache.Invalidate` | internal/cache/cache.go:310-317 | removes the key's entry and detaches its flight, and touches nothing else |
| `CacheStore.Cache.InvalidatePrefix` | internal/cache/cache.go:322-335 | removes exactly the entries and flights under the prefix |
| `CacheStore.Cache.Clear` | internal/cache/cache.go:338-346 | leaves an empty, valid cache |
| `CacheProtocol.StepKeepsInv` | internal/cache/cache.go:157-252 | every interleaved step keeps: retained values and joinable loads are current, flights are unfinished, leaders run different loads |
| `CacheProtocol.ServedValuesAreFresh` | internal/cache/cache.go:157-252 | in every run, a served value is exactly what a finished load of that key returned, and that load began after every covering invalidation that preceded the call |
| `CacheProtocol.RetainedAndJoinableAreCurrent` | internal/cache/cache.go:307-346 | in every run, whatever is retained or can be joined began loading after the last invalidation covering its key |
| `CacheProtocol.JoinersAreNeverStranded` | internal/cache/cache.go:157-169 | in every run, a joiner's load either is finished, and a still-live joiner then gets its leader's value or error, or is still being run by a leader |
| `CacheRecency.ListIsInOrderOfUse` | internal/cache/cache.go:142-252 | over every run, the recency list is strictly in order of the step each key was last served or published at |
| `CacheRecency.ItemsLeaveForAReason` | internal/cache/cache.go:226-393 | over every run, an item leaves only by expiry, invalidation or replacement, or because it was the least recently used when there was no room |
| `CacheRecency.OneLoadAtATime` | internal/cache/cache.go:157-179 | over every run, a second load of a key begins while a first is running only after an invalidation of that key |
| `LakeCache.StatIsErased` | internal/workspacefs/cached_clients.go:153-216 | invalidating a path erases every cache key that a Stat of it or of any descendant can consult |
| `LakeCache.ListIsErased` | internal/workspacefs/cached_clients.go:184-216 | invalidating a path erases what a List of it, of a descendant or of its parent consults |
| `LakeCache.PlaysKeepInv` | internal/workspacefs/cached_clients.go:206-237 | over every interleaving of the two caches, each erasure of a mutator falls between its remote request and its return |
| `LakeCache.StatReadsItsWrites` | internal/workspacefs/cached_clients.go:153-237 | after Put, Mkdir, Remove or Rename of p returns, a later Stat of p or a descendant is served only from loads begun after the mutation finished |
| `LakeCache.ListReadsItsWrites` | internal/workspacefs/cached_clients.go:184-237 | the same for List of p, a descendant or p's parent |
| `LakeStat.CachedLake.Stat` | internal/workspacefs/cached_clients.go:153-177 | Stat first looks in the parent's retained listing, young enough for both ages, for an entry of exactly this path that says enough, then asks the stat cache; with nothing retained or under way it must load |
| `LakeStat.CachedLake.Invalidate` | internal/workspacefs/cached_clients.go:206-216 | on the two caches themselves, exactly what the script covers is gone |
| `LakeStat.InvalidatedMustAsk` | internal/workspacefs/cached_clients.go:153-216 | after p was invalidated, a Stat of p or of anything below it finds nothing it could answer from |
| `Leases.FS.TryUse` | internal/workspacefs/types.go:366-383 | a lease is granted exactly when its guard holds, and counts one handle and, if writing, one writer |
| `Leases.FS.TryMutate` | internal/workspacefs/types.go:408-431 | a mutation is granted exactly when none is held and no active key equals or lies below a requested key |
| `Leases.FS.GiveBackUse` | internal/workspacefs/types.go:384-403 | a release subtracts what the lease counted, forgets an empty key and wakes the waiters |
| `Leases.FS.GiveBackMutation` | internal/workspacefs/types.go:419-429 | the release of a mutation clears it, leaves every lease as it was, and wakes the waiters |
| `Leases.FS.Notify` | internal/workspacefs/types.go:460-463 | every waiter's channel is closed and a new open one installed |
| `Leases.ReleaseOnce.Call` | internal/workspacefs/types.go:383-403 | a second release changes nothing |
| `Leases.GuardsOnlyHarden` | internal/workspacefs/types.go:436-463 | between notifications a failing guard keeps failing, so nobody asleep on an open channel could proceed |
| `Leases.HolderCanRelease` | internal/workspacefs/types.go:366-431 | whoever holds a lease can give it back: its counters are there to subtract |
| `Leases.LeasesAreSafe` | internal/workspacefs/types.go:366-463 | in every run: counters equal the outstanding leases, both caps hold, one writer per key, a held mutation excludes every lease at or below its keys, and no wakeup is lost |
| `Leases.GrantedExactlyWhenFree` | internal/workspacefs/types.go:366-431 | over every run, an attempt succeeds exactly when nothing that is held stands in its way |
| `DefinitionGate.Gate.Enter` | internal/workspacefs/definition_gate.go:17-43 | acquire up to its first sleep or return |
| `DefinitionGate.Gate.Recheck` | internal/workspacefs/definition_gate.go:22-42 | one turn of acquire: give up, take a slot, or sleep on the shared channel |
| `DefinitionGate.Gate.TryBackground` | internal/workspacefs/definition_gate.go:45-53 | background work takes a slot only when nobody waits and a slot is free |
| `DefinitionGate.Gate.Release` | internal/workspacefs/definition_gate.go:55-63 | gives the slot back and closes the sleepers' channel |
| `DefinitionGate.GateIsSafe` | internal/workspacefs/definition_gate.go:10-63 | in every run: at most four slots, exactly those held; a sleeper on an open channel implies all four are taken, one on a closed channel can move; background work never overtakes a waiter |
| `DefinitionGate.SlotsAreGivenWhenFree` | internal/workspacefs/definition_gate.go:17-53 | over every run, a foreground caller gets a slot exactly when fewer than four are held, and background work exactly when moreover nobody waits |
| `Invalidator.Coordinator.Reserve` | internal/fusefs/invalidation_linux.go:71-86 | a reservation is refused exactly when closed, failed or full, and otherwise registered |
| `Invalidator.Coordinator.Check` | internal/fusefs/invalidation_linux.go:88-98 | a holder learns of closing and of the first failure |
| `Invalidator.Coordinator.Add` | internal/fusefs/invalidation_linux.go:100-104 | a target joins its reservation |
| `Invalidator.Coordinator.Change` | internal/fusefs/invalidation_linux.go:106-121 | marks the reservation dirty, retires it if asked, and sets the one-slot wake-up |
| `Invalidator.Coordinator.ScanJobs` | internal/fusefs/invalidation_linux.go:136-144 | the batch is exactly the registered dirty reservations, cleaned as they are taken |
| `Invalidator.Coordinator.CopyTargets` | internal/fusefs/invalidation_linux.go:146-165 | the targets are copied under the lock, attributes before entries |
| `Invalidator.Coordinator.Answered` | internal/fusefs/invalidation_linux.go:163-190 | a kernel refusal is remembered once |
| `Invalidator.Coordinator.FinishJob` | internal/fusefs/invalidation_linux.go:166-170 | a retired, clean reservation gives its slot back |
| `Invalidator.WorkerKeepsInv` | internal/fusefs/invalidation_linux.go:123-173 | every step of the worker keeps what is owed covered: dirty, in the batch, or being notified |
| `Invalidator.NothingIsLost` | internal/fusefs/invalidation_linux.go:71-173 | in every run that was not closed: slots never exceed the limit, a retired reservation is dirty or still ahead in the batch, and an idle worker owes nothing |
| `Invalidator.OwedIsKeptOrSent` | internal/fusefs/invalidation_linux.go:71-173 | over any unclosed run with requests interleaved, what is owed at its start is owed at its end or was sent in between |
| `Invalidator.UnretiredStayRegistered` | internal/fusefs/invalidation_linux.go:71-173 | in every run a reservation nobody has retired is still registered |
| `Invalidator.EveryChangeIsSent` | internal/fusefs/invalidation_linux.go:106-173 | in every unclosed run, each target held at a change made before the reservation was retired is notified after the change, or is still owed by a worker that is not at rest |
| `Invalidator.ChangeAfterRetiringCanBeLost` | internal/fusefs/invalidation_linux.go:106-121 | a run in which a change made after the reservation was retired and carried out is never sent |
| `Invalidator.DrainComesToRest` | internal/fusefs/invalidation_linux.go:123-173 | left alone, the worker goes to sleep with nothing owed and every retired slot free |
| `Invalidator.DrainSendsWhatIsOwed` | internal/fusefs/invalidation_linux.go:123-173 | left alone, the worker sends everything owed and nothing for an unregistered reservation |
| `Invalidator.ChangeIsSentIffRegistered` | internal/fusefs/invalidation_linux.go:106-173 | in any state of a run, a change reaches the kernel exactly when its reservation is still registered |
| `Invalidator.FirstFailureRefusesAll` | internal/fusefs/invalidation_linux.go:71-86 | over every unclosed run, the first answer other than success or ENOENT refuses every later reservation with that code; before it, only a full house refuses |
| `Invalidator.AttributesComeFirst` | internal/fusefs/invalidation_linux.go:146-165 | a job's notifications are its targets, each as often as given, attributes before entries |
| `Names.EncodeRuneAt` | internal/namespace/names.go:58-69 | which runes are escaped: control, reserved, a trailing dot or space, every dot of "." and ".." |
| `Names.EncodeName` | internal/namespace/names.go:53-75 | Encode rune by rune, and the first byte of a Windows device name escaped |
| `Names.EncodeDecodes` | internal/namespace/names.go:53-75 | percent-decoding an encoded name gives the name back |
| `Names.EncodedNamesAreSafe` | internal/namespace/names.go:53-91 | an encoded name has no control or reserved character, no trailing dot or space, no device stem, and is not "." or ".." |
| `Names.SafeNamesStay` | internal/namespace/names.go:53-91 | a name is its own encoding exactly when it is already safe and has no percent sign |
| `Names.FileNamesAreABijection` | internal/namespace/names.go:93-123 | FileName and ParseFileName accept matching names and undo each other, in both directions |
| `Names.Shorten` | internal/namespace/names.go:175-188 | the cut-back loop over continuation bytes and the last percent sign |
| `Names.ShortenSplitsNothing` | internal/namespace/names.go:175-188 | the result is within the limit, and what is kept is whole runes and whole escapes that decode to a prefix of the name |
| `Names.ShortenKeepsAll` | internal/namespace/names.go:175-188 | any later cut within the limit would split a rune or an escape |
| `Names.CatalogNamesAreBounded` | internal/namespace/names.go:142-157 | a catalog label is nonempty, at most 220 bytes, and free of NUL and separators |
| `Names.LabelsLeadBack` | internal/namespace/names.go:142-188 | a catalog label decodes to the whole display name, or, when its encoding was shortened, what stands before the digest is valid text that decodes to a prefix of it |
| `Aliases.OwnerKeyInjective` | internal/namespace/catalog.go:90-97 | scope and name are recoverable from an owner key |
| `Aliases.BindingKeyInjective` | internal/namespace/catalog.go:73-79 | scope, identity and base are recoverable from a binding key |
| `Aliases.AliasesDiffer` | internal/namespace/catalog.go:109-115 | different ordinals give different aliases |
| `Aliases.FirstFree` | internal/namespace/catalog.go:109-115 | the ordinal search ends, at the least free ordinal from its start on |
| `Aliases.BoundIsSound` | internal/namespace/catalog.go:98-116 | a call binds every label and never unbinds or rebinds a name |
| `Aliases.NamesAddressOneIdentity` | internal/namespace/catalog.go:90-116 | within a scope one name never stands for two identities |
| `Aliases.AliasesYieldToGenuineNames` | internal/namespace/catalog.go:98-116 | a genuine display name that was free goes to a label really called so, never to an ordinal alias |
| `AliasOrder.LeastLabelGetsTheName` | internal/namespace/catalog.go:87-104 | of several labels called by the same free name, the one with the least identity gets it |
| `AliasOrder.OrdinalsRiseWithIdentity` | internal/namespace/catalog.go:105-116 | of two new labels called the same that both get ordinals, the lesser identity gets the lesser ordinal |
| `AliasOrder.NewNamesakesAreNumbered` | internal/namespace/catalog.go:98-116 | items a catalog has never heard of, called the same, are numbered in order of identity: the first keeps the name, the others get 2, 3 and so on |
| `Aliases.RequestsAreTheLabels` | internal/namespace/catalog.go:65-83 | an accepted call has well-formed labels with distinct identities |
| `AliasOrder.LabelsAcceptedIff` | internal/namespace/catalog.go:65-79 | a call's labels are accepted exactly when each is and no two identities are the same up to case |
| `AliasOrder.LabelAcceptedIff` | internal/namespace/catalog.go:66-72 | a label is accepted exactly for a well-formed identity, a known type suffix and a valid name without NUL, empty included |
| `AliasLaws.NamesArePermanent` | internal/namespace/catalog.go:35-118 | across any history of calls, a name once given never comes back for another identity, and the same label always gets the same name |
| `AliasLaws.ReservedNamesAreNeverGiven` | internal/namespace/catalog.go:35-52 | after any history a proper component can be reserved exactly when nobody was given it, and then nobody ever is |
| `AliasLaws.OrderDoesNotMatter` | internal/namespace/catalog.go:65-117 | permuting the labels changes neither acceptance nor the resulting catalog |
| `AliasLaws.NamedKeepsLimit` | internal/namespace/catalog.go:80-86 | the check made before binding keeps the catalog within 100000 aliases |
| `AliasLaws.AcceptedIffRoom` | internal/namespace/catalog.go:80-86 | acceptable labels are refused exactly when the bindings there are and those asked for exceed 100000 together |
| `AliasCounters.CounterIsOnlyASpeedUpIffApart` | internal/namespace/catalog.go:105-116 | over all histories of calls that name items of given scopes, display names and type suffixes, every catalog equals the one whose searches start from 2, exactly when no two different (base, type suffix) pairs of one scope concatenate to the same text |
| `AliasCounters.SharingShows` | internal/namespace/catalog.go:109-115 | for every two kinds of item whose pairs share a counter key, two items of one and then one of the other get a name that is not the first free one |
| `AliasCounters.SharerIsSkipped` | internal/namespace/catalog.go:109-115 | the third request finds ordinal 2 free and its search starts past it |
| `AliasCounters.SharingShape` | internal/namespace/catalog.go:70-72 | two pairs share a counter key only when one item has no type suffix and its base is the base and suffix of the other |
| `AliasCounters.RunIsPatient` | internal/namespace/catalog.go:35-118 | from any catalog whose counters skip only taken ordinals, over any history in series that are apart, the counters change no name and still skip only taken ordinals |
| `Catalog.Catalog.ReserveName` | internal/namespace/catalog.go:35-52 | an injected root takes a name nobody is assigned, else an error and no change |
| `Catalog.Catalog.Assign` | internal/namespace/catalog.go:90-97 | the assign closure: claims a free name on both sides or changes nothing |
| `Catalog.Catalog.Collect` | internal/namespace/catalog.go:61-83 | the checking loop: the first bad label decides the error; bound names and new bindings are counted |
| `Catalog.Catalog.TakeOrdinal` | internal/namespace/catalog.go:105-116 | the ordinal loop ends with the first free alias and the next counter |
| `Catalog.Catalog.Names` | internal/namespace/catalog.go:54-118 | the whole call: names[i] is the name bound to label i, and the names are pairwise distinct; on error nothing is bound |
| `FolderTree.Walk` | internal/workspacefs/folders.go:52-68 | one colouring walk ends, since every step colours a folder not coloured before, and either blackens only grounded folders or finds a real fault |
| `FolderTree.CheckParents` | internal/workspacefs/folders.go:50-69 | the parent check accepts exactly the hierarchies whose every chain reaches the root |
| `FolderTree.RootedIffNoFault` | internal/workspacefs/folders.go:50-69 | every chain reaches the root exactly when no parent is missing and no folder is its own ancestor |
| `FolderTree.AcceptedIffFit` | internal/workspacefs/folders.go:34-92 | the tables are accepted exactly when the listings make a hierarchy, identities compared up to case |
| `FolderTree.DanglingIffUnlisted` | internal/workspacefs/folders.go:57-60 | a parent is missing exactly when some folder names one that no folder is |
| `FolderTree.FolderTableAccepts` | internal/workspacefs/folders.go:39-48 | folders are accepted exactly when each is well-formed and no identity repeats |
| `FolderTree.FirstBadFolderDecides` | internal/workspacefs/folders.go:39-48 | the first folder that cannot be accepted decides between the two errors |
| `FolderTree.ItemTableAccepts` | internal/workspacefs/folders.go:73-89 | items are accepted exactly when well-formed, distinct, colliding with no folder and lying in a known one |
| `FolderTree.FirstBadItemDecides` | internal/workspacefs/folders.go:73-89 | the first item that cannot be accepted decides among the four errors |
| `Names.LowerIgnoresCase` | internal/workspacefs/folders.go:40 | lowering changes only the case of letters, so two identities lower alike exactly when they are the same up to case |
| `FolderTree.GroupFolders` | internal/workspacefs/folders.go:70-72 | every folder is listed once, under its own parent |
| `FolderTree.CollectItems` | internal/workspacefs/folders.go:73-92 | items are checked, listed under their folder and counted, in one pass |
| `FolderTree.SortAll` | internal/workspacefs/folders.go:93-98 | every child list ends up ascending by identity with the same members |
| `FolderTree.BuildFolderTree` | internal/workspacefs/folders.go:34-100 | said of the listings given: accepted exactly when every folder is well-formed, identities are distinct up to case, every chain of parents reaches the root and every item fits; then every folder and item has its entry, unchanged but for the case of its identities, under its own parent; orphan and cycle errors name real faults |
| `FolderTree.EveryFolderIsReachable` | internal/workspacefs/folders.go:34-100 | browsing down from the root finds every accepted folder |
| `FolderTree.ChildListsAreDetermined` | internal/workspacefs/folders.go:70-98 | map order cannot show: the listings determine the child lists |
| `NotebookText.NotebookToPython` | internal/workspacefs/notebook_format.go:22-63 | the printing loops produce header, markers, separators and commented markdown |
| `NotebookText.WriteHeader` | internal/workspacefs/notebook_format.go:154-183 | the metadata header lists the nonempty values in order |
| `NotebookLaws.HeaderListsValues` | internal/workspacefs/notebook_format.go:154-183 | the header lists exactly the nonempty values, in order, one on each line |
| `NotebookText.StripMetadataHeader` | internal/workspacefs/notebook_format.go:185-202 | drops leading blank lines and a complete header, and nothing of an incomplete one |
| `NotebookLaws.OnlyTheHeaderGoes` | internal/workspacefs/notebook_format.go:185-202 | on any lines: only leading blank lines go, unless a header opens and a later line closes it; then the lines up to the first that does, and the blank lines after |
| `NotebookLaws.SplitLosesNothing` | internal/workspacefs/notebook_format.go:93-102 | splitting loses nothing, and every line but the last ends in its only newline |
| `NotebookLaws.CrLfIsALineEnd` | internal/workspacefs/notebook_format.go:104-106 | text with CRLF line ends reads as the text with plain ones |
| `NotebookText.PythonCells` | internal/workspacefs/notebook_format.go:104-152 | the line loop with its current cell, marker flag and separator rule |
| `NotebookLaws.EveryLineIsInItsCell` | internal/workspacefs/notebook_format.go:104-152 | whatever was written, no line is lost: the lines before the first marker become a code cell of their own, and each marker starts a cell of its kind with the lines up to the next, verbatim or uncommented |
| `NotebookLaws.UncommentTakesAPrefix` | internal/workspacefs/notebook_format.go:315-327 | of a markdown line goes at most one leading # and one blank or tab |
| `NotebookRoundTrip.HeaderIsStripped` | internal/workspacefs/notebook_format.go:154-202 | the parser drops exactly the printed header |
| `NotebookRoundTrip.PrintedCellsParse` | internal/workspacefs/notebook_format.go:22-63 | parsing a printed notebook gives its cells back, CRLF line ends normalised, when no source line prints as a marker |
| `NotebookLaws.PrintedTextParses` | internal/workspacefs/notebook_format.go:22-63 | whatever the cells, raw ones and unended lines included, their text reads back as them in normal form, as long as no line has a newline inside or prints as a marker |
| `NotebookRoundTrip.RoundTripIffWellShaped` | internal/workspacefs/notebook_format.go:22-152 | parsing what was printed returns the same cells exactly for code and markdown cells whose lines each end in their only newline, not in CRLF, and do not print as a marker |
| `OneLake.OwnsStage` | internal/onelake/write.go:155-167 | a stage is owned exactly when the property occurs once and equals the marker |
| `OneLake.OwnedIffClaimedOnce` | internal/onelake/write.go:155-167 | a stage is owned exactly when one comma-separated part of its properties claims it, for this marker, and no other part does |
| `OneLake.OwnPropertiesAreOwned` | internal/onelake/write.go:50-67 | the properties a create sends are recognised under its own marker and no other |
| `OneLake.Server.Create` | internal/onelake/write.go:65-81 | a conditional create takes effect only on an absent path; refused, lost and unanswered outcomes |
| `OneLake.Server.Append` | internal/onelake/write.go:103-112 | an unconditional append of uncommitted data at the next position |
| `OneLake.Server.Flush` | internal/onelake/write.go:115-126 | a flush under the create tag commits the appended data under a new tag |
| `OneLake.Server.Move` | internal/onelake/write.go:277-309 | a rename conditional on both paths replaces exactly the version it names |
| `OneLake.Server.Delete` | internal/onelake/write.go:209-225 | a conditional delete removes only the version it names |
| `StagedUpload.Client.AppendAll` | internal/onelake/write.go:82-114 | the position-advancing loop ends with exactly the first size bytes pending, or reports a short or unreadable source |
| `StagedUpload.Client.FillStage` | internal/onelake/write.go:65-133 | everything before the rename happens on the stage path only, and ends in a verified stage holding exactly the data |
| `StagedUpload.Client.MoveOnce` | internal/onelake/write.go:293-319 | one page of the rename of any path and the look at its result |
| `StagedUpload.Client.Rename` | internal/onelake/write.go:264-322 | at most one effective rename of any path, from exactly the wanted version or absence; left alone it succeeds exactly when the destination is as wanted and, over something, both sides are files; the error names the misfit |
| `StagedUpload.Client.RenamePath` | internal/onelake/write.go:230-262 | the user's rename, of files and directories: at most one effective move, from the version named at the source over exactly the version named at the destination or absence; left alone it succeeds exactly then; a path onto itself and beneath itself |
| `StagedUpload.Client.CleanupStage` | internal/onelake/write.go:141-153 | deletes only an object this upload itself made |
| `StagedUpload.Client.Put` | internal/onelake/write.go:27-139 | all or nothing: the target changes only at one rename, from exactly the expected version or absence, to exactly the source; left alone it succeeds exactly when it should and otherwise leaves no trace |
| `Spool.BoundedWriter.Write` | internal/writeback/file.go:114-121 | a loader can never leave more than the limit |
| `Spool.Open` | internal/writeback/file.go:64-107 | what is refused, what is loaded, every failure of directory, file and loader, and that only a truncated nonempty file starts dirty |
| `Spool.File.WriteAt` | internal/writeback/file.go:135-159 | offset and append rules, the size limit without overflow, and short writes |
| `Spool.File.Truncate` | internal/writeback/file.go:161-182 | cuts or extends with zeros within the limit; the same size leaves the file clean |
| `Spool.File.BeginFlush` | internal/writeback/file.go:203-224 | a clean file needs no commit; cancellation or a failed sync forbids it and is remembered |
| `Spool.File.EndFlush` | internal/writeback/file.go:225-230 | only a successful commit makes the file clean, and then its contents are the committed ones |
| `Spool.File.Close` | internal/writeback/file.go:243-267 | closing once; a clean spool is removed, a dirty one keeps its final bytes and reports recovery |
| `LakeHandle.Download` | internal/workspacefs/handles.go:239-256 | short reads and early ends never yield anything but exactly the version asked for; left alone, with room and a working disk, it succeeds |
| `LakeHandle.Handle.TryUpload` | internal/workspacefs/handles.go:207-217 | the upload of a commit: on the handle's path the service log gains its one move or nothing, and nothing at all when no stage name was drawn |
| `LakeHandle.Handle.Commit` | internal/workspacefs/handles.go:207-217 | the closure holds the new tag only when it is known; its effects on the service are one all-or-nothing upload under the tag held, or none |
| `LakeHandle.Handle.Flush` | internal/workspacefs/handles.go:207-217 | either the contents became the remote file, replacing exactly the version held, or the flush fails and the handle stays dirty with its tag; what the flush adds to the service log is one all-or-nothing upload or nothing; it succeeds when nothing stands in the way |
| `LakeHandle.Open` | internal/workspacefs/handles.go:169-237 | an opened handle holds the bytes of the version whose tag it carries, or none and dirty when truncating, and writes, appends and grows as asked; left alone, what exists opens exactly when there is no reason to refuse it; opening what exists adds nothing to the service log, and a creation is one all-or-nothing upload over absence |
| `LakeHandle.CreateEmpty` | internal/workspacefs/handles.go:203-232 | a new file is an upload of no bytes that requires absence; it succeeds exactly over absence when left alone |
| `LakeHandle.NothingIsOverwrittenUnseen` | internal/workspacefs/handles.go:203-217 | along a chain of effective commits each overwrites exactly the bytes read at open or written by the commit before |
| `LakeHandle.Session` | internal/workspacefs/handles.go:180-237 | over any operations, ambiguous failures and outside edits, the service log's effects on the path since the handle was opened are its commits, and each overwrote exactly the bytes read at open or written by the commit before; a clean handle equals the remote version it holds |
| `NotebookCommit.Committer.Save` | internal/workspacefs/definitions.go:329-432 | one save, with every early error, the preflight, the reconciliation and the update |
| `NotebookCommit.WithPayload` | internal/workspacefs/definitions.go:380-393 | only the notebook's part gets the new payload |
| `NotebookCommit.DesiredPreservesTheRest` | internal/workspacefs/definitions.go:380-393 | all other parts and the extra fields are preserved; format, payload and payload type are as written |
| `NotebookCommit.SuccessMeansSaved` | internal/workspacefs/definitions.go:395-431 | success means the remote definition is exactly the desired one |
| `NotebookCommit.SaveSucceedsIff` | internal/workspacefs/definitions.go:329-432 | with nobody editing in between, a save of good bytes succeeds exactly when the service holds the desired definition already, or holds the base and takes the update; and it writes exactly then |
| `NotebookCommit.NothingIsTried` | internal/workspacefs/definitions.go:329-400 | bad bytes, a missing part or digest, or a service that does not answer: the save fails and nothing is tried |
| `NotebookCommit.OutsideEditsSurvive` | internal/workspacefs/definitions.go:400-431 | an outside edit that no save of this writer could have produced stays, however often and whatever this writer saves; every such save fails |
| `NotebookCommit.RetryRecovers` | internal/workspacefs/definitions.go:411-416 | after an update that took effect but failed, and any number of failing saves of any bytes since, saving the same bytes again succeeds without a second update |
| `NotebookCommit.UpdateOverwritesBaseIffNoRace` | internal/workspacefs/definitions.go:417-425 | the update overwrites exactly the comparison base precisely when nobody edits between preflight and update |
| `NotebookCommit.RunsOverwriteOnlyKnown` | internal/workspacefs/definitions.go:322-433 | over any sequence of saves and outside edits without such a race, only the opened definition or own saves are ever overwritten |

## Left out

- HTTP, URLs, JSON, base64 and SHA-256: a request is one atomic step of the service; digests and payload encodings are
  parameters, injective where a proof needs it.
- A request that takes effect after the client has seen it fail is modelled as taking effect before; effects delayed
  past the client's next request are not modelled.
- A service that ignores a condition header: the service is taken to honour the conditions it is sent.
- StagedUpload.Client.Put: path validation, context checks before the first request and the syntax of entity tags are
  not modelled; a missing or malformed tag in a response is.
- StagedUpload.Client.RenamePath: path validation and the check that both paths lie in one item are left out; a path
  of the service is one object, so what a directory carries along when it is renamed is not modelled.
- CacheStore.Cache.FinishLoad: deep copies (`Clone`) and the second context check of a returned value are left out;
  values are immutable here.
- CacheStore.Cache.Begin: argument checks before the lock and the statistics counters are left out.
- LakeCache.StatReadsItsWrites: the two caches are machines on values, one step per locked region; what a Stat copies
  out of a retained listing is in `LakeStat`, for one caller at a time. `FreshStat` appears as an erasure followed by a
  read, and the times an answer is valid until are left out.
- Leases.LeasesAreSafe: the local-size registry (`registerSpool`, `closeSpool`, `localSize`) is left out.
- Invalidator.NothingIsLost: what the kernel does with a notification and the logging of failures are left out.
- Catalog.Catalog.Names: the mutex is one atomic call; the lazily made maps are made by the constructor. The digest in
  a shortened label is a parameter that yields sixteen hexadecimal digits.
- FolderTree.BuildFolderTree: byte counts are unbounded integers; caching and concurrent fetching of the listings are
  left out.
- NotebookText.NotebookToPython: sources given as one string are split before the model begins, and the search for
  metadata values (`findMetadataString`) is left out; the twelve values are inputs.
- Spool.File.WriteAt: the operating system's answer, including a short write, is a parameter; reads and timing
  observers are left out.
- LakeHandle.Open: lease handling around the handle is in `Leases`; reads through the handle are left out.
- NotebookCommit.Committer.Save: the content API path, the conversion from Python text and `prepareNotebookForFabric`
  are one preparation function; size limits before and after it are modelled.
- Authentication, FUSE and Windows adapters, errno mapping, mount lifecycle, overlays, prewarm discovery, policies and
  command-line handling.
