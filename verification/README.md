# Verified model of the go-ipfs core

This project models, in Dafny, the parts of go-ipfs that carry real state, graph
traversal or arithmetic, and proves what they promise. `dafny verify dfyconfig.toml`
checks all of it.

| file | models |
|---|---|
| `Ipld.dfy`, `DagWalk.dfy` | content-addressed blocks; `merkledag.Walk` in any order, over a shared visited set |
| `Trails.dfy`, `Seqs.dfy` | what a recursion over links lists or adds up, said without the recursion: the trails down from a node, in lexicographic order; sequences picked from others by position |
| `Gc.dfy` | mark and sweep: `Descendants`, `ColoredSet`, `GC` |
| `BlockRm.dfy` | `RmBlocks` and `FilterPinned`, with the pinner's `CheckIfPinned` |
| `GcLock.dfy`, `GcSteps.dfy`, `GcMark.dfy` | the lock protocol between collection, removal, pinned writes and pin edits, what each operation does over a run, and the marking against `Gc.dfy` |
| `Runs.dfy` | runs of a state machine, for the two services that are one |
| `Upload.dfy` | `ipfs add`: pausing for a collection, and the roots it pins |
| `Fetch.dfy` | getting a graph before it is pinned: `FetchGraph`, `DiffEnumerate` |
| `Refs.dfy`, `RefErrors.dfy` | `refs`, with and without `--unique`, with and without a depth limit, and beside roots that fail |
| `PinVerify.dfy`, `PinLs.dfy` | `pin verify` and `pin ls` |
| `Locality.dfy` | `files stat --with-local` |
| `Tar.dfy` | the tar export reader |
| `Backoff.dfy`, `Peering.dfy`, `PeeringDelays.dfy` | the reconnect delay, the peering service, and the delays over its runs |
| `Text.dfy`, `DnsLink.dfy`, `Subdomain.dfy` | the gateway's host name codecs |
| `Config.dfy` | the config scrubber and the glob matcher |
| `Cat.dfy`, `LazySeek.dfy`, `Streams.dfy` | the `cat` window, the lazy seeker, the p2p stream counts |

How things are modelled:

- A `Cid` value carries the block it names. That is what a collision-free hash gives:
  equal CIDs have equal bytes and links, links never change, and there are no cycles.
  Whether a block is present is separate state.
- A walk's order, cancellation, failing deletes and short reads are nondeterministic
  choices in the methods, so each contract holds for all of them. What may fail is a
  constant of the object, and what may be cancelled is an argument (`DagWalk.Context`), so
  that an error or a cancellation has a cause.
- Concurrent services are state machines. A step is what happens between two lock or
  network events, and the theorems are about every run of such steps.
- Where an operation updates fields, the model is a class whose methods are proved
  against a function on values, and the properties are lemmas about that function.

## Findings

Each is shown at an input by a lemma, and has its exact condition.

- `ColoredSet` does not always keep all blocks below an internal pin: the walk stops at a
  node that is marked only as a direct pin. `Gc.InternalPinBlockLost` is such a store,
  `Gc.InternalPinsKept` says over the inputs exactly when it does not happen, and
  `Gc.InternalPinsKeptIf` is a simple test. It concerns pinners that have internal pins.
  The one in the tree, `dspinner`, returns none (vendor/github.com/ipfs/go-ipfs-pinner/dspinner/pin.go:733-735),
  so with it nothing is lost (`Gc.NoInternalPins`).
- A key listing that fails half-way is only logged, so a collection can leave unmarked
  blocks behind and report no error (`Gc.HalfListingLeavesGarbage`). A sweep without errors
  leaves only marked blocks iff every unmarked block was listed (`Gc.ListingDecides`).
- A collection that is cancelled right after a delete leaves the removed key unreported
  (`Gc.RemovalUnreported`), and this is the only way that happens (`Gc.ReportedExactly`).
- `refs --unique` with a depth limit prunes at a CID that was met at a smaller depth, on the
  ground that it has been explored deeply enough. After an error it may not have been, so
  a root whose own listing meets no error can lose CIDs to the error of a root before it.
  This happens for every limit of three or more (`RefErrors.UniqueLosesAfterError`), and
  never for smaller ones, without a limit or without `--unique` (`Refs.Refs`).
- `pin ls --type=direct` and the full listing agree exactly when no CID is pinned both
  directly and recursively (`PinLs.DirectListingAgrees`). Adding a block with a pin when it
  is a direct pin already leads there (`GcLock.PinnedBothWays`, `PinLs.DirectListingDiffers`).
- `Update` is documented as pinning the new CID and unpinning the old one. It is not that.
  Its fetch trusts the old graph, so a node added with a pin but without its child, and
  updated to another node with the same child, leaves a recursive pin with a block missing
  (`GcLock.UpdatePinsIncomplete`). The new graph is complete iff the part that both graphs
  share is stored (`GcLock.UpdateComplete`), as it is after a `pin add` of the old one
  (`GcLock.UpdateAfterAdd`). The pins differ too, unless the two CIDs differ, the new one is
  not pinned in any way and the old one is not pinned directly as well (`GcLock.UpdatePins`):
  an update of a CID to itself keeps the pin (`GcLock.UpdateToItself`).
- The adder's `tempRoot` is assigned only where it is already defined, so the root that is
  pinned for a pause is never unpinned (`Upload.FirstRootLeftPinned`). It would be, iff a
  temporary root were remembered at the start (`Upload.PausedRootsStay`).
- The error of `scrubValue` for a missing key cannot occur. The nil map that
  `scrubEither` passes on is not a nil interface value (`Config.ScrubMapInternal`). The
  comment on `scrubValue` says otherwise; the model follows the code.
- `config show` and `config <key>` treat a leaf alike iff the selector treats the path and
  the pieces of its dotted key alike (`Config.FiltersAgree`). A dot in a key can break that
  both ways at the selector they use: a leaf may be shown and its dotted key refused
  (`Config.ShownThoughRefused`), or hidden and its dotted key not refused
  (`Config.HiddenThoughNotRefused`). Such a leaf cannot be read by its dotted key in any
  case, and all that `config <key>` does read is shown (`Config.ReadableIsShown`).
- A peering handler that is removed while a check is still pending arms its timer again,
  cancelled as it is (`Peering.RemovedHandlerRearms`). Removal is final over all later runs
  iff no check is pending (`Peering.RemovalIsFinal`).
- The DNSLink label codec loses names with an at sign, or with a dot before a dot or a
  dash, and no others (`DnsLink.NamesLost`, `DnsLink.NameThereAndBack`).
- A host assembled for a known gateway parses back to its parts exactly when no shorter
  suffix of the gateway is known and preceded by a namespace label
  (`Subdomain.AssembleThereAndBack`; `Subdomain.LongerGatewayShadowed` is a gateway that
  fails).

## Model

| member | source | states |
|---|---|---|
| `Ipld.ReachAllLeast` | vendor/github.com/ipfs/go-merkledag/merkledag.go:415-439 | what a walk meets lies in every set that holds the roots and is closed under the links it may follow |
| `Ipld.ReachAllClosed` | vendor/github.com/ipfs/go-merkledag/merkledag.go:415-439 | and is itself such a set |
| `Ipld.Absorb` | gc/gc.go:134-166 | pruning a walk at an already closed set loses nothing |
| `DagWalk.Drain` | vendor/github.com/ipfs/go-merkledag/merkledag.go:464-590 | for any order of the queue, a finished walk has visited the pending CIDs and the children of all it could expand; failures noted or aborting are real |
| `DagWalk.ReactMeaning` | gc/gc.go:175-212 | the link getters over stored and unreadable blocks: links are queued iff the node is a raw leaf or stored and readable, a node is ignored iff it is missing below best-effort roots, the rest is an error, and the collector refuses every insecure CID |
| `DagWalk.WalkFrom` | vendor/github.com/ipfs/go-merkledag/merkledag.go:391-413 | a finished walk adds to the visited set exactly what is reachable without entering that set |
| `DagWalk.WalkSkipRoot` | vendor/github.com/ipfs/go-merkledag/merkledag.go:490-505 | with SkipRoot the root is expanded but not visited, even if it was visited before; a finished walk adds exactly what its children reach |
| `Gc.Descendants` | gc/gc.go:134-166 | several walks over one shared set mark exactly the union of what each root reaches outside the start set |
| `Gc.ColoredSet` | gc/gc.go:170-250 | the marked set is the closure of the recursive pins, plus that of the best-effort roots over available blocks, plus the direct pins, plus what internal pins reach without passing a direct-only node; unless cancelled, which takes a cancellable context, it succeeds iff `MarkOk`, which `Gc.MarkOkMeaning` says over the blocks |
| `Gc.MarkOkMeaning` | gc/gc.go:170-250 | marking can succeed iff all that is at or below the recursive pins is secure, and stored and readable unless a raw leaf; what is met below the best-effort roots is secure and not unreadable, but may be missing; and what the internal pins add is as complete as the recursive pins |
| `Gc.BestEffortOnly` | gc/gc.go:201-221 | with no pins, exactly what the best-effort roots reach is marked, and it fails iff an insecure or unreadable block is among that |
| `Gc.MissingChildTolerated` | gc/gc.go:201-212 | a best-effort root over any one child that was never fetched is marked with it |
| `Gc.UnreadableChildStops` | gc/gc.go:201-212 | over a child that cannot be read the marking fails |
| `Gc.Sweep` | gc/gc.go:69-112 | the store, the reports and the errors are those of the sweep function for some history of turns: keys in order, each deleted or failing, its result sent or cut off by a cancellation, and the summary error that a cancellation may suppress |
| `Gc.SweepBlocks` | gc/gc.go:63-112 | a refused listing changes nothing and is the one error; else what is left and sent is as `Gc.SweepMeaning` says of what was listed |
| `Gc.SweepKeeps` | gc/gc.go:72-104 | the sweep invariant over every history: what is gone was listed, unmarked and reported once, but for at most one key after a cancellation; what should be gone has its error |
| `Gc.SweepMeaning` | gc/gc.go:69-112 | nothing marked goes; reported keys are gone, once each; without cancellation and errors exactly the listed unmarked blocks go; every listed unmarked survivor is named; every error, the summary too, has a key whose delete may fail |
| `Gc.ListingDecides` | gc/gc.go:63-82 | a sweep without errors leaves only marked blocks iff every unmarked block was listed |
| `Gc.HalfListingLeavesGarbage` | vendor/github.com/ipfs/go-ipfs-blockstore/blockstore.go:212-220 | a store, a listing cut short and a sweep that leaves an unmarked block without an error |
| `Gc.ReportedExactly` | gc/gc.go:83-99 | every removed key is reported iff the sweep was not cancelled right after a delete |
| `Gc.RemovalUnreported` | gc/gc.go:95-99 | a sweep that removes a key and does not report it |
| `Gc.Blockstore.AllKeys` | vendor/github.com/ipfs/go-ipfs-blockstore/blockstore.go:196-238 | the keys once each, in any order; a listing that fails half-way looks like a complete one |
| `Gc.Blockstore.DeleteBlock` | gc/gc.go:83-84 | a failed delete leaves the block |
| `Gc.GC` | gc/gc.go:40-125 | a mark failure deletes nothing and is, uncancelled, the one error, iff `MarkOk` fails; a refused listing likewise; nothing marked is deleted; reported keys are gone, once each; an error-free run removes exactly the listed unmarked blocks, so with a complete listing it leaves exactly the marked ones; without failing deletes there are no errors; only a cancellable context is cancelled |
| `Gc.SecondRunRemovesNothing` | gc/gc.go:55-104 | on what an error-free run with a complete listing leaves, marking succeeds, gives the same set, and nothing is unmarked |
| `Gc.RecursivePinsMarked` | gc/gc.go:31-39 | if marking succeeds, every descendant of a recursive pin is marked, and available unless it is a raw leaf |
| `Gc.ColoredClosed` | gc/gc.go:200-235 | the marked set is closed under the links of all available blocks but the direct-only pins |
| `Gc.InternalPinBlockLost` | gc/gc.go:227-235 | a store in which a block below an internal pin is not marked |
| `Gc.InternalPinsKept` | gc/gc.go:227-235 | all that is available below internal pins is marked iff every child of an available direct pin below them is a direct pin, below a recursive or best-effort root, or reached from an internal pin around the direct pins |
| `Gc.InternalPinsKeptIf` | gc/gc.go:223-235 | it is enough that every direct pin below an internal pin is a leaf or below a recursive pin |
| `Gc.NoInternalPins` | vendor/github.com/ipfs/go-ipfs-pinner/dspinner/pin.go:731-735 | without internal pins the marked set is what is below the roots, with the direct pins |
| `Gc.ColoredIs` | gc/gc.go:170-250 | the marked set from the inputs alone: below the roots, the direct pins, and what internal pins reach around the direct pins |
| `BlockRm.FindIndirect` | vendor/github.com/ipfs/go-ipfs-pinner/dspinner/pin.go:518-554 | walks that share a visited set and stop early find exactly the CIDs asked about that are below a recursive pin, over fetched nodes; unless all are found, everything below the recursive pins has been fetched |
| `BlockRm.CheckWalk` | vendor/github.com/ipfs/go-ipfs-pinner/dspinner/pin.go:526-537 | a walk that stops once nothing is left to check still leaves a closed visited set of fetched nodes if something is |
| `BlockRm.CheckWalks` | vendor/github.com/ipfs/go-ipfs-pinner/dspinner/pin.go:518-542 | one walk per recursive pin, in any order, does that for all of them; it fails only on a node that cannot be fetched |
| `BlockRm.CheckLookups` | vendor/github.com/ipfs/go-ipfs-pinner/dspinner/pin.go:489-516 | the lookups answer rightly for every CID pinned recursively or directly, and leave exactly the others to be checked |
| `BlockRm.CheckIfPinned` | vendor/github.com/ipfs/go-ipfs-pinner/dspinner/pin.go:489-556 | each CID asked about gets a verdict, and every verdict is the right one of recursive, direct, below a recursive pin, or not pinned; it fails only if something below a recursive pin cannot be fetched, and if some CID is unpinned exactly then |
| `BlockRm.FilterPinned` | blocks/blockstoreutil/remove.go:77-95 | what may go is exactly what is unpinned; each pinned CID has a notice; a failed check lets nothing go, and if something may go it fails iff something below a recursive pin cannot be fetched |
| `BlockRm.RmBlocks` | blocks/blockstoreutil/remove.go:36-70 | only requested, unpinned blocks are deleted, and all of them but those whose lookup or delete fails; every result is true and every pinned CID has one; an unpinned CID that is not there is missing, or with force removed; a failed pin check deletes nothing, and when something is unpinned it fails iff something below a recursive pin cannot be fetched; the results fit the channel |
| `GcLock.Preserved` | vendor/github.com/ipfs/go-ipfs-blockstore/blockstore.go:246-276 | every step keeps the lock's counts right and what each thread inside an operation relies on: its written and fetched blocks, its marks, its list of blocks that may go |
| `GcLock.ExclusiveIsAlone` | vendor/github.com/ipfs/go-ipfs-blockstore/blockstore.go:266-276 | a holder of the exclusive lock is the only thread inside an operation |
| `GcLock.SharedExcludes` | vendor/github.com/ipfs/go-ipfs-blockstore/blockstore.go:266-276 | with a shared holder inside, all holders are shared |
| `GcLock.MutualExclusion` | vendor/github.com/ipfs/go-ipfs-blockstore/blockstore.go:266-276 | over every run, a thread inside a collection or removal is the only one inside any locked operation |
| `GcLock.NoProtectedDelete` | gc/gc.go:75-104 | no step deletes a block that is directly pinned or reachable from a recursive pin at that moment |
| `GcLock.ProtectedStays` | core/coreapi/pin.go:30-41 | over every run of pinned writes, pin edits, removals and collections, a stored block stays as long as it is directly pinned or reachable from a recursive pin |
| `GcLock.LostIffUnprotected` | gc/gc.go:75-104 | the converse too: from any state of a run, with any threads inside, some continuation that leaves the pins alone loses a stored block iff it is neither directly pinned nor reachable from a recursive pin |
| `GcLock.PinnedAddComplete` | core/coreapi/dag.go:20-49 | over every run, when a pinned add releases its lock all blocks it has written are still present |
| `GcLock.SharedKeepsStore` | vendor/github.com/ipfs/go-ipfs-blockstore/blockstore.go:266-276 | while a thread holds the lock shared the store only grows |
| `GcLock.WholeStays` | core/coreapi/pin.go:30-41 | over every run, a complete graph stays complete while its root is pinned recursively |
| `GcLock.PinAddWhole` | vendor/github.com/ipfs/go-ipfs-pinner/dspinner/pin.go:175-245 | over every run, a recursive `pin add` that pins leaves the whole graph stored for as long as it stays pinned |
| `GcLock.UpdateComplete` | vendor/github.com/ipfs/go-ipfs-pinner/dspinner/pin.go:768-782 | over every run, the edit of a `pin update` finds the new graph complete iff what it shares with the old one is stored |
| `GcLock.PinUpdateWhole` | vendor/github.com/ipfs/go-ipfs-pinner/dspinner/pin.go:741-789 | a `pin update` leaves the whole new graph stored while it stays pinned, if what both graphs share was stored at any moment since it took its lock |
| `GcLock.UpdateAfterAdd` | vendor/github.com/ipfs/go-ipfs-pinner/dspinner/pin.go:741-789 | so it does after a `pin add` of the old graph that stayed pinned until the update took its lock |
| `GcLock.UpdatePinsIncomplete` | vendor/github.com/ipfs/go-ipfs-pinner/dspinner/pin.go:768-778 | a run of a pinned add and a `pin update` after which a child of the pinned node is not stored |
| `GcLock.UpdatePins` | vendor/github.com/ipfs/go-ipfs-pinner/dspinner/pin.go:737-789 | an update, check and edit, leaves the pins of adding the new pin and removing the old one iff the CIDs differ, the new one is pinned in no way and the old one not directly; refused for want of a recursive pin, iff those two calls would change nothing |
| `GcLock.UpdateToItself` | vendor/github.com/ipfs/go-ipfs-pinner/dspinner/pin.go:754-757 | an update of a pinned CID to itself keeps the pin that adding and removing it drops |
| `GcLock.EditRec` | vendor/github.com/ipfs/go-ipfs-pinner/dspinner/pin.go:175-385 | the recursive pins after any edit, by membership: an edit adds the CID of a recursive `pin add` and the new one of an update, drops that of a `pin rm` asked to and the old one of an unpinning update only, and changes no other |
| `GcLock.EditDir` | vendor/github.com/ipfs/go-ipfs-pinner/dspinner/pin.go:175-385 | the direct pins after any edit, by membership; an update changes none |
| `GcLock.StopsMeaning` | vendor/github.com/ipfs/go-ipfs-pinner/dspinner/pin.go:741-766 | when an edit ends at its check |
| `GcLock.PinsChange` | core/coreapi/pin.go:30-150 | in every step of the protocol a CID is pinned recursively after it iff the step adds it, or it was and the step does not drop it |
| `GcLock.DirectPinsChange` | core/coreapi/pin.go:30-150 | only an edit changes the direct pins |
| `GcLock.PinStays` | core/coreapi/pin.go:30-150 | over every run a recursive pin stays until a `pin rm` or an unpinning update of that very CID |
| `GcLock.PinAddLasts` | core/coreapi/pin.go:30-41 | so the graph of a `pin add` stays stored and pinned until then |
| `GcLock.KeepingUpdateProtects` | vendor/github.com/ipfs/go-ipfs-pinner/dspinner/pin.go:741-789 | an update that keeps the old pin takes protection from nothing and gives it to exactly the new graph |
| `GcSteps.StoreChanges` | vendor/github.com/ipfs/go-ipfs-blockstore/blockstore.go:246-276 | in every step a block is stored after it iff the step writes it, or it was and the step does not delete it |
| `GcSteps.Remembers` | core/coreapi/pin.go:30-150 | over every run a thread works on what its operation was started with until it is out |
| `GcSteps.RemovalGoesOn` | blocks/blockstoreutil/remove.go:36-70 | what a removal was asked to remove, and nothing protects, is still on its list or has been deleted by it |
| `GcSteps.AddGoesOn` | core/coreapi/dag.go:32-49 | every node that a pinned add has got past was pinned by it |
| `GcSteps.EditIsChecked` | vendor/github.com/ipfs/go-ipfs-pinner/dspinner/pin.go:175-245 | an edit that goes on was checked since it started, and did not end there |
| `GcLock.PinnedBothWays` | vendor/github.com/ipfs/go-ipfs-pinner/dspinner/pin.go:829-856 | a run after which a CID is pinned directly and recursively |
| `GcMark.VisitWalks` | gc/gc.go:134-166 | a visit of the protocol keeps the walk's invariant, or meets a node on which the walk must fail |
| `GcMark.MarkingIsColored` | gc/gc.go:170-250 | any order of visits that gets to the sweep has marked exactly the set of `Gc.ColoredSet`, which then succeeds; one that gives up does so only when `Gc.ColoredSet` fails |
| `GcMark.MarkingBetween` | gc/gc.go:170-250 | while blocks are written without a lock, a marking that gets to the sweep holds the marks over the store at its start and is within those over the store at its end |
| `GcMark.CollectionMarks` | gc/gc.go:40-125 | over every run of the protocol, a collection that gets to its sweep has marked all that `Gc.ColoredSet` marks over the store and pins at its start, and nothing that it does not mark over the store then |
| `Upload.SurvivesPauses` | core/coreunix/add.go:438-455 | over every run and any number of pauses, what was stored is stored, if at each pause it is below the root pinned for it |
| `Upload.UploadWhole` | core/coreunix/add.go:161-183 | so the final graph is complete, and stays so while its root is pinned |
| `Upload.PauseExact` | core/coreunix/add.go:438-455 | a block that was written can be lost in a pause, with the pins as they are, iff no pin protects it when the lock is released |
| `Upload.Adder.Unpin` | vendor/github.com/ipfs/go-ipfs-pinner/dspinner/pin.go:344-385 | the pins after it, and success iff the CID was pinned either way |
| `Upload.Adder.PinRoot` | core/coreunix/add.go:161-183 | the pins and the remembered root are those of the function; when it fails |
| `Upload.NothingUnpinned` | core/coreunix/add.go:173-181 | without a remembered root every root ever pinned stays pinned |
| `Upload.OnlyLastStays` | core/coreunix/add.go:173-181 | with one that is pinned only the last does, and the direct pins of those before go too |
| `Upload.LostRootStops` | core/coreunix/add.go:173-181 | with one that is no longer pinned, every later call fails and pins nothing |
| `Upload.PausedRootsStay` | core/coreunix/add.go:173-181 | an earlier root stays pinned iff none was remembered at the start |
| `Upload.FirstRootLeftPinned` | core/coreunix/add.go:79 | a new adder that pins two roots leaves both pinned |
| `Fetch.FetchWalk` | vendor/github.com/ipfs/go-merkledag/merkledag.go:126-137 | succeeds iff all that is reached without entering the nodes seen can be got, raw leaves too, and adds exactly these, in any order |
| `Fetch.FetchGraph` | vendor/github.com/ipfs/go-merkledag/merkledag.go:174-224 | succeeds iff every descendant can be got, and gets exactly these |
| `Fetch.GetLinkDiff` | vendor/github.com/ipfs/go-merkledag/dagutils/diffenum.go:67-99 | the changes are the links that only the new node has, in order, each paired with the link at its place among those that only the old one has |
| `Fetch.DiffMeaning` | vendor/github.com/ipfs/go-merkledag/dagutils/diffenum.go:67-99 | every link that only the new node has is in a change, and changes only pair such links with links that only the old one has |
| `Fetch.OnlyPicked` | vendor/github.com/ipfs/go-merkledag/dagutils/diffenum.go:67-99 | the links that only one node has are those at the positions whose targets the other lacks, in order, none left out |
| `Fetch.DiffPairs` | vendor/github.com/ipfs/go-merkledag/dagutils/diffenum.go:84-96 | the k-th change leads to the k-th link that only the new node has, from the k-th that only the old one has while there is one |
| `Fetch.FetchChange` | vendor/github.com/ipfs/go-merkledag/dagutils/diffenum.go:38-53 | a change succeeds iff what it needs can be got, and gets exactly that: for a new link what its walk adds to the nodes seen, for a replaced one what its own update needs |
| `Fetch.FetchChanges` | vendor/github.com/ipfs/go-merkledag/dagutils/diffenum.go:29-55 | the changes in order succeed iff all they need can be got, and get exactly that |
| `Fetch.DiffEnumerate` | vendor/github.com/ipfs/go-merkledag/dagutils/diffenum.go:16-56 | succeeds iff every node it needs, a set that the two roots determine, can be got, and gets exactly these |
| `Fetch.NeededMeaning` | vendor/github.com/ipfs/go-merkledag/dagutils/diffenum.go:10-56 | with the nodes needed the new graph is complete if the old one is; none is in neither graph; with no new link only the two roots are needed |
| `Fetch.OneLinkReplaced` | vendor/github.com/ipfs/go-merkledag/dagutils/diffenum.go:10-56 | an update that replaces one link needs the two roots and the update below that link, however much hangs below the others |
| `Fetch.OneLinkAdded` | vendor/github.com/ipfs/go-merkledag/dagutils/diffenum.go:38-46 | one that adds a link needs the two roots and all that is below the link |
| `Fetch.WalksDisjoint` | vendor/github.com/ipfs/go-merkledag/dagutils/diffenum.go:29-46 | no walk of a new link gets what an earlier one got, nor a replaced link |
| `Fetch.NewLink` | vendor/github.com/ipfs/go-merkledag/dagutils/diffenum.go:39-46 | all below a new link is had, seen before or added by its walk |
| `Refs.RefWriter.Visit` | core/commands/refs.go:269-315 | when a CID is entered, written and gone below, for all combinations of the options |
| `Refs.RefWriter.WriteRefsRecursive` | core/commands/refs.go:207-258 | the writer's new state and its count are those of the traversal function |
| `Refs.RefWriter.WriteRefs` | core/commands/refs.go:199-205 | the same for one root, which is fetched but not entered |
| `Refs.LinksSound` | core/commands/refs.go:207-258 | depths recorded are depths at which the CID occurs, and an error has an unfetchable referenced CID |
| `Refs.LinksDone` | core/commands/refs.go:207-315 | depths only fall, and whatever was newly entered has its children seen early enough |
| `Refs.SeenEarly` | core/commands/refs.go:298-314 | pruning by depth loses nothing: what occurs within the limit is seen, no later than it occurs |
| `Refs.UniqueExact` | core/commands/refs.go:260-315 | a finished `--unique` run has seen exactly the CIDs on a link path of length 1 to the limit, and `seen` holds the shortest lengths |
| `Refs.LinksUnfold` | core/commands/refs.go:281-286 | without `--unique` exactly the path-unfolded edges are written, in order |
| `Refs.EdgesAreTrails` | core/commands/refs.go:207-258 | these edges are the last links of the trails down from the node that fit the limit, one for each, in lexicographic order: source, target and name |
| `Refs.EdgeComplete` | core/commands/refs.go:207-258 | every link of a CID on a path within the limit is among them |
| `Refs.UnfoldedComplete` | core/commands/refs.go:112-129 | and so over all roots |
| `Refs.LinksFirsts` | core/commands/refs.go:207-315 | with `--unique` the edges written are the first ones of these to a CID not seen before |
| `Refs.FirstsPicked` | core/commands/refs.go:298-314 | that is, those at the positions whose target no earlier edge has |
| `Refs.LinksFetched` | core/commands/refs.go:222-241 | there is a fetch for every edge and one for an error, and no other unless CIDs are entered again |
| `Refs.LinksSettle` | core/commands/refs.go:207-258 | an error leaves every CID entered finished or with something within the limit below it that cannot be fetched, and has such a cause |
| `Refs.SeenBelow` | core/commands/refs.go:298-314 | below a root that meets no error nothing is pruned too early, if there is no limit or it is less than three |
| `RefErrors.UniqueLosesAfterError` | core/commands/refs.go:121-127 | for every limit of three or more, a root that can be listed completely and is not, after the error of a root before it |
| `Refs.LinksMeasured` | core/commands/refs.go:207-315 | with `--unique` every fetch raises a measure on `seen` |
| `Refs.MeasureBound` | core/commands/refs.go:207-315 | the measure is at most the number of CIDs seen times the limit |
| `Refs.Refs` | core/commands/refs.go:112-129 | any run writes links only, with their sources and names, of CIDs above the limit, and with `--unique` no CID twice; an error-free run writes exactly the referenced CIDs either way, without `--unique` all links and just the path-unfolded ones, with it their first occurrences, and has then seen exactly these CIDs, with a depth limit at their shortest depths; it is error-free iff all can be fetched; a root that can be listed completely is, beside others that fail, unless `--unique` comes with a limit of three or more; fetches are counted |
| `PinVerify.CheckPin` | core/coreapi/pin.go:165-190 | whatever the memo holds, the status is the memo-free one, and links are fetched once per CID |
| `PinVerify.CheckLinks` | core/coreapi/pin.go:179-187 | the bad nodes of a node's links, in order, with the memo grown by what is below |
| `PinVerify.Verify` | core/coreapi/pin.go:155-201 | one memo-free status per recursive pin, in order |
| `PinVerify.BadNodesExact` | core/coreapi/pin.go:165-190 | the bad nodes are the reachable CIDs whose links cannot be fetched |
| `PinVerify.BadBelowListed` | core/coreapi/pin.go:179-187 | they are listed once for every way down to them over fetched nodes, in the order of the trails |
| `PinVerify.CheckMeaning` | core/coreapi/pin.go:165-190 | a pin is ok iff all descendants' links can be fetched; the bad nodes are exactly the reachable CIDs whose links cannot |
| `PinLs.AddToResultKeys` | core/coreapi/pin.go:230-244 | over one shared key set no CID is emitted twice |
| `PinLs.Indirect` | core/coreapi/pin.go:279-331 | root-skipping walks over one visited set find exactly the proper descendants of the recursive pins |
| `PinLs.PinLsAll` | core/coreapi/pin.go:225-335 | each listing emits each CID once, under the first label that applies, and exactly the CIDs it is to show; one that does not finish has shown only such, and all recursive and direct ones; uncancelled it fails iff indirect pins were asked for and some descendant cannot be fetched |
| `PinLs.DirectListingAgrees` | core/coreapi/pin.go:268-278 | the direct listing agrees with the full one iff no CID is pinned both ways |
| `PinLs.DirectListingDiffers` | core/coreapi/pin.go:268-278 | a run of the pin operations after which the two listings differ |
| `Locality.WalkBlock` | core/commands/files.go:291-321 | local, local size modulo 2^64 and failure are those of the recursive definitions |
| `Locality.LocalBelowListed` | core/commands/files.go:291-321 | the local size is the block lengths summed over every way down that stays in the store |
| `Locality.TotalBelowListed` | core/commands/files.go:246-251 | and the total over every way down |
| `Locality.WrapMeaning` | core/commands/files.go:315-317 | sizes are below 2^64 and differ from the sums by a multiple of it |
| `Trails.BelowLists` | core/commands/files.go:291-321 | the recursion that these sums and lists are compared with goes over exactly the trails, in lexicographic order |
| `Trails.MetAreEnds` | core/commands/files.go:291-321 | and meets the nodes that they lead to |
| `Locality.LocalMeaning` | core/commands/files.go:291-321 | local iff every block below the node is in the store and readable |
| `Locality.ReadableMeaning` | core/commands/files.go:300-307 | the walk fails iff it would fetch an unreadable block |
| `Locality.LocalWithinTotal` | core/commands/files.go:315-317 | the local size is at most the path-unfolded total and equals it if local, and only if local when no block is empty |
| `Locality.HonestTotal` | core/commands/files.go:246-251 | with honest link sizes the cumulative size is the path-unfolded total modulo 2^64 |
| `Locality.StatFigures` | core/commands/files.go:246-321 | with honest link sizes local size equals cumulative size if local, and only if local when no block is empty and the total is below 2^64 |
| `Tar.TarReader.Read` | tar/format.go:115-197 | each call delivers the next bytes of the archive, ends only when nothing is left, and otherwise decreases a measure; a broken link is an error and is passed over |
| `Tar.TarReader.ReadHeader` | tar/format.go:116-124 | the header is delivered in pieces of any size, as much of it as is asked for |
| `Tar.TarReader.Next` | tar/format.go:160-194 | the state after taking a link, and an error iff the link or its data node cannot be followed |
| `Tar.TarReader.ReadFile` | tar/format.go:136-147 | file data, then the padding, for any behaviour of the file's reader, bytes with an error included |
| `Tar.TarReader.TakeFile` | tar/format.go:136-147 | the bytes of a read that does not end the file |
| `Tar.TarReader.EndFile` | tar/format.go:138-145 | the last bytes, and the padding they call for |
| `Tar.TarReader.ReadPad` | tar/format.go:149-154 | padding in pieces of any size, as much of it as is asked for |
| `Tar.TarReader.ReadChild` | tar/format.go:126-134 | a child reader's bytes are passed on and its end is not an end |
| `Tar.ExpandStep` | tar/format.go:156-196 | taking a link changes nothing about what is still to come |
| `Tar.PadFormula` | tar/format.go:140-141 | the padding formula completes the data to whole blocks |
| `Tar.ExportTar` | tar/format.go:201-210 | only a marked root is exported, and what is to come is its flattening |
| `Tar.Copy` | tar/format.go:115-197 | with any buffer sizes, what has been read is a prefix of the flattening, and at the end all of it; if file reads do not fail the end is reached iff no link is broken |
| `Tar.Export` | tar/format.go:115-210 | the same of a whole export, which is refused iff the root is not marked |
| `Tar.FlatFile` | tar/format.go:173-187 | the flattening of an entry with a "data" link: the header, the bytes of the node under the first such link, and zeros to the end of the block |
| `Tar.FlatUnreadable` | tar/format.go:173-186 | if that node cannot be fetched, is no protobuf node or is refused: the header alone, and an error |
| `Tar.FlatDirectory` | tar/format.go:173-194 | without a "data" link: the header, then the entries of all links |
| `Tar.FlatBroken` | tar/format.go:160-171 | an entry that cannot be fetched or is no protobuf node: nothing, and an error |
| `Tar.FlatAllConcat` | tar/format.go:160-196 | entries come one after the other, in the order of the links |
| `Tar.FlatAllOne` | tar/format.go:160-196 | and a single link gives its own entry |
| `Tar.FlatAllBlocks` | tar/format.go:149-154 | an archive with headers of whole blocks is made of whole blocks |
| `Tar.FlatBlocks` | tar/format.go:149-154 | so is each entry with what is below it |
| `Backoff.PeerHandler.NextBackoff` | peering/peering.go:87-100 | random calls are legal, nothing overflows, and the delay is at least 7.5 s and at most 10 min |
| `Backoff.NextDelayExact` | peering/peering.go:87-100 | exactly the delays that can follow one: half as much again to two and a half times as much, up to the maximum; or one in the last tenth if the maximum can be exceeded |
| `Backoff.DelayBounds` | peering/peering.go:87-100 | over any draws the delay stays between 5 s and 10 min, and is at least what the smallest draws give or within the last tenth |
| `Backoff.SettlesAfterTwelve` | peering/peering.go:20-31 | from the 12th call after a reset every delay is in (9 min, 10 min] |
| `Backoff.ElevenIsTooFew` | peering/peering.go:87-100 | with the smallest draws the 11th delay is still below |
| `Peering.Preserved` | peering/peering.go:102-300 | every step of the service, its goroutines and the network keeps the invariant |
| `Peering.RegisteredPreserved` | peering/peering.go:102-300 | every step keeps what is promised of a registered peer, except its removal |
| `Peering.NeverForgotten` | peering/peering.go:127-149 | while running, a disconnected registered peer has its timer or pending work for it; the protected peers are the registered ones; once stopped all registered handlers are cancelled |
| `Peering.TimerIffDisconnected` | peering/peering.go:127-149 | with nothing pending for a peer, its timer is set iff it is disconnected |
| `PeeringDelays.DelaySinceReset` | peering/peering.go:87-149 | over every run of the service, a handler's delay is one that the calls since its last reset, with some legal draws, lead to |
| `PeeringDelays.DelaysSettle` | peering/peering.go:87-149 | so it is 5 s before the first, at least 7.5 s and less than 12.5 s after it, and in (9 min, 10 min] from the 12th on |
| `PeeringDelays.NoTimerNothingAsked` | peering/peering.go:127-137 | over every run, a handler in service without a timer has asked for no delay since its last reset |
| `PeeringDelays.BackToInitial` | peering/peering.go:127-137 | so in every reachable state it is back at the initial delay |
| `Peering.ReconnectRelaxes` | peering/peering.go:122-137 | from any state in which the handler's lock is free, a reconnect of a connected peer clears its timer and resets its delay |
| `Peering.StartLooks` | peering/peering.go:170-188 | a start from the initial state gives every peer a check, and has changes of connections noted |
| `Peering.StopBegins` | peering/peering.go:191-192 | a stop first ends that |
| `Peering.QuietAfterStop` | peering/peering.go:190-192 | after which, over every run until a start, no connection that comes or goes is noted |
| `Peering.StopTakesAll` | peering/peering.go:197-202 | a stop goes over all peers there are |
| `Peering.StopOneStops` | peering/peering.go:76-85 | and takes the timer of each and cancels it |
| `Peering.StopCompletes` | peering/peering.go:197-204 | in every reachable state in which a stop can complete, it leaves the service stopped and all its handlers cancelled |
| `Peering.StoppedStays` | peering/peering.go:174-181 | no step leads out of the stopped state |
| `Peering.PeersIdempotent` | peering/peering.go:214-273 | adding a peer that is there and removing one that is not change nothing but addresses |
| `Peering.RetiredStays` | peering/peering.go:262-273 | no step arms the timer of a removed handler that has no pending start, or gives it one |
| `Peering.RetiredForGood` | peering/peering.go:262-273 | over every run from there on, such a handler stays out of service |
| `Peering.RemovalIsFinal` | peering/peering.go:262-273 | some run after a removal leads to the handler's timer being set iff a start was pending for it |
| `Peering.PendingStartMayArm` | peering/peering.go:140-149 | a pending start can arm the timer from any state, whatever the connections |
| `Peering.PendingStartRearms` | peering/peering.go:140-149 | a pending start arms the timer of a disconnected handler, removed or not |
| `Peering.RemovedHandlerRearms` | peering/peering.go:232-273 | a reachable state with an armed timer on a removed, cancelled handler |
| `DnsLink.NameThereAndBack` | core/corehttp/hostname.go:431-447 | decoding a name's label gives the name back iff it has no at sign and no dot before a dot or a dash |
| `DnsLink.NamesLost` | core/corehttp/hostname.go:431-447 | a name of each lost kind does not survive |
| `DnsLink.LabelThereAndBack` | core/corehttp/hostname.go:431-447 | encoding a label's decoding gives the label back iff it fits and has no dot and no at sign |
| `DnsLink.ToLabelSucceeds` | core/corehttp/hostname.go:431-438 | encoding succeeds iff length plus dashes is at most 63, and then the label has no dot |
| `DnsLink.EncIs` | core/corehttp/hostname.go:431-438 | the two replacements encode character by character |
| `DnsLink.DecIs` | core/corehttp/hostname.go:442-447 | the three replacements decode by one left-to-right scan |
| `DnsLink.PreferredNamesSurvive` | core/corehttp/hostname.go:195-202 | names in the syntax of section 3.5 of RFC 1034 that fit survive the round trip |
| `Subdomain.KnownSubdomainDetails` | core/corehttp/hostname.go:323-350 | the loop from the right computes the search function |
| `Subdomain.SearchFinds` | core/corehttp/hostname.go:331-349 | the search finds the last split with a namespace label before a known suffix, and fails iff there is none |
| `Subdomain.ParseExact` | core/corehttp/hostname.go:319-350 | success iff the host has a reading; the parts rejoin to it; the gateway is the shortest of any reading |
| `Subdomain.AssembleThereAndBack` | core/corehttp/hostname.go:566-574 | an assembled host parses back iff the gateway is not shadowed |
| `Subdomain.LongerGatewayShadowed` | core/corehttp/hostname.go:323-350 | with gateways `dweb.link` and `ipfs.dweb.link`, no host assembled for the longer, in any namespace, parses back |
| `Subdomain.NamespacedShadowed` | core/corehttp/hostname.go:323-350 | a namespace label before any known gateway makes a shadowed one |
| `Config.MatchesGlobPrefix` | core/commands/config.go:159-173 | true iff the patterns match the parts as far as both go |
| `Config.EqualFoldMeaning` | core/commands/config.go:159-173 | parts are compared by their foldings |
| `Config.FoldedAlike` | core/commands/config.go:159-173 | paths that are equal up to folding are treated alike by every selector |
| `Config.ConcealMatches` | vendor/github.com/ipfs/go-ipfs-config/remotepin.go:5 | what the commands' own selector matches, written out part by part |
| `Config.ScrubEither` | core/commands/config.go:240-253 | a map is scrubbed, a leaf goes, and there is never an error |
| `Config.ScrubMapInternal` | core/commands/config.go:255-274 | for any key order the result is the scrubbed map, and there is never an error, whether or not missing is allowed |
| `Config.ScrubAt` | core/commands/config.go:255-274 | what scrubbing leaves at every path |
| `Config.ShownExactly` | core/commands/config.go:210-213 | so `config show` shows exactly the leaves that are there and are not, up to case, at, above or below `Pinning.RemoteServices.<any>.API.Key` |
| `Config.FiltersAgree` | core/commands/config.go:88-92 | a leaf is shown or gone, and shown exactly when its dotted key is not refused, iff the selector matches both or neither of its path and the pieces of its dotted key |
| `Config.PiecesOf` | core/commands/config.go:159-160 | the parts of a dotted key are those of its keys, split at their dots |
| `Config.FiltersAgreeWithoutDots` | core/commands/config.go:88-92 | so they agree when no key that the selector looks at has a dot |
| `Config.ShownThoughRefused` | core/commands/config.go:90-92 | at the commands' selector, a leaf that is shown while its dotted key is refused |
| `Config.HiddenThoughNotRefused` | core/commands/config.go:210-213 | at the same selector, a leaf that is hidden while its dotted key is not refused |
| `Config.DottedNameHidden` | core/commands/config.go:255-274 | the same for every service name with a dot whose second half does not hit the next pattern |
| `Config.JoinedKeyShown` | core/commands/config.go:159-173 | the former for every selector's first two patterns |
| `Config.MapGetKV` | repo/common/common.go:8-29 | the value at the path that the key's dots make, or an error |
| `Config.AtConcat` | repo/common/common.go:8-29 | paths compose: a longer one goes on from where its start leads, and the empty one stays |
| `Config.AtOne` | repo/common/common.go:8-29 | one part looks up one key |
| `Config.ReadableIsShown` | core/commands/config.go:88-92 | what an unrefused key reads, leaf or map, is shown in full, and a refused one names no shown leaf |
| `Config.ScrubAddsNothing` | core/commands/config.go:255-274 | every leaf that is left was there and is not selected |
| `Cat.Cat` | core/commands/cat.go:114-171 | the readers yield exactly the window of the concatenated files, byte by byte, the length is exact, only the last reader is cut and to a positive limit; it fails iff it gets as far as a non-file |
| `Cat.ContentsConcat` | core/commands/cat.go:120-169 | the items' contents come one after the other |
| `Cat.ContentsOne` | core/commands/cat.go:120-169 | and a single file's are its bytes |
| `Cat.Collect` | core/commands/cat.go:120-169 | the loop yields the window, or fails on something that is not a file |
| `Cat.AddItem` | core/commands/cat.go:120-169 | one item keeps what is collected in step with the contents so far, or completes the window |
| `LazySeek.LazySeeker.Seek` | core/corehttp/lazyseek.go:18-33 | the answer and position of an eager seeker, and the reader is untouched |
| `LazySeek.SeekLaws` | core/corehttp/lazyseek.go:18-33 | the eager seeker by its laws: the three origins agree, a seek back undoes a seek, it fails iff its target is negative, and an unknown origin fails |
| `LazySeek.LazySeeker.Read` | core/corehttp/lazyseek.go:35-53 | the bytes at the eager position, and an end only at the end; past it the reader is not called; the real offset stays right; a reader that does not fail delivers something |
| `LazySeek.Drive` | core/corehttp/lazyseek.go:18-53 | every sequence of seeks and reads is answered as by an eager seeker over the same reader: same positions, the bytes there, an end only at the end, progress unless the reader can fail; seeks alone never call the reader |
| `Streams.StreamRegistry.Register` | p2p/stream.go:75-87 | the new state of the registry, and the id given |
| `Streams.StreamRegistry.Deregister` | p2p/stream.go:90-106 | the new state of the registry |
| `Streams.StepConsistent` | p2p/stream.go:75-106 | each operation keeps the counts, tags and ids consistent |
| `Streams.AlwaysConsistent` | p2p/stream.go:63-106 | over every interleaving each count is the number of live streams, peers are counted and tagged iff it is positive, and ids are below the next one |
| `Streams.LiveExactly` | p2p/stream.go:75-106 | over every interleaving the live streams are exactly those registered and not deregistered since, each under its number among the registrations |
| `Streams.NextIsCount` | p2p/stream.go:82-84 | the next id is the number of registrations |
| `Streams.DeregisteredForGood` | p2p/stream.go:108-120 | deregistering an id again changes nothing, whatever happened in between |

## Left out

- HTTP handlers, command definitions and encoders, start-up, migrations, FUSE and plugins: input and output.
- The datastore's own garbage collection after a sweep, and flushing of pins: no state that the model has.
- `dspinner`'s datastore indexes: the pin sets stand for them.
- Fetch depth limits, progress tracking and sessions of `FetchGraphWithDepthLimit`.
- `isKnownHostname`: exact, port-less and wildcard lookup is an arbitrary function from hosts to gateways in `Subdomain`.
- CID and peer-ID re-encoding in `toSubdomainURL`: base32 and base36 codecs are in libraries.
- `ImportTar` and `escapePath`: link sorting and entry replacement happen in libraries, so only the export side is proved.
- A delete that fails after it has had an effect: a failure changes nothing in the model.
- `WriteEdge`: formatting, and an emitter that fails, which ends a listing early.
- `GetDAG`: `refs` asks for all children of a node at once, and one that cannot be decoded can fail others that come after it; in the model each is fetched on its own.
- Locking of `addrs` in the peering handlers, and when a timer fires: a timer is present or absent, and a reconnect attempt may end at any time.
- `GcMark.MarkingIsColored`: equality is for a store that is fixed during the marking; while blocks are written the marks are only bounded from both sides (`GcMark.MarkingBetween`), because what a late block leads to depends on when it arrives.
- What the adder puts into its MFS root, and flushing of it: any blocks may be written, and any root pinned, between two pauses.
- 64-bit wrap-around of stream ids and of `cat` and seek offsets.
- Repository locking, bootstrap lists, key renaming, contribution counting: they would only add easy members.
