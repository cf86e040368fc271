/** The lock protocol between the collector, `block rm` and everything that pins.

The blockstore's lock is a read-write mutex: pinned writers and pin edits hold it
shared, deleters hold it exclusively.  A thread's operation is cut into atomic
steps; every interleaving of the steps of any number of threads is a run. */
module GcLock {
  import opened Ipld
  import opened DagWalk
  import BlockRm
  import Runs

  type Tid = nat

  datatype Edit =
    | PinAdd(c: Cid, recursive: bool)
    | PinRm(c: Cid, recursive: bool)
    | PinUpdate(from: Cid, to: Cid, unpin: bool)

  datatype Stage = RecursiveStage | BestEffortStage | InternalStage

  datatype Op =
    // under PinLock
    | Adding(nodes: seq<Cid>, n: nat)      // nodes[..n] are written
    | Pinning(nodes: seq<Cid>, n: nat)     // all are written, nodes[..n] are pinned
    | Editing(edit: Edit, checked: bool, fetched: set<Cid>)
    | Edited
    | Uploading(written: set<Cid>)         // `ipfs add`, between two pauses
    // under GCLock
    | Marking(stage: Stage, marked: set<Cid>, todo: set<Cid>, be: set<Cid>, internal: set<Cid>)
    | Sweeping(marked: set<Cid>)
    | Checking(cids: set<Cid>)
    | Removing(cids: set<Cid>)
    | GivenUp
  {
    predicate Shared() { Adding? || Pinning? || Editing? || Edited? || Uploading? }
  }

  /** `readers` and `writer` are the mutex; `ops` holds the threads that are inside an
      operation. */
  datatype State = State(store: set<Cid>, rec: set<Cid>, dir: set<Cid>,
                         readers: int, writer: bool, ops: map<Tid, Op>)

  ghost predicate Init(s: State) { s.readers == 0 && !s.writer && s.ops == map[] }

  /** What must survive: direct pins, and all that is reachable from recursive pins. */
  ghost function Protected(s: State): (r: set<Cid>) { Pins(s).Protected() }

  function Pins(s: State): (r: BlockRm.Pins) { BlockRm.Pins(s.rec, s.dir) }

  datatype Action =
    | PutUnpinned(c: Cid)                            // Put without pin, or a fetch: no lock
    | StartAdd(t: Tid, nodes: seq<Cid>)              // Put with pin, Add, AddMany: PinLock
    | WriteBlock(t: Tid)
    | PinNode(t: Tid)
    | StartEdit(t: Tid, edit: Edit)                  // pin add, rm, update: PinLock
    | CheckEdit(t: Tid)                              // look at the pins, then fetch without the pinner's lock
    | FetchBlock(t: Tid, c: Cid)
    | ApplyEdit(t: Tid)
    | StartUpload(t: Tid)                            // ipfs add: PinLock, first or after a pause
    | UploadBlock(t: Tid, c: Cid)
    | PinRoot(t: Tid, c: Cid)
    | ReleaseShared(t: Tid)                          // normal end, error return or pause
    | StartGC(t: Tid, be: set<Cid>, internal: set<Cid>)   // GCLock
    | MarkVisit(t: Tid, c: Cid, broken: set<Cid>)
    | MarkNext(t: Tid)
    | SweepKey(t: Tid, k: Cid)
    | StartRm(t: Tid, cids: set<Cid>)                // RmBlocks: GCLock
    | CheckPins(t: Tid)                              // FilterPinned, when its check succeeds
    | RemoveBlock(t: Tid, c: Cid)
    | ReleaseExclusive(t: Tid)                       // normal end, error or cancellation

  ghost predicate Enabled(s: State, a: Action)
  {
    match a
    case PutUnpinned(_) => true
    case StartAdd(t, _) => t !in s.ops && !s.writer
    case WriteBlock(t) => t in s.ops && s.ops[t].Adding?
    case PinNode(t) => t in s.ops && s.ops[t].Pinning? && s.ops[t].n < |s.ops[t].nodes|
    case StartEdit(t, _) => t !in s.ops && !s.writer
    case FetchBlock(t, _) => t in s.ops && s.ops[t].Editing?
    case CheckEdit(t) => t in s.ops && s.ops[t].Editing? && !s.ops[t].checked
    case ApplyEdit(t) => t in s.ops && s.ops[t].Editing? && s.ops[t].checked && Ready(s.ops[t].edit, s.ops[t].fetched)
    case StartUpload(t) => t !in s.ops && !s.writer
    case UploadBlock(t, _) => t in s.ops && s.ops[t].Uploading?
    case PinRoot(t, _) => t in s.ops && s.ops[t].Uploading?
    case ReleaseShared(t) => t in s.ops && s.ops[t].Shared()
    case StartGC(t, _, _) => t !in s.ops && !s.writer && s.readers == 0
    case MarkVisit(t, c, _) => t in s.ops && s.ops[t].Marking? && c in s.ops[t].todo
    case MarkNext(t) => t in s.ops && s.ops[t].Marking? && s.ops[t].todo == {}
    case SweepKey(t, k) => t in s.ops && s.ops[t].Sweeping?
    case StartRm(t, _) => t !in s.ops && !s.writer && s.readers == 0
    case CheckPins(t) => t in s.ops && s.ops[t].Checking?
    case RemoveBlock(t, c) => t in s.ops && s.ops[t].Removing? && c in s.ops[t].cids
    case ReleaseExclusive(t) => t in s.ops && !s.ops[t].Shared()
  }

  /** The check before the fetch: the edit is already done, or an error. */
  predicate Stops(rec: set<Cid>, e: Edit)
  {
    match e
    case PinAdd(c, recursive) => recursive && c in rec
    case PinRm(_, _) => false
    case PinUpdate(from, to, _) => from !in rec || from == to || to in rec
  }

  /** What must have been fetched before the pins are edited: the node, for a recursive pin
      all of its graph as Fetch.FetchGraph gets it, for an update what Fetch.DiffEnumerate
      gets. */
  ghost predicate Ready(e: Edit, fetched: set<Cid>)
  {
    match e
    case PinAdd(c, recursive) => if recursive then Desc(c) <= fetched else c in fetched
    case PinRm(_, _) => true
    case PinUpdate(from, to, _) => Desc(to) <= Desc(from) + fetched
  }

  /** The edit itself.  `pin add` looks again whether the pin is there; `pin update` does
      not look again, and leaves a direct pin of its target alone. */
  function EditPins(rec: set<Cid>, dir: set<Cid>, e: Edit): (r: (set<Cid>, set<Cid>))
  {
    match e
    case PinAdd(c, true) => if c in rec then (rec, dir) else (rec + {c}, dir - {c})
    case PinAdd(c, false) => if c in rec then (rec, dir) else (rec, dir + {c})
    case PinRm(c, recursive) => if c in rec && !recursive then (rec, dir) else (rec - {c}, dir - {c})
    case PinUpdate(from, to, unpin) => (rec + {to} - (if unpin then {from} else {}), dir)
  }

  /** What an edit adds to the recursive pins, and what it drops. */
  ghost predicate AddsRec(e: Edit, x: Cid) { (e.PinAdd? && e.recursive && e.c == x) || (e.PinUpdate? && e.to == x) }

  ghost predicate DropsRec(e: Edit, x: Cid)
  {
    (e.PinRm? && e.recursive && e.c == x) || (e.PinUpdate? && e.unpin && e.from == x)
  }

  /** The recursive pins after an edit, by membership: what it drops is gone, what it adds is
      there, and no other CID changes. */
  lemma EditRec(rec: set<Cid>, dir: set<Cid>, e: Edit, x: Cid)
    ensures x in EditPins(rec, dir, e).0 <==> !DropsRec(e, x) && (x in rec || AddsRec(e, x))
  {
  }

  /** The direct pins: a direct `pin add` adds one unless the CID is pinned recursively, a
      recursive one that is new drops it, and so does `pin rm`, unless it was not asked to
      remove the recursive pin that is there. */
  lemma EditDir(rec: set<Cid>, dir: set<Cid>, e: Edit, x: Cid)
    ensures x in EditPins(rec, dir, e).1 <==>
              || (x in dir && !(e.PinAdd? && e.recursive && e.c == x && x !in rec)
                           && !(e.PinRm? && e.c == x && (e.recursive || x !in rec)))
              || (e.PinAdd? && !e.recursive && e.c == x && x !in rec)
  {
  }

  /** The check before the fetch ends an edit exactly when it has nothing to add: a recursive
      `pin add` of what is so pinned, and an update of what is not, to itself, or to what
      is so pinned. */
  lemma StopsMeaning(rec: set<Cid>, e: Edit)
    ensures Stops(rec, e) <==>
              || (e.PinAdd? && e.recursive && e.c in rec)
              || (e.PinUpdate? && (e.from !in rec || e.to == e.from || e.to in rec))
  {
  }

  /** One step of the marking: visit a pending CID.  A failure that the source would
      flag or abort on leads to a run that never sweeps. */
  ghost function Visit(op: Op, c: Cid, st: Store): (r: Op)
    requires op.Marking?
  {
    var rest := op.todo - {c};
    if c in op.marked then op.(todo := rest)
    else match React(if op.stage == BestEffortStage then BestEffort else Strict, st, c)
         case Expand => op.(marked := op.marked + {c}, todo := rest + Kids(c))
         case Ignore => op.(marked := op.marked + {c}, todo := rest)
         case Report => GivenUp
         case Abort => GivenUp
  }

  ghost function NextStage(op: Op, dir: set<Cid>): (r: Op)
    requires op.Marking?
  {
    match op.stage
    case RecursiveStage => op.(stage := BestEffortStage, todo := op.be)
    case BestEffortStage => op.(stage := InternalStage, marked := op.marked + dir, todo := op.internal)
    case InternalStage => Sweeping(op.marked)
  }

  ghost function Do(s: State, a: Action): (s': State)
    requires Enabled(s, a)
  {
    match a
    case PutUnpinned(c) => s.(store := s.store + {c})
    case StartAdd(t, nodes) => s.(readers := s.readers + 1, ops := s.ops[t := Adding(nodes, 0)])
    case WriteBlock(t) =>
      var op := s.ops[t];
      if op.n < |op.nodes|
      then s.(store := s.store + {op.nodes[op.n]}, ops := s.ops[t := Adding(op.nodes, op.n + 1)])
      else s.(ops := s.ops[t := Pinning(op.nodes, 0)])
    case PinNode(t) =>
      var op := s.ops[t];
      s.(rec := s.rec + {op.nodes[op.n]}, ops := s.ops[t := Pinning(op.nodes, op.n + 1)])
    case StartEdit(t, e) => s.(readers := s.readers + 1, ops := s.ops[t := Editing(e, false, {})])
    case CheckEdit(t) =>
      var op := s.ops[t];
      s.(ops := s.ops[t := if Stops(s.rec, op.edit) then Edited else op.(checked := true)])
    case FetchBlock(t, c) =>
      var op := s.ops[t];
      s.(store := s.store + {c}, ops := s.ops[t := op.(fetched := op.fetched + {c})])
    case ApplyEdit(t) =>
      var pins := EditPins(s.rec, s.dir, s.ops[t].edit);
      s.(rec := pins.0, dir := pins.1, ops := s.ops[t := Edited])
    case StartUpload(t) => s.(readers := s.readers + 1, ops := s.ops[t := Uploading({})])
    case UploadBlock(t, c) => s.(store := s.store + {c}, ops := s.ops[t := Uploading(s.ops[t].written + {c})])
    case PinRoot(t, c) =>
      s.(store := s.store + {c}, rec := s.rec + {c}, ops := s.ops[t := Uploading(s.ops[t].written + {c})])
    case ReleaseShared(t) => s.(readers := s.readers - 1, ops := s.ops - {t})
    case StartGC(t, be, internal) =>
      s.(writer := true, ops := s.ops[t := Marking(RecursiveStage, {}, s.rec, be, internal)])
    case MarkVisit(t, c, broken) => s.(ops := s.ops[t := Visit(s.ops[t], c, Store(s.store, broken))])
    case MarkNext(t) => s.(ops := s.ops[t := NextStage(s.ops[t], s.dir)])
    case SweepKey(t, k) => if k in s.ops[t].marked then s else s.(store := s.store - {k})
    case StartRm(t, cids) => s.(writer := true, ops := s.ops[t := Checking(cids)])
    case CheckPins(t) => s.(ops := s.ops[t := Removing(BlockRm.MayGo(Pins(s), s.ops[t].cids))])
    case RemoveBlock(t, c) => s.(store := s.store - {c}, ops := s.ops[t := Removing(s.ops[t].cids - {c})])
    case ReleaseExclusive(t) => s.(writer := false, ops := s.ops - {t})
  }

  // ------------------------------------------------------------------ the invariant

  ghost function SharedTids(ops: map<Tid, Op>): (r: set<Tid>) { set t | t in ops && ops[t].Shared() }
  ghost function ExclusiveTids(ops: map<Tid, Op>): (r: set<Tid>) { set t | t in ops && !ops[t].Shared() }

  /** The mutex counts its holders, and never holds both kinds. */
  ghost predicate LockInv(s: State)
  {
    && s.readers == |SharedTids(s.ops)|
    && |ExclusiveTids(s.ops)| == (if s.writer then 1 else 0)
    && (s.writer ==> s.readers == 0)
  }

  /** What an operation may rely on while it holds its lock. */
  ghost predicate OpInv(s: State, op: Op)
  {
    match op
    case Adding(nodes, n) => n <= |nodes| && forall i :: 0 <= i < n ==> nodes[i] in s.store
    case Pinning(nodes, n) => n <= |nodes| && forall i :: 0 <= i < |nodes| ==> nodes[i] in s.store
    case Editing(_, _, fetched) => fetched <= s.store
    case Uploading(written) => written <= s.store
    case Marking(RecursiveStage, marked, todo, _, _) =>
      s.rec <= marked + todo && forall x :: x in marked ==> Kids(x) <= marked + todo
    case Marking(BestEffortStage, marked, _, _, _) => DescAll(s.rec) <= marked
    case Marking(InternalStage, marked, _, _, _) => Protected(s) <= marked
    case Sweeping(marked) => Protected(s) <= marked
    case Removing(cids) => cids !! Protected(s)
    case _ => true
  }

  ghost predicate Inv(s: State)
  {
    LockInv(s) && forall t :: t in s.ops ==> OpInv(s, s.ops[t])
  }

  lemma TidsEnter(ops: map<Tid, Op>, t: Tid, op: Op)
    requires t !in ops
    ensures |SharedTids(ops[t := op])| == |SharedTids(ops)| + (if op.Shared() then 1 else 0)
    ensures |ExclusiveTids(ops[t := op])| == |ExclusiveTids(ops)| + (if op.Shared() then 0 else 1)
  {
    if op.Shared() {
      assert SharedTids(ops[t := op]) == SharedTids(ops) + {t};
      assert ExclusiveTids(ops[t := op]) == ExclusiveTids(ops);
    } else {
      assert SharedTids(ops[t := op]) == SharedTids(ops);
      assert ExclusiveTids(ops[t := op]) == ExclusiveTids(ops) + {t};
    }
  }

  lemma TidsStay(ops: map<Tid, Op>, t: Tid, op: Op)
    requires t in ops && op.Shared() == ops[t].Shared()
    ensures SharedTids(ops[t := op]) == SharedTids(ops) && ExclusiveTids(ops[t := op]) == ExclusiveTids(ops)
  {
  }

  lemma TidsLeave(ops: map<Tid, Op>, t: Tid)
    requires t in ops
    ensures |SharedTids(ops - {t})| == |SharedTids(ops)| - (if ops[t].Shared() then 1 else 0)
    ensures |ExclusiveTids(ops - {t})| == |ExclusiveTids(ops)| - (if ops[t].Shared() then 0 else 1)
  {
    assert SharedTids(ops - {t}) == SharedTids(ops) - {t};
    assert ExclusiveTids(ops - {t}) == ExclusiveTids(ops) - {t};
  }

  lemma LockPreserved(s: State, a: Action)
    requires LockInv(s) && Enabled(s, a)
    ensures LockInv(Do(s, a))
  {
    var s' := Do(s, a);
    match a
    case PutUnpinned(_) =>
    case SweepKey(_, _) =>
    case FetchBlock(t, _) => TidsStay(s.ops, t, s'.ops[t]);
    case CheckEdit(t) => TidsStay(s.ops, t, s'.ops[t]);
    case StartAdd(t, _) => TidsEnter(s.ops, t, s'.ops[t]);
    case StartEdit(t, _) => TidsEnter(s.ops, t, s'.ops[t]);
    case StartUpload(t) => TidsEnter(s.ops, t, s'.ops[t]);
    case UploadBlock(t, _) => TidsStay(s.ops, t, s'.ops[t]);
    case PinRoot(t, _) => TidsStay(s.ops, t, s'.ops[t]);
    case StartGC(t, _, _) => TidsEnter(s.ops, t, s'.ops[t]);
    case StartRm(t, _) => TidsEnter(s.ops, t, s'.ops[t]);
    case ReleaseShared(t) => TidsLeave(s.ops, t);
    case ReleaseExclusive(t) => TidsLeave(s.ops, t);
    case WriteBlock(t) => TidsStay(s.ops, t, s'.ops[t]);
    case PinNode(t) => TidsStay(s.ops, t, s'.ops[t]);
    case ApplyEdit(t) => TidsStay(s.ops, t, s'.ops[t]);
    case MarkVisit(t, _, _) => TidsStay(s.ops, t, s'.ops[t]);
    case MarkNext(t) => TidsStay(s.ops, t, s'.ops[t]);
    case CheckPins(t) => TidsStay(s.ops, t, s'.ops[t]);
    case RemoveBlock(t, _) => TidsStay(s.ops, t, s'.ops[t]);
  }

  lemma Singleton(ts: set<Tid>, t: Tid)
    requires |ts| <= 1 && t in ts
    ensures ts == {t}
  {
    assert |ts - {t}| == 0;
  }

  /** While one thread is inside an exclusive operation, no other thread is inside any. */
  lemma ExclusiveIsAlone(s: State, t: Tid)
    requires LockInv(s) && t in s.ops && !s.ops[t].Shared()
    ensures s.ops.Keys == {t}
  {
    Singleton(ExclusiveTids(s.ops), t);
    assert SharedTids(s.ops) == {};
    assert s.ops.Keys == ExclusiveTids(s.ops) + SharedTids(s.ops);
  }

  /** A thread that holds the lock shared excludes every deleter. */
  lemma SharedExcludes(s: State, t: Tid, u: Tid)
    requires LockInv(s) && t in s.ops && u in s.ops && s.ops[t].Shared()
    ensures s.ops[u].Shared()
  {
    if !s.ops[u].Shared() { ExclusiveIsAlone(s, u); }
  }

  // ------------------------------------------------------------------ preservation

  /** The visit keeps the marking's own invariant: nothing it has marked has an
      unmarked child that is not pending. */
  lemma VisitKeeps(s: State, op: Op, c: Cid, st: Store)
    requires op.Marking? && c in op.todo && OpInv(s, op)
    ensures OpInv(s, Visit(op, c, st))
  {
  }

  lemma StageKeeps(s: State, op: Op)
    requires op.Marking? && op.todo == {} && OpInv(s, op)
    ensures OpInv(s, NextStage(op, s.dir))
  {
    if op.stage == RecursiveStage {
      forall r | r in s.rec ensures Desc(r) <= op.marked {
        DescLeast(r, op.marked);
      }
    }
  }

  /** A step of a thread that leaves the pins alone and deletes nothing keeps what every
      other thread relies on. */
  lemma OthersKept(s: State, s': State, op: Op)
    requires OpInv(s, op) && s.store <= s'.store && s'.rec == s.rec && s'.dir == s.dir
    ensures OpInv(s', op)
  {
  }

  /** A pin edit touches no deleter's assumption, for no deleter is running. */
  lemma SharedKept(s: State, s': State, op: Op)
    requires OpInv(s, op) && op.Shared() && s.store <= s'.store
    ensures OpInv(s', op)
  {
  }

  /** A delete keeps the deleter's own assumption, which speaks of pins only. */
  lemma DeleterKept(s: State, c: Cid, op: Op)
    requires OpInv(s, op) && (op.Sweeping? || op.Removing?)
    ensures OpInv(s.(store := s.store - {c}), op)
    ensures op.Removing? ==> OpInv(s.(store := s.store - {c}), Removing(op.cids - {c}))
  {
  }

  ghost predicate Deleting(a: Action)
  {
    a.MarkVisit? || a.MarkNext? || a.SweepKey? || a.CheckPins? || a.RemoveBlock?
  }

  /** Exclusive steps: the thread is alone, so only its own operation has to be looked at. */
  lemma ExclusiveStep(s: State, a: Action, t: Tid)
    requires Inv(s) && Enabled(s, a) && t in s.ops && !s.ops[t].Shared() && t in Do(s, a).ops
    requires Deleting(a) && a.t == t
    ensures OpInv(Do(s, a), Do(s, a).ops[t])
  {
    var s' := Do(s, a);
    match a
    case MarkVisit(_, c, broken) =>
      VisitKeeps(s, s.ops[t], c, Store(s.store, broken));
      OthersKept(s, s', s'.ops[t]);
    case MarkNext(_) =>
      StageKeeps(s, s.ops[t]);
      OthersKept(s, s', s'.ops[t]);
    case SweepKey(_, k) => DeleterKept(s, k, s.ops[t]);
    case RemoveBlock(_, c) => DeleterKept(s, c, s.ops[t]);
    case CheckPins(_) =>
  }

  /** The other steps delete nothing ... */
  lemma StoreGrows(s: State, a: Action)
    requires Enabled(s, a) && !Deleting(a)
    ensures s.store <= Do(s, a).store
    ensures !(a.PinNode? || a.ApplyEdit? || a.PinRoot?) ==> Do(s, a).rec == s.rec && Do(s, a).dir == s.dir
  {
  }

  /** ... and leave their own thread with what it may rely on. */
  lemma OwnKept(s: State, a: Action, u: Tid)
    requires Enabled(s, a) && !Deleting(a) && u in Do(s, a).ops
    requires u in s.ops ==> OpInv(s, s.ops[u])
    requires u !in s.ops || Do(s, a).ops[u] != s.ops[u]
    ensures OpInv(Do(s, a), Do(s, a).ops[u])
  {
  }

  /** Steps of threads that hold the lock shared, and steps without it. */
  lemma SharedStep(s: State, a: Action, u: Tid)
    requires Inv(s) && Enabled(s, a) && !Deleting(a) && u in Do(s, a).ops
    ensures OpInv(Do(s, a), Do(s, a).ops[u])
  {
    var s' := Do(s, a);
    if u !in s.ops || s'.ops[u] != s.ops[u] {
      OwnKept(s, a, u);
    } else {
      StoreGrows(s, a);
      if a.PinNode? || a.ApplyEdit? || a.PinRoot? {
        SharedExcludes(s, a.t, u);
        SharedKept(s, s', s.ops[u]);
      } else {
        OthersKept(s, s', s.ops[u]);
      }
    }
  }

  lemma DeletingStep(s: State, a: Action, u: Tid)
    requires Inv(s) && Enabled(s, a) && Deleting(a) && u in Do(s, a).ops
    ensures OpInv(Do(s, a), Do(s, a).ops[u])
  {
    ExclusiveIsAlone(s, a.t);
    ExclusiveStep(s, a, a.t);
  }

  lemma Preserved(s: State, a: Action)
    requires Inv(s) && Enabled(s, a)
    ensures Inv(Do(s, a))
  {
    LockPreserved(s, a);
    forall u | u in Do(s, a).ops ensures OpInv(Do(s, a), Do(s, a).ops[u]) {
      if Deleting(a) { DeletingStep(s, a, u); } else { SharedStep(s, a, u); }
    }
  }

  // ------------------------------------------------------------------ safety

  lemma SweepSpares(s: State, t: Tid, k: Cid)
    requires Inv(s) && Enabled(s, SweepKey(t, k))
    ensures k in s.ops[t].marked || k !in Protected(s)
  {
    assert OpInv(s, s.ops[t]);
  }

  lemma RemovalSpares(s: State, t: Tid, c: Cid)
    requires Inv(s) && Enabled(s, RemoveBlock(t, c))
    ensures c !in Protected(s)
  {
    assert OpInv(s, s.ops[t]);
  }

  /** No step deletes a protected block. */
  lemma NoProtectedDelete(s: State, a: Action)
    requires Inv(s) && Enabled(s, a)
    ensures (s.store - Do(s, a).store) !! Protected(s)
    ensures s.store - Do(s, a).store != {} ==> Protected(Do(s, a)) == Protected(s)
  {
    if a.SweepKey? {
      SweepSpares(s, a.t, a.k);
    } else if a.RemoveBlock? {
      RemovalSpares(s, a.t, a.c);
    } else if !Deleting(a) {
      StoreGrows(s, a);
    }
  }

  ghost predicate Next(s: State, a: Action, s': State) { Enabled(s, a) && s' == Do(s, a) }

  /** A run: any interleaving of any threads' steps from any store and pins. */
  ghost predicate Run(ss: seq<State>, acts: seq<Action>)
  {
    Runs.Steps(Next, ss, acts) && Init(ss[0])
  }

  lemma {:induction false} RunInv(ss: seq<State>, acts: seq<Action>, i: nat)
    requires Run(ss, acts) && i < |ss|
    ensures Inv(ss[i])
  {
    if i == 0 {
      assert SharedTids(ss[0].ops) == {} && ExclusiveTids(ss[0].ops) == {};
    } else {
      RunInv(ss, acts, i - 1);
      Preserved(ss[i - 1], acts[i - 1]);
    }
  }

  /** The safety theorem: over every run, a stored block stays for as long as it is
      directly pinned or reachable from a recursive pin. */
  lemma {:induction false} ProtectedStays(ss: seq<State>, acts: seq<Action>, c: Cid, i: nat, j: nat)
    requires Run(ss, acts) && i <= j < |ss|
    requires c in ss[i].store
    requires forall k :: i <= k < j ==> c in Protected(ss[k])
    ensures c in ss[j].store
    decreases j
  {
    if i < j {
      ProtectedStays(ss, acts, c, i, j - 1);
      ProtectedKept(ss, acts, c, j - 1);
    }
  }

  lemma ProtectedKept(ss: seq<State>, acts: seq<Action>, c: Cid, i: nat)
    requires Run(ss, acts) && i < |acts| && c in ss[i].store && c in Protected(ss[i])
    ensures c in ss[i + 1].store
  {
    RunInv(ss, acts, i);
    NoProtectedDelete(ss[i], acts[i]);
  }

  /** Over every run, when a pinned add has written its blocks and is about to release
      its lock, every block it wrote is still there. */
  lemma PinnedAddComplete(ss: seq<State>, acts: seq<Action>, i: nat, t: Tid)
    requires Run(ss, acts) && i < |acts| && acts[i] == ReleaseShared(t)
    ensures forall c :: ss[i].ops[t].Pinning? && c in ss[i].ops[t].nodes ==> c in ss[i + 1].store
    ensures forall k :: ss[i].ops[t].Adding? && 0 <= k < ss[i].ops[t].n <= |ss[i].ops[t].nodes|
                        ==> ss[i].ops[t].nodes[k] in ss[i + 1].store
  {
    RunInv(ss, acts, i);
  }

  /** While a thread holds the lock shared, the store only grows. */
  lemma {:induction false} SharedKeepsStore(ss: seq<State>, acts: seq<Action>, t: Tid, i: nat, j: nat)
    requires Run(ss, acts) && i <= j < |ss|
    requires forall k :: i <= k < j ==> t in ss[k].ops && ss[k].ops[t].Shared()
    ensures ss[i].store <= ss[j].store
    decreases j
  {
    if i < j {
      SharedKeepsStore(ss, acts, t, i, j - 1);
      SharedStepOf(ss, acts, t, j - 1);
    }
  }

  lemma SharedStepOf(ss: seq<State>, acts: seq<Action>, t: Tid, k: nat)
    requires Run(ss, acts) && k < |acts| && t in ss[k].ops && ss[k].ops[t].Shared()
    ensures ss[k].store <= ss[k + 1].store
  {
    RunInv(ss, acts, k);
    SharedStepGrows(ss[k], acts[k], t);
  }

  lemma SharedStepGrows(s: State, a: Action, t: Tid)
    requires LockInv(s) && Enabled(s, a) && t in s.ops && s.ops[t].Shared()
    ensures s.store <= Do(s, a).store
  {
    if a.SweepKey? || a.RemoveBlock? { SharedExcludes(s, t, a.t); }
  }

  /** A graph that is complete stays complete while its root is pinned recursively. */
  lemma WholeStays(ss: seq<State>, acts: seq<Action>, c: Cid, i: nat, j: nat)
    requires Run(ss, acts) && i <= j < |ss| && Desc(c) <= ss[i].store
    requires forall k :: i <= k < j ==> c in ss[k].rec
    ensures Desc(c) <= ss[j].store
  {
    forall x | x in Desc(c) ensures x in ss[j].store {
      ProtectedStays(ss, acts, x, i, j);
    }
  }

  /** Over every run, a `pin add` that pins leaves the whole graph stored for as long as it
      stays pinned. */
  lemma PinAddWhole(ss: seq<State>, acts: seq<Action>, t: Tid, c: Cid, i: nat, j: nat)
    requires Run(ss, acts) && i < j < |ss| && acts[i] == ApplyEdit(t) && ss[i].ops[t].edit == PinAdd(c, true)
    requires forall k :: i < k < j ==> c in ss[k].rec
    ensures Desc(c) <= ss[j].store
  {
    RunInv(ss, acts, i);
    assert OpInv(ss[i], ss[i].ops[t]);
    WholeStays(ss, acts, c, i + 1, j);
  }

  /** A step that drops a recursive pin: the edit of a `pin rm` or an unpinning `pin update`. */
  ghost predicate Drops(s: State, a: Action, c: Cid)
  {
    a.ApplyEdit? && Enabled(s, a) && DropsRec(s.ops[a.t].edit, c)
  }

  /** A step that adds one: the pin of a pinned add, of an upload's root, or an edit. */
  ghost predicate Adds(s: State, a: Action, c: Cid)
  {
    && Enabled(s, a)
    && (|| (a.PinNode? && s.ops[a.t].nodes[s.ops[a.t].n] == c)
        || (a.PinRoot? && a.c == c)
        || (a.ApplyEdit? && AddsRec(s.ops[a.t].edit, c) && !DropsRec(s.ops[a.t].edit, c)))
  }

  /** No other step changes the recursive pins. */
  lemma PinsChange(s: State, a: Action, c: Cid)
    requires Enabled(s, a)
    ensures c in Do(s, a).rec <==> Adds(s, a, c) || (c in s.rec && !Drops(s, a, c))
  {
    if a.ApplyEdit? { EditRec(s.rec, s.dir, s.ops[a.t].edit, c); }
  }

  /** And only an edit changes the direct pins. */
  lemma DirectPinsChange(s: State, a: Action)
    requires Enabled(s, a) && !a.ApplyEdit?
    ensures Do(s, a).dir == s.dir
  {
  }

  /** Over every run, a recursive pin stays until a step drops it. */
  lemma {:induction false} PinStays(ss: seq<State>, acts: seq<Action>, c: Cid, i: nat, j: nat)
    requires Run(ss, acts) && i <= j < |ss| && c in ss[i].rec
    requires forall k :: i <= k < j ==> !Drops(ss[k], acts[k], c)
    ensures c in ss[j].rec
    decreases j
  {
    if i < j {
      PinStays(ss, acts, c, i, j - 1);
      PinsChange(ss[j - 1], acts[j - 1], c);
    }
  }

  /** So the graph of a `pin add` stays stored until its pin is dropped by a `pin rm` or an
      unpinning `pin update` of that very CID. */
  lemma PinAddLasts(ss: seq<State>, acts: seq<Action>, t: Tid, c: Cid, i: nat, j: nat)
    requires Run(ss, acts) && i < j < |ss| && acts[i] == ApplyEdit(t) && ss[i].ops[t].edit == PinAdd(c, true)
    requires forall k :: i < k < j ==> !Drops(ss[k], acts[k], c)
    ensures Desc(c) <= ss[j].store && c in ss[j].rec
  {
    PinsChange(ss[i], acts[i], c);
    forall k | i < k <= j ensures c in ss[k].rec { PinStays(ss, acts, c, i + 1, k); }
    PinAddWhole(ss, acts, t, c, i, j);
  }

  /** An update that keeps the old pin takes protection from nothing. */
  lemma KeepingUpdateProtects(s: State, t: Tid, from: Cid, to: Cid)
    requires Enabled(s, ApplyEdit(t)) && s.ops[t].edit == PinUpdate(from, to, false)
    ensures Protected(Do(s, ApplyEdit(t))) == Protected(s) + Desc(to)
  {
    var s' := Do(s, ApplyEdit(t));
    assert s'.rec == s.rec + {to} && s'.dir == s.dir;
    assert DescAll(s.rec + {to}) == DescAll(s.rec) + Desc(to);
  }

  /** The edit of a `pin update` finds the new graph complete iff what the two graphs share
      is stored: the fetch trusts the old graph for that part. */
  lemma UpdateComplete(ss: seq<State>, acts: seq<Action>, t: Tid, e: Edit, i: nat)
    requires Run(ss, acts) && i < |acts| && acts[i] == ApplyEdit(t) && e.PinUpdate? && ss[i].ops[t].edit == e
    ensures Desc(e.to) <= ss[i + 1].store <==> Desc(e.from) * Desc(e.to) <= ss[i].store
  {
    RunInv(ss, acts, i);
    assert OpInv(ss[i], ss[i].ops[t]) && Ready(e, ss[i].ops[t].fetched);
  }

  /** So a `pin update` leaves the whole new graph stored while it stays pinned, if the shared
      part was stored at any moment since the update took its lock. */
  lemma PinUpdateWhole(ss: seq<State>, acts: seq<Action>, t: Tid, e: Edit, h: nat, i: nat, j: nat)
    requires Run(ss, acts) && h <= i < j < |ss| && acts[i] == ApplyEdit(t)
    requires e.PinUpdate? && ss[i].ops[t].edit == e && Desc(e.from) * Desc(e.to) <= ss[h].store
    requires forall k :: h <= k < i ==> t in ss[k].ops && ss[k].ops[t].Shared()
    requires forall k :: i < k < j ==> e.to in ss[k].rec
    ensures Desc(e.to) <= ss[j].store
  {
    SharedKeepsStore(ss, acts, t, h, i);
    UpdateComplete(ss, acts, t, e, i);
    WholeStays(ss, acts, e.to, i + 1, j);
  }

  /** In particular after a `pin add` of the old graph, if it stayed pinned until then. */
  lemma UpdateAfterAdd(ss: seq<State>, acts: seq<Action>, u: Tid, t: Tid, e: Edit, g: nat, h: nat, i: nat, j: nat)
    requires Run(ss, acts) && g < h <= i < j < |ss| && e.PinUpdate?
    requires acts[g] == ApplyEdit(u) && ss[g].ops[u].edit == PinAdd(e.from, true)
    requires acts[i] == ApplyEdit(t) && ss[i].ops[t].edit == e
    requires forall k :: g < k < h ==> e.from in ss[k].rec
    requires forall k :: h <= k < i ==> t in ss[k].ops && ss[k].ops[t].Shared()
    requires forall k :: i < k < j ==> e.to in ss[k].rec
    ensures Desc(e.to) <= ss[j].store
  {
    PinAddWhole(ss, acts, u, e.from, g, h);
    PinUpdateWhole(ss, acts, t, e, h, i, j);
  }

  /** What a `pin update` makes of the pins when nothing comes between its check and its
      edit: nothing when the check ends it. */
  function Updated(rec: set<Cid>, dir: set<Cid>, e: Edit): (r: (set<Cid>, set<Cid>))
  {
    if Stops(rec, e) then (rec, dir) else EditPins(rec, dir, e)
  }

  function AddedThenRemoved(rec: set<Cid>, dir: set<Cid>, from: Cid, to: Cid): (r: (set<Cid>, set<Cid>))
  {
    var added := EditPins(rec, dir, PinAdd(to, true));
    EditPins(added.0, added.1, PinRm(from, true))
  }

  /** The pins that an unpinning update leaves are those of adding the new pin and removing
      the old one iff the two CIDs differ, the new one is not pinned in any way and the old
      one is not pinned directly too.  An update of what is not pinned recursively is
      refused; then it takes that the two calls would change nothing either. */
  lemma UpdatePins(rec: set<Cid>, dir: set<Cid>, from: Cid, to: Cid)
    ensures Updated(rec, dir, PinUpdate(from, to, true)) == AddedThenRemoved(rec, dir, from, to) <==>
            if from in rec then from != to && to !in rec && from !in dir && to !in dir
            else from !in dir && (to in rec || to == from)
  {
    var u, r := Updated(rec, dir, PinUpdate(from, to, true)), AddedThenRemoved(rec, dir, from, to);
    assert r.0 == rec + {to} - {from};
    assert r.1 == (if to in rec then dir else dir - {to}) - {from};
    assert from in dir ==> from in u.1 && from !in r.1;
    if from in rec {
      if from == to || to in rec {
        assert from in u.0 && from !in r.0;
      } else {
        assert to in dir ==> to in u.1 && to !in r.1;
        assert from !in dir && to !in dir ==> u.1 == r.1;
      }
    } else {
      assert to !in rec && to != from ==> to in r.0 && to !in u.0;
      assert from !in dir && (to in rec || to == from) ==> u.0 == r.0 && u.1 == r.1;
    }
  }

  /** An update of a pinned CID to itself keeps the pin that adding and removing it drops. */
  lemma UpdateToItself(rec: set<Cid>, dir: set<Cid>, c: Cid)
    requires c in rec
    ensures c in Updated(rec, dir, PinUpdate(c, c, true)).0 && c !in AddedThenRemoved(rec, dir, c, c).0
  {
  }

  // ------------------------------------------------------------------ states that are reached

  ghost predicate Reachable(s: State) { exists ss, acts :: Run(ss, acts) && ss[|acts|] == s }

  lemma ReachableStep(s: State, a: Action)
    requires Reachable(s) && Enabled(s, a)
    ensures Reachable(Do(s, a))
  {
    var ss, acts :| Run(ss, acts) && ss[|acts|] == s;
    Runs.Append(Next, ss, acts, a, Do(s, a));
    assert Run(ss + [Do(s, a)], acts + [a]);
  }

  lemma EditChecked(s: State, e: Edit)
    requires Reachable(s) && s.ops == map[] && !s.writer && !Stops(s.rec, e)
    ensures Reachable(s.(readers := s.readers + 1, ops := map[0 := Editing(e, true, {})]))
  {
    var s1 := Do(s, StartEdit(0, e));
    ReachableStep(s, StartEdit(0, e));
    ReachableStep(s1, CheckEdit(0));
    assert Do(s1, CheckEdit(0)).ops == map[0 := Editing(e, true, {})];
  }

  lemma EditFetches(s: State, e: Edit, got: set<Cid>, c: Cid)
    requires Reachable(s) && s.ops == map[0 := Editing(e, true, got)]
    ensures Reachable(s.(store := s.store + {c}, ops := map[0 := Editing(e, true, got + {c})]))
  {
    ReachableStep(s, FetchBlock(0, c));
    assert Do(s, FetchBlock(0, c)).ops == map[0 := Editing(e, true, got + {c})];
  }

  /** A direct `pin add`, as a run of its own. */
  lemma AddDirect(s: State, c: Cid)
    requires Reachable(s) && s.ops == map[] && !s.writer && c !in s.rec
    ensures Reachable(s.(store := s.store + {c}, dir := s.dir + {c}))
  {
    var e := PinAdd(c, false);
    EditChecked(s, e);
    var s1 := s.(readers := s.readers + 1, ops := map[0 := Editing(e, true, {})]);
    EditFetches(s1, e, {}, c);
    var s2 := s1.(store := s1.store + {c}, ops := map[0 := Editing(e, true, {} + {c})]);
    var s3 := Do(s2, ApplyEdit(0));
    ReachableStep(s2, ApplyEdit(0));
    ReachableStep(s3, ReleaseShared(0));
    assert Do(s3, ReleaseShared(0)).ops == map[];
  }

  lemma WrittenOnce(s: State, c: Cid)
    requires Reachable(s) && s.ops == map[] && !s.writer
    ensures Reachable(s.(store := s.store + {c}, readers := s.readers + 1, ops := map[0 := Pinning([c], 0)]))
  {
    var s1 := Do(s, StartAdd(0, [c]));
    ReachableStep(s, StartAdd(0, [c]));
    var s2 := Do(s1, WriteBlock(0));
    ReachableStep(s1, WriteBlock(0));
    ReachableStep(s2, WriteBlock(0));
    assert Do(s2, WriteBlock(0)).ops == map[0 := Pinning([c], 0)];
  }

  /** A block added with a pin, as a run of its own. */
  lemma AddPinned(s: State, c: Cid)
    requires Reachable(s) && s.ops == map[] && !s.writer
    ensures Reachable(s.(store := s.store + {c}, rec := s.rec + {c}))
  {
    WrittenOnce(s, c);
    var s1 := s.(store := s.store + {c}, readers := s.readers + 1, ops := map[0 := Pinning([c], 0)]);
    var s2 := Do(s1, PinNode(0));
    ReachableStep(s1, PinNode(0));
    ReachableStep(s2, ReleaseShared(0));
    assert Do(s2, ReleaseShared(0)).ops == map[];
  }

  lemma StartsEmpty()
    ensures Reachable(State({}, {}, {}, 0, false, map[]))
  {
    var s := State({}, {}, {}, 0, false, map[]);
    var none: seq<Action> := [];
    assert Run([s], none) && [s][|none|] == s;
  }

  /** Starting with no pins, a block can come to be pinned both ways: adding it with a pin
      when it is a direct pin leaves the direct pin alone. */
  lemma PinnedBothWays()
    ensures exists s: State, c: Cid :: Reachable(s) && s.ops == map[] && c in s.rec && c in s.dir
  {
    var c := Raw(true, []);
    var s0 := State({}, {}, {}, 0, false, map[]);
    StartsEmpty();
    AddDirect(s0, c);
    var s1 := s0.(store := s0.store + {c}, dir := s0.dir + {c});
    AddPinned(s1, c);
    var s2 := s1.(store := s1.store + {c}, rec := s1.rec + {c});
    assert Reachable(s2) && s2.ops == map[] && c in s2.rec && c in s2.dir;
  }

  /** A `pin update` for which the two roots are enough, as a run up to its edit. */
  lemma UpdateRuns(s: State, e: Edit)
    requires Reachable(s) && s.ops == map[] && !s.writer && e.PinUpdate? && !Stops(s.rec, e)
    requires Ready(e, {} + {e.from} + {e.to})
    ensures var pins := EditPins(s.rec, s.dir, e);
            Reachable(State(s.store + {e.from} + {e.to}, pins.0, pins.1, s.readers + 1, false, map[0 := Edited]))
  {
    EditChecked(s, e);
    var s1 := s.(readers := s.readers + 1, ops := map[0 := Editing(e, true, {})]);
    EditFetches(s1, e, {}, e.from);
    var s2 := s1.(store := s1.store + {e.from}, ops := map[0 := Editing(e, true, {} + {e.from})]);
    EditFetches(s2, e, {} + {e.from}, e.to);
    var s3 := s2.(store := s2.store + {e.to}, ops := map[0 := Editing(e, true, {} + {e.from} + {e.to})]);
    ReachableStep(s3, ApplyEdit(0));
    assert Do(s3, ApplyEdit(0)).ops == map[0 := Edited];
  }

  /** And an update can pin a graph with a block missing: a node added with a pin need not
      have its children stored, and the update does not fetch the ones it shares with the
      new node. */
  lemma UpdatePinsIncomplete()
    ensures exists s: State, a, b, x ::
              && Reachable(s) && s.ops == map[0 := Edited] && s.rec == {b}
              && x in Kids(a) && x in Kids(b) && x !in s.store
  {
    var x := Raw(true, [0]);
    var a, b := Node(true, [1], [Link("", 0, x)]), Node(true, [2], [Link("", 0, x)]);
    assert Links(a)[0].cid == x && Links(b)[0].cid == x;
    assert Kids(a) == {x} && Kids(b) == {x};
    var s0 := State({}, {}, {}, 0, false, map[]);
    StartsEmpty();
    AddPinned(s0, a);
    var s1 := s0.(store := s0.store + {a}, rec := s0.rec + {a});
    var e := PinUpdate(a, b, true);
    assert Desc(b) <= Desc(a) + {b} by { DescUnfold(a); DescUnfold(b); }
    UpdateRuns(s1, e);
    var pins := EditPins(s1.rec, s1.dir, e);
    var s2 := State(s1.store + {a} + {b}, pins.0, pins.1, s1.readers + 1, false, map[0 := Edited]);
    assert Reachable(s2) && s2.rec == {b} && x !in s2.store;
  }

  // ------------------------------------------------------------------ what can be lost

  ghost predicate RunsFrom(s: State, ss: seq<State>, acts: seq<Action>)
  {
    Runs.Steps(Next, ss, acts) && ss[0] == s
  }

  ghost predicate PinsStay(ss: seq<State>, rec: set<Cid>, dir: set<Cid>)
  {
    forall k :: 0 <= k < |ss| ==> ss[k].rec == rec && ss[k].dir == dir
  }

  /** Some run from here loses the block while all pins stay as they are. */
  ghost predicate MayLose(s: State, x: Cid)
  {
    exists ss: seq<State>, acts :: RunsFrom(s, ss, acts) && PinsStay(ss, s.rec, s.dir) && x !in ss[|acts|].store
  }

  lemma {:induction false} KeptFrom(s: State, ss: seq<State>, acts: seq<Action>, x: Cid, i: nat)
    requires Inv(s) && RunsFrom(s, ss, acts) && PinsStay(ss, s.rec, s.dir) && i < |ss|
    requires x in s.store && x in Protected(s)
    ensures Inv(ss[i]) && x in ss[i].store
  {
    if i > 0 {
      KeptFrom(s, ss, acts, x, i - 1);
      Preserved(ss[i - 1], acts[i - 1]);
      NoProtectedDelete(ss[i - 1], acts[i - 1]);
    }
  }

  lemma LoseLater(s: State, a: Action, x: Cid)
    requires Enabled(s, a) && Do(s, a).rec == s.rec && Do(s, a).dir == s.dir && MayLose(Do(s, a), x)
    ensures MayLose(s, x)
  {
    var ss: seq<State>, acts :| RunsFrom(Do(s, a), ss, acts) && PinsStay(ss, s.rec, s.dir) && x !in ss[|acts|].store;
    Runs.Prepend(Next, s, a, ss, acts);
    assert RunsFrom(s, [s] + ss, [a] + acts) && PinsStay([s] + ss, s.rec, s.dir);
  }

  lemma LostNow(s: State, x: Cid)
    requires x !in s.store
    ensures MayLose(s, x)
  {
    var none: seq<Action> := [];
    assert RunsFrom(s, [s], none) && [s][|none|] == s && PinsStay([s], s.rec, s.dir);
  }

  /** With nobody inside, a removal takes an unprotected block. */
  lemma RemovalTakes(s: State, x: Cid)
    requires s.ops == map[] && !s.writer && s.readers == 0 && x !in Protected(s)
    ensures MayLose(s, x)
  {
    var s1 := Do(s, StartRm(0, {x}));
    var s2 := Do(s1, CheckPins(0));
    assert Protected(s1) == Protected(s);
    assert x in s2.ops[0].cids;
    LostNow(Do(s2, RemoveBlock(0, x)), x);
    LoseLater(s2, RemoveBlock(0, x), x);
    LoseLater(s1, CheckPins(0), x);
    LoseLater(s, StartRm(0, {x}), x);
  }

  lemma {:induction false} UnprotectedMayGo(s: State, x: Cid)
    requires Inv(s) && x !in Protected(s)
    ensures MayLose(s, x)
    decreases |s.ops.Keys|
  {
    if s.ops.Keys == {} {
      assert SharedTids(s.ops) == {} && ExclusiveTids(s.ops) == {};
      assert s.ops == map[];
      RemovalTakes(s, x);
    } else {
      var t :| t in s.ops.Keys;
      var a := if s.ops[t].Shared() then ReleaseShared(t) else ReleaseExclusive(t);
      Preserved(s, a);
      assert Do(s, a).ops.Keys == s.ops.Keys - {t};
      UnprotectedMayGo(Do(s, a), x);
      LoseLater(s, a, x);
    }
  }

  /** Protection is exact: from any state that a run can be in, a stored block can be lost
      with the pins as they are iff no pin protects it. */
  lemma LostIffUnprotected(s: State, x: Cid)
    requires Inv(s) && x in s.store
    ensures MayLose(s, x) <==> x !in Protected(s)
  {
    if x !in Protected(s) {
      UnprotectedMayGo(s, x);
    } else if MayLose(s, x) {
      var ss: seq<State>, acts :| RunsFrom(s, ss, acts) && PinsStay(ss, s.rec, s.dir) && x !in ss[|acts|].store;
      KeptFrom(s, ss, acts, x, |acts|);
    }
  }

  /** Over every run, a thread inside a collection or a removal is the only thread inside
      any locked operation. */
  lemma MutualExclusion(ss: seq<State>, acts: seq<Action>, i: nat)
    requires Run(ss, acts) && i < |ss|
    ensures forall t, u :: t in ss[i].ops && u in ss[i].ops && !ss[i].ops[t].Shared() ==> t == u
    ensures ss[i].readers >= 0
  {
    RunInv(ss, acts, i);
    forall t, u | t in ss[i].ops && u in ss[i].ops && !ss[i].ops[t].Shared() ensures t == u {
      ExclusiveIsAlone(ss[i], t);
    }
  }
}
