/** The lock protocol step by step: which steps write and delete blocks, and that every
    operation does, over whole runs, what it was started for. */
module GcSteps {
  import opened Ipld
  import opened GcLock

  // ------------------------------------------------------------------ what a step does

  /** The steps that write a block, and those that delete one. */
  ghost predicate Stores(s: State, a: Action, c: Cid)
  {
    || a == PutUnpinned(c)
    || (a.WriteBlock? && Enabled(s, a) && s.ops[a.t].n < |s.ops[a.t].nodes| && s.ops[a.t].nodes[s.ops[a.t].n] == c)
    || ((a.FetchBlock? || a.UploadBlock? || a.PinRoot?) && a.c == c)
  }

  ghost predicate Deletes(s: State, a: Action, c: Cid)
  {
    || (a.SweepKey? && Enabled(s, a) && a.k == c && c !in s.ops[a.t].marked)
    || (a.RemoveBlock? && a.c == c)
  }

  lemma StoreChanges(s: State, a: Action, c: Cid)
    requires Enabled(s, a)
    ensures c in Do(s, a).store <==> Stores(s, a, c) || (c in s.store && !Deletes(s, a, c))
  {
  }

  /** An operation that a start has begun, and that keeps what it was asked to do. */
  ghost predicate Began(a: Action, op: Op)
  {
    match a
    case StartAdd(_, nodes) => (op.Adding? || op.Pinning?) && op.nodes == nodes
    case StartEdit(_, e) => op.Edited? || (op.Editing? && op.edit == e)
    case StartUpload(_) => op.Uploading?
    case StartGC(_, be, internal) =>
      op.Sweeping? || op.GivenUp? || (op.Marking? && op.be == be && op.internal == internal)
    case StartRm(_, cids) => op == Checking(cids) || (op.Removing? && op.cids <= cids)
    case _ => false
  }

  ghost predicate Starts(a: Action, t: Tid)
  {
    (a.StartAdd? || a.StartEdit? || a.StartUpload? || a.StartGC? || a.StartRm?) && a.t == t
  }

  lemma BeganStep(s: State, a: Action, t: Tid, began: Action)
    requires Enabled(s, a) && t in s.ops && t in Do(s, a).ops && Began(began, s.ops[t])
    ensures Began(began, Do(s, a).ops[t])
  {
  }

  /** Over every run, a thread works on what its operation was started with until it is out. */
  lemma {:induction false} Remembers(ss: seq<State>, acts: seq<Action>, t: Tid, i: nat, j: nat)
    requires Run(ss, acts) && i < j < |ss| && Starts(acts[i], t)
    requires forall k :: i < k <= j ==> t in ss[k].ops
    ensures Began(acts[i], ss[j].ops[t])
    decreases j
  {
    if i + 1 < j {
      Remembers(ss, acts, t, i, j - 1);
      BeganStep(ss[j - 1], acts[j - 1], t, acts[i]);
    }
  }

  /** What a removal was asked to remove, and nothing protects, is still on its list or has
      been deleted by it. */
  lemma {:induction false} RemovalGoesOn(ss: seq<State>, acts: seq<Action>, t: Tid, cids: set<Cid>, c: Cid,
                                         i: nat, j: nat)
    requires Run(ss, acts) && i < j < |ss| && acts[i] == StartRm(t, cids) && c in cids
    requires forall k :: i < k <= j ==> t in ss[k].ops
    requires ss[j].ops[t].Removing?
    ensures c in Protected(ss[j]) || c in ss[j].ops[t].cids || exists k :: i < k < j && acts[k] == RemoveBlock(t, c)
    decreases j
  {
    Remembers(ss, acts, t, i, j);
    if i + 1 < j {
      var s, a := ss[j - 1], acts[j - 1];
      Remembers(ss, acts, t, i, j - 1);
      RunInv(ss, acts, j - 1);
      RemovalStep(s, a, t, cids, c);
      if s.ops[t].Removing? && !(a == RemoveBlock(t, c)) { RemovalGoesOn(ss, acts, t, cids, c, i, j - 1); }
    }
  }

  lemma RemovalStep(s: State, a: Action, t: Tid, cids: set<Cid>, c: Cid)
    requires Inv(s) && Enabled(s, a) && t in s.ops && t in Do(s, a).ops && Began(StartRm(t, cids), s.ops[t])
    requires Do(s, a).ops[t].Removing? && c in cids
    ensures Protected(Do(s, a)) == Protected(s)
    ensures s.ops[t].Checking? ==> c in Protected(s) || c in Do(s, a).ops[t].cids
    ensures s.ops[t].Removing? && c in s.ops[t].cids ==> a == RemoveBlock(t, c) || c in Do(s, a).ops[t].cids
  {
    ExclusiveIsAlone(s, t);
  }

  /** Every node that a pinned add has got past was stored and pinned by it. */
  lemma {:induction false} AddGoesOn(ss: seq<State>, acts: seq<Action>, t: Tid, nodes: seq<Cid>, m: nat, i: nat, j: nat)
    requires Run(ss, acts) && i < j < |ss| && acts[i] == StartAdd(t, nodes) && m < |nodes|
    requires forall k :: i < k <= j ==> t in ss[k].ops
    ensures ss[j].ops[t].Pinning? && m < ss[j].ops[t].n ==>
              exists k :: i < k < j && Adds(ss[k], acts[k], nodes[m]) && acts[k] == PinNode(t)
    decreases j
  {
    if i + 1 < j {
      Remembers(ss, acts, t, i, j);
      Remembers(ss, acts, t, i, j - 1);
      AddGoesOn(ss, acts, t, nodes, m, i, j - 1);
      if ss[j].ops[t].Pinning? && m < ss[j].ops[t].n { AddStep(ss[j - 1], acts[j - 1], t, nodes, m); }
    }
  }

  lemma AddStep(s: State, a: Action, t: Tid, nodes: seq<Cid>, m: nat)
    requires Enabled(s, a) && t in s.ops && t in Do(s, a).ops && m < |nodes|
    requires Began(StartAdd(t, nodes), s.ops[t]) && Began(StartAdd(t, nodes), Do(s, a).ops[t])
    requires Do(s, a).ops[t].Pinning? && m < Do(s, a).ops[t].n
    ensures (s.ops[t].Pinning? && m < s.ops[t].n) || (Adds(s, a, nodes[m]) && a == PinNode(t))
  {
  }

  /** A fetch for an edit is remembered, and the edit is checked before it is made. */
  lemma {:induction false} EditIsChecked(ss: seq<State>, acts: seq<Action>, t: Tid, e: Edit, i: nat, j: nat)
    requires Run(ss, acts) && i < j < |ss| && acts[i] == StartEdit(t, e)
    requires forall k :: i < k <= j ==> t in ss[k].ops
    requires ss[j].ops[t].Editing? && ss[j].ops[t].checked
    ensures exists k :: i < k < j && acts[k] == CheckEdit(t) && !Stops(ss[k].rec, e)
    decreases j
  {
    var s, a := ss[j - 1], acts[j - 1];
    if i + 1 < j {
      Remembers(ss, acts, t, i, j - 1);
      CheckedStep(s, a, t, e);
      if s.ops[t].Editing? && s.ops[t].checked { EditIsChecked(ss, acts, t, e, i, j - 1); }
    }
  }

  lemma CheckedStep(s: State, a: Action, t: Tid, e: Edit)
    requires Enabled(s, a) && t in s.ops && t in Do(s, a).ops && Began(StartEdit(t, e), s.ops[t])
    requires Do(s, a).ops[t].Editing? && Do(s, a).ops[t].checked
    ensures s.ops[t].Editing? && (s.ops[t].checked || (a == CheckEdit(t) && !Stops(s.rec, e)))
  {
  }
}
