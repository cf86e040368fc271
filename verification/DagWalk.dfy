/** merkledag.Walk with dag.Concurrent(), over an offline block service.

A walk takes pending CIDs in any order, asks `visit` whether each is new, fetches
the links of the new ones and queues them.  What a failed fetch means depends on
the `GetLinks` function the caller passes. */
module DagWalk {
  import opened Ipld

  /** Blocks in the store, and the CIDs whose read or decode fails with an error
      other than not-found. */
  datatype Store = Store(blocks: set<Cid>, broken: set<Cid>) {
    /** The blocks whose links a fetch returns. */
    function Open(): set<Cid> { blocks - broken }
  }

  datatype Fetched = Got(links: seq<Link>) | NotFound | Failed

  /** ipld.GetLinks: a raw CID needs no fetch. */
  function GetLinks(st: Store, c: Cid): (f: Fetched)
  {
    if c.Raw? then Got([])
    else if c in st.broken then Failed
    else if c in st.blocks then Got(Links(c))
    else NotFound
  }

  /** The three link getters handed to Walk: the collector's for pins, the
      collector's for best-effort roots, and the bare one of `pin ls`. */
  datatype Policy = Strict | BestEffort | Plain

  /** What the walk does after fetching a new node. */
  datatype Reaction =
    | Expand               // queue the links
    | Ignore               // carry on as if there were no links
    | Report               // carry on, but note the failure
    | Abort                // end the walk with an error

  function React(p: Policy, st: Store, c: Cid): (r: Reaction)
  {
    if p != Plain && !c.secure then Abort
    else match GetLinks(st, c)
         case Got(_) => Expand
         case NotFound => (match p case Strict => Report case BestEffort => Ignore case Plain => Abort)
         case Failed => (match p case Strict => Report case BestEffort => Report case Plain => Abort)
  }

  /** A node whose links were got is readable, or is a raw leaf. */
  lemma ExpandedIsOpen(p: Policy, st: Store, c: Cid)
    requires React(p, st, c) == Expand
    ensures c in st.Open() || Kids(c) == {}
  {
    if c.Raw? { assert Links(c) == []; }
  }

  /** A node that a walk can pass without an error.  The collector wants every CID secure; a
      node that is not a raw leaf must be stored and readable, except that below best-effort
      roots it may be missing. */
  ghost predicate Passable(p: Policy, st: Store, x: Cid)
  {
    match p
    case Strict => x.secure && (x.Raw? || x in st.blocks - st.broken)
    case BestEffort => x.secure && (x.Raw? || x !in st.broken)
    case Plain => x.Raw? || x in st.blocks - st.broken
  }

  ghost predicate Accepted(p: Policy, st: Store, s: set<Cid>) { forall x :: x in s ==> Passable(p, st, x) }

  /** So the link getters react: links are queued for every node that is a raw leaf or
      stored and readable, a node is ignored only if it is missing below best-effort roots,
      and all else is an error. */
  lemma ReactMeaning(p: Policy, st: Store, x: Cid)
    ensures React(p, st, x) == Expand <==> (x.secure || p == Plain) && (x.Raw? || x in st.blocks - st.broken)
    ensures React(p, st, x) == Ignore <==> p == BestEffort && x.secure && x.Node? && x !in st.blocks + st.broken
    ensures React(p, st, x) == Report <==>
            p != Plain && x.secure && x.Node? && (x in st.broken || (p == Strict && x !in st.blocks))
    ensures Passable(p, st, x) <==> React(p, st, x) == Expand || React(p, st, x) == Ignore
  {
  }

  datatype Outcome = Finished | Aborted | Cancelled

  /** The context of a call: one that is never cancelled, or one that may be at any time. */
  datatype Context = Background | Cancellable

  /** The worklist loop, against any set `all` that holds the pending CIDs and is
      closed under the links the walk may follow. */
  method Drain(ctx: Context, st: Store, p: Policy, pending: set<Cid>, visited0: set<Cid>, ghost all: set<Cid>)
    returns (visited: set<Cid>, faults: bool, res: Outcome)
    requires pending <= all && ClosedUnder(st.Open() - visited0, all)
    ensures visited0 <= visited <= visited0 + all
    ensures res == Finished ==> pending <= visited && ClosedUnder(st.Open() - visited0, visited)
    ensures res == Finished && !faults ==> Accepted(p, st, visited - visited0)
    ensures faults || res == Aborted ==> !Accepted(p, st, all - visited0)
    ensures p == Plain ==> !faults
    ensures res == Cancelled ==> ctx == Cancellable
  {
    var todo := pending;
    visited, faults, res := visited0, false, Finished;
    while todo != {}
      invariant res == Finished
      invariant visited0 <= visited <= visited0 + all
      invariant todo <= all
      invariant pending <= visited + todo
      invariant forall x :: x in visited && x in st.Open() - visited0 ==> Kids(x) <= visited + todo
      invariant !faults ==> Accepted(p, st, visited - visited0)
      invariant faults ==> p != Plain && !Accepted(p, st, all - visited0)
      decreases all - visited, todo
    {
      var cancelled: bool := *;
      if cancelled && ctx == Cancellable { res := Cancelled; return; }
      var c :| c in todo;
      todo := todo - {c};
      if c !in visited {
        assert c in all - visited0;
        visited := visited + {c};
        ReactMeaning(p, st, c);
        match React(p, st, c)
        case Expand => todo := todo + Kids(c);
        case Ignore =>
        case Report => faults := true;
        case Abort => res := Aborted; return;
      }
    }
  }

  /** What a walk from `pending` adds to a visited set: everything reachable without
      entering the set. */
  ghost function Fresh(st: Store, pending: set<Cid>, visited0: set<Cid>): (r: set<Cid>)
  {
    ReachAll(st.Open() - visited0, pending)
  }

  method WalkFrom(ctx: Context, st: Store, p: Policy, pending: set<Cid>, visited0: set<Cid>)
    returns (visited: set<Cid>, faults: bool, res: Outcome)
    ensures visited0 <= visited <= visited0 + Fresh(st, pending, visited0)
    ensures res == Finished ==> visited == visited0 + Fresh(st, pending, visited0)
    ensures res == Finished && !faults ==> Accepted(p, st, visited - visited0)
    ensures faults || res == Aborted ==> !Accepted(p, st, Fresh(st, pending, visited0) - visited0)
    ensures p == Plain ==> !faults
    ensures res == Cancelled ==> ctx == Cancellable
  {
    ghost var all := Fresh(st, pending, visited0);
    ReachAllClosed(st.Open() - visited0, pending);
    visited, faults, res := Drain(ctx, st, p, pending, visited0, all);
    if res == Finished {
      ReachAllLeast(st.Open() - visited0, pending, visited);
    }
  }

  /** dag.Walk. */
  method Walk(ctx: Context, st: Store, p: Policy, root: Cid, visited0: set<Cid>)
    returns (visited: set<Cid>, faults: bool, res: Outcome)
    ensures visited0 <= visited <= visited0 + Fresh(st, {root}, visited0)
    ensures res == Finished ==> visited == visited0 + Fresh(st, {root}, visited0)
    ensures res == Finished && !faults ==> Accepted(p, st, visited - visited0)
    ensures faults || res == Aborted ==> !Accepted(p, st, Fresh(st, {root}, visited0) - visited0)
    ensures res == Cancelled ==> ctx == Cancellable
  {
    visited, faults, res := WalkFrom(ctx, st, p, {root}, visited0);
  }

  /** dag.Walk with SkipRoot, as `pin ls` calls it: the root is fetched and expanded
      even when another walk has visited it, and is not itself visited. */
  method WalkSkipRoot(ctx: Context, st: Store, root: Cid, visited0: set<Cid>)
    returns (visited: set<Cid>, res: Outcome)
    ensures visited0 <= visited <= visited0 + Fresh(st, Kids(root), visited0)
    ensures res == Finished ==>
              && visited == visited0 + Fresh(st, Kids(root), visited0)
              && Accepted(Plain, st, {root} + (visited - visited0))
    ensures res == Aborted ==>
              !Accepted(Plain, st, {root} + (Fresh(st, Kids(root), visited0) - visited0))
    ensures res == Cancelled ==> ctx == Cancellable
  {
    match React(Plain, st, root)
    case Expand =>
      var faults;
      visited, faults, res := WalkFrom(ctx, st, Plain, Kids(root), visited0);
    case _ =>
      visited, res := visited0, Aborted;
  }
}
