/** `pin verify`: the memoised checkPin of core/coreapi/pin.go. */
module PinVerify {
  import opened Ipld
  import opened DagWalk
  import opened Seqs
  import opened Trails

  datatype Status = Status(cid: Cid, ok: bool, bad: seq<Cid>)

  /** The links of `c` can be fetched: a raw leaf needs no fetch. */
  ghost predicate Fetches(st: Store, c: Cid) { c.Raw? || c in st.blocks - st.broken }

  /** The memo-free definition: the failing nodes met by unfolding every path. */
  ghost function BadNodes(st: Store, c: Cid): (r: seq<Cid>)
    decreases c
  {
    if !Fetches(st, c) then [c] else BadBelow(st, c, |Links(c)|)
  }

  ghost function BadBelow(st: Store, c: Cid, n: nat): (r: seq<Cid>)
    requires n <= |Links(c)|
    decreases c, n
  {
    if n == 0 then [] else BadBelow(st, c, n - 1) + BadNodes(st, Links(c)[n - 1].cid)
  }

  ghost function Check(st: Store, c: Cid): (r: Status)
  {
    Status(c, BadNodes(st, c) == [], BadNodes(st, c))
  }

  /** Every remembered status is the memo-free one. */
  ghost predicate MemoOk(st: Store, visited: map<Cid, Status>)
  {
    forall c :: c in visited ==> visited[c] == Check(st, c)
  }

  /** A memo that has grown by nodes at or below `root`, each fetched once. */
  ghost predicate Grown(st: Store, root: Cid, visited0: map<Cid, Status>, visited: map<Cid, Status>, fetches: int)
  {
    && MemoOk(st, visited) && visited0.Keys <= visited.Keys && visited.Keys - visited0.Keys <= Desc(root)
    && fetches == |visited| - |visited0|
  }

  lemma GrownBelow(st: Store, root: Cid, i: nat, v0: map<Cid, Status>, v1: map<Cid, Status>, v2: map<Cid, Status>,
                   m: int, n: int)
    requires i < |Links(root)| && Grown(st, root, v0, v1, m) && Grown(st, Links(root)[i].cid, v1, v2, n)
    requires root !in v1
    ensures Grown(st, root, v0, v2, m + n) && root !in v2
  {
    RootNotBelow(root, i);
  }

  lemma GrownByRoot(st: Store, root: Cid, v0: map<Cid, Status>, v1: map<Cid, Status>, n: int)
    requires Grown(st, root, v0, v1, n) && root !in v1
    ensures Grown(st, root, v0, v1[root := Check(st, root)], n + 1)
  {
  }

  /** checkPin.  Whatever earlier pins left in the memo, the answer is the memo-free
      one, and links are fetched once per CID not yet in the memo. */
  method CheckPin(st: Store, root: Cid, visited0: map<Cid, Status>)
    returns (status: Status, visited: map<Cid, Status>, fetches: nat)
    requires MemoOk(st, visited0)
    ensures status == Check(st, root)
    ensures Grown(st, root, visited0, visited, fetches) && root in visited
    decreases root, 2
  {
    visited, fetches := visited0, 0;
    if root in visited {
      status := visited[root];
      return;
    }
    if GetLinks(st, root).Got? {
      var bad;
      bad, visited, fetches := CheckLinks(st, root, visited0);
      status := Status(root, bad == [], bad);
    } else {
      status := Status(root, false, [root]);
    }
    GrownByRoot(st, root, visited0, visited, fetches);
    visited, fetches := visited[root := status], fetches + 1;
  }

  /** The loop over a node's links. */
  method CheckLinks(st: Store, root: Cid, visited0: map<Cid, Status>)
    returns (bad: seq<Cid>, visited: map<Cid, Status>, fetches: nat)
    requires MemoOk(st, visited0) && root !in visited0
    ensures bad == BadBelow(st, root, |Links(root)|)
    ensures Grown(st, root, visited0, visited, fetches) && root !in visited
    decreases root, 1
  {
    bad, visited, fetches := [], visited0, 0;
    for i := 0 to |Links(root)|
      invariant Grown(st, root, visited0, visited, fetches) && root !in visited
      invariant bad == BadBelow(st, root, i)
    {
      var res;
      res, visited, fetches := CheckLink(st, root, i, visited0, visited, fetches);
      if !res.ok { bad := bad + res.bad; }
    }
  }

  /** The check of one link, on behalf of its node. */
  method CheckLink(st: Store, root: Cid, i: nat, ghost visited0: map<Cid, Status>,
                   visited1: map<Cid, Status>, fetches1: nat)
    returns (status: Status, visited: map<Cid, Status>, fetches: nat)
    requires i < |Links(root)| && Grown(st, root, visited0, visited1, fetches1) && root !in visited1
    ensures status == Check(st, Links(root)[i].cid)
    ensures Grown(st, root, visited0, visited, fetches) && root !in visited
    decreases root, 0
  {
    var n;
    status, visited, n := CheckPin(st, Links(root)[i].cid, visited1);
    GrownBelow(st, root, i, visited0, visited1, visited, fetches1, n);
    fetches := fetches1 + n;
  }

  /** Acyclicity: a node is not among the descendants of its children. */
  lemma RootNotBelow(c: Cid, i: nat)
    requires i < |Links(c)|
    ensures c !in Desc(Links(c)[i].cid) && Desc(Links(c)[i].cid) <= Desc(c)
  {
    DescSmaller(Links(c)[i].cid, c);
  }

  lemma {:induction false} DescSmaller(k: Cid, c: Cid)
    requires k < c
    ensures forall x :: x in Desc(k) ==> x < c
    decreases k
  {
    forall x | x in Desc(k) ensures x < c {
      if x != k {
        var i :| 0 <= i < |Links(k)| && x in Desc(Links(k)[i].cid);
        DescSmaller(Links(k)[i].cid, k);
      }
    }
  }

  /** Verify: one status per recursive pin, in order. */
  method Verify(st: Store, recPins: seq<Cid>) returns (out: seq<Status>)
    ensures |out| == |recPins|
    ensures forall i :: 0 <= i < |out| ==> out[i] == Check(st, recPins[i])
  {
    out := [];
    var visited: map<Cid, Status> := map[];
    for i := 0 to |recPins|
      invariant |out| == i && MemoOk(st, visited)
      invariant forall j :: 0 <= j < i ==> out[j] == Check(st, recPins[j])
    {
      var s, n;
      s, visited, n := CheckPin(st, recPins[i], visited);
      out := out + [s];
    }
  }

  /** The bad nodes are exactly the CIDs reachable over fetched links whose own links
      cannot be fetched. */
  lemma {:induction false} BadNodesExact(st: Store, c: Cid)
    ensures forall x :: x in BadNodes(st, c) <==> x in Reach(st.Open(), c) && !Fetches(st, x)
    decreases c
  {
    if Fetches(st, c) {
      BadBelowExact(st, c, |Links(c)|);
    }
  }

  lemma {:induction false} BadBelowExact(st: Store, c: Cid, n: nat)
    requires n <= |Links(c)| && Fetches(st, c)
    ensures forall x :: x in BadBelow(st, c, n) <==>
                        !Fetches(st, x) && exists i :: 0 <= i < n && x in Reach(st.Open(), Links(c)[i].cid)
    decreases c, n
  {
    if n > 0 {
      BadBelowExact(st, c, n - 1);
      BadNodesExact(st, Links(c)[n - 1].cid);
    }
  }

  ghost function Good(st: Store): (f: Cid -> bool) { x => Fetches(st, x) }
  ghost function Bad(st: Store): (f: Cid -> bool) { x => !Fetches(st, x) }

  lemma BadStep(st: Store, c: Cid, n: nat, k: Cid, all: seq<Cid>, before: seq<Cid>, below: seq<Cid>)
    requires n < |Links(c)| && k == Links(c)[n].cid && all == before + ([k] + below)
    requires BadBelow(st, c, n) == Filter(before, Bad(st))
    requires if Fetches(st, k) then BadBelow(st, k, |Links(k)|) == Filter(below, Bad(st)) else below == []
    ensures BadBelow(st, c, n + 1) == Filter(all, Bad(st))
  {
    FilterAround(before, k, below, Bad(st));
  }

  /** The bad nodes met, once for every way down to them, in the order of the links. */
  ghost function BadMet(st: Store, c: Cid, n: nat): (r: seq<Cid>)
    requires n <= |Links(c)|
  {
    Filter(Met(Good(st), c, n), Bad(st))
  }

  lemma BadMetStep(st: Store, c: Cid, n: nat, k: Cid)
    requires n < |Links(c)| && k == Links(c)[n].cid && BadBelow(st, c, n) == BadMet(st, c, n)
    requires Fetches(st, k) ==> BadBelow(st, k, |Links(k)|) == BadMet(st, k, |Links(k)|)
    ensures BadBelow(st, c, n + 1) == BadMet(st, c, n + 1)
  {
    var f := Good(st);
    MetStep(f, c, n);
    BadStep(st, c, n, k, Met(f, c, n + 1), Met(f, c, n), if f(k) then Met(f, k, |Links(k)|) else []);
  }

  /** And they are listed so. */
  lemma {:induction false} BadBelowListed(st: Store, c: Cid, n: nat)
    requires n <= |Links(c)|
    ensures BadBelow(st, c, n) == BadMet(st, c, n)
    decreases c, n
  {
    if n > 0 {
      var k := Links(c)[n - 1].cid;
      BadBelowListed(st, c, n - 1);
      if Fetches(st, k) { BadBelowListed(st, k, |Links(k)|); }
      BadMetStep(st, c, n - 1, k);
    }
  }

  /** A pin verifies iff every descendant's links can be fetched. */
  lemma CheckMeaning(st: Store, c: Cid)
    ensures Check(st, c).ok <==> forall x :: x in Desc(c) ==> Fetches(st, x)
    ensures forall x :: x in Check(st, c).bad <==> x in Reach(st.Open(), c) && !Fetches(st, x)
  {
    var r := Reach(st.Open(), c);
    BadNodesExact(st, c);
    assert r <= Desc(c) by { ReachWithinDesc(st.Open(), c); }
    if BadNodes(st, c) == [] {
      assert Desc(c) <= r by {
        ReachClosed(st.Open(), c);
        DescLeast(c, r);
      }
    } else {
      assert BadNodes(st, c)[0] in BadNodes(st, c);
    }
  }
}
