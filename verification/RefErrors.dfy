/** `refs --unique` with a depth limit, beside a root that fails. */
module RefErrors {
  import opened Ipld
  import opened Refs

  const SPARE: Cid := Raw(true, [3])

  /** A chain of `k` links; the last node is the one that is missing. */
  ghost function Chain(k: nat): (c: Cid)
  {
    if k == 0 then Node(true, [0], []) else Node(true, [1], [Link("", 0, Chain(k - 1))])
  }

  ghost function Chains(k: nat): (r: set<Cid>) { set j: nat | j <= k :: Chain(j) }

  ghost predicate IsChain(c: Cid) { c.Node? && (c.data == [0] || c.data == [1]) }

  /** A node over a chain and another leaf, and the three nodes above it. */
  ghost function Fork(k: nat): (c: Cid) { Node(true, [2], [Link("", 0, Chain(k)), Link("", 0, SPARE)]) }
  ghost function Near(k: nat): (c: Cid) { Node(true, [4], [Link("", 0, Fork(k))]) }
  ghost function Middle(k: nat): (c: Cid) { Node(true, [5], [Link("", 0, Fork(k))]) }
  ghost function Far(k: nat): (c: Cid) { Node(true, [6], [Link("", 0, Middle(k))]) }

  ghost function Below(k: nat): (r: set<Cid>) { {Far(k), Middle(k), Fork(k), SPARE} + Chains(k) }

  ghost function Setting(k: nat): (cf: Config) { Config(true, k + 2, Below(k) + {Near(k)} - {Chain(0)}) }

  lemma {:induction false} ChainsDiffer(j: nat, k: nat)
    requires j < k
    ensures Chain(j) < Chain(k) && Chain(j) != Chain(k)
    decreases k
  {
    assert Links(Chain(k))[0].cid == Chain(k - 1);
    if j < k - 1 { ChainsDiffer(j, k - 1); }
  }

  /** The chain's end is within the limit: following it fails, and changes only what is
      known of chain nodes. */
  lemma {:induction false} ChainFails(cf: Config, n: Cid, k: nat, depth: nat, p: Progress)
    requires cf.unique && depth + 1 + k == cf.limit && Chain(k) < n
    requires Chain(0) !in cf.dag && forall j: nat :: j <= k ==> Chain(j) !in p.seen && (j > 0 ==> Chain(j) in cf.dag)
    ensures var r := OneLink(cf, n, Link("", 0, Chain(k)), depth, p);
            && !r.ok
            && (forall x :: !IsChain(x) ==> (x in r.p.seen <==> x in p.seen))
            && (forall x :: !IsChain(x) && x in p.seen ==> r.p.seen[x] == p.seen[x])
            && (forall e :: e in r.p.out ==> e in p.out || IsChain(e.dst))
    decreases k
  {
    if k > 0 {
      var c, d := Chain(k), depth + 1;
      var q := Progress(p.seen[c := d], p.out + [Edge(n, c, "")], p.fetches + 1);
      forall j: nat | j < k ensures Chain(j) !in q.seen { ChainsDiffer(j, k); }
      assert Links(c)[0] == Link("", 0, Chain(k - 1));
      assert Links(c)[0].cid < c;
      ChainFails(cf, c, k - 1, d, q);
      assert AllLinks(cf, c, d, 0, q) == Result(q, true);
      assert AllLinks(cf, c, d, 1, q) == OneLink(cf, c, Links(c)[0], d, q);
    }
  }

  /** The state after the root that fails. */
  ghost predicate AfterNear(k: nat, p: Progress)
  {
    && Middle(k) !in p.seen && Fork(k) in p.seen && p.seen[Fork(k)] == 1
    && forall e :: e in p.out ==> e.dst == Fork(k) || IsChain(e.dst)
  }

  lemma NearFails(k: nat)
    requires k >= 1
    ensures var r := OneRoot(Setting(k), Near(k), Progress(map[], [], 0));
            !r.ok && AfterNear(k, r.p)
  {
    var cf, n, c := Setting(k), Near(k), Fork(k);
    var p := Progress(map[], [], 0);
    var q := Progress(map[c := 1], [Edge(n, c, "")], 1);
    forall j: nat | 0 < j <= k ensures Chain(j) in cf.dag { assert Chain(j) in Chains(k); }
    assert Links(c)[0].cid == Chain(k);
    ChainFails(cf, c, k, 1, q);
    assert AllLinks(cf, c, 1, 0, q) == Result(q, true);
    assert AllLinks(cf, c, 1, 1, q) == OneLink(cf, c, Links(c)[0], 1, q);
    assert AllLinks(cf, c, 1, 2, q) == AllLinks(cf, c, 1, 1, q);
    assert Links(n)[0] == Link("", 0, c);
    assert AllLinks(cf, n, 0, 0, p) == Result(p, true);
    assert AllLinks(cf, n, 0, 1, p) == OneLink(cf, n, Links(n)[0], 0, p);
    assert [] + [Edge(n, c, "")] == q.out;
    assert OneLink(cf, n, Links(n)[0], 0, p) == AllLinks(cf, c, 1, 2, q);
  }

  /** The other root finds the fork seen already, and does not go below it. */
  lemma FarSkips(k: nat, p: Progress)
    requires k >= 1 && AfterNear(k, p)
    ensures SPARE !in Dsts(OneRoot(Setting(k), Far(k), p).p.out)
  {
    var cf, n, c, f := Setting(k), Far(k), Middle(k), Fork(k);
    var q := Progress(p.seen[c := 1], p.out + [Edge(n, c, "")], p.fetches + 1);
    assert Links(c)[0] == Link("", 0, f) && Links(n)[0] == Link("", 0, c);
    assert OneLink(cf, c, Links(c)[0], 1, q) == Result(q, true);
    assert AllLinks(cf, c, 1, 0, q) == Result(q, true);
    assert AllLinks(cf, c, 1, 1, q) == Result(q, true);
    assert AllLinks(cf, n, 0, 0, p) == Result(p, true);
    assert AllLinks(cf, n, 0, 1, p) == OneLink(cf, n, Links(n)[0], 0, p);
    assert OneRoot(cf, n, p).p == q;
    forall i | 0 <= i < |q.out| ensures q.out[i].dst != SPARE { assert q.out[i] in q.out; }
  }

  lemma {:induction false} PathStays(s: set<Cid>, r: Cid, x: Cid, d: nat)
    requires r in s && Whole(s) && Path(r, x, d)
    ensures x in s
    decreases d
  {
    if d > 0 {
      var y :| Path(r, y, d - 1) && x in Kids(y);
      PathStays(s, r, y, d - 1);
    }
  }

  lemma BelowWhole(k: nat)
    ensures Whole(Below(k))
  {
    forall x | x in Below(k) ensures Kids(x) <= Below(k) {
      if x in Chains(k) {
        var j: nat :| j <= k && x == Chain(j);
        if j > 0 { assert Chain(j - 1) in Chains(k); }
      } else {
        assert Chain(k) in Chains(k);
      }
    }
  }

  /** The only way from a chain node to the end is along the chain. */
  lemma {:induction false} ChainLength(k: nat, d: nat)
    requires Path(Chain(k), Chain(0), d)
    ensures d == k
    decreases k
  {
    if d > 0 {
      var i := PathFirst(Chain(k), Chain(0), d);
      if k > 0 { ChainLength(k - 1, d - 1); }
    }
  }

  lemma OnlyLink(c: Cid, z: Cid, d: nat)
    requires |Links(c)| == 1 && c != z && Path(c, z, d)
    ensures d > 0 && Path(Links(c)[0].cid, z, d - 1)
  {
    var i := PathFirst(c, z, d);
  }

  lemma ForkLength(k: nat, d: nat)
    requires Path(Fork(k), Chain(0), d)
    ensures d == k + 1
  {
    var i := PathFirst(Fork(k), Chain(0), d);
    if i == 0 {
      ChainLength(k, d - 1);
    } else {
      assert Path(SPARE, Chain(0), d - 1) && Kids(SPARE) == {};
      if d > 1 { var j := PathFirst(SPARE, Chain(0), d - 1); }
    }
  }

  /** So from the far root the missing node is one link beyond the limit. */
  lemma FarLength(k: nat, d: nat)
    requires Path(Far(k), Chain(0), d)
    ensures d == k + 3
  {
    OnlyLink(Far(k), Chain(0), d);
    OnlyLink(Middle(k), Chain(0), d - 1);
    ForkLength(k, d - 2);
  }

  lemma FarComplete(k: nat)
    ensures AllThere(Setting(k), Far(k))
  {
    var cf := Setting(k);
    forall x | Referenced({Far(k)}, cf.limit, x) ensures x in cf.dag {
      var d: nat :| d >= 1 && Within(cf.limit, d) && AtDepth({Far(k)}, x, d);
      BelowWhole(k);
      PathStays(Below(k), Far(k), x, d);
      if x == Chain(0) { FarLength(k, d); }
    }
  }

  lemma SpareReferenced(k: nat)
    requires k >= 1
    ensures Referenced({Far(k)}, k + 2, SPARE)
  {
    assert Path(Far(k), Far(k), 0);
    OneMore(Far(k), Far(k), 0, 0);
    OneMore(Far(k), Middle(k), 1, 0);
    OneMore(Far(k), Fork(k), 2, 1);
    assert AtDepth({Far(k)}, SPARE, 3) && Within(k + 2, 3);
  }

  lemma OneMore(r: Cid, y: Cid, d: nat, i: nat)
    requires Path(r, y, d) && i < |Links(y)|
    ensures Path(r, Links(y)[i].cid, d + 1)
  {
    assert Links(y)[i].cid in Kids(y);
  }

  /** With --unique and any limit of three or more, a root that can be listed completely may
      not be, after another root's error. */
  lemma UniqueLosesAfterError(limit: int)
    requires limit >= 3
    ensures exists dag, a, b, x ::
              var cf := Config(true, limit, dag);
              var p := OneRoot(cf, a, Progress(map[], [], 0)).p;
              && AllThere(cf, b) && Referenced({b}, limit, x)
              && x !in Dsts(OneRoot(cf, b, p).p.out)
  {
    var k: nat := limit - 2;
    NearFails(k);
    FarSkips(k, OneRoot(Setting(k), Near(k), Progress(map[], [], 0)).p);
    FarComplete(k);
    SpareReferenced(k);
    assert Setting(k) == Config(true, limit, Setting(k).dag);
  }
}
