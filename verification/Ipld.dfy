/** The content-addressed graph every traversal in the repository walks.

A CID is the hash of a block, so under a collision-free hash it determines the
block's bytes and links.  The model makes that literal: a `Cid` value carries the
block it names.  Links are then immutable and the graph is acyclic by
construction, and whether a block is locally available is separate state. */
module Ipld {

  type Byte = b: int | 0 <= b < 256

  datatype Link = Link(name: string, size: nat, cid: Cid)

  /** `secure` is what verifcid.ValidateCid says of the hash function and digest
      length.  A raw leaf has no links, and its links are known without a fetch. */
  datatype Cid =
    | Raw(secure: bool, data: seq<Byte>)
    | Node(secure: bool, data: seq<Byte>, links: seq<Link>)

  function Links(c: Cid): (ls: seq<Link>)
    ensures forall i :: 0 <= i < |ls| ==> ls[i].cid < c
  {
    match c
    case Raw(_, _) => []
    case Node(_, _, links) => links
  }

  function Kids(c: Cid): (ks: set<Cid>)
  {
    set i | 0 <= i < |Links(c)| :: Links(c)[i].cid
  }

  function Set(s: seq<Cid>): (r: set<Cid>) { set c | c in s }

  /** `Reach(open, c)`: what a walk from `c` meets when it follows the links of the
      nodes in `open` only. */
  ghost function Reach(open: set<Cid>, c: Cid): (r: set<Cid>)
    ensures c in r
    decreases c
  {
    {c} + if c !in open then {} else
            set i, x | 0 <= i < |Links(c)| && x in Reach(open, Links(c)[i].cid) :: x
  }

  ghost function ReachAll(open: set<Cid>, roots: set<Cid>): (r: set<Cid>)
  {
    set c, x | c in roots && x in Reach(open, c) :: x
  }

  /** Every descendant of `c`, itself included, whether or not it is stored. */
  ghost function Desc(c: Cid): (r: set<Cid>)
    ensures c in r
    decreases c
  {
    {c} + set i, x | 0 <= i < |Links(c)| && x in Desc(Links(c)[i].cid) :: x
  }

  ghost function DescAll(roots: set<Cid>): (r: set<Cid>)
  {
    set c, x | c in roots && x in Desc(c) :: x
  }

  /** `s` holds the children of each of its nodes that `open` allows to expand. */
  ghost predicate ClosedUnder(open: set<Cid>, s: set<Cid>)
  {
    forall x :: x in s && x in open ==> Kids(x) <= s
  }

  lemma ReachChild(open: set<Cid>, c: Cid, k: Cid)
    requires c in open && k in Kids(c)
    ensures Reach(open, k) <= Reach(open, c)
  {
  }

  lemma {:induction false} ReachClosed(open: set<Cid>, c: Cid)
    ensures ClosedUnder(open, Reach(open, c))
    decreases c
  {
    forall x | x in Reach(open, c) && x in open
      ensures Kids(x) <= Reach(open, c)
    {
      if x == c {
        forall k | k in Kids(c) ensures k in Reach(open, c) { ReachChild(open, c, k); }
      } else {
        var i :| 0 <= i < |Links(c)| && x in Reach(open, Links(c)[i].cid);
        ReachClosed(open, Links(c)[i].cid);
        ReachChild(open, c, Links(c)[i].cid);
      }
    }
  }

  lemma {:induction false} ReachLeast(open: set<Cid>, c: Cid, s: set<Cid>)
    requires c in s && ClosedUnder(open, s)
    ensures Reach(open, c) <= s
    decreases c
  {
    if c in open {
      forall i | 0 <= i < |Links(c)| ensures Reach(open, Links(c)[i].cid) <= s {
        assert Links(c)[i].cid in Kids(c);
        ReachLeast(open, Links(c)[i].cid, s);
      }
    }
  }

  /** `ReachAll` holds the roots and is closed under `open`, and by `ReachAllLeast`
      it is the least such set. */
  lemma ReachAllClosed(open: set<Cid>, roots: set<Cid>)
    ensures roots <= ReachAll(open, roots)
    ensures ClosedUnder(open, ReachAll(open, roots))
  {
    forall c | c in roots ensures c in ReachAll(open, roots) {
      assert c in Reach(open, c);
    }
    forall x | x in ReachAll(open, roots) && x in open
      ensures Kids(x) <= ReachAll(open, roots)
    {
      var c :| c in roots && x in Reach(open, c);
      ReachClosed(open, c);
    }
  }

  lemma ReachAllLeast(open: set<Cid>, roots: set<Cid>, s: set<Cid>)
    requires roots <= s && ClosedUnder(open, s)
    ensures ReachAll(open, roots) <= s
  {
    forall c | c in roots ensures Reach(open, c) <= s {
      ReachLeast(open, c, s);
    }
  }

  /** Expanding less meets less. */
  lemma ReachAllMonotone(open: set<Cid>, open': set<Cid>, roots: set<Cid>)
    requires open <= open'
    ensures ReachAll(open, roots) <= ReachAll(open', roots)
  {
    ReachAllClosed(open', roots);
    ReachAllLeast(open, roots, ReachAll(open', roots));
  }

  /** A walk that prunes at an already closed set loses nothing. */
  lemma Absorb(open: set<Cid>, v: set<Cid>, roots: set<Cid>)
    requires ClosedUnder(open, v)
    ensures v + ReachAll(open - v, roots) == v + ReachAll(open, roots)
  {
    ReachAllMonotone(open - v, open, roots);
    var pruned := ReachAll(open - v, roots);
    assert ReachAll(open, roots) <= v + pruned by {
      ReachAllClosed(open - v, roots);
      ClosedWithPruned(open, v, pruned);
      ReachAllLeast(open, roots, v + pruned);
    }
  }

  lemma ClosedWithPruned(open: set<Cid>, v: set<Cid>, r: set<Cid>)
    requires ClosedUnder(open, v) && ClosedUnder(open - v, r)
    ensures ClosedUnder(open, v + r)
  {
    forall x | x in v + r && x in open ensures Kids(x) <= v + r {
      if x !in v { assert x in open - v; }
    }
  }

  lemma {:induction false} DescClosed(c: Cid)
    ensures Whole(Desc(c))
    decreases c
  {
    forall x | x in Desc(c) ensures Kids(x) <= Desc(c) {
      if x == c {
        forall k | k in Kids(c) ensures k in Desc(c) { assert k in Desc(k); }
      } else {
        var i :| 0 <= i < |Links(c)| && x in Desc(Links(c)[i].cid);
        DescClosed(Links(c)[i].cid);
      }
    }
  }

  lemma {:induction false} DescLeast(c: Cid, s: set<Cid>)
    requires c in s && Whole(s)
    ensures Desc(c) <= s
    decreases c
  {
    forall i | 0 <= i < |Links(c)| ensures Desc(Links(c)[i].cid) <= s {
      assert Links(c)[i].cid in Kids(c);
      DescLeast(Links(c)[i].cid, s);
    }
  }

  lemma {:induction false} ReachWithinDesc(open: set<Cid>, c: Cid)
    ensures Reach(open, c) <= Desc(c)
    decreases c
  {
    DescClosed(c);
    ReachLeast(open, c, Desc(c));
  }

  /** When every node met could be expanded, nothing below the roots was missed. */
  lemma ReachAllIsDesc(open: set<Cid>, roots: set<Cid>)
    requires forall x :: x in ReachAll(open, roots) ==> x in open || Kids(x) == {}
    ensures ReachAll(open, roots) == DescAll(roots)
  {
    ReachAllClosed(open, roots);
    var r := ReachAll(open, roots);
    forall c | c in roots ensures Desc(c) <= r {
      DescLeast(c, r);
    }
    forall c | c in roots ensures Reach(open, c) <= Desc(c) {
      ReachWithinDesc(open, c);
    }
  }

  lemma ReachUnfold(open: set<Cid>, k: Cid)
    requires k in open
    ensures Reach(open, k) == {k} + ReachAll(open, Kids(k))
  {
    forall x | x in Reach(open, k) && x != k ensures x in ReachAll(open, Kids(k)) {
      var i :| 0 <= i < |Links(k)| && x in Reach(open, Links(k)[i].cid);
      assert Links(k)[i].cid in Kids(k);
    }
  }

  lemma DescUnfold(c: Cid)
    ensures Desc(c) == {c} + DescAll(Kids(c))
  {
    forall x | x in Desc(c) && x != c ensures x in DescAll(Kids(c)) {
      var i :| 0 <= i < |Links(c)| && x in Desc(Links(c)[i].cid);
      assert Links(c)[i].cid in Kids(c);
    }
  }

  /** Holds the children of each of its nodes. */
  ghost predicate Whole(s: set<Cid>) { forall x :: x in s ==> Kids(x) <= s }

  lemma DescAllWhole(roots: set<Cid>)
    ensures roots <= DescAll(roots) && Whole(DescAll(roots))
  {
    forall r | r in roots ensures r in DescAll(roots) { assert r in Desc(r); }
    forall x | x in DescAll(roots) ensures Kids(x) <= DescAll(roots) {
      var r :| r in roots && x in Desc(r);
      DescClosed(r);
    }
  }

  lemma DescAllLeast(roots: set<Cid>, s: set<Cid>)
    requires roots <= s && Whole(s)
    ensures DescAll(roots) <= s
  {
    forall r | r in roots ensures Desc(r) <= s { DescLeast(r, s); }
  }
}
