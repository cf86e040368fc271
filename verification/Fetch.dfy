/** Getting whole graphs before they are pinned: FetchGraph of go-merkledag, for `pin add`,
    and DiffEnumerate of its dagutils, for `pin update`. */
module Fetch {
  import opened Ipld
  import opened Seqs
  import opened Wrappers

  // ------------------------------------------------------------------ one walk

  /** What a walk adds to the nodes seen: all that is reached without entering them. */
  ghost function Walked(root: Cid, seen: set<Cid>): (r: set<Cid>)
  {
    Reach(Desc(root) - seen, root) - seen
  }

  /** The root is seen then, and so are the children of what was added. */
  lemma WalkedClosed(root: Cid, seen: set<Cid>)
    ensures root in seen + Walked(root, seen) && Walked(root, seen) <= Desc(root)
    ensures forall x :: x in Walked(root, seen) ==> Kids(x) <= seen + Walked(root, seen)
  {
    ReachWithinDesc(Desc(root) - seen, root);
    ReachClosed(Desc(root) - seen, root);
  }

  /** A walk with GetLinksDirect, which gets raw leaves too, over a set of nodes seen, in any
      order.  `net` are the nodes that can be got, from the store or over the network. */
  method FetchWalk(net: set<Cid>, root: Cid, seen0: set<Cid>) returns (seen: set<Cid>, ok: bool)
    ensures seen0 <= seen <= seen0 + Walked(root, seen0)
    ensures ok <==> Walked(root, seen0) <= net
    ensures ok ==> seen == seen0 + Walked(root, seen0)
  {
    ghost var open := Desc(root) - seen0;
    ghost var all := Reach(open, root);
    assert all <= Desc(root) && ClosedUnder(open, all) by {
      ReachWithinDesc(open, root);
      ReachClosed(open, root);
    }
    var todo := {root};
    seen, ok := seen0, true;
    while todo != {}
      invariant ok && todo <= all && seen0 <= seen <= seen0 + all && root in seen + todo
      invariant forall x :: x in seen - seen0 ==> x in net && Kids(x) <= seen + todo
      decreases all - seen, todo
    {
      var c :| c in todo;
      todo := todo - {c};
      if c !in seen {
        assert c in open && c in Walked(root, seen0);
        seen := seen + {c};
        if c !in net {
          ok := false;
          return;
        }
        todo := todo + Kids(c);
      }
    }
    assert all <= seen by { ReachLeast(open, root, seen); }
  }

  /** FetchGraph gets exactly the node and its descendants, or fails because one of them
      cannot be got. */
  method FetchGraph(net: set<Cid>, root: Cid) returns (got: set<Cid>, ok: bool)
    ensures ok <==> Desc(root) <= net
    ensures ok ==> got == Desc(root)
  {
    got, ok := FetchWalk(net, root, {});
    assert Desc(root) <= Walked(root, {}) <= Desc(root) by {
      WalkedClosed(root, {});
      DescLeast(root, {} + Walked(root, {}));
    }
  }

  // ------------------------------------------------------------------ the link diff

  datatype Change = Change(bef: Option<Cid>, aft: Cid)

  /** The links among the first `n` of `a` that `b` does not have. */
  ghost function Only(a: Cid, b: Cid, n: nat): (r: seq<Cid>)
    requires n <= |Links(a)|
  {
    if n == 0 then []
    else if Links(a)[n - 1].cid in Kids(b) then Only(a, b, n - 1)
    else Only(a, b, n - 1) + [Links(a)[n - 1].cid]
  }

  lemma {:induction false} OnlyMeaning(a: Cid, b: Cid, n: nat)
    requires n <= |Links(a)|
    ensures forall x :: x in Only(a, b, n) <==> x !in Kids(b) && exists i :: 0 <= i < n && Links(a)[i].cid == x
  {
    if n > 0 { OnlyMeaning(a, b, n - 1); }
  }

  /** Each link in `news`, paired with the one at its place in `olds` while there is one. */
  ghost function Paired(olds: seq<Cid>, news: seq<Cid>): (r: seq<Change>)
  {
    seq(|news|, k requires 0 <= k < |news| => Change(if k < |olds| then Some(olds[k]) else None, news[k]))
  }

  lemma PairedAppend(olds: seq<Cid>, news: seq<Cid>, c: Cid)
    ensures Paired(olds, news + [c]) ==
            Paired(olds, news) + [Change(if |news| < |olds| then Some(olds[|news|]) else None, c)]
  {
  }

  ghost function Diff(a: Cid, b: Cid): (diff: seq<Change>)
  {
    Paired(Only(a, b, |Links(a)|), Only(b, a, |Links(b)|))
  }

  ghost predicate Brings(diff: seq<Change>, x: Cid) { exists i :: 0 <= i < |diff| && diff[i].aft == x }

  /** A change goes from a link that only the old node has, if any, to one that only the new
      one has, and each of the latter is in a change. */
  lemma DiffMeaning(a: Cid, b: Cid)
    ensures forall d :: d in Diff(a, b) ==>
              d.aft in Kids(b) - Kids(a) && (d.bef.Some? ==> d.bef.value in Kids(a) - Kids(b))
    ensures forall x :: x in Kids(b) - Kids(a) ==> Brings(Diff(a, b), x)
  {
    var olds, news := Only(a, b, |Links(a)|), Only(b, a, |Links(b)|);
    OnlyMeaning(a, b, |Links(a)|);
    OnlyMeaning(b, a, |Links(b)|);
    assert forall x :: x in olds ==> x in Kids(a) - Kids(b);
    assert forall x :: x in news <==> x in Kids(b) - Kids(a);
    forall x | x in Kids(b) - Kids(a) ensures Brings(Diff(a, b), x) {
      var k :| 0 <= k < |news| && news[k] == x;
      assert Diff(a, b)[k].aft == x;
    }
  }

  /** The first loop of getLinkDiff. */
  method OldLinks(a: Cid, b: Cid) returns (aonly: seq<Cid>)
    ensures aonly == Only(a, b, |Links(a)|)
  {
    aonly := [];
    for i := 0 to |Links(a)|
      invariant aonly == Only(a, b, i)
    {
      var c := Links(a)[i].cid;
      if c !in Kids(b) { aonly := aonly + [c]; }
    }
  }

  /** getLinkDiff: the links that only `a` has first, then a change for each that only `b`
      has. */
  method GetLinkDiff(a: Cid, b: Cid) returns (diff: seq<Change>)
    ensures diff == Diff(a, b)
  {
    var aonly := OldLinks(a, b);
    diff := [];
    var aindex := 0;
    for i := 0 to |Links(b)|
      invariant diff == Paired(aonly, Only(b, a, i))
      invariant aindex == if |diff| < |aonly| then |diff| else |aonly|
    {
      var c := Links(b)[i].cid;
      if c in Kids(a) { continue; }
      PairedAppend(aonly, Only(b, a, i), c);
      if aindex < |aonly| {
        diff := diff + [Change(Some(aonly[aindex]), c)];
        aindex := aindex + 1;
      } else {
        diff := diff + [Change(None, c)];
      }
    }
  }

  /** The position of a link of `a` that `b` does not have. */
  ghost function IsOnly(a: Cid, b: Cid): (keep: nat -> bool)
  {
    (i: nat) => i < |Links(a)| && Links(a)[i].cid !in Kids(b)
  }

  ghost function Targets(a: Cid, n: nat): (r: seq<Cid>)
    requires n <= |Links(a)|
  {
    seq(n, i requires 0 <= i < n => Links(a)[i].cid)
  }

  /** They are taken in the order of the links, none left out. */
  lemma {:induction false} OnlyPicked(a: Cid, b: Cid, n: nat)
    requires n <= |Links(a)|
    ensures PickedFrom(Targets(a, n), IsOnly(a, b), Only(a, b, n))
  {
    if n > 0 {
      OnlyPicked(a, b, n - 1);
      assert Targets(a, n) == Targets(a, n - 1) + [Links(a)[n - 1].cid];
      PickedStep(Targets(a, n - 1), IsOnly(a, b), Only(a, b, n - 1), Links(a)[n - 1].cid, IsOnly(a, b));
    }
  }

  /** The k-th change leads to the k-th link that only `b` has, from the k-th that only `a`
      has while there is one. */
  lemma DiffPairs(a: Cid, b: Cid)
    ensures var olds, news, diff := Only(a, b, |Links(a)|), Only(b, a, |Links(b)|), Diff(a, b);
            && |diff| == |news|
            && forall k :: 0 <= k < |diff| ==>
                 diff[k].aft == news[k] && diff[k].bef == if k < |olds| then Some(olds[k]) else None
  {
  }

  /** One position alone has a link that `b` does not have. */
  lemma {:induction false} OnlyOne(a: Cid, b: Cid, i: nat, n: nat)
    requires i < |Links(a)| && n <= |Links(a)|
    requires forall j :: 0 <= j < |Links(a)| ==> (Links(a)[j].cid in Kids(b) <==> j != i)
    ensures Only(a, b, n) == if n <= i then [] else [Links(a)[i].cid]
    decreases n
  {
    if n > 0 { OnlyOne(a, b, i, n - 1); }
  }

  lemma {:induction false} OnlyNone(a: Cid, b: Cid, n: nat)
    requires n <= |Links(a)| && Kids(a) <= Kids(b)
    ensures Only(a, b, n) == []
  {
    if n > 0 {
      OnlyNone(a, b, n - 1);
      assert Links(a)[n - 1].cid in Kids(a);
    }
  }

  // ------------------------------------------------------------------ the enumeration

  /** The replaced links, which count as seen from the start. */
  ghost function Replaced(diff: seq<Change>): (r: set<Cid>)
  {
    set i | 0 <= i < |diff| && diff[i].bef.Some? :: diff[i].bef.value
  }

  /** The nodes seen after the first `i` changes. */
  ghost function SeenAfter(diff: seq<Change>, i: nat): (r: set<Cid>)
    requires i <= |diff|
  {
    if i == 0 then Replaced(diff)
    else
      var seen := SeenAfter(diff, i - 1);
      if diff[i - 1].bef.Some? then seen else seen + Walked(diff[i - 1].aft, seen)
  }

  ghost predicate Below(diff: seq<Change>, c: Cid) { forall i :: 0 <= i < |diff| ==> diff[i].aft < c }

  lemma DiffBelow(src: Cid, dst: Cid)
    ensures Below(Diff(src, dst), dst)
  {
    DiffMeaning(src, dst);
    var diff := Diff(src, dst);
    forall i | 0 <= i < |diff| ensures diff[i].aft < dst {
      assert diff[i] in diff;
      var j :| 0 <= j < |Links(dst)| && Links(dst)[j].cid == diff[i].aft;
    }
  }

  /** The nodes that an update from `src` to `dst` gets: the two, and for each change what the
      walk of its new link adds, or what its own update gets. */
  ghost function Needed(src: Cid, dst: Cid): (r: set<Cid>)
    decreases dst, 1, 0
  {
    DiffBelow(src, dst);
    {src, dst} + NeededUpTo(Diff(src, dst), |Diff(src, dst)|, dst)
  }

  ghost function NeededUpTo(diff: seq<Change>, i: nat, dst: Cid): (r: set<Cid>)
    requires i <= |diff| && Below(diff, dst)
    decreases dst, 0, i
  {
    if i == 0 then {} else NeededUpTo(diff, i - 1, dst) + NeededFor(diff, i - 1, dst)
  }

  ghost function NeededFor(diff: seq<Change>, i: nat, dst: Cid): (r: set<Cid>)
    requires i < |diff| && Below(diff, dst)
    decreases dst, 0, i
  {
    if diff[i].bef.Some? then Needed(diff[i].bef.value, diff[i].aft) else Walked(diff[i].aft, SeenAfter(diff, i))
  }

  /** One change: a replaced link is enumerated against the one it replaces, a new one is
      walked unless it has been seen. */
  method FetchChange(net: set<Cid>, diff: seq<Change>, i: nat, seen0: set<Cid>, ghost dst: Cid)
    returns (seen: set<Cid>, got: set<Cid>, ok: bool)
    requires i < |diff| && Below(diff, dst) && seen0 == SeenAfter(diff, i)
    ensures ok <==> NeededFor(diff, i, dst) <= net
    ensures ok ==> got == NeededFor(diff, i, dst) && seen == SeenAfter(diff, i + 1)
    decreases dst, 0
  {
    seen, got, ok := seen0, {}, true;
    var d := diff[i];
    if d.bef.Some? {
      got, ok := DiffEnumerate(net, d.bef.value, d.aft);
    } else if d.aft in seen0 {
      assert Walked(d.aft, seen0) == {};
    } else {
      seen, ok := FetchWalk(net, d.aft, seen0);
      got := seen - seen0;
    }
  }

  /** The changes, in order, up to the first failure. */
  method FetchChanges(net: set<Cid>, diff: seq<Change>, ghost dst: Cid) returns (got: set<Cid>, ok: bool)
    requires Below(diff, dst)
    ensures ok <==> NeededUpTo(diff, |diff|, dst) <= net
    ensures ok ==> got == NeededUpTo(diff, |diff|, dst)
    decreases dst, 1
  {
    got, ok := {}, true;
    var seen: set<Cid> := set i | 0 <= i < |diff| && diff[i].bef.Some? :: diff[i].bef.value;
    for i := 0 to |diff|
      invariant ok && seen == SeenAfter(diff, i)
      invariant got == NeededUpTo(diff, i, dst) && got <= net
    {
      var more;
      seen, more, ok := FetchChange(net, diff, i, seen, dst);
      if !ok {
        NeededGrows(diff, i + 1, |diff|, dst);
        return;
      }
      got := got + more;
    }
  }

  /** `dst` is `src` with the link at `i`, which each has nowhere else, replaced. */
  ghost predicate Replaces(src: Cid, dst: Cid, i: nat)
  {
    && i < |Links(src)| == |Links(dst)|
    && (forall j :: 0 <= j < |Links(src)| && j != i ==> Links(src)[j].cid == Links(dst)[j].cid)
    && Links(src)[i].cid !in Kids(dst) && Links(dst)[i].cid !in Kids(src)
  }

  lemma SharedLinks(src: Cid, dst: Cid, i: nat)
    requires Replaces(src, dst, i)
    ensures forall j :: 0 <= j < |Links(src)| ==> (Links(src)[j].cid in Kids(dst) <==> j != i)
  {
    forall j | 0 <= j < |Links(src)| && j != i ensures Links(src)[j].cid in Kids(dst) {
      assert Links(dst)[j].cid in Kids(dst);
    }
  }

  /** An update that replaces one link costs the two nodes and the update below that link,
      however much hangs below the other links. */
  lemma OneLinkReplaced(src: Cid, dst: Cid, i: nat)
    requires Replaces(src, dst, i)
    ensures Needed(src, dst) == {src, dst} + Needed(Links(src)[i].cid, Links(dst)[i].cid)
  {
    var a, b := Links(src)[i].cid, Links(dst)[i].cid;
    SharedLinks(src, dst, i);
    assert Replaces(dst, src, i);
    SharedLinks(dst, src, i);
    OnlyOne(src, dst, i, |Links(src)|);
    OnlyOne(dst, src, i, |Links(dst)|);
    var diff := Diff(src, dst);
    DiffBelow(src, dst);
    assert diff == [Change(Some(a), b)];
    assert NeededUpTo(diff, 0, dst) == {};
    assert NeededUpTo(diff, 1, dst) == NeededFor(diff, 0, dst) == Needed(a, b);
  }

  /** One that only adds a link gets all that is below it. */
  lemma OneLinkAdded(src: Cid, dst: Cid, i: nat)
    requires i < |Links(dst)| && Kids(src) <= Kids(dst)
    requires forall j :: 0 <= j < |Links(dst)| ==> (Links(dst)[j].cid in Kids(src) <==> j != i)
    ensures Needed(src, dst) == {src, dst} + Desc(Links(dst)[i].cid)
  {
    var b := Links(dst)[i].cid;
    OnlyNone(src, dst, |Links(src)|);
    OnlyOne(dst, src, i, |Links(dst)|);
    var diff := Diff(src, dst);
    DiffBelow(src, dst);
    assert diff == [Change(None, b)];
    assert NeededUpTo(diff, 0, dst) == {} && SeenAfter(diff, 0) == {};
    assert Walked(b, {}) == Desc(b) by {
      WalkedClosed(b, {});
      DescLeast(b, {} + Walked(b, {}));
    }
    assert NeededUpTo(diff, 1, dst) == NeededFor(diff, 0, dst) == Walked(b, SeenAfter(diff, 0));
  }

  lemma {:induction false} SeenGrows(diff: seq<Change>, i: nat, j: nat)
    requires i <= j <= |diff|
    ensures SeenAfter(diff, i) <= SeenAfter(diff, j) && Replaced(diff) <= SeenAfter(diff, i)
    decreases j
  {
    if i < j { SeenGrows(diff, i, j - 1); } else if 0 < i { SeenGrows(diff, i - 1, i - 1); }
  }

  /** The walks of new links share one set of nodes seen: none gets what an earlier one got,
      nor a replaced link. */
  lemma WalksDisjoint(diff: seq<Change>, i: nat, j: nat, dst: Cid)
    requires i < j < |diff| && Below(diff, dst) && diff[i].bef.None? && diff[j].bef.None?
    ensures NeededFor(diff, i, dst) !! NeededFor(diff, j, dst) && NeededFor(diff, j, dst) !! Replaced(diff)
  {
    SeenGrows(diff, i + 1, j);
  }

  lemma {:induction false} NeededGrows(diff: seq<Change>, i: nat, j: nat, dst: Cid)
    requires i <= j <= |diff| && Below(diff, dst)
    ensures NeededUpTo(diff, i, dst) <= NeededUpTo(diff, j, dst)
    decreases j
  {
    if i < j { NeededGrows(diff, i, j - 1, dst); }
  }

  /** DiffEnumerate gets exactly the nodes needed, and fails iff one of them cannot be got. */
  method DiffEnumerate(net: set<Cid>, src: Cid, dst: Cid) returns (got: set<Cid>, ok: bool)
    ensures ok <==> Needed(src, dst) <= net
    ensures ok ==> got == Needed(src, dst)
    decreases dst, 2
  {
    got, ok := {}, src in net && dst in net;
    if !ok { return; }
    var diff := GetLinkDiff(src, dst);
    DiffBelow(src, dst);
    got, ok := FetchChanges(net, diff, dst);
    got := got + {src, dst};
  }

  // ------------------------------------------------------------------ what that amounts to

  lemma KidBelow(c: Cid, k: Cid)
    requires k in Kids(c)
    ensures Desc(k) <= Desc(c)
  {
    DescClosed(c);
    DescLeast(k, Desc(c));
  }

  /** The nodes seen are had already, or were got with their children seen. */
  ghost predicate Covered(have: set<Cid>, got: set<Cid>, seen: set<Cid>)
  {
    forall x :: x in seen ==> x in have || (x in got && Kids(x) <= seen)
  }

  lemma CoveredBelow(have: set<Cid>, got: set<Cid>, seen: set<Cid>, c: Cid)
    requires Whole(have) && Covered(have, got, seen) && c in seen
    ensures Desc(c) <= have + got
  {
    DescLeast(c, have + seen);
  }

  lemma AllKids(c: Cid, s: set<Cid>)
    requires c in s && forall k :: k in Kids(c) ==> Desc(k) <= s
    ensures Desc(c) <= s
  {
    DescUnfold(c);
  }

  /** The changes start from nodes had, and lead to nodes wanted. */
  ghost predicate Leads(diff: seq<Change>, have: set<Cid>, want: set<Cid>)
  {
    forall i :: 0 <= i < |diff| ==>
      Desc(diff[i].aft) <= want && (diff[i].bef.Some? ==> Desc(diff[i].bef.value) <= have)
  }

  /** After the first `i` changes all below them is had or was got, and nothing was got that
      is neither had nor wanted. */
  ghost predicate Enumerated(diff: seq<Change>, i: nat, have: set<Cid>, want: set<Cid>, got: set<Cid>)
    requires i <= |diff|
  {
    got <= have + want && forall j :: 0 <= j < i ==> Desc(diff[j].aft) <= have + got
  }

  lemma {:induction false} ChangesMeaning(diff: seq<Change>, i: nat, dst: Cid, have: set<Cid>, want: set<Cid>)
    requires i <= |diff| && Below(diff, dst) && Whole(have) && Leads(diff, have, want)
    ensures Enumerated(diff, i, have, want, NeededUpTo(diff, i, dst))
    ensures Covered(have, NeededUpTo(diff, i, dst), SeenAfter(diff, i))
    decreases dst, 0, i
  {
    if i == 0 {
      assert Replaced(diff) <= have by {
        forall k | 0 <= k < |diff| && diff[k].bef.Some? ensures diff[k].bef.value in have {
          assert diff[k].bef.value in Desc(diff[k].bef.value);
        }
      }
    } else {
      ChangesMeaning(diff, i - 1, dst, have, want);
      ChangeMeaning(diff, i - 1, dst, have, want, NeededUpTo(diff, i - 1, dst));
    }
  }

  lemma {:induction false} ChangeMeaning(diff: seq<Change>, i: nat, dst: Cid, have: set<Cid>, want: set<Cid>,
                                         got: set<Cid>)
    requires i < |diff| && Below(diff, dst) && Whole(have) && Leads(diff, have, want)
    requires Enumerated(diff, i, have, want, got) && Covered(have, got, SeenAfter(diff, i))
    ensures Enumerated(diff, i + 1, have, want, got + NeededFor(diff, i, dst))
    ensures Covered(have, got + NeededFor(diff, i, dst), SeenAfter(diff, i + 1))
    decreases dst, 0, i
  {
    var d, more := diff[i], NeededFor(diff, i, dst);
    if d.bef.Some? {
      NeededMeaning(d.bef.value, d.aft);
    } else {
      NewLink(d.aft, SeenAfter(diff, i), have, got);
    }
    assert more <= have + want && Desc(d.aft) <= have + (got + more);
    EnumeratedStep(diff, i, have, want, got, got + more);
  }

  /** A new link: all below it is had or was got. */
  lemma NewLink(c: Cid, seen: set<Cid>, have: set<Cid>, got: set<Cid>)
    requires Whole(have) && Covered(have, got, seen)
    ensures var more := Walked(c, seen);
            && more <= Desc(c) && Covered(have, got + more, seen + more) && Desc(c) <= have + (got + more)
  {
    var more := Walked(c, seen);
    WalkedClosed(c, seen);
    CoveredBelow(have, got + more, seen + more, c);
  }

  lemma EnumeratedStep(diff: seq<Change>, i: nat, have: set<Cid>, want: set<Cid>, got0: set<Cid>, got: set<Cid>)
    requires i < |diff| && Enumerated(diff, i, have, want, got0)
    requires got0 <= got <= have + want && Desc(diff[i].aft) <= have + got
    ensures Enumerated(diff, i + 1, have, want, got)
  {
    forall j | 0 <= j < i + 1 ensures Desc(diff[j].aft) <= have + got {
    }
  }

  lemma DiffLeads(src: Cid, dst: Cid)
    ensures Leads(Diff(src, dst), Desc(src), Desc(dst))
  {
    DiffMeaning(src, dst);
    var diff := Diff(src, dst);
    forall i | 0 <= i < |diff|
      ensures Desc(diff[i].aft) <= Desc(dst) && (diff[i].bef.Some? ==> Desc(diff[i].bef.value) <= Desc(src))
    {
      assert diff[i] in diff;
      KidBelow(dst, diff[i].aft);
      if diff[i].bef.Some? { KidBelow(src, diff[i].bef.value); }
    }
  }

  lemma EnumeratedAll(src: Cid, dst: Cid, got: set<Cid>)
    requires Enumerated(Diff(src, dst), |Diff(src, dst)|, Desc(src), Desc(dst), got) && dst in got
    ensures Desc(dst) <= Desc(src) + got
  {
    forall k | k in Kids(dst) ensures Desc(k) <= Desc(src) + got {
      if k in Kids(src) {
        KidBelow(src, k);
      } else {
        DiffMeaning(src, dst);
        assert Brings(Diff(src, dst), k);
      }
    }
    AllKids(dst, Desc(src) + got);
  }

  /** With the nodes needed the new graph is complete if the old one is, and none is needed
      that is in neither graph.  When the new node has no link that the old one has not, only
      the two nodes are. */
  lemma {:induction false} NeededMeaning(src: Cid, dst: Cid)
    ensures Needed(src, dst) <= Desc(src) + Desc(dst)
    ensures Desc(dst) <= Desc(src) + Needed(src, dst)
    ensures Kids(dst) <= Kids(src) ==> Needed(src, dst) == {src, dst}
    decreases dst, 1, 0
  {
    var diff := Diff(src, dst);
    DiffBelow(src, dst);
    DiffLeads(src, dst);
    DescClosed(src);
    ChangesMeaning(diff, |diff|, dst, Desc(src), Desc(dst));
    var got := NeededUpTo(diff, |diff|, dst);
    assert Enumerated(diff, |diff|, Desc(src), Desc(dst), {src, dst} + got);
    EnumeratedAll(src, dst, {src, dst} + got);
    if diff != [] {
      DiffMeaning(src, dst);
      assert diff[0] in diff;
    }
  }
}
