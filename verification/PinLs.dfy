/** `pin ls`: pinLsAll of core/coreapi/pin.go. */
module PinLs {
  import opened Ipld
  import opened DagWalk
  import GcLock

  datatype Label = RecursivePin | DirectPin | IndirectPin

  datatype Info = Info(c: Cid, tag: Label)

  datatype Kind = All | RecursiveOnes | DirectOnes | IndirectOnes

  // ------------------------------------------------------------------ specification

  /** The proper descendants of the recursive pins. */
  ghost function Below(rec: set<Cid>): (r: set<Cid>) { set c, x | c in rec && x in DescAll(Kids(c)) :: x }

  /** A CID is listed under the first label that applies. */
  ghost predicate Labelled(rec: set<Cid>, dir: set<Cid>, i: Info)
  {
    match i.tag
    case RecursivePin => i.c in rec
    case DirectPin => i.c in dir - rec
    case IndirectPin => i.c in Below(rec) - rec - dir
  }

  /** What each listing shows.  A listing of one kind shows the CIDs that carry its label
      in the full listing, except that the direct listing does not look at the
      recursive pins. */
  ghost predicate Shown(k: Kind, rec: set<Cid>, dir: set<Cid>, i: Info)
  {
    match k
    case All => Labelled(rec, dir, i)
    case RecursiveOnes => i.tag == RecursivePin && Labelled(rec, dir, i)
    case DirectOnes => i.tag == DirectPin && i.c in dir
    case IndirectOnes => i.tag == IndirectPin && Labelled(rec, dir, i)
  }

  ghost predicate Agree(rec: set<Cid>, dir: set<Cid>)
  {
    forall i: Info :: i.tag == DirectPin ==> (Shown(DirectOnes, rec, dir, i) <==> Shown(All, rec, dir, i))
  }

  /** So the direct listing agrees with the full one exactly when no CID is pinned both
      ways. */
  lemma DirectListingAgrees(rec: set<Cid>, dir: set<Cid>)
    ensures Agree(rec, dir) <==> rec !! dir
  {
    forall c | c in rec && c in dir
      ensures Shown(DirectOnes, rec, dir, Info(c, DirectPin)) && !Shown(All, rec, dir, Info(c, DirectPin))
    {
    }
  }

  /** The pins can come to that: adding a block with a pin leaves its direct pin in place. */
  lemma DirectListingDiffers()
    ensures exists s: GcLock.State :: GcLock.Reachable(s) && s.ops == map[] && !Agree(s.rec, s.dir)
  {
    GcLock.PinnedBothWays();
    var s: GcLock.State, c: Cid :| GcLock.Reachable(s) && s.ops == map[] && c in s.rec && c in s.dir;
    DirectListingAgrees(s.rec, s.dir);
  }

  ghost predicate OncePerCid(out: seq<Info>)
  {
    forall i, j :: 0 <= i < j < |out| ==> out[i].c != out[j].c
  }

  /** The links of all these can be fetched: raw leaves need no fetch. */
  ghost predicate AllFetch(st: Store, s: set<Cid>) { forall x :: x in s ==> x.Raw? || x in st.blocks - st.broken }

  // ------------------------------------------------------------------ operations

  /** AddToResultKeys: `keys` is shared by all calls, so no CID is emitted twice. */
  method AddToResultKeys(list: seq<Cid>, tag: Label, keys0: set<Cid>, out0: seq<Info>)
    returns (keys: set<Cid>, out: seq<Info>)
    requires OncePerCid(out0) && forall i :: i in out0 ==> i.c in keys0
    ensures OncePerCid(out) && forall i :: i in out ==> i.c in keys
    ensures keys == keys0 + Set(list)
    ensures forall i :: i in out <==> i in out0 || (i.tag == tag && i.c in Set(list) - keys0)
  {
    keys, out := keys0, out0;
    for n := 0 to |list|
      invariant OncePerCid(out) && forall i :: i in out ==> i.c in keys
      invariant keys == keys0 + Set(list[..n])
      invariant forall i :: i in out <==> i in out0 || (i.tag == tag && i.c in Set(list[..n]) - keys0)
    {
      assert Set(list[..n + 1]) == Set(list[..n]) + {list[n]};
      if list[n] !in keys {
        assert forall j :: 0 <= j < |out| ==> out[j] in out;
        keys, out := keys + {list[n]}, out + [Info(list[n], tag)];
      }
    }
    assert list[..|list|] == list;
  }

  lemma BelowGrows(rec: set<Cid>, r: Cid)
    ensures Below(rec + {r}) == Below(rec) + DescAll(Kids(r))
  {
  }

  lemma FetchedIsAll(st: Store, roots: set<Cid>)
    requires AllFetch(st, ReachAll(st.Open(), roots))
    ensures ReachAll(st.Open(), roots) == DescAll(roots)
  {
    forall x | x in ReachAll(st.Open(), roots) ensures x in st.Open() || Kids(x) == {} {
      ExpandedIsOpen(Plain, st, x);
    }
    ReachAllIsDesc(st.Open(), roots);
  }

  lemma ClosedUnion(open: set<Cid>, a: set<Cid>, b: set<Cid>)
    requires ClosedUnder(open, a) && ClosedUnder(open, b)
    ensures ClosedUnder(open, a + b)
  {
  }

  /** One root-skipping walk adds all proper descendants of its root, given that all that
      was visited before is complete. */
  lemma SkipRootStep(st: Store, before: set<Cid>, r: Cid, v: set<Cid>)
    requires v == before + Fresh(st, Kids(r), before)
    requires AllFetch(st, before) && Accepted(Plain, st, v - before) && ClosedUnder(st.Open(), before)
    ensures v == before + DescAll(Kids(r)) && AllFetch(st, v) && ClosedUnder(st.Open(), v)
  {
    var found := ReachAll(st.Open(), Kids(r));
    assert v == before + found by { Absorb(st.Open(), before, Kids(r)); }
    assert AllFetch(st, v) by {
      forall x | x in v ensures React(Plain, st, x) == Expand {
        if x !in before { assert x in v - before; }
      }
    }
    assert found == DescAll(Kids(r)) by { FetchedIsAll(st, Kids(r)); }
    assert ClosedUnder(st.Open(), v) by {
      ReachAllClosed(st.Open(), Kids(r));
      ClosedUnion(st.Open(), before, found);
    }
  }

  lemma FreshWithinBelow(st: Store, rec: set<Cid>, rec': set<Cid>, r: Cid)
    requires r in rec' && rec <= rec'
    ensures Fresh(st, Kids(r), Below(rec)) <= DescAll(rec')
  {
    DescAllWhole(rec');
    ReachAllLeast(st.Open() - Below(rec), Kids(r), DescAll(rec'));
  }

  /** The walks of the indirect listing, over one visited set. */
  method Indirect(ctx: Context, st: Store, rkeys: seq<Cid>) returns (found: set<Cid>, res: Outcome)
    ensures res == Finished ==> found == Below(Set(rkeys)) && AllFetch(st, DescAll(Set(rkeys)))
    ensures res == Aborted ==> !AllFetch(st, DescAll(Set(rkeys)))
    ensures res == Cancelled ==> ctx == Cancellable
  {
    found, res := {}, Finished;
    assert Set(rkeys[..0]) == {};
    for i := 0 to |rkeys|
      invariant res == Finished && found == Below(Set(rkeys[..i]))
      invariant AllFetch(st, found) && ClosedUnder(st.Open(), found) && AllFetch(st, Set(rkeys[..i]))
    {
      assert Set(rkeys[..i + 1]) == Set(rkeys[..i]) + {rkeys[i]};
      FreshWithinBelow(st, Set(rkeys[..i]), Set(rkeys), rkeys[i]);
      var v;
      v, res := WalkSkipRoot(ctx, st, rkeys[i], found);
      if res != Finished {
        assert rkeys[i] in Desc(rkeys[i]);
        return;
      }
      SkipRootStep(st, found, rkeys[i], v);
      BelowGrows(Set(rkeys[..i]), rkeys[i]);
      found := v;
    }
    assert rkeys[..|rkeys|] == rkeys;
    DescIsRootOrBelow(Set(rkeys));
  }

  lemma DescIsRootOrBelow(rec: set<Cid>)
    ensures DescAll(rec) == rec + Below(rec)
  {
    forall x | x in DescAll(rec) ensures x in rec + Below(rec) {
      var c :| c in rec && x in Desc(c);
      DescUnfold(c);
    }
    forall x | x in rec + Below(rec) ensures x in DescAll(rec) {
      var c :| c in rec && (x == c || x in DescAll(Kids(c)));
      DescUnfold(c);
    }
  }

  /** cid.Set.Keys, in any order. */
  method Keys(s: set<Cid>) returns (keys: seq<Cid>)
    ensures Set(keys) == s
  {
    keys := [];
    var left := s;
    while left != {}
      invariant left <= s && Set(keys) == s - left
    {
      var k :| k in left;
      assert Set(keys + [k]) == Set(keys) + {k};
      keys, left := keys + [k], left - {k};
    }
  }

  /** pinLsAll.  A finished listing emits each CID once, under its label, and exactly the
      CIDs whose label was asked for; it aborts iff indirect pins were asked for and
      some descendant of a recursive pin cannot be fetched. */
  method PinLsAll(ctx: Context, st: Store, rkeys: seq<Cid>, dkeys: seq<Cid>, kind: Kind)
    returns (out: seq<Info>, res: Outcome)
    ensures OncePerCid(out)
    ensures res == Finished ==>
              forall i :: i in out <==> Shown(kind, Set(rkeys), Set(dkeys), i)
    // a listing that does not finish has shown the recursive and direct pins
    ensures forall i :: i in out ==> Shown(kind, Set(rkeys), Set(dkeys), i)
    ensures forall i :: Shown(kind, Set(rkeys), Set(dkeys), i) && i.tag != IndirectPin ==> i in out
    ensures res == Cancelled ==> ctx == Cancellable
    ensures res != Cancelled ==>
              (res == Finished <==> (kind == All || kind == IndirectOnes ==> AllFetch(st, DescAll(Set(rkeys)))))
  {
    var keys: set<Cid> := {};
    out, res := [], Finished;
    if kind == RecursiveOnes || kind == All {
      keys, out := AddToResultKeys(rkeys, RecursivePin, keys, out);
    }
    if kind == DirectOnes || kind == All {
      keys, out := AddToResultKeys(dkeys, DirectPin, keys, out);
    }
    if kind == All {
      var found;
      found, res := Indirect(ctx, st, rkeys);
      if res != Finished { return; }
      var list := Keys(found);
      keys, out := AddToResultKeys(list, IndirectPin, keys, out);
    }
    if kind == IndirectOnes {
      keys := keys + Set(dkeys);
      keys := keys + Set(rkeys);
      var found;
      found, res := Indirect(ctx, st, rkeys);
      if res != Finished { return; }
      var list := Keys(found);
      keys, out := AddToResultKeys(list, IndirectPin, keys, out);
    }
  }
}
