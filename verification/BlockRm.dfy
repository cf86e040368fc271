/** `block rm`: blocks/blockstoreutil/remove.go, with the pinner's CheckIfPinned that
    it relies on. */
module BlockRm {
  import opened Ipld
  import opened DagWalk
  import opened Gc

  datatype Mode = Recursive | Direct | Indirect | NotPinned

  datatype Pinned = Pinned(key: Cid, mode: Mode)

  datatype Pins = Pins(rec: set<Cid>, dir: set<Cid>) {
    ghost function Protected(): (r: set<Cid>) { dir + DescAll(rec) }
  }

  /** Of the requested CIDs, those that nothing protects. */
  ghost function MayGo(pins: Pins, cids: set<Cid>): (r: set<Cid>) { cids - pins.Protected() }

  /** Nothing below these is left to visit, and the links of all were fetched. */
  ghost predicate Complete(st: Store, visited: set<Cid>) { Whole(visited) && Accepted(Plain, st, visited) }

  /** One walk of the indirect check: visiting stops once nothing is left to check. */
  method CheckWalk(st: Store, rk: Cid, visited0: set<Cid>, toCheck0: set<Cid>, ghost all: set<Cid>)
    returns (visited: set<Cid>, ok: bool)
    requires rk in all && visited0 <= all && ClosedUnder(st.Open(), all)
    requires !(toCheck0 <= visited0) ==> Complete(st, visited0)
    ensures visited0 <= visited <= all
    ensures ok && !(toCheck0 <= visited) ==> rk in visited && Complete(st, visited)
    ensures !ok ==> !Accepted(Plain, st, all)
  {
    visited, ok := visited0, true;
    var todo := {rk};
    while todo != {}
      invariant todo <= all && visited0 <= visited <= all
      invariant !(toCheck0 <= visited) ==>
                  && rk in visited + todo && Accepted(Plain, st, visited)
                  && forall x :: x in visited ==> Kids(x) <= visited + todo
      decreases all - visited, todo
    {
      var c :| c in todo;
      todo := todo - {c};
      if !(toCheck0 <= visited) && c !in visited {
        visited := visited + {c};
        if React(Plain, st, c) != Expand {
          ok := false;
          return;
        }
        ExpandedIsOpen(Plain, st, c);
        todo := todo + Kids(c);
      }
    }
  }

  lemma ReachedIsBelow(st: Store, rec: set<Cid>)
    ensures ReachAll(st.Open(), rec) <= DescAll(rec)
  {
    DescAllWhole(rec);
    ReachAllLeast(st.Open(), rec, DescAll(rec));
  }

  lemma NextRoot(rec: set<Cid>, visited: set<Cid>, visited': set<Cid>, roots: set<Cid>, rk: Cid)
    requires rk in roots && visited <= visited'
    ensures |roots - {rk}| < |roots|
    ensures rec <= visited + roots && rk in visited' ==> rec <= visited' + (roots - {rk})
  {
  }

  lemma FoundExactly(st: Store, rec: set<Cid>, toCheck: set<Cid>, visited: set<Cid>)
    requires visited <= ReachAll(st.Open(), rec)
    requires !(toCheck <= visited) ==> rec <= visited && Complete(st, visited)
    ensures toCheck * visited == toCheck * DescAll(rec)
    ensures !(toCheck <= DescAll(rec)) ==> Accepted(Plain, st, DescAll(rec))
  {
    ReachedIsBelow(st, rec);
    if !(toCheck <= visited) {
      assert DescAll(rec) <= visited by { DescAllLeast(rec, visited); }
    }
  }

  /** One walk per recursive pin, in any order, over a shared visited set. */
  method CheckWalks(st: Store, rec: set<Cid>, toCheck: set<Cid>, ghost all: set<Cid>)
    returns (visited: set<Cid>, ok: bool)
    requires rec <= all && ClosedUnder(st.Open(), all)
    ensures visited <= all
    ensures ok && !(toCheck <= visited) ==> rec <= visited && Complete(st, visited)
    ensures !ok ==> toCheck != {} && !Accepted(Plain, st, all)
  {
    var roots := rec;
    visited, ok := {}, true;
    while roots != {} && !(toCheck <= visited)
      invariant roots <= rec && visited <= all && ok
      invariant !(toCheck <= visited) ==> rec <= visited + roots && Complete(st, visited)
      decreases |roots|
    {
      var rk :| rk in roots;
      ghost var before := visited;
      visited, ok := CheckWalk(st, rk, visited, toCheck, all);
      if !ok { return; }
      NextRoot(rec, before, visited, roots, rk);
      roots := roots - {rk};
    }
  }

  /** The indirect check: a CID is found when it is visited.  Unless all are found, every
      node below the recursive pins has been fetched. */
  method FindIndirect(st: Store, rec: set<Cid>, toCheck: set<Cid>) returns (found: set<Cid>, ok: bool)
    ensures ok ==> found == toCheck * DescAll(rec) && found <= ReachAll(st.Open(), rec)
    ensures ok && !(toCheck <= DescAll(rec)) ==> Accepted(Plain, st, DescAll(rec))
    ensures !ok ==> toCheck != {} && !Accepted(Plain, st, DescAll(rec))
  {
    ReachAllClosed(st.Open(), rec);
    var visited;
    visited, ok := CheckWalks(st, rec, toCheck, ReachAll(st.Open(), rec));
    found := toCheck * visited;
    ReachedIsBelow(st, rec);
    if ok { FoundExactly(st, rec, toCheck, visited); }
  }

  /** Some node at or below a recursive pin cannot be fetched. */
  ghost predicate Uncheckable(st: Store, pins: Pins)
  {
    exists x :: x in DescAll(pins.rec) && x.Node? && x !in st.blocks - st.broken
  }

  ghost predicate Judged(vs: seq<Pinned>, c: Cid) { exists v :: v in vs && v.key == c }

  /** How a CID is pinned, a recursive pin first. */
  ghost function ModeOf(pins: Pins, c: Cid): (m: Mode)
    ensures m == NotPinned <==> c !in pins.Protected()
  {
    DescAllWhole(pins.rec);
    if c in pins.rec then Recursive
    else if c in pins.dir then Direct
    else if c in DescAll(pins.rec) then Indirect
    else NotPinned
  }

  /** All verdicts are right, and about CIDs asked about. */
  ghost predicate Right(pins: Pins, cids: seq<Cid>, vs: seq<Pinned>)
  {
    forall v :: v in vs ==> v.key in cids && v.mode == ModeOf(pins, v.key)
  }

  /** The first part of CheckIfPinned: direct lookups, which leave the rest to be checked. */
  method CheckLookups(pins: Pins, cids: seq<Cid>) returns (verdicts: seq<Pinned>, toCheck: set<Cid>)
    ensures toCheck <= Set(cids) && toCheck !! pins.rec && toCheck !! pins.dir
    ensures Right(pins, cids, verdicts) && forall v :: v in verdicts ==> v.mode == Recursive || v.mode == Direct
    ensures forall c :: c in cids ==> c in toCheck || Judged(verdicts, c)
    ensures |verdicts| + |toCheck| <= |cids|
  {
    verdicts, toCheck := [], {};
    for i := 0 to |cids|
      invariant toCheck <= Set(cids[..i]) && toCheck !! pins.rec && toCheck !! pins.dir
      invariant |verdicts| + |toCheck| <= i
      invariant Right(pins, cids, verdicts)
      invariant forall v :: v in verdicts ==> v.mode == Recursive || v.mode == Direct
      invariant forall c :: c in cids[..i] ==> c in toCheck || Judged(verdicts, c)
    {
      var c := cids[i];
      if c in pins.rec {
        verdicts := verdicts + [Pinned(c, Recursive)];
        assert Pinned(c, Recursive) in verdicts;
      } else if c in pins.dir {
        verdicts := verdicts + [Pinned(c, Direct)];
        assert Pinned(c, Direct) in verdicts;
      } else {
        toCheck := toCheck + {c};
      }
    }
    assert cids[..|cids|] == cids;
  }

  lemma Parts(all: set<Cid>, found: set<Cid>)
    requires found <= all
    ensures |found| + |all - found| == |all|
  {
    assert found + (all - found) == all;
  }

  /** CheckIfPinned.  The verdicts cover exactly the CIDs asked about, and each is right. */
  method CheckIfPinned(st: Store, pins: Pins, cids: seq<Cid>) returns (verdicts: seq<Pinned>, ok: bool)
    ensures ok ==> forall v :: v in verdicts ==> v.key in cids && v.mode == ModeOf(pins, v.key)
    ensures ok ==> forall v :: v in verdicts ==>
              && (v.mode == Recursive <==> v.key in pins.rec)
              && (v.mode == Direct <==> v.key in pins.dir - pins.rec)
              && (v.mode == Indirect <==> v.key in DescAll(pins.rec) - pins.rec - pins.dir)
    ensures ok ==> forall c :: c in cids ==> Judged(verdicts, c)
    ensures |verdicts| <= |cids| && (!ok ==> cids != [])
    ensures !ok ==> Uncheckable(st, pins)
    // an indirect pin was met over fetched nodes, and to find a CID unpinned takes all of them
    ensures ok ==> forall v :: v in verdicts && v.mode == Indirect ==> v.key in ReachAll(st.Open(), pins.rec)
    ensures ok && MayGo(pins, Set(cids)) != {} ==> !Uncheckable(st, pins)
  {
    var toCheck, found;
    verdicts, toCheck := CheckLookups(pins, cids);
    found, ok := FindIndirect(st, pins.rec, toCheck);
    if !ok { return; }
    ghost var listed := verdicts;
    Parts(toCheck, found);
    verdicts := Append(verdicts, found, Indirect);
    verdicts := Append(verdicts, toCheck - found, NotPinned);
    AllJudged(pins, cids, listed, toCheck, found, verdicts);
    if MayGo(pins, Set(cids)) != {} { UnpinnedUnchecked(st, pins, cids, listed, toCheck); }
  }

  /** `vs` is `listed` with the indirect pins found and the rest. */
  ghost predicate Extends(listed: seq<Pinned>, toCheck: set<Cid>, found: set<Cid>, vs: seq<Pinned>)
  {
    forall v :: v in vs <==>
      v in listed || (v.mode == Indirect && v.key in found) || (v.mode == NotPinned && v.key in toCheck - found)
  }

  lemma AllJudged(pins: Pins, cids: seq<Cid>, listed: seq<Pinned>, toCheck: set<Cid>, found: set<Cid>,
                  vs: seq<Pinned>)
    requires toCheck <= Set(cids) && toCheck !! pins.rec && toCheck !! pins.dir && Right(pins, cids, listed)
    requires forall c :: c in cids ==> c in toCheck || Judged(listed, c)
    requires found == toCheck * DescAll(pins.rec) && Extends(listed, toCheck, found, vs)
    ensures Right(pins, cids, vs) && forall c :: c in cids ==> Judged(vs, c)
    ensures forall v :: v in vs && v.mode == Indirect ==> v in listed || v.key in found
  {
    DescAllWhole(pins.rec);
    forall c | c in cids ensures Judged(vs, c) {
      if c in found { assert Pinned(c, Indirect) in vs; }
      else if c in toCheck { assert Pinned(c, NotPinned) in vs; }
      else { var v :| v in listed && v.key == c; assert v in vs; }
    }
  }

  lemma UnpinnedUnchecked(st: Store, pins: Pins, cids: seq<Cid>, listed: seq<Pinned>, toCheck: set<Cid>)
    requires MayGo(pins, Set(cids)) != {}
    requires forall v :: v in listed ==> v.mode != NotPinned && v.mode == ModeOf(pins, v.key)
    requires forall c :: c in cids ==> c in toCheck || Judged(listed, c)
    requires !(toCheck <= DescAll(pins.rec)) ==> Accepted(Plain, st, DescAll(pins.rec))
    ensures !Uncheckable(st, pins)
  {
    var c :| c in MayGo(pins, Set(cids));
    assert ModeOf(pins, c) == NotPinned;
    assert c in toCheck;
    forall x | x in DescAll(pins.rec) ensures !(x.Node? && x !in st.blocks - st.broken) {
      assert Passable(Plain, st, x);
    }
  }

  method Append(vs: seq<Pinned>, keys: set<Cid>, mode: Mode) returns (r: seq<Pinned>)
    ensures forall v :: v in r <==> v in vs || (v.mode == mode && v.key in keys)
    ensures |r| == |vs| + |keys|
  {
    r := vs;
    var left := keys;
    while left != {}
      invariant left <= keys && |r| + |left| == |vs| + |keys|
      invariant forall v :: v in r <==> v in vs || (v.mode == mode && v.key in keys - left)
    {
      var k :| k in left;
      r, left := r + [Pinned(k, mode)], left - {k};
    }
  }

  datatype RmResult =
    | Removed(c: Cid)
    | StillPinned(c: Cid)
    | Missing(c: Cid)
    | NotRemoved(c: Cid)          // the lookup or the delete failed
    | CheckFailed             // the pin check failed: nothing is tried

  /** FilterPinned: the CIDs that may go, in the order of the verdicts, and a notice for
      each pinned one. */
  method FilterPinned(st: Store, pins: Pins, cids: seq<Cid>)
    returns (stillOkay: seq<Cid>, out: seq<RmResult>)
    ensures CheckFailed in out ==> stillOkay == [] && out == [CheckFailed] && Uncheckable(st, pins)
    ensures CheckFailed !in out ==> Set(stillOkay) == MayGo(pins, Set(cids))
    ensures MayGo(pins, Set(cids)) != {} ==> (CheckFailed in out <==> Uncheckable(st, pins))
    ensures forall r :: r in out ==> r.CheckFailed? || (r.StillPinned? && r.c in Set(cids) * pins.Protected())
    ensures CheckFailed !in out ==> forall c :: c in cids && c in pins.Protected() ==> StillPinned(c) in out
    ensures |stillOkay| + |out| <= |cids|
  {
    stillOkay, out := [], [];
    var verdicts, ok := CheckIfPinned(st, pins, cids);
    if !ok { out := [CheckFailed]; return; }
    for i := 0 to |verdicts|
      invariant forall r :: r in out ==> r.StillPinned? && r.c in Set(cids) * pins.Protected()
      invariant forall c :: c in stillOkay ==> c in cids && c !in pins.Protected()
      invariant |stillOkay| + |out| == i
      invariant forall j :: 0 <= j < i ==> if verdicts[j].mode == NotPinned
                                           then verdicts[j].key in stillOkay
                                           else StillPinned(verdicts[j].key) in out
    {
      var v := verdicts[i];
      assert v in verdicts;
      if v.mode == NotPinned {
        stillOkay := stillOkay + [v.key];
      } else {
        out := out + [StillPinned(v.key)];
      }
    }
    forall c | c in cids ensures if c in pins.Protected() then StillPinned(c) in out else c in stillOkay {
      assert Judged(verdicts, c);
      var v :| v in verdicts && v.key == c;
      var j :| 0 <= j < |verdicts| && verdicts[j] == v;
    }
  }

  /** RmBlocks, under the exclusive lock: it deletes only requested, unprotected blocks,
      and unless something failed it deletes all of them. */
  method RmBlocks(bs: Blockstore, pins: Pins, cids: seq<Cid>, force: bool, quiet: bool)
    returns (out: seq<RmResult>)
    modifies bs
    ensures bs.st.broken == old(bs.st.broken)
    ensures old(bs.st.blocks) - (Set(cids) - pins.Protected()) <= bs.st.blocks <= old(bs.st.blocks)
    ensures CheckFailed in out ==> bs.st == old(bs.st) && Uncheckable(old(bs.st), pins)
    // so an unpinned block goes only if everything below the recursive pins can be fetched
    ensures MayGo(pins, Set(cids)) != {} ==> (CheckFailed in out <==> Uncheckable(old(bs.st), pins))
    ensures CheckFailed !in out ==>
              forall c :: c in bs.st.blocks && c in cids && c !in pins.Protected() ==> NotRemoved(c) in out
    ensures CheckFailed !in out ==> forall c :: c in cids && c in pins.Protected() ==> StillPinned(c) in out
    ensures forall r :: r in out ==> r.CheckFailed? || r.c in cids
    ensures forall r :: r in out && r.Removed? ==> !quiet && r.c !in bs.st.blocks && r.c !in pins.Protected()
    ensures forall r :: r in out && r.Missing? ==> !force && r.c !in bs.st.blocks
    ensures forall r :: r in out && r.NotRemoved? ==> r.c in bs.faulty
    ensures !quiet ==> forall c :: c in old(bs.st.blocks) - bs.st.blocks ==> Removed(c) in out
    // an unpinned CID that is not there: with force it counts as removed, without it is missing
    ensures CheckFailed !in out ==>
              forall c :: c in cids && c !in pins.Protected() && c !in old(bs.st.blocks) ==>
                NotRemoved(c) in out || (if force then quiet || Removed(c) in out else Missing(c) in out)
    // the results fit the channel made for them, so the lock is never held by a blocked sender
    ensures |out| <= |cids|
  {
    var stillOkay;
    stillOkay, out := FilterPinned(bs.st, pins, cids);
    ghost var notices := out;
    for i := 0 to |stillOkay|
      invariant bs.st.broken == old(bs.st.broken)
      invariant old(bs.st.blocks) - Set(stillOkay[..i]) <= bs.st.blocks <= old(bs.st.blocks)
      invariant notices <= out && (CheckFailed in out ==> CheckFailed in notices)
      invariant forall c :: c in bs.st.blocks && c in stillOkay[..i] ==> NotRemoved(c) in out
      invariant forall r :: r in out ==> r.CheckFailed? || r.c in cids
      invariant forall r :: r in out && r.NotRemoved? ==> r.c in bs.faulty
      invariant forall r :: r in out && r.Removed? ==> !quiet && r.c !in bs.st.blocks && r.c in stillOkay
      invariant forall r :: r in out && r.Missing? ==> !force && r.c !in bs.st.blocks
      invariant !quiet ==> forall c :: c in old(bs.st.blocks) - bs.st.blocks ==> Removed(c) in out
      invariant forall c :: c in stillOkay[..i] && c !in old(bs.st.blocks) ==>
                  NotRemoved(c) in out || (if force then quiet || Removed(c) in out else Missing(c) in out)
      invariant |out| <= |notices| + i
    {
      var c := stillOkay[i];
      assert c in Set(stillOkay) && c in Set(cids);
      assert Set(stillOkay[..i + 1]) == Set(stillOkay[..i]) + {c};
      var lookupFailed: bool := *;
      if lookupFailed && c in bs.faulty {
        out := out + [NotRemoved(c)];
        continue;
      }
      if c !in bs.st.blocks && !force {
        out := out + [Missing(c)];
        continue;
      }
      var ok := bs.DeleteBlock(c);
      if !ok {
        out := out + [NotRemoved(c)];
      } else if !quiet {
        out := out + [Removed(c)];
      }
    }
    assert stillOkay[..|stillOkay|] == stillOkay;
    assert CheckFailed !in notices ==> forall c :: c in cids && c !in pins.Protected() ==> c in Set(stillOkay);
  }
}
