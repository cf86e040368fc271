/** `ipfs add`: core/coreunix/add.go.  It holds the pin lock, but when a collection waits it
    pins its current root, lets go of the lock and takes it again. */
module Upload {
  import opened Ipld
  import opened Wrappers
  import opened GcLock

  // ------------------------------------------------------------------ pauses

  /** The upload holds its lock from `i` up to `j`. */
  ghost predicate Held(ss: seq<State>, t: Tid, i: nat, j: nat)
  {
    i <= j < |ss| && forall k :: i <= k < j ==> t in ss[k].ops && ss[k].ops[t].Uploading?
  }

  /** A pause: the root pinned before it, the release, and when the lock is held again. */
  datatype Pause = Pause(root: Cid, released: nat, held: nat)

  /** From `i` to `j` the upload holds its lock but for the pauses, and at each of them `x`
      is below the root that was pinned for it and that stays pinned meanwhile. */
  ghost predicate Covers(ss: seq<State>, t: Tid, x: Cid, i: nat, pauses: seq<Pause>, j: nat)
    decreases |pauses|
  {
    if pauses == [] then Held(ss, t, i, j)
    else
      var p := pauses[0];
      && Held(ss, t, i, p.released) && p.released <= p.held < |ss|
      && x in Desc(p.root) && (forall k :: p.released <= k < p.held ==> p.root in ss[k].rec)
      && Covers(ss, t, x, p.held, pauses[1..], j)
  }

  lemma HeldKeeps(ss: seq<State>, acts: seq<Action>, t: Tid, x: Cid, i: nat, j: nat)
    requires Run(ss, acts) && Held(ss, t, i, j) && x in ss[i].store
    ensures x in ss[j].store
  {
    SharedKeepsStore(ss, acts, t, i, j);
  }

  /** Over every run, what is stored stays stored through any number of such pauses. */
  lemma {:induction false} SurvivesPauses(ss: seq<State>, acts: seq<Action>, t: Tid, x: Cid,
                                          i: nat, pauses: seq<Pause>, j: nat)
    requires Run(ss, acts) && i < |ss| && j < |ss| && x in ss[i].store && Covers(ss, t, x, i, pauses, j)
    ensures x in ss[j].store
    decreases |pauses|
  {
    if pauses == [] {
      HeldKeeps(ss, acts, t, x, i, j);
    } else {
      var p := pauses[0];
      HeldKeeps(ss, acts, t, x, i, p.released);
      assert x in ss[p.held].store by {
        assert forall k :: p.released <= k < p.held ==> x in Protected(ss[k]);
        ProtectedStays(ss, acts, x, p.released, p.held);
      }
      SurvivesPauses(ss, acts, t, x, p.held, pauses[1..], j);
    }
  }

  /** So an upload that has stored every block below its final root at some point, and paused
      only so, leaves the whole graph stored for as long as the root stays pinned. */
  lemma UploadWhole(ss: seq<State>, acts: seq<Action>, t: Tid, root: Cid, j: nat, m: nat)
    requires Run(ss, acts) && j < m < |ss| && acts[j] == PinRoot(t, root)
    requires forall x :: x in Desc(root) && x != root ==>
               exists i: nat, pauses :: i < |ss| && x in ss[i].store && Covers(ss, t, x, i, pauses, j)
    requires forall k :: j < k < m ==> root in ss[k].rec
    ensures Desc(root) <= ss[m].store
  {
    forall x | x in Desc(root) ensures x in ss[j + 1].store {
      if x != root {
        var i: nat, pauses :| i < |ss| && x in ss[i].store && Covers(ss, t, x, i, pauses, j);
        SurvivesPauses(ss, acts, t, x, i, pauses, j);
      }
    }
    WholeStays(ss, acts, root, j + 1, m);
  }

  /** And a block that the upload wrote before it lets go can be lost, with the pins as they
      are, iff no pin protects it at that moment. */
  lemma PauseExact(ss: seq<State>, acts: seq<Action>, t: Tid, i: nat, x: Cid)
    requires Run(ss, acts) && i < |acts| && acts[i] == ReleaseShared(t) && ss[i].ops[t].Uploading?
    requires x in ss[i].ops[t].written
    ensures MayLose(ss[i + 1], x) <==> x !in Protected(ss[i])
  {
    RunInv(ss, acts, i);
    RunInv(ss, acts, i + 1);
    assert OpInv(ss[i], ss[i].ops[t]);
    LostIffUnprotected(ss[i + 1], x);
  }

  // ------------------------------------------------------------------ the adder's roots

  /** The adder's view of the pins, and the temporary root it remembers. */
  datatype Roots = Roots(rec: set<Cid>, dir: set<Cid>, temp: Option<Cid>)

  predicate IsPinned(r: Roots, c: Cid) { c in r.rec || c in r.dir }

  /** PinRoot, when the node could be stored. */
  function PinnedRoot(r: Roots, root: Cid): (r': Roots)
  {
    match r.temp
    case None => r.(rec := r.rec + {root})
    case Some(c) =>
      if !IsPinned(r, c) then r
      else
        var pins := EditPins(r.rec, r.dir, PinRm(c, true));
        Roots(pins.0 + {root}, pins.1, Some(root))
  }

  class Adder {
    const pin: bool
    var rec: set<Cid>
    var dir: set<Cid>
    var tempRoot: Option<Cid>

    ghost function State(): (r: Roots)
      reads this
    {
      Roots(rec, dir, tempRoot)
    }

    constructor (pin: bool, rec: set<Cid>, dir: set<Cid>)
      ensures this.pin == pin && State() == Roots(rec, dir, None)
    {
      this.pin, this.rec, this.dir, tempRoot := pin, rec, dir, None;
    }

    /** dspinner's Unpin of a recursive pin: it takes the direct pin along. */
    method Unpin(c: Cid) returns (ok: bool)
      modifies this
      ensures ok <==> old(IsPinned(State(), c))
      ensures var pins := EditPins(old(rec), old(dir), PinRm(c, true));
              State() == Roots(pins.0, pins.1, old(tempRoot))
    {
      ok := c in rec || c in dir;
      rec, dir := rec - {c}, dir - {c};
    }

    /** PinRoot; `stored` says whether the DAG service took the node. */
    method PinRoot(root: Cid, stored: bool) returns (ok: bool)
      modifies this
      ensures State() == if pin && stored then PinnedRoot(old(State()), root) else old(State())
      ensures ok <==> !pin || (stored && (old(tempRoot).None? || old(IsPinned(State(), tempRoot.value))))
    {
      if !pin { return true; }
      if !stored { return false; }
      if tempRoot.Some? {
        var unpinned := Unpin(tempRoot.value);
        if !unpinned { return false; }
        tempRoot := Some(root);
      }
      rec := rec + {root};
      ok := true;
    }
  }

  ghost function AllRoots(r: Roots, roots: seq<Cid>): (r': Roots)
  {
    if roots == [] then r else PinnedRoot(AllRoots(r, roots[..|roots| - 1]), roots[|roots| - 1])
  }

  /** Without a remembered root none is ever remembered, so nothing is unpinned. */
  lemma {:induction false} NothingUnpinned(r: Roots, roots: seq<Cid>)
    requires r.temp.None?
    ensures AllRoots(r, roots) == r.(rec := r.rec + Set(roots))
  {
    if roots != [] {
      var n := |roots| - 1;
      NothingUnpinned(r, roots[..n]);
      assert Set(roots) == Set(roots[..n]) + {roots[n]} by { assert roots == roots[..n] + [roots[n]]; }
    }
  }

  /** With one, each call unpins the root before, and only the last stays. */
  lemma {:induction false} OnlyLastStays(r: Roots, roots: seq<Cid>)
    requires r.temp.Some? && IsPinned(r, r.temp.value) && roots != []
    ensures var n := |roots| - 1;
            && AllRoots(r, roots).rec == r.rec - {r.temp.value} - Set(roots[..n]) + {roots[n]}
            && AllRoots(r, roots).dir == r.dir - {r.temp.value} - Set(roots[..n])
            && AllRoots(r, roots).temp == Some(roots[n])
    decreases |roots|
  {
    var n := |roots| - 1;
    if n == 0 {
      assert AllRoots(r, roots[..0]) == r && Set(roots[..0]) == {};
    } else {
      OnlyLastStays(r, roots[..n]);
      assert roots[..n][..n - 1] == roots[..n - 1] && roots[..n][n - 1] == roots[n - 1];
      assert Set(roots[..n]) == Set(roots[..n - 1]) + {roots[n - 1]} by {
        assert roots[..n] == roots[..n - 1] + [roots[n - 1]];
      }
    }
  }

  /** When the remembered root is no longer pinned, every later call fails and pins nothing. */
  lemma {:induction false} LostRootStops(r: Roots, roots: seq<Cid>)
    requires r.temp.Some? && !IsPinned(r, r.temp.value)
    ensures AllRoots(r, roots) == r
    decreases |roots|
  {
    if roots != [] { LostRootStops(r, roots[..|roots| - 1]); }
  }

  /** So a root pinned for a pause is still pinned after a later one iff no temporary root
      was remembered at the start, and a new adder remembers none. */
  lemma PausedRootsStay(r: Roots, roots: seq<Cid>, x: Cid)
    requires r.temp.Some? ==> IsPinned(r, r.temp.value)
    requires roots != [] && x in roots && x != roots[|roots| - 1]
    ensures x in AllRoots(r, roots).rec <==> r.temp.None?
  {
    if r.temp.None? {
      NothingUnpinned(r, roots);
    } else {
      OnlyLastStays(r, roots);
      var n := |roots| - 1;
      assert roots == roots[..n] + [roots[n]];
    }
  }

  /** With a new adder and two roots, the first is left pinned. */
  lemma FirstRootLeftPinned()
    ensures exists a, b :: a != b && AllRoots(Roots({}, {}, None), [a, b]).rec == {a, b}
  {
    var a, b := Raw(true, [1]), Raw(true, [2]);
    NothingUnpinned(Roots({}, {}, None), [a, b]);
    assert Set([a, b]) == {a, b};
    assert AllRoots(Roots({}, {}, None), [a, b]).rec == {a, b};
  }
}
