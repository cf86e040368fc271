/** Mark and sweep: gc/gc.go. */
module Gc {
  import opened Ipld
  import opened DagWalk
  import opened Wrappers

  /** What the pinner lists; `None` when the listing fails. */
  datatype Pinner = Pinner(recursive: Option<seq<Cid>>, direct: Option<seq<Cid>>, internal: Option<seq<Cid>>)

  // ------------------------------------------------------------------ specification

  ghost predicate Listed(pins: Pinner) { pins.recursive.Some? && pins.direct.Some? && pins.internal.Some? }

  /** The marks of the two walks that precede the direct pins. */
  ghost function Walked(st: Store, pins: Pinner, be: seq<Cid>): (r: set<Cid>)
    requires Listed(pins)
  {
    ReachAll(st.Open(), Set(pins.recursive.value)) + ReachAll(st.Open(), Set(be))
  }

  /** Nodes marked as a direct pin and by nothing else: the walk from the internal
      pins stops there. */
  ghost function DirectOnly(st: Store, pins: Pinner, be: seq<Cid>): (r: set<Cid>)
    requires Listed(pins)
  {
    Set(pins.direct.value) - Walked(st, pins, be)
  }

  ghost function Internal(st: Store, pins: Pinner, be: seq<Cid>): (r: set<Cid>)
    requires Listed(pins)
  {
    ReachAll(st.Open() - DirectOnly(st, pins, be), Set(pins.internal.value))
  }

  /** The marked set, said without reference to any order of walks. */
  ghost function Colored(st: Store, pins: Pinner, be: seq<Cid>): (r: set<Cid>)
    requires Listed(pins)
  {
    Walked(st, pins, be) + Set(pins.direct.value) + Internal(st, pins, be)
  }

  /** No failure can be met: every recursive pin is secure and complete, no best-effort
      block is insecure or unreadable, and what the internal pins add is complete. */
  ghost predicate MarkOk(st: Store, pins: Pinner, be: seq<Cid>)
  {
    && Listed(pins)
    && Accepted(Strict, st, ReachAll(st.Open(), Set(pins.recursive.value)))
    && Accepted(BestEffort, st, ReachAll(st.Open(), Set(be)))
    && Accepted(Strict, st, Internal(st, pins, be) - Walked(st, pins, be) - Set(pins.direct.value))
  }

  /** Said over the blocks: the recursive pins' descendants are all secure, and stored and
      readable unless they are raw leaves; what is met below the best-effort roots is secure
      and not unreadable, but may be missing; what the internal pins add is as complete as
      what the recursive pins have. */
  lemma MarkOkMeaning(st: Store, pins: Pinner, be: seq<Cid>)
    requires Listed(pins)
    ensures MarkOk(st, pins, be) <==>
              && (forall x :: x in DescAll(Set(pins.recursive.value)) ==>
                    x.secure && (x.Raw? || x in st.blocks - st.broken))
              && (forall x :: x in ReachAll(st.Open(), Set(be)) ==> x.secure && (x.Raw? || x !in st.broken))
              && (forall x :: x in Internal(st, pins, be) - Walked(st, pins, be) - Set(pins.direct.value) ==>
                    x.secure && (x.Raw? || x in st.blocks - st.broken))
  {
    var rec := Set(pins.recursive.value);
    assert ReachAll(st.Open(), rec) <= DescAll(rec) by {
      DescAllWhole(rec);
      ReachAllLeast(st.Open(), rec, DescAll(rec));
    }
    if Accepted(Strict, st, ReachAll(st.Open(), rec)) {
      assert ReachAll(st.Open(), rec) == DescAll(rec) by {
        forall x | x in ReachAll(st.Open(), rec) ensures x in st.Open() || Kids(x) == {} {
          assert Passable(Strict, st, x);
          if x.Raw? { assert Links(x) == []; }
        }
        ReachAllIsDesc(st.Open(), rec);
      }
    }
  }

  /** With no pins, the best-effort roots alone decide. */
  lemma BestEffortOnly(st: Store, be: seq<Cid>)
    ensures var none := Pinner(Some([]), Some([]), Some([]));
            && Colored(st, none, be) == ReachAll(st.Open(), Set(be))
            && (MarkOk(st, none, be) <==>
                forall x :: x in ReachAll(st.Open(), Set(be)) ==> x.secure && (x.Raw? || x !in st.broken))
  {
    var none := Pinner(Some([]), Some([]), Some([]));
    MarkOkMeaning(st, none, be);
    assert Set([]) == {} && DescAll({}) == {} && ReachAll(st.Open(), {}) == {};
    assert Internal(st, none, be) == {};
  }

  /** So an MFS root `m` with a child `x` that was never fetched is marked, child and all ... */
  lemma MissingChildTolerated(m: Cid, x: Cid)
    requires m.Node? && x.Node? && m.secure && x.secure && Kids(m) == {x} && m != x
    ensures var none := Pinner(Some([]), Some([]), Some([]));
            MarkOk(Store({m}, {}), none, [m]) && Colored(Store({m}, {}), none, [m]) == {m, x}
  {
    var st := Store({m}, {});
    OneChildReached(st, m, x);
    assert Set([m]) == {m};
    BestEffortOnly(st, [m]);
  }

  /** ... and an unreadable child stops the marking. */
  lemma UnreadableChildStops(m: Cid, x: Cid)
    requires m.Node? && x.Node? && Kids(m) == {x} && m != x
    ensures !MarkOk(Store({m, x}, {x}), Pinner(Some([]), Some([]), Some([])), [m])
  {
    var st := Store({m, x}, {x});
    OneChildReached(st, m, x);
    assert Set([m]) == {m};
    BestEffortOnly(st, [m]);
    assert x in ReachAll(st.Open(), Set([m])) && x in st.broken;
  }

  lemma OneChildReached(st: Store, m: Cid, x: Cid)
    requires Kids(m) == {x} && m in st.Open() && x !in st.Open()
    ensures ReachAll(st.Open(), {m}) == {m, x}
  {
    ReachAllClosed(st.Open(), {m});
    ReachAllLeast(st.Open(), {m}, {m, x});
  }

  // ------------------------------------------------------------------ marking

  lemma FreshCompose(st: Store, rs: set<Cid>, r: Cid, v0: set<Cid>)
    ensures var v1 := v0 + Fresh(st, rs, v0);
            v1 + Fresh(st, {r}, v1) == v0 + Fresh(st, rs + {r}, v0)
  {
    var open := st.Open() - v0;
    var f := ReachAll(open, rs);
    assert st.Open() - (v0 + f) == open - f;
    assert f + ReachAll(open - f, {r}) == f + ReachAll(open, {r}) by {
      ReachAllClosed(open, rs);
      Absorb(open, f, {r});
    }
    assert ReachAll(open, rs + {r}) == f + ReachAll(open, {r});
  }

  /** Descendants: one walk per root, all sharing `set0`. */
  method Descendants(ctx: Context, st: Store, p: Policy, set0: set<Cid>, roots: seq<Cid>)
    returns (marked: set<Cid>, faults: bool, res: Outcome)
    ensures set0 <= marked <= set0 + Fresh(st, Set(roots), set0)
    ensures res == Finished ==> marked == set0 + Fresh(st, Set(roots), set0)
    ensures res == Finished && !faults ==> Accepted(p, st, marked - set0)
    ensures faults || res == Aborted ==> !Accepted(p, st, Fresh(st, Set(roots), set0) - set0)
    ensures res == Cancelled ==> ctx == Cancellable
  {
    marked, faults, res := set0, false, Finished;
    assert Set(roots[..0]) == {};
    for i := 0 to |roots|
      invariant res == Finished && marked == set0 + Fresh(st, Set(roots[..i]), set0)
      invariant !faults ==> Accepted(p, st, marked - set0)
      invariant faults ==> !Accepted(p, st, Fresh(st, Set(roots), set0) - set0)
    {
      assert Set(roots[..i + 1]) == Set(roots[..i]) + {roots[i]};
      FreshCompose(st, Set(roots[..i]), roots[i], set0);
      FreshMonotone(st, Set(roots[..i + 1]), Set(roots), set0);
      var before := marked;
      var f;
      marked, f, res := Walk(ctx, st, p, roots[i], before);
      assert marked <= set0 + Fresh(st, Set(roots), set0);
      faults := faults || f;
      if res != Finished { return; }
    }
    assert roots[..|roots|] == roots;
  }

  lemma FreshMonotone(st: Store, rs: set<Cid>, rs': set<Cid>, v0: set<Cid>)
    requires rs <= rs'
    ensures Fresh(st, rs, v0) <= Fresh(st, rs', v0)
  {
  }

  lemma AfterBestEffort(st: Store, pins: Pinner, be: seq<Cid>)
    requires Listed(pins)
    ensures var v := ReachAll(st.Open(), Set(pins.recursive.value));
            v + Fresh(st, Set(be), v) == Walked(st, pins, be)
    ensures ClosedUnder(st.Open(), Walked(st, pins, be))
  {
    ReachAllClosed(st.Open(), Set(pins.recursive.value));
    ReachAllClosed(st.Open(), Set(be));
    Absorb(st.Open(), ReachAll(st.Open(), Set(pins.recursive.value)), Set(be));
  }

  /** Once the recursive walk succeeded, checking only the new best-effort nodes checks
      them all. */
  lemma BestEffortAccepted(st: Store, pins: Pinner, be: seq<Cid>)
    requires Listed(pins)
    requires Accepted(Strict, st, ReachAll(st.Open(), Set(pins.recursive.value)))
    ensures var v := ReachAll(st.Open(), Set(pins.recursive.value));
            Accepted(BestEffort, st, Fresh(st, Set(be), v) - v)
            <==> Accepted(BestEffort, st, ReachAll(st.Open(), Set(be)))
  {
    AfterBestEffort(st, pins, be);
    ReachAllMonotone(st.Open() - ReachAll(st.Open(), Set(pins.recursive.value)), st.Open(), Set(be));
  }

  lemma AfterInternal(st: Store, pins: Pinner, be: seq<Cid>)
    requires Listed(pins)
    ensures var v := Walked(st, pins, be) + Set(pins.direct.value);
            v + Fresh(st, Set(pins.internal.value), v) == Colored(st, pins, be)
  {
    var v := Walked(st, pins, be) + Set(pins.direct.value);
    var open := st.Open() - DirectOnly(st, pins, be);
    assert st.Open() - v == open - v;
    assert ClosedUnder(open, v) by { AfterBestEffort(st, pins, be); }
    Absorb(open, v, Set(pins.internal.value));
  }

  datatype Marks = Marked(gcs: set<Cid>) | Failure

  /** ColoredSet.  All walks share `gcs`.  An error ends a walk but not the marking, and
      any error or cancellation makes the result a failure. */
  method ColoredSet(ctx: Context, st: Store, pins: Pinner, be: seq<Cid>) returns (m: Marks, cancelled: bool)
    ensures m.Marked? ==> MarkOk(st, pins, be) && m.gcs == Colored(st, pins, be)
    ensures !cancelled ==> (m.Marked? <==> MarkOk(st, pins, be))
    ensures cancelled ==> ctx == Cancellable
  {
    m, cancelled := Failure, false;
    if pins.recursive.None? { return; }
    var gcs, f, res := Descendants(ctx, st, Strict, {}, pins.recursive.value);
    var errors := f || res != Finished;
    cancelled := res == Cancelled;
    ghost var rec := ReachAll(st.Open(), Set(pins.recursive.value));
    assert st.Open() - {} == st.Open();
    assert !errors ==> gcs == rec && gcs - {} == gcs && Accepted(Strict, st, rec);
    assert rec - {} == rec;
    assert errors && !cancelled ==> !MarkOk(st, pins, be);

    gcs, f, res := Descendants(ctx, st, BestEffort, gcs, be);
    ghost var recErrors := errors;
    errors := errors || f || res != Finished;
    cancelled := cancelled || res == Cancelled;

    if pins.direct.None? { return; }
    ghost var walked := gcs;
    gcs := gcs + Set(pins.direct.value);

    if pins.internal.None? { return; }
    AfterBestEffort(st, pins, be);
    if !recErrors { BestEffortAccepted(st, pins, be); }
    assert !errors ==> walked == Walked(st, pins, be) && Accepted(BestEffort, st, ReachAll(st.Open(), Set(be)));
    assert errors && !cancelled ==> !MarkOk(st, pins, be);
    AfterInternal(st, pins, be);
    ghost var marked := gcs;
    ghost var walkErrors := errors;
    gcs, f, res := Descendants(ctx, st, Strict, gcs, pins.internal.value);
    errors := errors || f || res != Finished;
    cancelled := cancelled || res == Cancelled;
    if !walkErrors {
      assert Fresh(st, Set(pins.internal.value), marked) - marked
          == Internal(st, pins, be) - Walked(st, pins, be) - Set(pins.direct.value);
    }

    if !errors { m := Marked(gcs); }
  }

  // ------------------------------------------------------------------ sweeping

  /** How the listing of the keys goes.  One that fails half-way only logs it, so the
      caller cannot tell it from a complete one. */
  datatype Listing = Refused | CutShort | Complete

  /** The keys that a listing may yield, each once and in any order. */
  ghost predicate ListedBy(listing: Listing, blocks: set<Cid>, keys: seq<Cid>)
  {
    Distinct(keys) && Set(keys) <= blocks && (listing == Complete ==> Set(keys) == blocks)
  }

  class Blockstore {
    var st: Store
    const faulty: set<Cid>        // the keys whose lookup or delete may fail
    const listing: Listing

    constructor (s: Store, faulty: set<Cid>, listing: Listing)
      ensures st == s && this.faulty == faulty && this.listing == listing
    {
      st, this.faulty, this.listing := s, faulty, listing;
    }

    /** AllKeysChan: the keys in any order. */
    method AllKeys() returns (keys: seq<Cid>, ok: bool)
      ensures ok <==> listing != Refused
      ensures ListedBy(listing, st.blocks, keys)
    {
      ok := listing != Refused;
      keys := [];
      var left := st.blocks;
      while left != {}
        invariant Distinct(keys) && Set(keys) + left == st.blocks && Set(keys) !! left
      {
        var stop: bool := *;
        if listing != Complete && stop { return; }
        var k :| k in left;
        DistinctAppend(keys, k);
        keys, left := keys + [k], left - {k};
      }
    }

    /** A failed delete leaves the block. */
    method DeleteBlock(k: Cid) returns (ok: bool)
      modifies this
      ensures st == if ok then Store(old(st).blocks - {k}, old(st).broken) else old(st)
      ensures k !in faulty ==> ok
    {
      ok := *;
      ok := ok || k !in faulty;
      if ok { st := Store(st.blocks - {k}, st.broken); }
    }
  }

  ghost predicate Distinct(s: seq<Cid>) { forall i, j :: 0 <= i < j < |s| ==> s[i] != s[j] }

  lemma SetStep(s: seq<Cid>, i: nat)
    requires i < |s|
    ensures Set(s[..i + 1]) == Set(s[..i]) + {s[i]}
    ensures Distinct(s) ==> s[i] !in Set(s[..i])
  {
  }

  lemma DistinctAppend(s: seq<Cid>, k: Cid)
    ensures Set(s + [k]) == Set(s) + {k}
    ensures Distinct(s) && k !in Set(s) ==> Distinct(s + [k])
  {
    assert forall j :: 0 <= j < |s| ==> s[j] in Set(s);
  }

  datatype GcError = MarkFailed | ListFailed | CannotDelete(k: Cid) | CannotDeleteSome

  /** What the environment does at a key's turn: cancel before it, or let the delete
      succeed or fail, and then let its result be sent or cancel first. */
  datatype Turn = CancelBefore | Deletes(sent: bool) | Fails(sent: bool)

  /** The sweep loop's state.  `errors` is set by a failed delete, sent or not. */
  datatype Sweeper = Sweeper(now: set<Cid>, reported: seq<Cid>, errs: seq<GcError>, errors: bool, cancelled: bool)

  ghost function SweepTurn(s: Sweeper, gcs: set<Cid>, k: Cid, turn: Turn): (r: Sweeper)
  {
    if turn == CancelBefore then s.(cancelled := true)
    else if k in gcs then s
    else match turn
         case Deletes(sent) =>
           Sweeper(s.now - {k}, if sent then s.reported + [k] else s.reported, s.errs, s.errors, !sent)
         case Fails(sent) =>
           Sweeper(s.now, s.reported, if sent then s.errs + [CannotDelete(k)] else s.errs, true, !sent)
  }

  /** The loop over a store that held `all`, for the keys and turns of a history. */
  ghost function SweepAll(all: set<Cid>, gcs: set<Cid>, history: seq<(Cid, Turn)>): (r: Sweeper)
  {
    if history == [] then Sweeper(all, [], [], false, false)
    else
      var s, last := SweepAll(all, gcs, history[..|history| - 1]), history[|history| - 1];
      if s.cancelled then s else SweepTurn(s, gcs, last.0, last.1)
  }

  /** After the loop: the summary error, which a cancellation may suppress. */
  ghost function Summed(s: Sweeper, sent: bool): (errs: seq<GcError>)
  {
    if s.errors && sent then s.errs + [CannotDeleteSome] else s.errs
  }

  /** A turn that ends the sweep. */
  ghost predicate Cancels(gcs: set<Cid>, at: (Cid, Turn))
  {
    at.1 == CancelBefore || (at.0 !in gcs && !at.1.sent)
  }

  /** The history goes through the keys and stops when cancelled, and only deletes that may
      fail do. */
  ghost predicate Goes(history: seq<(Cid, Turn)>, keys: seq<Cid>, gcs: set<Cid>, faulty: set<Cid>)
  {
    && |history| <= |keys|
    && (forall i :: 0 <= i < |history| ==>
          history[i].0 == keys[i] && (history[i].1.Fails? && keys[i] !in gcs ==> keys[i] in faulty))
    && forall i :: 0 <= i < |history| - 1 ==> !Cancels(gcs, history[i])
  }

  /** The sweep, as a relation between the store before and after it and what it sends. */
  ghost predicate Sweeps(all: set<Cid>, now: set<Cid>, keys: seq<Cid>, gcs: set<Cid>, faulty: set<Cid>,
                         history: seq<(Cid, Turn)>, sent: bool,
                         reported: seq<Cid>, errs: seq<GcError>, cancelled: bool)
  {
    var s := SweepAll(all, gcs, history);
    && Goes(history, keys, gcs, faulty)
    && s.now == now && s.reported == reported && s.cancelled == cancelled && errs == Summed(s, sent)
    && (!cancelled ==> sent && |history| == |keys|)
  }

  /** The sweep loop. */
  method Sweep(ctx: Context, bs: Blockstore, gcs: set<Cid>, keys: seq<Cid>)
    returns (reported: seq<Cid>, errs: seq<GcError>, cancelled: bool,
             ghost history: seq<(Cid, Turn)>, ghost sent: bool)
    modifies bs
    ensures bs.st.broken == old(bs.st.broken)
    ensures Sweeps(old(bs.st.blocks), bs.st.blocks, keys, gcs, bs.faulty, history, sent, reported, errs, cancelled)
    ensures cancelled ==> ctx == Cancellable
  {
    reported, errs, cancelled, history, sent := [], [], false, [], true;
    ghost var all := bs.st.blocks;
    var errors, i := false, 0;
    while i < |keys| && !cancelled
      invariant |history| == i <= |keys| && Goes(history, keys, gcs, bs.faulty)
      invariant cancelled ==> ctx == Cancellable
      invariant !cancelled ==> history == [] || !Cancels(gcs, history[i - 1])
      invariant SweepAll(all, gcs, history) == Sweeper(bs.st.blocks, reported, errs, errors, cancelled)
      invariant bs.st.broken == old(bs.st.broken)
      decreases |keys| - i
    {
      var k := keys[i];
      ghost var turn := CancelBefore;
      cancelled := *;
      cancelled := cancelled && ctx == Cancellable;
      if !cancelled {
        if k in gcs {
          turn := Deletes(true);
        } else {
          var ok := bs.DeleteBlock(k);
          cancelled := *;
          cancelled := cancelled && ctx == Cancellable;
          if ok {
            turn := Deletes(!cancelled);
            if !cancelled { reported := reported + [k]; }
          } else {
            turn := Fails(!cancelled);
            errors := true;
            if !cancelled { errs := errs + [CannotDelete(k)]; }
          }
        }
      }
      assert (history + [(k, turn)])[..i] == history;
      history := history + [(k, turn)];
      i := i + 1;
    }
    if errors {
      var send: bool := *;
      send := send || !cancelled;
      sent := send;
      if send { errs := errs + [CannotDeleteSome]; }
    }
  }

  /** After the keys `seen` of a store that held `all`: what was reported is gone, each
      once and unmarked, and what should be gone but is not has its error. */
  ghost predicate Swept(all: set<Cid>, seen: set<Cid>, gcs: set<Cid>, faulty: set<Cid>, s: Sweeper)
  {
    && Distinct(s.reported) && Set(s.reported) <= seen - gcs
    && s.now == all - Set(s.reported)
    && (forall k :: k in seen && k in s.now && k !in gcs ==> CannotDelete(k) in s.errs)
    && (forall e :: e in s.errs ==> e.CannotDelete? && e.k in s.now && e.k in seen * faulty - gcs)
    && (s.errors <==> s.errs != [])
  }

  /** After a cancellation: at most one key is gone and not reported, and a failed delete
      may have gone unnamed. */
  ghost predicate CutOff(all: set<Cid>, seen: set<Cid>, gcs: set<Cid>, faulty: set<Cid>, s: Sweeper, lost: set<Cid>)
  {
    && Distinct(s.reported) && Set(s.reported) + lost <= seen - gcs && lost !! Set(s.reported) && |lost| <= 1
    && s.now == all - Set(s.reported) - lost && lost <= all
    && (forall e :: e in s.errs ==> e.CannotDelete? && e.k in s.now && e.k in seen * faulty - gcs)
    && (s.errors ==> exists k :: k in s.now && k in seen * faulty - gcs)
  }

  lemma SweptMarked(all: set<Cid>, seen: set<Cid>, gcs: set<Cid>, faulty: set<Cid>, s: Sweeper, k: Cid)
    requires Swept(all, seen, gcs, faulty, s) && k in gcs
    ensures Swept(all, seen + {k}, gcs, faulty, s)
  {
  }

  lemma SweptDeleted(all: set<Cid>, seen: set<Cid>, gcs: set<Cid>, faulty: set<Cid>, s: Sweeper, k: Cid)
    requires Swept(all, seen, gcs, faulty, s) && k !in gcs && k !in seen
    ensures Swept(all, seen + {k}, gcs, faulty, s.(now := s.now - {k}, reported := s.reported + [k]))
  {
    DistinctAppend(s.reported, k);
  }

  lemma SweptFailed(all: set<Cid>, seen: set<Cid>, gcs: set<Cid>, faulty: set<Cid>, s: Sweeper, k: Cid)
    requires Swept(all, seen, gcs, faulty, s) && k in all - seen && k in faulty - gcs
    ensures Swept(all, seen + {k}, gcs, faulty, s.(errs := s.errs + [CannotDelete(k)], errors := true))
  {
  }

  /** Cancelled before the delete, or after one that failed. */
  lemma CutEmpty(all: set<Cid>, seen: set<Cid>, gcs: set<Cid>, faulty: set<Cid>, s: Sweeper, k: Cid, failed: bool)
    requires Swept(all, seen, gcs, faulty, s) && k in all - seen && (failed ==> k in faulty - gcs)
    ensures CutOff(all, seen + {k}, gcs, faulty, s.(errors := s.errors || failed, cancelled := true), {})
  {
    if failed {
      assert k in s.now && k in (seen + {k}) * faulty - gcs;
    } else if s.errors {
      assert s.errs[0] in s.errs && s.errs[0].k in s.now;
    }
  }

  /** Cancelled after a delete. */
  lemma CutDeleted(all: set<Cid>, seen: set<Cid>, gcs: set<Cid>, faulty: set<Cid>, s: Sweeper, k: Cid)
    requires Swept(all, seen, gcs, faulty, s) && k in all - seen && k !in gcs
    ensures CutOff(all, seen + {k}, gcs, faulty, s.(now := s.now - {k}, cancelled := true), {k})
  {
    if s.errors { assert s.errs[0] in s.errs && s.errs[0].k in s.now - {k}; }
  }

  /** The loop's invariant. */
  ghost predicate InSweep(all: set<Cid>, seen: set<Cid>, gcs: set<Cid>, faulty: set<Cid>, s: Sweeper)
  {
    if s.cancelled then exists lost :: CutOff(all, seen, gcs, faulty, s, lost) else Swept(all, seen, gcs, faulty, s)
  }

  lemma TurnKeeps(all: set<Cid>, seen: set<Cid>, gcs: set<Cid>, faulty: set<Cid>, s: Sweeper, k: Cid, turn: Turn)
    requires Swept(all, seen, gcs, faulty, s) && !s.cancelled && k in all - seen
    requires turn.Fails? && k !in gcs ==> k in faulty
    ensures InSweep(all, seen + {k}, gcs, faulty, SweepTurn(s, gcs, k, turn))
  {
    if turn == CancelBefore {
      CutEmpty(all, seen, gcs, faulty, s, k, false);
    } else if k in gcs {
      SweptMarked(all, seen, gcs, faulty, s, k);
    } else if turn.Deletes? {
      if turn.sent { SweptDeleted(all, seen, gcs, faulty, s, k); } else { CutDeleted(all, seen, gcs, faulty, s, k); }
    } else {
      if turn.sent { SweptFailed(all, seen, gcs, faulty, s, k); } else { CutEmpty(all, seen, gcs, faulty, s, k, true); }
    }
  }

  lemma TurnOrNot(all: set<Cid>, seen: set<Cid>, gcs: set<Cid>, faulty: set<Cid>, s: Sweeper, k: Cid, turn: Turn)
    requires InSweep(all, seen, gcs, faulty, s) && k in all - seen
    requires turn.Fails? && k !in gcs ==> k in faulty
    ensures InSweep(all, seen + {k}, gcs, faulty, if s.cancelled then s else SweepTurn(s, gcs, k, turn))
  {
    if s.cancelled {
      var lost :| CutOff(all, seen, gcs, faulty, s, lost);
      assert CutOff(all, seen + {k}, gcs, faulty, s, lost);
    } else {
      TurnKeeps(all, seen, gcs, faulty, s, k, turn);
    }
  }

  ghost function Seen(history: seq<(Cid, Turn)>): (r: set<Cid>)
  {
    if history == [] then {} else Seen(history[..|history| - 1]) + {history[|history| - 1].0}
  }

  /** Each key is new and from the store, and only deletes that may fail do. */
  ghost predicate Legal(all: set<Cid>, gcs: set<Cid>, faulty: set<Cid>, history: seq<(Cid, Turn)>)
  {
    history == [] ||
    (var rest, last := history[..|history| - 1], history[|history| - 1];
     && Legal(all, gcs, faulty, rest) && last.0 in all - Seen(rest)
     && (last.1.Fails? && last.0 !in gcs ==> last.0 in faulty))
  }

  lemma {:induction false} GoesLegally(all: set<Cid>, keys: seq<Cid>, gcs: set<Cid>, faulty: set<Cid>,
                                       history: seq<(Cid, Turn)>)
    requires Distinct(keys) && Set(keys) <= all && Goes(history, keys, gcs, faulty)
    ensures Legal(all, gcs, faulty, history) && Seen(history) == Set(keys[..|history|])
    decreases |history|
  {
    if history != [] {
      var n := |history| - 1;
      GoesLegally(all, keys, gcs, faulty, history[..n]);
      SetStep(keys, n);
      assert keys[n] in Set(keys);
    }
  }

  /** It holds over every history. */
  lemma {:induction false} SweepKeeps(all: set<Cid>, gcs: set<Cid>, faulty: set<Cid>, history: seq<(Cid, Turn)>)
    requires Legal(all, gcs, faulty, history)
    ensures InSweep(all, Seen(history), gcs, faulty, SweepAll(all, gcs, history))
    decreases |history|
  {
    if history != [] {
      var rest, last := history[..|history| - 1], history[|history| - 1];
      SweepKeeps(all, gcs, faulty, rest);
      TurnOrNot(all, Seen(rest), gcs, faulty, SweepAll(all, gcs, rest), last.0, last.1);
    }
  }

  lemma SweptMeans(all: set<Cid>, keys: set<Cid>, gcs: set<Cid>, faulty: set<Cid>, s: Sweeper)
    requires Swept(all, keys, gcs, faulty, s)
    ensures all * gcs <= s.now <= all && (keys <= all ==> Set(s.reported) <= all - s.now)
    ensures all - s.now - Set(s.reported) == {}
    ensures Summed(s, true) == [] && keys <= all ==> s.now == all - (keys - gcs)
    ensures Summed(s, true) != [] <==> CannotDeleteSome in Summed(s, true)
    ensures CannotDeleteSome in Summed(s, true) ==> exists k :: k in s.now && k in faulty - gcs
  {
    if s.errors { assert s.errs[0] in s.errs && s.errs[0].k in s.now; }
  }

  lemma CutMeans(all: set<Cid>, seen: set<Cid>, gcs: set<Cid>, faulty: set<Cid>, s: Sweeper,
                 lost: set<Cid>, sent: bool)
    requires CutOff(all, seen, gcs, faulty, s, lost)
    ensures all * gcs <= s.now <= all && (seen <= all ==> Set(s.reported) <= all - s.now)
    ensures |all - s.now - Set(s.reported)| <= 1
    ensures forall e :: e in Summed(s, sent) ==>
              e == CannotDeleteSome || (e.CannotDelete? && e.k in s.now * faulty - gcs)
    ensures CannotDeleteSome in Summed(s, sent) ==> exists k :: k in s.now && k in faulty - gcs
  {
    assert all - s.now - Set(s.reported) == lost;
  }

  /** What a sweep says of the store before it, `all`, and after it, `now`. */
  lemma SweepMeaning(all: set<Cid>, now: set<Cid>, keys: seq<Cid>, gcs: set<Cid>, faulty: set<Cid>,
                     history: seq<(Cid, Turn)>, sent: bool,
                     reported: seq<Cid>, errs: seq<GcError>, cancelled: bool)
    requires Distinct(keys) && Set(keys) <= all
    requires Sweeps(all, now, keys, gcs, faulty, history, sent, reported, errs, cancelled)
    ensures all * gcs <= now <= all
    ensures Distinct(reported) && Set(reported) <= all - now
    ensures |all - now - Set(reported)| <= (if cancelled then 1 else 0)
    ensures !cancelled && errs == [] ==> now == all - (Set(keys) - gcs)
    ensures !cancelled ==> forall k :: k in now && k in keys && k !in gcs ==> CannotDelete(k) in errs
    ensures !cancelled ==> (errs != [] <==> CannotDeleteSome in errs)
    ensures forall e :: e in errs ==> e == CannotDeleteSome || (e.CannotDelete? && e.k in now * faulty - gcs)
    ensures CannotDeleteSome in errs ==> exists k :: k in now && k in faulty - gcs
  {
    GoesLegally(all, keys, gcs, faulty, history);
    SweepKeeps(all, gcs, faulty, history);
    var s := SweepAll(all, gcs, history);
    if !cancelled {
      assert keys[..|history|] == keys;
      SweptMeans(all, Set(keys), gcs, faulty, s);
    } else {
      var lost :| CutOff(all, Seen(history), gcs, faulty, s, lost);
      CutMeans(all, Seen(history), gcs, faulty, s, lost, sent);
    }
  }

  /** A sweep without errors leaves only marked blocks iff every unmarked block was listed. */
  lemma ListingDecides(all: set<Cid>, now: set<Cid>, keys: seq<Cid>, gcs: set<Cid>, faulty: set<Cid>,
                       history: seq<(Cid, Turn)>, reported: seq<Cid>)
    requires Distinct(keys) && Set(keys) <= all
    requires Sweeps(all, now, keys, gcs, faulty, history, true, reported, [], false)
    ensures now <= gcs <==> all - gcs <= Set(keys)
  {
    SweepMeaning(all, now, keys, gcs, faulty, history, true, reported, [], false);
  }

  /** So a listing cut short can leave an unmarked block behind without any error. */
  lemma HalfListingLeavesGarbage()
    ensures exists st: Store, pins: Pinner, keys, now, history, reported ::
              && MarkOk(st, pins, []) && ListedBy(CutShort, st.blocks, keys)
              && Sweeps(st.blocks, now, keys, Colored(st, pins, []), {}, history, true, reported, [], false)
              && now - Colored(st, pins, []) != {}
  {
    var x, y := Raw(true, [1]), Raw(true, [2]);
    var st, pins := Store({x, y}, {}), Pinner(Some([]), Some([]), Some([]));
    var history := [(x, Deletes(true))];
    assert Colored(st, pins, []) == {} && MarkOk(st, pins, []);
    assert history[..0] == [];
    assert SweepAll(st.blocks, {}, history) == Sweeper({x, y} - {x}, [] + [x], [], false, false);
    assert Sweeps(st.blocks, {x, y} - {x}, [x], {}, {}, history, true, [] + [x], [], false);
    assert ListedBy(CutShort, st.blocks, [x]);
    assert y in {x, y} - {x};
  }

  lemma {:induction false} CancelledWhen(all: set<Cid>, gcs: set<Cid>, history: seq<(Cid, Turn)>)
    requires forall i :: 0 <= i < |history| - 1 ==> !Cancels(gcs, history[i])
    ensures SweepAll(all, gcs, history).cancelled <==> history != [] && Cancels(gcs, history[|history| - 1])
    decreases |history|
  {
    if history != [] { CancelledWhen(all, gcs, history[..|history| - 1]); }
  }

  /** Every removed key is reported iff the sweep was not cancelled right after a delete. */
  lemma ReportedExactly(all: set<Cid>, now: set<Cid>, keys: seq<Cid>, gcs: set<Cid>, faulty: set<Cid>,
                        history: seq<(Cid, Turn)>, sent: bool,
                        reported: seq<Cid>, errs: seq<GcError>, cancelled: bool)
    requires Distinct(keys) && Set(keys) <= all
    requires Sweeps(all, now, keys, gcs, faulty, history, sent, reported, errs, cancelled)
    ensures all - now == Set(reported) <==>
            !(history != [] && history[|history| - 1].1 == Deletes(false) && history[|history| - 1].0 !in gcs)
  {
    GoesLegally(all, keys, gcs, faulty, history);
    if history != [] {
      var rest, last := history[..|history| - 1], history[|history| - 1];
      CancelledWhen(all, gcs, rest);
      SweepKeeps(all, gcs, faulty, rest);
      LastTurn(all, Seen(rest), gcs, faulty, SweepAll(all, gcs, rest), last.0, last.1);
    }
  }

  lemma LastTurn(all: set<Cid>, seen: set<Cid>, gcs: set<Cid>, faulty: set<Cid>, s: Sweeper, k: Cid, turn: Turn)
    requires Swept(all, seen, gcs, faulty, s) && Set(s.reported) <= all && k in all - seen
    ensures var r := SweepTurn(s, gcs, k, turn);
            all - r.now == Set(r.reported) <==> !(turn == Deletes(false) && k !in gcs)
  {
    DistinctAppend(s.reported, k);
    assert k in s.now;
  }

  /** And such a sweep exists. */
  lemma RemovalUnreported()
    ensures exists st: Store, pins: Pinner, keys, now, history, reported ::
              && MarkOk(st, pins, []) && ListedBy(Complete, st.blocks, keys)
              && Sweeps(st.blocks, now, keys, Colored(st, pins, []), {}, history, true, reported, [], true)
              && st.blocks - now - Set(reported) != {}
  {
    var x := Raw(true, [1]);
    var st, pins := Store({x}, {}), Pinner(Some([]), Some([]), Some([]));
    var history := [(x, Deletes(false))];
    assert Colored(st, pins, []) == {} && MarkOk(st, pins, []);
    assert history[..0] == [];
    assert SweepAll(st.blocks, {}, history) == Sweeper({x} - {x}, [], [], false, true);
    assert Sweeps(st.blocks, {x} - {x}, [x], {}, {}, history, true, [], [], true);
    assert ListedBy(Complete, st.blocks, [x]);
    assert x in st.blocks - ({x} - {x}) - Set([]);
  }

  /** What is left of `all` and sent, for what was listed and marked. */
  ghost predicate SweepResult(all: set<Cid>, now: set<Cid>, listed: set<Cid>, gcs: set<Cid>, faulty: set<Cid>,
                              reported: seq<Cid>, errs: seq<GcError>, cancelled: bool)
  {
    && all * gcs <= now <= all
    && Distinct(reported) && Set(reported) <= all - now
    && |all - now - Set(reported)| <= (if cancelled then 1 else 0)
    && (!cancelled && errs == [] ==> now == all - (listed - gcs))
    && (!cancelled ==> forall k :: k in now && k in listed && k !in gcs ==> CannotDelete(k) in errs)
    && (forall k :: CannotDelete(k) in errs ==> k in now * faulty)
    && (CannotDeleteSome in errs ==> now * faulty != {})
    && MarkFailed !in errs && ListFailed !in errs
    && (!cancelled && faulty == {} ==> errs == [])
  }

  lemma SweepResults(all: set<Cid>, now: set<Cid>, keys: seq<Cid>, gcs: set<Cid>, faulty: set<Cid>,
                     history: seq<(Cid, Turn)>, sent: bool,
                     reported: seq<Cid>, errs: seq<GcError>, cancelled: bool)
    requires Distinct(keys) && Set(keys) <= all
    requires Sweeps(all, now, keys, gcs, faulty, history, sent, reported, errs, cancelled)
    ensures SweepResult(all, now, Set(keys), gcs, faulty, reported, errs, cancelled)
  {
    SweepMeaning(all, now, keys, gcs, faulty, history, sent, reported, errs, cancelled);
    if errs != [] { assert errs[0] in errs; }
  }

  /** Listing the keys and sweeping them. */
  method SweepBlocks(ctx: Context, bs: Blockstore, gcs: set<Cid>)
    returns (reported: seq<Cid>, errs: seq<GcError>, cancelled: bool, ghost listed: set<Cid>)
    modifies bs
    ensures bs.st.broken == old(bs.st.broken) && (cancelled ==> ctx == Cancellable)
    ensures listed <= old(bs.st.blocks) && (bs.listing == Complete ==> listed == old(bs.st.blocks))
    ensures if bs.listing == Refused
            then bs.st == old(bs.st) && reported == [] && errs == [ListFailed] && !cancelled && listed == {}
            else SweepResult(old(bs.st.blocks), bs.st.blocks, listed, gcs, bs.faulty, reported, errs, cancelled)
  {
    var keys, ok := bs.AllKeys();
    if !ok { return [], [ListFailed], false, {}; }
    ghost var all := bs.st.blocks;
    listed := Set(keys);
    ghost var history, sent;
    reported, errs, cancelled, history, sent := Sweep(ctx, bs, gcs, keys);
    SweepResults(all, bs.st.blocks, keys, gcs, bs.faulty, history, sent, reported, errs, cancelled);
  }

  /** GC, run under the exclusive lock. */
  method GC(ctx: Context, bs: Blockstore, pins: Pinner, be: seq<Cid>)
    returns (reported: seq<Cid>, errs: seq<GcError>, cancelled: bool, ghost listed: set<Cid>)
    modifies bs
    ensures bs.st.broken == old(bs.st.broken)
    ensures cancelled ==> ctx == Cancellable
    // a failure to mark deletes nothing and is reported
    ensures !MarkOk(old(bs.st), pins, be) ==> bs.st == old(bs.st) && reported == []
    ensures !cancelled ==> (errs == [MarkFailed] <==> !MarkOk(old(bs.st), pins, be))
    ensures !cancelled ==> (errs == [ListFailed] <==> MarkOk(old(bs.st), pins, be) && bs.listing == Refused)
    // nothing marked is ever deleted, and no block appears
    ensures MarkOk(old(bs.st), pins, be) ==>
              old(bs.st.blocks) * Colored(old(bs.st), pins, be) <= bs.st.blocks <= old(bs.st.blocks)
    // each reported key was removed, once; at most one removal goes unreported, and only on cancellation
    ensures Distinct(reported) && Set(reported) <= old(bs.st.blocks) - bs.st.blocks
    ensures |old(bs.st.blocks) - bs.st.blocks - Set(reported)| <= (if cancelled then 1 else 0)
    // an error-free run removes exactly what is unmarked and listed
    ensures !cancelled && errs == [] ==>
              && MarkOk(old(bs.st), pins, be)
              && bs.st.blocks == old(bs.st.blocks) - (listed - Colored(old(bs.st), pins, be))
    // so it leaves exactly the marked blocks unless the listing was cut short
    ensures listed <= old(bs.st.blocks)
    ensures !cancelled && errs == [] && bs.listing == Complete ==> listed == old(bs.st.blocks)
    // otherwise each unmarked survivor that was listed is named, and an error has its cause
    ensures !cancelled && MarkOk(old(bs.st), pins, be) ==>
              forall k :: k in bs.st.blocks && k in listed && k !in Colored(old(bs.st), pins, be)
                          ==> CannotDelete(k) in errs
    ensures forall k :: CannotDelete(k) in errs ==> k in bs.st.blocks * bs.faulty
    ensures CannotDeleteSome in errs ==> bs.st.blocks * bs.faulty != {}
    ensures !cancelled && MarkOk(old(bs.st), pins, be) && bs.listing != Refused && bs.faulty == {} ==> errs == []
  {
    reported, errs, listed := [], [], {};
    assert bs.st.blocks - bs.st.blocks - Set([]) == {};
    var m;
    m, cancelled := ColoredSet(ctx, bs.st, pins, be);
    if m.Failure? {
      if !cancelled { errs := [MarkFailed]; }
      return;
    }
    reported, errs, cancelled, listed := SweepBlocks(ctx, bs, m.gcs);
  }

  // ------------------------------------------------------------------ consequences

  lemma ReachAllRestrict(open: set<Cid>, m: set<Cid>, roots: set<Cid>)
    requires ReachAll(open, roots) <= m
    ensures ReachAll(open * m, roots) == ReachAll(open, roots)
  {
    ReachAllMonotone(open * m, open, roots);
    assert ReachAll(open, roots) <= ReachAll(open * m, roots) by {
      ReachAllClosed(open * m, roots);
      ReachAllLeast(open, roots, ReachAll(open * m, roots));
    }
  }

  /** The store that an error-free run with a complete listing leaves. */
  ghost function Kept(st: Store, pins: Pinner, be: seq<Cid>): (r: Store)
    requires Listed(pins)
  {
    Store(st.blocks * Colored(st, pins, be), st.broken)
  }

  /** Over the kept store the walks reach what they reached. */
  lemma KeptReaches(st: Store, pins: Pinner, be: seq<Cid>)
    requires Listed(pins)
    ensures var st' := Kept(st, pins, be);
            && ReachAll(st'.Open(), Set(pins.recursive.value)) == ReachAll(st.Open(), Set(pins.recursive.value))
            && ReachAll(st'.Open(), Set(be)) == ReachAll(st.Open(), Set(be))
  {
    var m := Colored(st, pins, be);
    assert Kept(st, pins, be).Open() == st.Open() * m;
    ReachAllRestrict(st.Open(), m, Set(pins.recursive.value));
    ReachAllRestrict(st.Open(), m, Set(be));
  }

  lemma KeptColors(st: Store, pins: Pinner, be: seq<Cid>)
    requires Listed(pins)
    ensures var st' := Kept(st, pins, be);
            && Walked(st', pins, be) == Walked(st, pins, be)
            && Internal(st', pins, be) == Internal(st, pins, be)
            && Colored(st', pins, be) == Colored(st, pins, be)
  {
    KeptReaches(st, pins, be);
    var m, st', d := Colored(st, pins, be), Kept(st, pins, be), DirectOnly(st, pins, be);
    assert DirectOnly(st', pins, be) == d;
    assert st'.Open() - d == (st.Open() - d) * m;
    ReachAllRestrict(st.Open() - d, m, Set(pins.internal.value));
  }

  /** A walk that accepted marked nodes accepts them again. */
  lemma KeptAccepts(st: Store, pins: Pinner, be: seq<Cid>, p: Policy, s: set<Cid>)
    requires Listed(pins) && Accepted(p, st, s) && s <= Colored(st, pins, be)
    ensures Accepted(p, Kept(st, pins, be), s)
  {
  }

  /** A second run right after an error-free one succeeds, marks the same set, and so
      removes nothing. */
  lemma SecondRunRemovesNothing(st: Store, pins: Pinner, be: seq<Cid>)
    requires MarkOk(st, pins, be)
    ensures var st' := Store(st.blocks * Colored(st, pins, be), st.broken);
            && MarkOk(st', pins, be)
            && Colored(st', pins, be) == Colored(st, pins, be)
            && st'.blocks - Colored(st', pins, be) == {}
  {
    KeptReaches(st, pins, be);
    KeptColors(st, pins, be);
    KeptAccepts(st, pins, be, Strict, ReachAll(st.Open(), Set(pins.recursive.value)));
    KeptAccepts(st, pins, be, BestEffort, ReachAll(st.Open(), Set(be)));
    KeptAccepts(st, pins, be, Strict, Internal(st, pins, be) - Walked(st, pins, be) - Set(pins.direct.value));
  }

  /** What the package promises: every descendant of a recursive pin is marked. */
  lemma RecursivePinsMarked(st: Store, pins: Pinner, be: seq<Cid>)
    requires MarkOk(st, pins, be)
    ensures DescAll(Set(pins.recursive.value)) <= Colored(st, pins, be)
    ensures forall x :: x in DescAll(Set(pins.recursive.value)) ==> x in st.Open() || x.Raw?
  {
    var r := ReachAll(st.Open(), Set(pins.recursive.value));
    forall x | x in r ensures x in st.Open() || (x.Raw? && Kids(x) == {}) {
      ExpandedIsOpen(Strict, st, x);
    }
    assert r == DescAll(Set(pins.recursive.value)) by { ReachAllIsDesc(st.Open(), Set(pins.recursive.value)); }
  }

  /** The promise for internal pins is weaker than "all of their blocks": a block below
      a node that is also a direct pin, and is marked by nothing else, is lost. */
  lemma InternalPinBlockLost()
    ensures exists st: Store, pins: Pinner, x: Cid ::
              && MarkOk(st, pins, []) && x in st.blocks
              && x in DescAll(Set(pins.internal.value)) && x !in Colored(st, pins, [])
  {
    var x := Raw(true, [1]);
    var d := Node(true, [2], [Link("", 0, x)]);
    var i := Node(true, [3], [Link("", 0, d)]);
    var st := Store({x, d, i}, {});
    var pins := Pinner(Some([]), Some([d]), Some([i]));
    assert Walked(st, pins, []) == {};
    assert DirectOnly(st, pins, []) == {d};
    assert Kids(i) == {d} by { assert Links(i)[0].cid == d; }
    assert Kids(d) == {x} by { assert Links(d)[0].cid == x; }
    ReachAllLeast(st.Open() - {d}, {i}, {i, d});
    assert Internal(st, pins, []) <= {i, d};
    DescClosed(i);
    assert x in Desc(i);
    assert MarkOk(st, pins, []) && x !in Colored(st, pins, []);
  }

  /** A set closed except at some nodes still holds all that is reachable, if those of the
      nodes that are reachable have no child outside. */
  lemma ClosedEnough(open: set<Cid>, gaps: set<Cid>, c: set<Cid>, roots: set<Cid>)
    requires roots <= c && ClosedUnder(open - gaps, c)
    requires forall d :: d in gaps && d in ReachAll(open, roots) && d in open ==> Kids(d) <= c
    ensures ReachAll(open, roots) <= c
  {
    var below := ReachAll(open, roots);
    assert roots <= below && ClosedUnder(open, below) by { ReachAllClosed(open, roots); }
    assert ClosedUnder(open, c * below) by {
      forall x | x in c * below && x in open ensures Kids(x) <= c * below {
        if x !in gaps { assert x in open - gaps; }
      }
    }
    assert below <= c * below by { ReachAllLeast(open, roots, c * below); }
  }

  /** The nodes below the recursive pins and the best-effort roots, through available nodes. */
  ghost function BelowRoots(st: Store, pins: Pinner, be: seq<Cid>): (r: set<Cid>)
    requires Listed(pins)
  {
    ReachAll(st.Open(), Set(pins.recursive.value) + Set(be))
  }

  /** What the internal pins reach along links of nodes that are not direct pins. */
  ghost function AvoidingDirect(st: Store, pins: Pinner): (r: set<Cid>)
    requires Listed(pins)
  {
    ReachAll(st.Open() - Set(pins.direct.value), Set(pins.internal.value))
  }

  /** The marked set from the inputs alone, with no marks in between. */
  lemma ColoredIs(st: Store, pins: Pinner, be: seq<Cid>)
    requires Listed(pins)
    ensures Colored(st, pins, be)
         == BelowRoots(st, pins, be) + Set(pins.direct.value) + AvoidingDirect(st, pins)
  {
    var w, ints := Walked(st, pins, be), Set(pins.internal.value);
    var open1, open2 := st.Open() - DirectOnly(st, pins, be), st.Open() - Set(pins.direct.value);
    assert w == BelowRoots(st, pins, be);
    AfterBestEffort(st, pins, be);
    assert open1 - w == open2 - w;
    Absorb(open1, w, ints);
    Absorb(open2, w, ints);
  }

  /** Exactly when the internal pins do keep all their available blocks: every child of an
      available direct pin below them is a direct pin too, below a recursive or best-effort
      root, or reached from an internal pin on a way around the direct pins. */
  lemma InternalPinsKept(st: Store, pins: Pinner, be: seq<Cid>)
    requires Listed(pins)
    ensures var below := ReachAll(st.Open(), Set(pins.internal.value));
            below <= Colored(st, pins, be)
            <==> forall d, x :: d in pins.direct.value && d in below && d in st.Open() && x in Kids(d) ==>
                   x in pins.direct.value || x in BelowRoots(st, pins, be) || x in AvoidingDirect(st, pins)
  {
    var ints, dir := Set(pins.internal.value), Set(pins.direct.value);
    var c, below := Colored(st, pins, be), ReachAll(st.Open(), ints);
    ColoredIs(st, pins, be);
    assert ClosedUnder(st.Open(), below) by { ReachAllClosed(st.Open(), ints); }
    if forall d, x :: d in dir && d in below && d in st.Open() && x in Kids(d) ==> x in c {
      assert ints <= c by { ReachAllClosed(st.Open() - dir, ints); }
      assert ClosedUnder(st.Open() - dir, c) by { ColoredClosed(st, pins, be); }
      ClosedEnough(st.Open(), dir, c, ints);
    }
  }

  /** A test that is enough: every direct pin below an internal pin is a leaf or below a
      recursive pin. */
  lemma InternalPinsKeptIf(st: Store, pins: Pinner, be: seq<Cid>)
    requires Listed(pins)
    requires forall d :: d in pins.direct.value && d in DescAll(Set(pins.internal.value)) ==>
               Links(d) == [] || d in ReachAll(st.Open(), Set(pins.recursive.value))
    ensures ReachAll(st.Open(), Set(pins.internal.value)) <= Colored(st, pins, be)
  {
    var rec, ints := Set(pins.recursive.value), Set(pins.internal.value);
    forall d, x | d in pins.direct.value && d in ReachAll(st.Open(), ints) && d in st.Open() && x in Kids(d)
      ensures x in BelowRoots(st, pins, be)
    {
      assert d in DescAll(ints) by {
        DescAllWhole(ints);
        ReachAllLeast(st.Open(), ints, DescAll(ints));
      }
      ReachAllClosed(st.Open(), rec);
      assert x in ReachAll(st.Open(), rec);
      assert ReachAll(st.Open(), rec) <= BelowRoots(st, pins, be);
    }
    InternalPinsKept(st, pins, be);
  }

  /** A pinner without internal pins, as dspinner is: nothing is lost, and the marked set is
      what lies below the roots, with the direct pins. */
  lemma NoInternalPins(st: Store, pins: Pinner, be: seq<Cid>)
    requires Listed(pins) && pins.internal.value == []
    ensures Colored(st, pins, be) == BelowRoots(st, pins, be) + Set(pins.direct.value)
    ensures MarkOk(st, pins, be) <==>
              Accepted(Strict, st, ReachAll(st.Open(), Set(pins.recursive.value)))
              && Accepted(BestEffort, st, ReachAll(st.Open(), Set(be)))
  {
    ColoredIs(st, pins, be);
    assert Set(pins.internal.value) == {};
    assert AvoidingDirect(st, pins) == {} && Internal(st, pins, be) == {};
  }

  lemma ColoredClosed(st: Store, pins: Pinner, be: seq<Cid>)
    requires Listed(pins)
    ensures ClosedUnder(st.Open() - DirectOnly(st, pins, be), Colored(st, pins, be))
  {
    AfterBestEffort(st, pins, be);
    ReachAllClosed(st.Open() - DirectOnly(st, pins, be), Set(pins.internal.value));
  }
}
