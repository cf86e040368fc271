/** The protocol's step-by-step marking against the collector's: over one store, any order
    of visits that gets to the sweep has marked exactly what `Gc.ColoredSet` marks, and one
    that gives up had to. */
module GcMark {
  import opened Ipld
  import opened DagWalk
  import Gc
  import GcLock

  type Op = GcLock.Op

  /** The fixed inputs of a marking. */
  datatype Inputs = Inputs(st: Store, pins: Gc.Pinner, be: seq<Cid>) {
    ghost predicate Valid() { Gc.Listed(pins) }
    ghost function Rec(): set<Cid> requires Valid() { Set(pins.recursive.value) }
    ghost function Dir(): set<Cid> requires Valid() { Set(pins.direct.value) }
    ghost function Int(): set<Cid> requires Valid() { Set(pins.internal.value) }
    ghost function Colored(): set<Cid> requires Valid() { Gc.Colored(st, pins, be) }
    ghost predicate Ok() requires Valid() { Gc.MarkOk(st, pins, be) }
    ghost function First(): Op requires Valid() { GcLock.Marking(GcLock.RecursiveStage, {}, Rec(), Set(be), Int()) }
  }

  /** One step of the marking thread. */
  ghost predicate Step(given: Inputs, op: Op, op': Op)
    requires given.Valid()
  {
    && op.Marking?
    && if op.todo == {} then op' == GcLock.NextStage(op, given.Dir())
       else exists c :: c in op.todo && op' == GcLock.Visit(op, c, given.st)
  }

  /** What holds in a walk: all that is reached is marked or pending and nothing else is. */
  ghost predicate Walking(st: Store, p: Policy, roots: set<Cid>, before: set<Cid>, marked: set<Cid>, todo: set<Cid>)
  {
    && before <= marked && roots <= marked + todo
    && marked + todo <= before + Fresh(st, roots, before)
    && (forall x :: x in marked && x in st.Open() - before ==> Kids(x) <= marked + todo)
    && Accepted(p, st, marked - before)
  }

  lemma WalkStarts(st: Store, p: Policy, roots: set<Cid>, before: set<Cid>)
    ensures Walking(st, p, roots, before, before, roots)
  {
    ReachAllClosed(st.Open() - before, roots);
  }

  /** A visit keeps it, or meets a node that makes the walk fail. */
  lemma VisitWalks(st: Store, p: Policy, roots: set<Cid>, before: set<Cid>, marked: set<Cid>, todo: set<Cid>, c: Cid)
    requires Walking(st, p, roots, before, marked, todo) && c in todo
    ensures c in marked ==> Walking(st, p, roots, before, marked, todo - {c})
    ensures c !in marked ==>
              match React(p, st, c)
              case Expand => Walking(st, p, roots, before, marked + {c}, todo - {c} + Kids(c))
              case Ignore => Walking(st, p, roots, before, marked + {c}, todo - {c})
              case _ => !Accepted(p, st, Fresh(st, roots, before) - before)
  {
    if c !in marked {
      match React(p, st, c)
      case Expand => VisitExpands(st, p, roots, before, marked, todo, c);
      case Ignore => VisitIgnores(st, p, roots, before, marked, todo, c);
      case _ => assert c in Fresh(st, roots, before) - before;
    }
  }

  lemma VisitExpands(st: Store, p: Policy, roots: set<Cid>, before: set<Cid>,
                     marked: set<Cid>, todo: set<Cid>, c: Cid)
    requires Walking(st, p, roots, before, marked, todo) && c in todo && c !in marked && React(p, st, c) == Expand
    ensures Walking(st, p, roots, before, marked + {c}, todo - {c} + Kids(c))
  {
    ExpandedIsOpen(p, st, c);
    assert Kids(c) <= before + Fresh(st, roots, before) by { ReachAllClosed(st.Open() - before, roots); }
  }

  lemma VisitIgnores(st: Store, p: Policy, roots: set<Cid>, before: set<Cid>,
                     marked: set<Cid>, todo: set<Cid>, c: Cid)
    requires Walking(st, p, roots, before, marked, todo) && c in todo && c !in marked && React(p, st, c) == Ignore
    ensures Walking(st, p, roots, before, marked + {c}, todo - {c})
  {
    assert c !in st.Open();
  }

  /** With nothing pending the walk is done. */
  lemma WalkEnds(st: Store, p: Policy, roots: set<Cid>, before: set<Cid>, marked: set<Cid>)
    requires Walking(st, p, roots, before, marked, {})
    ensures marked == before + Fresh(st, roots, before)
    ensures Accepted(p, st, Fresh(st, roots, before) - before)
  {
    ReachAllLeast(st.Open() - before, roots, marked);
  }

  // ------------------------------------------------------------------ the three walks

  ghost function Reached(given: Inputs): (r: set<Cid>)
    requires given.Valid()
  {
    ReachAll(given.st.Open(), given.Rec())
  }

  ghost function BeforeInternal(given: Inputs): (r: set<Cid>)
    requires given.Valid()
  {
    Gc.Walked(given.st, given.pins, given.be) + given.Dir()
  }

  ghost predicate RootsAccepted(given: Inputs)
    requires given.Valid()
  {
    && Accepted(Strict, given.st, Reached(given))
    && Accepted(BestEffort, given.st, ReachAll(given.st.Open(), Set(given.be)))
  }

  ghost predicate MarkInv(given: Inputs, op: Op)
    requires given.Valid()
  {
    match op
    case Marking(RecursiveStage, marked, todo, be, internal) =>
      && be == Set(given.be) && internal == given.Int()
      && Walking(given.st, Strict, given.Rec(), {}, marked, todo)
    case Marking(BestEffortStage, marked, todo, be, internal) =>
      && internal == given.Int() && Accepted(Strict, given.st, Reached(given))
      && Walking(given.st, BestEffort, Set(given.be), Reached(given), marked, todo)
    case Marking(InternalStage, marked, todo, be, internal) =>
      && RootsAccepted(given)
      && Walking(given.st, Strict, given.Int(), BeforeInternal(given), marked, todo)
    case Sweeping(marked) => given.Ok() && marked == given.Colored()
    case GivenUp => !given.Ok()
    case _ => false
  }

  /** The second walk accepts its new nodes iff it accepts all below its roots. */
  lemma SecondWalk(given: Inputs)
    requires given.Valid() && Accepted(Strict, given.st, Reached(given))
    ensures var added := Fresh(given.st, Set(given.be), Reached(given));
            && Reached(given) + added == Gc.Walked(given.st, given.pins, given.be)
            && (Accepted(BestEffort, given.st, added - Reached(given)) <==> RootsAccepted(given))
  {
    Gc.AfterBestEffort(given.st, given.pins, given.be);
    Gc.BestEffortAccepted(given.st, given.pins, given.be);
  }

  /** The third walk's new nodes are what the internal pins add. */
  lemma ThirdWalk(given: Inputs)
    requires given.Valid() && RootsAccepted(given)
    ensures var added := Fresh(given.st, given.Int(), BeforeInternal(given));
            && BeforeInternal(given) + added == given.Colored()
            && (Accepted(Strict, given.st, added - BeforeInternal(given)) <==> given.Ok())
  {
    Gc.AfterInternal(given.st, given.pins, given.be);
    assert Fresh(given.st, given.Int(), BeforeInternal(given)) - BeforeInternal(given)
        == Gc.Internal(given.st, given.pins, given.be) - Gc.Walked(given.st, given.pins, given.be) - given.Dir();
  }

  lemma FirstWalk(given: Inputs)
    requires given.Valid()
    ensures {} + Fresh(given.st, given.Rec(), {}) == Reached(given)
    ensures Accepted(Strict, given.st, Fresh(given.st, given.Rec(), {}) - {}) <==>
            Accepted(Strict, given.st, Reached(given))
  {
    assert given.st.Open() - {} == given.st.Open();
    assert Fresh(given.st, given.Rec(), {}) - {} == Reached(given);
  }

  /** A visit of a stage's walk either goes on with the walk or gives up for cause. */
  lemma VisitOp(st: Store, roots: set<Cid>, before: set<Cid>, op: Op, c: Cid)
    requires op.Marking? && c in op.todo && Walking(st, StagePolicy(op), roots, before, op.marked, op.todo)
    ensures var op' := GcLock.Visit(op, c, st);
            if op'.Marking? then op' == op.(marked := op'.marked, todo := op'.todo)
                                 && Walking(st, StagePolicy(op), roots, before, op'.marked, op'.todo)
            else op' == GcLock.GivenUp && !Accepted(StagePolicy(op), st, Fresh(st, roots, before) - before)
  {
    VisitWalks(st, StagePolicy(op), roots, before, op.marked, op.todo, c);
  }

  ghost function StagePolicy(op: Op): (p: Policy)
    requires op.Marking?
  {
    if op.stage == GcLock.BestEffortStage then BestEffort else Strict
  }

  lemma VisitRecursive(given: Inputs, op: Op, c: Cid)
    requires given.Valid() && op.Marking? && op.stage == GcLock.RecursiveStage && MarkInv(given, op) && c in op.todo
    ensures MarkInv(given, GcLock.Visit(op, c, given.st))
  {
    VisitOp(given.st, given.Rec(), {}, op, c);
    if GcLock.Visit(op, c, given.st).GivenUp? { FirstWalk(given); }
  }

  lemma VisitBestEffort(given: Inputs, op: Op, c: Cid)
    requires given.Valid() && op.Marking? && op.stage == GcLock.BestEffortStage && MarkInv(given, op) && c in op.todo
    ensures MarkInv(given, GcLock.Visit(op, c, given.st))
  {
    VisitOp(given.st, Set(given.be), Reached(given), op, c);
    if GcLock.Visit(op, c, given.st).GivenUp? { SecondWalk(given); }
  }

  lemma VisitInternal(given: Inputs, op: Op, c: Cid)
    requires given.Valid() && op.Marking? && op.stage == GcLock.InternalStage && MarkInv(given, op) && c in op.todo
    ensures MarkInv(given, GcLock.Visit(op, c, given.st))
  {
    VisitOp(given.st, given.Int(), BeforeInternal(given), op, c);
    if GcLock.Visit(op, c, given.st).GivenUp? { ThirdWalk(given); }
  }

  lemma NextKeeps(given: Inputs, op: Op)
    requires given.Valid() && op.Marking? && MarkInv(given, op) && op.todo == {}
    ensures MarkInv(given, GcLock.NextStage(op, given.Dir()))
  {
    match op.stage
    case RecursiveStage =>
      WalkEnds(given.st, Strict, given.Rec(), {}, op.marked);
      FirstWalk(given);
      WalkStarts(given.st, BestEffort, Set(given.be), Reached(given));
    case BestEffortStage =>
      WalkEnds(given.st, BestEffort, Set(given.be), Reached(given), op.marked);
      SecondWalk(given);
      WalkStarts(given.st, Strict, given.Int(), BeforeInternal(given));
    case InternalStage =>
      WalkEnds(given.st, Strict, given.Int(), BeforeInternal(given), op.marked);
      ThirdWalk(given);
  }

  /** The steps of one marking, in any order of visits. */
  ghost predicate Marks(given: Inputs, ops: seq<Op>)
    requires given.Valid()
  {
    |ops| >= 1 && ops[0] == given.First() && forall i :: 0 <= i < |ops| - 1 ==> Step(given, ops[i], ops[i + 1])
  }

  lemma {:induction false} MarksInv(given: Inputs, ops: seq<Op>, i: nat)
    requires given.Valid() && Marks(given, ops) && i < |ops|
    ensures MarkInv(given, ops[i])
  {
    if i == 0 {
      WalkStarts(given.st, Strict, given.Rec(), {});
    } else {
      MarksInv(given, ops, i - 1);
      var op := ops[i - 1];
      assert Step(given, op, ops[i]);
      if op.todo == {} {
        NextKeeps(given, op);
      } else {
        var c :| c in op.todo && ops[i] == GcLock.Visit(op, c, given.st);
        match op.stage
        case RecursiveStage => VisitRecursive(given, op, c);
        case BestEffortStage => VisitBestEffort(given, op, c);
        case InternalStage => VisitInternal(given, op, c);
      }
    }
  }

  /** A marking that gets to the sweep has marked what ColoredSet marks, and gets there only
      if ColoredSet succeeds; one that gives up does so only if ColoredSet fails. */
  lemma MarkingIsColored(given: Inputs, ops: seq<Op>, i: nat)
    requires given.Valid() && Marks(given, ops) && i < |ops|
    ensures ops[i].Sweeping? ==> given.Ok() && ops[i].marked == given.Colored()
    ensures ops[i].GivenUp? ==> !given.Ok()
    ensures ops[i].Marking? || ops[i].Sweeping? || ops[i].GivenUp?
  {
    MarksInv(given, ops, i);
  }

  // ------------------------------------------------------------------ while blocks are written

  /** Blocks may be written without a lock during the marking: the store at each step, which
      only grows. */
  ghost predicate Grows(sts: seq<Store>)
  {
    forall i, j :: 0 <= i <= j < |sts| ==> sts[i].blocks <= sts[j].blocks && sts[i].broken == sts[j].broken
  }

  ghost predicate MarksOver(pins: Gc.Pinner, be: seq<Cid>, sts: seq<Store>, ops: seq<Op>)
    requires Gc.Listed(pins)
  {
    && |sts| == |ops| >= 1 && Grows(sts) && ops[0] == Inputs(sts[0], pins, be).First()
    && forall i :: 0 <= i < |ops| - 1 ==> Step(Inputs(sts[i], pins, be), ops[i], ops[i + 1])
  }

  /** A walk so far: it has the roots, keeps to the bound, and follows the links of `open`. */
  ghost predicate Between(open: set<Cid>, roots: set<Cid>, bound: set<Cid>, marked: set<Cid>, todo: set<Cid>)
  {
    && roots <= marked + todo <= bound
    && forall x :: x in marked && x in open ==> Kids(x) <= marked + todo
  }

  /** The nodes whose links the walk from the internal pins follows. */
  ghost function InternalOpen(given: Inputs): (r: set<Cid>)
    requires given.Valid()
  {
    given.st.Open() - Gc.DirectOnly(given.st, given.pins, given.be)
  }

  /** The marks hold what was available at the start and nothing that is not at the end. */
  ghost predicate Within(first: Inputs, last: Inputs, op: Op)
    requires first.Valid() && last.Valid()
  {
    match op
    case Marking(RecursiveStage, marked, todo, be, internal) =>
      && be == Set(first.be) && internal == first.Int()
      && Between(first.st.Open(), first.Rec(), Reached(last), marked, todo)
    case Marking(BestEffortStage, marked, todo, be, internal) =>
      && internal == first.Int() && Reached(first) <= marked
      && Between(first.st.Open(), Set(first.be), Gc.Walked(last.st, last.pins, last.be), marked, todo)
    case Marking(InternalStage, marked, todo, be, internal) =>
      && BeforeInternal(first) <= marked
      && Between(InternalOpen(first), first.Int(), last.Colored(), marked, todo)
    case Sweeping(marked) => first.Colored() <= marked <= last.Colored()
    case GivenUp => true
    case _ => false
  }

  /** Inputs that differ in their stores only, the second holding more. */
  ghost predicate Later(a: Inputs, b: Inputs)
  {
    a.pins == b.pins && a.be == b.be && a.st.blocks <= b.st.blocks && a.st.broken == b.st.broken
  }

  /** A visit goes on with the walk, if the bound is closed under the links it may follow. */
  lemma VisitBetween(first: Store, now: Store, last: Store, open: set<Cid>, roots: set<Cid>,
                     follow: set<Cid>, bound: set<Cid>, op: Op, c: Cid)
    requires first.blocks <= now.blocks <= last.blocks && first.broken == now.broken == last.broken
    requires open <= first.Open() && ClosedUnder(follow, bound)
    requires op.Marking? && c in op.todo && Between(open, roots, bound, op.marked, op.todo)
    requires c !in op.marked && c in last.Open() ==> c in follow
    ensures var op' := GcLock.Visit(op, c, now);
            op' == GcLock.GivenUp
            || (op'.Marking? && op.marked <= op'.marked && op' == op.(marked := op'.marked, todo := op'.todo)
                && Between(open, roots, bound, op'.marked, op'.todo))
  {
    if c !in op.marked && React(StagePolicy(op), now, c) == Expand {
      assert Kids(c) <= bound by { ExpandedIsOpen(StagePolicy(op), now, c); }
    }
  }

  lemma VisitWithin(first: Inputs, now: Inputs, last: Inputs, op: Op, c: Cid)
    requires first.Valid() && Later(first, now) && Later(now, last)
    requires op.Marking? && c in op.todo && Within(first, last, op)
    ensures Within(first, last, GcLock.Visit(op, c, now.st))
  {
    var open := last.st.Open();
    match op.stage
    case RecursiveStage =>
      assert ClosedUnder(open, Reached(last)) by { ReachAllClosed(open, last.Rec()); }
      VisitBetween(first.st, now.st, last.st, first.st.Open(), first.Rec(), open, Reached(last), op, c);
    case BestEffortStage =>
      var walked := Gc.Walked(last.st, last.pins, last.be);
      assert ClosedUnder(open, walked) by { Gc.AfterBestEffort(last.st, last.pins, last.be); }
      VisitBetween(first.st, now.st, last.st, first.st.Open(), Set(first.be), open, walked, op, c);
    case InternalStage =>
      Gc.ColoredClosed(last.st, last.pins, last.be);
      VisitBetween(first.st, now.st, last.st, InternalOpen(first), first.Int(),
                   InternalOpen(last), last.Colored(), op, c);
  }

  lemma NextWithin(first: Inputs, last: Inputs, op: Op)
    requires first.Valid() && Later(first, last)
    requires op.Marking? && op.todo == {} && Within(first, last, op)
    ensures Within(first, last, GcLock.NextStage(op, first.Dir()))
  {
    match op.stage
    case RecursiveStage =>
      ReachAllLeast(first.st.Open(), first.Rec(), op.marked);
      ReachAllClosed(last.st.Open(), Set(last.be));
    case BestEffortStage =>
      ReachAllLeast(first.st.Open(), Set(first.be), op.marked);
      ReachAllClosed(last.st.Open() - Gc.DirectOnly(last.st, last.pins, last.be), last.Int());
    case InternalStage =>
      ReachAllLeast(first.st.Open() - Gc.DirectOnly(first.st, first.pins, first.be), first.Int(), op.marked);
  }

  lemma {:induction false} MarksWithin(pins: Gc.Pinner, be: seq<Cid>, sts: seq<Store>, ops: seq<Op>, i: nat)
    requires Gc.Listed(pins) && MarksOver(pins, be, sts, ops) && i < |ops|
    ensures Within(Inputs(sts[0], pins, be), Inputs(sts[|sts| - 1], pins, be), ops[i])
  {
    var first, last := Inputs(sts[0], pins, be), Inputs(sts[|sts| - 1], pins, be);
    if i == 0 {
      ReachAllClosed(last.st.Open(), last.Rec());
    } else {
      MarksWithin(pins, be, sts, ops, i - 1);
      var op, now := ops[i - 1], Inputs(sts[i - 1], pins, be);
      assert Step(now, op, ops[i]);
      if op.todo == {} {
        NextWithin(first, last, op);
      } else {
        var c :| c in op.todo && ops[i] == GcLock.Visit(op, c, now.st);
        VisitWithin(first, now, last, op, c);
      }
    }
  }

  /** A marking that gets to the sweep while blocks are written has marked all that
      ColoredSet marks over the store at its start, and only what it marks over the store
      at its end. */
  lemma MarkingBetween(pins: Gc.Pinner, be: seq<Cid>, sts: seq<Store>, ops: seq<Op>, i: nat)
    requires Gc.Listed(pins) && MarksOver(pins, be, sts, ops) && i < |ops| && ops[i].Sweeping?
    ensures Gc.Colored(sts[0], pins, be) <= ops[i].marked <= Gc.Colored(sts[|sts| - 1], pins, be)
  {
    MarksWithin(pins, be, sts, ops, i);
  }

  // ------------------------------------------------------------------ collections in a run

  /** An unreadable block makes a visit give up; apart from that it makes no difference. */
  lemma VisitSame(op: Op, c: Cid, blocks: set<Cid>, broken: set<Cid>)
    requires op.Marking?
    ensures var op' := GcLock.Visit(op, c, Store(blocks, broken));
            op' == GcLock.GivenUp || op' == GcLock.Visit(op, c, Store(blocks, {}))
  {
  }

  /** While a thread marks, others can only write blocks. */
  lemma MarkingStep(s: GcLock.State, a: GcLock.Action, t: GcLock.Tid)
    requires GcLock.Inv(s) && GcLock.Enabled(s, a) && t in s.ops && s.ops[t].Marking? && t in GcLock.Do(s, a).ops
    ensures var s', op := GcLock.Do(s, a), s.ops[t];
            && s.store <= s'.store && s'.rec == s.rec && s'.dir == s.dir
            && (|| s'.ops[t] == op || s'.ops[t] == GcLock.GivenUp
                || (op.todo == {} && s'.ops[t] == GcLock.NextStage(op, s.dir))
                || (exists c :: c in op.todo && s'.ops[t] == GcLock.Visit(op, c, Store(s.store, {}))))
  {
    GcLock.ExclusiveIsAlone(s, t);
    assert s.writer;
    if a.MarkVisit? { VisitSame(s.ops[t], a.c, s.store, a.broken); }
  }

  ghost predicate MarksFrom(ss: seq<GcLock.State>, t: GcLock.Tid, i: nat, m: nat)
  {
    i < m < |ss| && t in ss[m].ops && forall k :: i < k < m ==> t in ss[k].ops && ss[k].ops[t].Marking?
  }

  lemma {:induction false} MarkingGrows(ss: seq<GcLock.State>, acts: seq<GcLock.Action>, t: GcLock.Tid,
                                        i: nat, k: nat, m: nat)
    requires GcLock.Run(ss, acts) && MarksFrom(ss, t, i, m) && i < k <= m
    ensures ss[k].store <= ss[m].store && ss[k].rec == ss[m].rec && ss[k].dir == ss[m].dir
    decreases m - k
  {
    if k < m {
      GcLock.RunInv(ss, acts, k);
      MarkingStep(ss[k], acts[k], t);
      MarkingGrows(ss, acts, t, i, k + 1, m);
    }
  }

  ghost predicate Asked(s: GcLock.State, pins: Gc.Pinner)
  {
    Gc.Listed(pins) && Set(pins.recursive.value) == s.rec && Set(pins.direct.value) == s.dir
  }

  /** The inputs of a collection as they are in one state. */
  ghost function At(s: GcLock.State, pins: Gc.Pinner, be: seq<Cid>): (r: Inputs)
  {
    Inputs(Store(s.store, {}), pins, be)
  }

  lemma StartStep(s: GcLock.State, t: GcLock.Tid, pins: Gc.Pinner, be: seq<Cid>)
    requires Asked(s, pins) && GcLock.Enabled(s, GcLock.StartGC(t, Set(be), Set(pins.internal.value)))
    ensures var s' := GcLock.Do(s, GcLock.StartGC(t, Set(be), Set(pins.internal.value)));
            s'.store == s.store && Asked(s', pins) && s'.ops[t] == At(s, pins, be).First()
  {
  }

  /** From the start to the sweep the store only grows and the pins stay. */
  lemma MarkingFrame(ss: seq<GcLock.State>, acts: seq<GcLock.Action>, t: GcLock.Tid,
                     pins: Gc.Pinner, be: seq<Cid>, i: nat, k: nat, m: nat)
    requires GcLock.Run(ss, acts) && MarksFrom(ss, t, i, m) && i < k <= m && Asked(ss[i], pins)
    requires acts[i] == GcLock.StartGC(t, Set(be), Set(pins.internal.value))
    ensures Later(At(ss[i], pins, be), At(ss[k], pins, be)) && Later(At(ss[k], pins, be), At(ss[m], pins, be))
    ensures Set(pins.direct.value) == ss[k].dir
  {
    StartStep(ss[i], t, pins, be);
    MarkingGrows(ss, acts, t, i, k, m);
    if k < m { MarkingGrows(ss, acts, t, i, i + 1, k); }
    MarkingGrows(ss, acts, t, i, i + 1, m);
  }

  lemma WithinAtStart(first: Inputs, last: Inputs)
    requires first.Valid() && Later(first, last)
    ensures Within(first, last, first.First())
  {
    ReachAllClosed(last.st.Open(), last.Rec());
  }

  lemma RunStarts(ss: seq<GcLock.State>, acts: seq<GcLock.Action>, t: GcLock.Tid,
                  pins: Gc.Pinner, be: seq<Cid>, i: nat, m: nat)
    requires GcLock.Run(ss, acts) && MarksFrom(ss, t, i, m) && i < m && Asked(ss[i], pins)
    requires acts[i] == GcLock.StartGC(t, Set(be), Set(pins.internal.value))
    ensures Within(At(ss[i], pins, be), At(ss[m], pins, be), ss[i + 1].ops[t])
  {
    StartStep(ss[i], t, pins, be);
    MarkingFrame(ss, acts, t, pins, be, i, m, m);
    WithinAtStart(At(ss[i], pins, be), At(ss[m], pins, be));
  }

  lemma {:induction false} RunWithin(ss: seq<GcLock.State>, acts: seq<GcLock.Action>, t: GcLock.Tid,
                                     pins: Gc.Pinner, be: seq<Cid>, i: nat, k: nat, m: nat)
    requires GcLock.Run(ss, acts) && MarksFrom(ss, t, i, m) && i < k <= m && Asked(ss[i], pins)
    requires acts[i] == GcLock.StartGC(t, Set(be), Set(pins.internal.value))
    ensures Within(At(ss[i], pins, be), At(ss[m], pins, be), ss[k].ops[t])
    decreases k
  {
    var first, last := At(ss[i], pins, be), At(ss[m], pins, be);
    if k == i + 1 {
      RunStarts(ss, acts, t, pins, be, i, m);
    } else {
      RunWithin(ss, acts, t, pins, be, i, k - 1, m);
      MarkingFrame(ss, acts, t, pins, be, i, k - 1, m);
      WithinStep(first, At(ss[k - 1], pins, be), last, ss, acts, k - 1, t);
    }
  }

  /** A step of the marking thread, or of others while it marks. */
  ghost predicate Goes(s: GcLock.State, op: Op, op': Op)
    requires op.Marking?
  {
    || op' == op || op' == GcLock.GivenUp
    || (op.todo == {} && op' == GcLock.NextStage(op, s.dir))
    || (exists c :: c in op.todo && op' == GcLock.Visit(op, c, Store(s.store, {})))
  }

  lemma MarkingGoes(ss: seq<GcLock.State>, acts: seq<GcLock.Action>, k: nat, t: GcLock.Tid)
    requires GcLock.Run(ss, acts) && k < |acts|
    requires t in ss[k].ops && ss[k].ops[t].Marking? && t in ss[k + 1].ops
    ensures Goes(ss[k], ss[k].ops[t], ss[k + 1].ops[t])
  {
    GcLock.RunInv(ss, acts, k);
    MarkingStep(ss[k], acts[k], t);
  }

  lemma WithinStep(first: Inputs, now: Inputs, last: Inputs,
                   ss: seq<GcLock.State>, acts: seq<GcLock.Action>, k: nat, t: GcLock.Tid)
    requires GcLock.Run(ss, acts) && k < |acts|
    requires t in ss[k].ops && ss[k].ops[t].Marking? && t in ss[k + 1].ops
    requires first.Valid() && Later(first, now) && Later(now, last) && now.st == Store(ss[k].store, {})
    requires first.Dir() == ss[k].dir && Within(first, last, ss[k].ops[t])
    ensures Within(first, last, ss[k + 1].ops[t])
  {
    MarkingGoes(ss, acts, k, t);
    WithinGoes(first, now, last, ss[k], ss[k].ops[t], ss[k + 1].ops[t]);
  }

  lemma WithinGoes(first: Inputs, now: Inputs, last: Inputs, s: GcLock.State, op: Op, op': Op)
    requires op.Marking? && Goes(s, op, op')
    requires first.Valid() && Later(first, now) && Later(now, last) && now.st == Store(s.store, {})
    requires first.Dir() == s.dir && Within(first, last, op)
    ensures Within(first, last, op')
  {
    if op.todo == {} && op' == GcLock.NextStage(op, s.dir) {
      NextWithin(first, last, op);
    } else if op' != op && op' != GcLock.GivenUp {
      var c :| c in op.todo && op' == GcLock.Visit(op, c, now.st);
      VisitWithin(first, now, last, op, c);
    }
  }

  /** Over every run, a collection that gets to its sweep has marked all that ColoredSet marks
      over the store and pins at its start, and only what it marks over the store then. */
  lemma CollectionMarks(ss: seq<GcLock.State>, acts: seq<GcLock.Action>, t: GcLock.Tid,
                        pins: Gc.Pinner, be: seq<Cid>, i: nat, m: nat)
    requires GcLock.Run(ss, acts) && MarksFrom(ss, t, i, m) && Asked(ss[i], pins)
    requires acts[i] == GcLock.StartGC(t, Set(be), Set(pins.internal.value)) && ss[m].ops[t].Sweeping?
    ensures Gc.Colored(Store(ss[i].store, {}), pins, be) <= ss[m].ops[t].marked
         <= Gc.Colored(Store(ss[m].store, {}), pins, be)
  {
    RunWithin(ss, acts, t, pins, be, i, m, m);
  }
}
