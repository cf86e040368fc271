/** `refs`: the RefWriter of core/commands/refs.go. */
module Refs {
  import opened Ipld
  import opened Seqs
  import opened Trails

  datatype Edge = Edge(src: Cid, dst: Cid, name: string)

  // ------------------------------------------------------------------ specification

  /** `x` is at the end of a path of `d` links from `r`. */
  ghost predicate Path(r: Cid, x: Cid, d: nat)
    decreases d
  {
    if d == 0 then r == x else exists y :: Path(r, y, d - 1) && x in Kids(y)
  }

  ghost predicate AtDepth(roots: set<Cid>, x: Cid, d: nat) { exists r :: r in roots && Path(r, x, d) }

  /** A negative limit is no limit. */
  predicate Within(limit: int, d: int) { limit < 0 || d <= limit }

  /** What `refs` is to list: the CIDs with a link path of length 1..limit from a root. */
  ghost predicate Referenced(roots: set<Cid>, limit: int, x: Cid)
  {
    exists d: nat :: d >= 1 && Within(limit, d) && AtDepth(roots, x, d)
  }

  ghost function Dsts(out: seq<Edge>): (r: set<Cid>) { set i | 0 <= i < |out| :: out[i].dst }

  ghost predicate DstOnce(out: seq<Edge>) { forall i, j :: 0 <= i < j < |out| ==> out[i].dst != out[j].dst }

  /** An edge is a link of its source, with the link's name. */
  ghost predicate IsLink(e: Edge)
  {
    exists i :: 0 <= i < |Links(e.src)| && Links(e.src)[i].cid == e.dst && Links(e.src)[i].name == e.name
  }

  /** The links that `refs` looks at: those whose targets are at most at the limit. */
  ghost predicate LinkWithin(roots: set<Cid>, limit: int, e: Edge)
  {
    IsLink(e) && exists d: nat :: AtDepth(roots, e.src, d) && Within(limit, d + 1)
  }

  /** The last link of a trail. */
  ghost function LastLink(n: Cid, t: Trail): (e: Edge)
    requires t != [] && Leads(Always, n, t)
    decreases |t|
  {
    var l := Links(n)[t[0]];
    if |t| == 1 then Edge(n, l.cid, l.name) else LastLink(l.cid, t[1..])
  }

  /** The edges of a run without --unique below `n` met at `depth`, links [..i]. */
  ghost function EdgesUpTo(limit: int, n: Cid, depth: nat, i: nat): (r: seq<Edge>)
    requires i <= |Links(n)|
    decreases n, i
  {
    if i == 0 then [] else EdgesUpTo(limit, n, depth, i - 1) + EdgesOf(limit, n, depth, i - 1)
  }

  /** Those of link `i`: the edge itself, then what is below it. */
  ghost function EdgesOf(limit: int, n: Cid, depth: nat, i: nat): (r: seq<Edge>)
    requires i < |Links(n)|
    decreases n, i
  {
    var l := Links(n)[i];
    if !Within(limit, depth + 1) then []
    else [Edge(n, l.cid, l.name)] +
         if limit == depth + 1 then [] else EdgesUpTo(limit, l.cid, depth + 1, |Links(l.cid)|)
  }

  // ------------------------------------------------------------------ invariants of `seen`

  /** The (CID, depth) pairs that occur on paths from the roots. */
  ghost function Occurs(roots: set<Cid>): (r: iset<(Cid, nat)>)
  {
    iset x: Cid, d: nat | AtDepth(roots, x, d) :: (x, d)
  }

  ghost predicate ClosedDown(at: iset<(Cid, nat)>)
  {
    forall n, d: nat, k :: (n, d) in at && k in Kids(n) ==> (k, d + 1) in at
  }

  lemma OccursClosed(roots: set<Cid>)
    ensures ClosedDown(Occurs(roots))
  {
    forall n, d: nat, k | (n, d) in Occurs(roots) && k in Kids(n) ensures (k, d + 1) in Occurs(roots) {
      var r :| r in roots && Path(r, n, d);
      assert Path(r, k, d + 1);
    }
  }

  ghost predicate Sound(at: iset<(Cid, nat)>, limit: int, seen: map<Cid, nat>)
  {
    forall x :: x in seen ==> seen[x] >= 1 && Within(limit, seen[x]) && (x, seen[x]) in at
  }

  /** `Referenced`, in terms of the pairs. */
  ghost predicate RefAt(at: iset<(Cid, nat)>, limit: int, x: Cid)
  {
    exists d: nat :: (x, d) in at && d >= 1 && Within(limit, d)
  }

  /** `LinkWithin`, in terms of the pairs. */
  ghost predicate EdgeAt(at: iset<(Cid, nat)>, limit: int, e: Edge)
  {
    IsLink(e) && exists d: nat :: (e.src, d) in at && Within(limit, d + 1)
  }

  ghost predicate SeenAt(limit: int, seen: map<Cid, nat>, k: Cid, d: nat)
  {
    Within(limit, d) ==> k in seen && (limit >= 0 ==> seen[k] <= d)
  }

  /** The children of `n`, entered at depth `d`, have all been seen as early as that. */
  ghost predicate KidsSeen(limit: int, seen: map<Cid, nat>, n: Cid, d: nat)
  {
    forall k :: k in Kids(n) ==> SeenAt(limit, seen, k, d + 1)
  }

  ghost predicate Earlier(seen: map<Cid, nat>, seen': map<Cid, nat>)
  {
    forall x :: x in seen ==> x in seen' && seen'[x] <= seen[x]
  }

  /** Every entry that differs from `seen` is finished: its children are seen. */
  ghost predicate ChangesDone(limit: int, seen: map<Cid, nat>, seen': map<Cid, nat>)
  {
    forall x :: x in seen' ==> (x in seen && seen[x] == seen'[x]) || KidsSeen(limit, seen', x, seen'[x])
  }

  lemma ChangesCompose(limit: int, s0: map<Cid, nat>, s1: map<Cid, nat>, s2: map<Cid, nat>)
    requires ChangesDone(limit, s0, s1) && ChangesDone(limit, s1, s2) && Earlier(s1, s2)
    ensures ChangesDone(limit, s0, s2)
  {
    forall x | x in s2 && !(x in s0 && s0[x] == s2[x]) ensures KidsSeen(limit, s2, x, s2[x]) {
      if x in s1 && s1[x] == s2[x] {
        forall k | k in Kids(x) ensures SeenAt(limit, s2, k, s2[x] + 1) {
          assert SeenAt(limit, s1, k, s1[x] + 1);
        }
      }
    }
  }

  /** Whether a CID met at depth `d` is (re-)entered: it is new, or met earlier than before
      under a limit. */
  ghost predicate Enters(limit: int, seen: map<Cid, nat>, c: Cid, d: nat)
  {
    Within(limit, d) && (c in seen ==> limit >= 0 && d < seen[c])
  }

  // ------------------------------------------------------------------ the measure on `seen`

  /** What an entry counts for: one, or under a limit the more the earlier it was met. */
  ghost function Weight(limit: int, d: nat): (w: int) { if limit < 0 then 1 else limit + 1 - d }

  ghost function Measure(limit: int, seen: map<Cid, nat>): (m: int)
    decreases |seen|
  {
    if seen == map[] then 0
    else
      var x :| x in seen;
      assert (seen - {x}).Keys == seen.Keys - {x};
      Weight(limit, seen[x]) + Measure(limit, seen - {x})
  }

  /** The sum does not depend on the order. */
  lemma {:induction false} MeasureTake(limit: int, seen: map<Cid, nat>, x: Cid)
    requires x in seen
    ensures Measure(limit, seen) == Weight(limit, seen[x]) + Measure(limit, seen - {x})
    decreases |seen|
  {
    var y :| y in seen && Measure(limit, seen) == Weight(limit, seen[y]) + Measure(limit, seen - {y});
    if y != x {
      assert (seen - {x}).Keys == seen.Keys - {x} && (seen - {y}).Keys == seen.Keys - {y};
      MeasureTake(limit, seen - {y}, x);
      MeasureTake(limit, seen - {x}, y);
      assert seen - {x} - {y} == seen - {y} - {x};
    }
  }

  /** Every entry made raises the measure. */
  lemma EnterRaises(limit: int, seen: map<Cid, nat>, c: Cid, d: nat)
    requires Enters(limit, seen, c, d)
    ensures Measure(limit, seen[c := d]) >= Measure(limit, seen) + 1
  {
    MeasureTake(limit, seen[c := d], c);
    if c in seen {
      MeasureTake(limit, seen, c);
      assert seen[c := d] - {c} == seen - {c};
    } else {
      assert seen[c := d] - {c} == seen;
    }
  }

  lemma Product(n: int, w: int)
    ensures (n + 1) * w == n * w + w
  {
  }

  /** The measure is bounded by the number of CIDs seen times the depth limit. */
  lemma {:induction false} MeasureBound(at: iset<(Cid, nat)>, limit: int, seen: map<Cid, nat>)
    requires Sound(at, limit, seen)
    ensures Measure(limit, seen) <= |seen| * (if limit < 0 then 1 else limit)
    decreases |seen|
  {
    if seen != map[] {
      var x :| x in seen;
      MeasureTake(limit, seen, x);
      var rest := seen - {x};
      assert rest.Keys == seen.Keys - {x};
      MeasureBound(at, limit, rest);
      Product(|rest|, if limit < 0 then 1 else limit);
    }
  }

  /** Entering a CID at the limit: there is nothing below to do. */
  lemma EnterAtLimit(limit: int, s: map<Cid, nat>, c: Cid, d: nat)
    requires Enters(limit, s, c, d) && d == limit
    ensures Earlier(s, s[c := d]) && ChangesDone(limit, s, s[c := d])
  {
  }

  /** Entering a CID at depth `d` and then finishing its children. */
  lemma EnterAndFinish(limit: int, s0: map<Cid, nat>, s1: map<Cid, nat>, s2: map<Cid, nat>, l: Cid, d: nat)
    requires Enters(limit, s0, l, d) && s1 == s0[l := d]
    requires ChangesDone(limit, s1, s2) && Earlier(s1, s2) && KidsSeen(limit, s2, l, d)
    ensures Earlier(s0, s2) && ChangesDone(limit, s0, s2) && SeenAt(limit, s2, l, d)
  {
  }

  lemma DstsConcat(es: seq<Edge>, es': seq<Edge>)
    ensures Dsts(es + es') == Dsts(es) + Dsts(es')
    ensures DstOnce(es) && DstOnce(es') && Dsts(es) !! Dsts(es') ==> DstOnce(es + es')
  {
    var all := es + es';
    assert forall i :: 0 <= i < |es| ==> all[i] == es[i] && es[i].dst in Dsts(es);
    assert forall i :: 0 <= i < |es'| ==> all[|es| + i] == es'[i] && es'[i].dst in Dsts(es');
    forall x | x in Dsts(es) + Dsts(es') ensures x in Dsts(all) {
      if x in Dsts(es) { var i :| 0 <= i < |es| && es[i].dst == x; assert all[i].dst == x; }
      else { var i :| 0 <= i < |es'| && es'[i].dst == x; assert all[|es| + i].dst == x; }
    }
  }

  // ------------------------------------------------------------------ the traversal as a function

  datatype Config = Config(unique: bool, limit: int, dag: set<Cid>)   // dag: what can be fetched

  /** The state of a RefWriter. */
  datatype Progress = Progress(seen: map<Cid, nat>, out: seq<Edge>, fetches: nat)

  datatype Result = Result(p: Progress, ok: bool)

  /** The effect of link `l` of `n`, met at `depth`. */
  ghost function OneLink(cf: Config, n: Cid, l: Link, depth: nat, p: Progress): (r: Result)
    requires l.cid < n
    decreases n, 0
  {
    var c, d := l.cid, depth + 1;
    var enters := if cf.unique then Enters(cf.limit, p.seen, c, d) else Within(cf.limit, d);
    if !enters then Result(p, true)
    else
      var known := cf.unique && c in p.seen;
      var seen := if cf.unique then p.seen[c := d] else p.seen;
      if known && d == cf.limit then Result(p.(seen := seen), true)
      else if c !in cf.dag then Result(Progress(seen, p.out, p.fetches + 1), false)
      else
        var out := if known then p.out else p.out + [Edge(n, c, l.name)];
        var q := Progress(seen, out, p.fetches + 1);
        if d == cf.limit then Result(q, true) else AllLinks(cf, c, d, |Links(c)|, q)
  }

  /** The effect of links [..i] of `n` in order, up to the first error. */
  ghost function AllLinks(cf: Config, n: Cid, depth: nat, i: nat, p: Progress): (r: Result)
    requires i <= |Links(n)|
    decreases n, 1, i
  {
    if i == 0 then Result(p, true)
    else
      var r := AllLinks(cf, n, depth, i - 1, p);
      if r.ok then OneLink(cf, n, Links(n)[i - 1], depth, r.p) else r
  }

  /** The effect of one root: fetched, but not itself entered. */
  ghost function OneRoot(cf: Config, c: Cid, p: Progress): (r: Result)
  {
    if c in cf.dag then AllLinks(cf, c, 0, |Links(c)|, p) else Result(p, false)
  }

  // ------------------------------------------------------------------ operations

  class RefWriter {
    const cf: Config
    var seen: map<Cid, nat>
    var out: seq<Edge>
    var fetches: nat             // child nodes requested

    constructor (cf: Config)
      ensures this.cf == cf && seen == map[] && out == [] && fetches == 0
    {
      this.cf := cf;
      seen, out, fetches := map[], [], 0;
    }

    ghost function State(): (p: Progress)
      reads this
    {
      Progress(seen, out, fetches)
    }

    /** visit: whether to go deeper, and whether to write. */
    method Visit(c: Cid, depth: nat) returns (goDeeper: bool, shouldWrite: bool)
      requires depth >= 1
      modifies this`seen
      ensures !cf.unique ==> seen == old(seen) && shouldWrite == Within(cf.limit, depth)
                             && goDeeper == (Within(cf.limit, depth) && depth != cf.limit)
      ensures cf.unique ==> shouldWrite == (Within(cf.limit, depth) && c !in old(seen))
      ensures cf.unique ==> if Enters(cf.limit, old(seen), c, depth)
                            then seen == old(seen)[c := depth] && goDeeper == (depth != cf.limit)
                            else seen == old(seen) && !goDeeper
    {
      var atMaxDepth := cf.limit >= 0 && depth == cf.limit;
      var overMaxDepth := cf.limit >= 0 && depth > cf.limit;
      if overMaxDepth { return false, false; }
      if !cf.unique { return !atMaxDepth, true; }
      var known := c in seen;
      if known && (cf.limit < 0 || seen[c] <= depth) { return false, false; }
      seen := seen[c := depth];
      return !atMaxDepth, !known;
    }

    /** writeRefsRecursive. */
    method WriteRefsRecursive(n: Cid, depth: nat) returns (count: nat, ok: bool)
      modifies this
      ensures Result(State(), ok) == AllLinks(cf, n, depth, |Links(n)|, old(State()))
      ensures old(out) <= out && count == |out| - |old(out)|
      decreases n
    {
      count, ok := 0, true;
      for i := 0 to |Links(n)|
        invariant ok && Result(State(), true) == AllLinks(cf, n, depth, i, old(State()))
        invariant old(out) <= out && count == |out| - |old(out)|
      {
        var l := Links(n)[i];
        ghost var step := OneLink(cf, n, l, depth, State());
        assert AllLinks(cf, n, depth, i + 1, old(State())) == step;
        assert !step.ok ==> AllLinks(cf, n, depth, |Links(n)|, old(State())) == step by {
          if !step.ok { ErrorSticks(cf, n, depth, i + 1, |Links(n)|, old(State())); }
        }
        var goDeeper, shouldWrite := Visit(l.cid, depth + 1);
        if !shouldWrite && !goDeeper { continue; }
        fetches := fetches + 1;
        if l.cid !in cf.dag {
          ok := false;
          return;
        }
        if shouldWrite {
          out := out + [Edge(n, l.cid, l.name)];
          count := count + 1;
        }
        if goDeeper {
          var c;
          c, ok := WriteRefsRecursive(l.cid, depth + 1);
          count := count + c;
          if !ok { return; }
        }
      }
    }

    /** WriteRefs. */
    method WriteRefs(c: Cid) returns (count: nat, ok: bool)
      modifies this
      ensures Result(State(), ok) == OneRoot(cf, c, old(State()))
      ensures old(out) <= out && count == |out| - |old(out)|
    {
      if c !in cf.dag { return 0, false; }
      count, ok := WriteRefsRecursive(c, 0);
    }
  }

  lemma {:induction false} ErrorSticks(cf: Config, n: Cid, depth: nat, i: nat, j: nat, p: Progress)
    requires i <= j <= |Links(n)| && !AllLinks(cf, n, depth, i, p).ok
    ensures AllLinks(cf, n, depth, j, p) == AllLinks(cf, n, depth, i, p)
    decreases j
  {
    if i < j { ErrorSticks(cf, n, depth, i, j - 1, p); }
  }

  // ------------------------------------------------------------------ what the traversal keeps

  /** Only CIDs that occur are entered, and only if some cannot be fetched is there an
      error. */
  lemma {:induction false} LinkSound(cf: Config, n: Cid, l: Link, depth: nat, p: Progress, at: iset<(Cid, nat)>)
    requires l.cid < n && l.cid in Kids(n) && ClosedDown(at) && (n, depth) in at && Sound(at, cf.limit, p.seen)
    ensures var r := OneLink(cf, n, l, depth, p);
            Sound(at, cf.limit, r.p.seen) && (!r.ok ==> exists x :: RefAt(at, cf.limit, x) && x !in cf.dag)
    decreases n, 0
  {
    var c, d := l.cid, depth + 1;
    assert (c, d) in at;
    var r := OneLink(cf, n, l, depth, p);
    var enters := if cf.unique then Enters(cf.limit, p.seen, c, d) else Within(cf.limit, d);
    if enters {
      assert RefAt(at, cf.limit, c);
      var seen := if cf.unique then p.seen[c := d] else p.seen;
      assert Sound(at, cf.limit, seen);
      if c in cf.dag && d != cf.limit {
        var out := if cf.unique && c in p.seen then p.out else p.out + [Edge(n, c, l.name)];
        LinksSound(cf, c, d, |Links(c)|, Progress(seen, out, p.fetches + 1), at);
      }
    }
  }

  lemma {:induction false} LinksSound(cf: Config, n: Cid, depth: nat, i: nat, p: Progress, at: iset<(Cid, nat)>)
    requires i <= |Links(n)| && ClosedDown(at) && (n, depth) in at && Sound(at, cf.limit, p.seen)
    ensures var r := AllLinks(cf, n, depth, i, p);
            Sound(at, cf.limit, r.p.seen) && (!r.ok ==> exists x :: RefAt(at, cf.limit, x) && x !in cf.dag)
    decreases n, 1, i
  {
    if i > 0 {
      LinksSound(cf, n, depth, i - 1, p, at);
      var r := AllLinks(cf, n, depth, i - 1, p);
      assert Links(n)[i - 1].cid in Kids(n);
      if r.ok { LinkSound(cf, n, Links(n)[i - 1], depth, r.p, at); }
    }
  }

  /** What a stretch of the run from `p` writes: edges to fetched, referenced CIDs.  With
      --unique each goes to a CID not seen before, none twice, and these are all the CIDs
      newly seen that can be fetched, so all of them if there was no error. */
  ghost predicate Writes(cf: Config, at: iset<(Cid, nat)>, p: Progress, r: Result)
  {
    && p.out <= r.p.out
    && var ds := Dsts(r.p.out[|p.out|..]);
       && (forall x :: x in ds ==> x in cf.dag && RefAt(at, cf.limit, x))
       && (forall e :: e in r.p.out[|p.out|..] ==> EdgeAt(at, cf.limit, e))
       && (cf.unique ==>
             && DstOnce(r.p.out[|p.out|..]) && ds !! p.seen.Keys
             && p.seen.Keys + ds <= r.p.seen.Keys && r.p.seen.Keys * cf.dag <= p.seen.Keys + ds
             && (r.ok ==> p.seen.Keys + ds == r.p.seen.Keys))
  }

  lemma WritesCompose(cf: Config, at: iset<(Cid, nat)>, p: Progress, q: Progress, r: Result)
    requires Writes(cf, at, p, Result(q, true)) && Writes(cf, at, q, r)
    ensures Writes(cf, at, p, r)
  {
    var es, es' := q.out[|p.out|..], r.p.out[|q.out|..];
    assert r.p.out[|p.out|..] == es + es';
    DstsConcat(es, es');
  }

  lemma {:induction false} LinkWrites(cf: Config, n: Cid, l: Link, depth: nat, p: Progress, at: iset<(Cid, nat)>)
    requires l.cid < n && l in Links(n) && ClosedDown(at) && (n, depth) in at
    ensures Writes(cf, at, p, OneLink(cf, n, l, depth, p))
    decreases n, 0
  {
    var c, d := l.cid, depth + 1;
    var r := OneLink(cf, n, l, depth, p);
    var enters := if cf.unique then Enters(cf.limit, p.seen, c, d) else Within(cf.limit, d);
    if !enters {
      WritesNothing(cf, at, p, p.seen, p.fetches, true);
    } else {
      assert c in Kids(n) by { var i :| 0 <= i < |Links(n)| && Links(n)[i] == l; }
      assert RefAt(at, cf.limit, c) by { assert (c, d) in at; }
      var known := cf.unique && c in p.seen;
      var seen := if cf.unique then p.seen[c := d] else p.seen;
      if known && d == cf.limit {
        WritesNothing(cf, at, p, seen, p.fetches, true);
      } else if c !in cf.dag {
        WritesNothing(cf, at, p, seen, p.fetches + 1, false);
      } else {
        var e := Edge(n, c, l.name);
        var q := Progress(seen, if known then p.out else p.out + [e], p.fetches + 1);
        assert Writes(cf, at, p, Result(q, true)) by {
          if known {
            WritesNothing(cf, at, p, seen, p.fetches + 1, true);
          } else {
            assert q.out[|p.out|..] == [e];
            assert Dsts([e]) == {c} by { assert [e][0].dst == c; }
            assert EdgeAt(at, cf.limit, e) by {
              var i :| 0 <= i < |Links(n)| && Links(n)[i] == l;
              assert Links(e.src)[i].cid == e.dst && Links(e.src)[i].name == e.name;
            }
          }
        }
        if d != cf.limit {
          LinksWrite(cf, c, d, |Links(c)|, q, at);
          WritesCompose(cf, at, p, q, r);
        }
      }
    }
  }

  lemma WritesNothing(cf: Config, at: iset<(Cid, nat)>, p: Progress, seen: map<Cid, nat>, fetches: nat, ok: bool)
    requires cf.unique ==> p.seen.Keys <= seen.Keys && (ok ==> p.seen.Keys == seen.Keys)
    requires cf.unique ==> seen.Keys * cf.dag <= p.seen.Keys
    ensures Writes(cf, at, p, Result(Progress(seen, p.out, fetches), ok))
  {
    assert p.out[|p.out|..] == [];
  }

  lemma {:induction false} LinksWrite(cf: Config, n: Cid, depth: nat, i: nat, p: Progress, at: iset<(Cid, nat)>)
    requires i <= |Links(n)| && ClosedDown(at) && (n, depth) in at
    ensures Writes(cf, at, p, AllLinks(cf, n, depth, i, p))
    decreases n, 1, i
  {
    if i == 0 {
      WritesNothing(cf, at, p, p.seen, p.fetches, true);
    } else {
      LinksWrite(cf, n, depth, i - 1, p, at);
      var r := AllLinks(cf, n, depth, i - 1, p);
      if r.ok {
        LinkWrites(cf, n, Links(n)[i - 1], depth, r.p, at);
        WritesCompose(cf, at, p, r.p, OneLink(cf, n, Links(n)[i - 1], depth, r.p));
      }
    }
  }

  /** With --unique, whatever is entered is finished below. */
  lemma {:induction false} LinkDone(cf: Config, n: Cid, l: Link, depth: nat, p: Progress)
    requires l.cid < n && cf.unique && OneLink(cf, n, l, depth, p).ok
    ensures var s := OneLink(cf, n, l, depth, p).p.seen;
            && Earlier(p.seen, s) && ChangesDone(cf.limit, p.seen, s)
            && SeenAt(cf.limit, s, l.cid, depth + 1)
    decreases n, 0
  {
    var c, d := l.cid, depth + 1;
    if Enters(cf.limit, p.seen, c, d) {
      var seen := p.seen[c := d];
      if d == cf.limit {
        EnterAtLimit(cf.limit, p.seen, c, d);
      } else {
        var q := Progress(seen, if c in p.seen then p.out else p.out + [Edge(n, c, l.name)], p.fetches + 1);
        LinksDone(cf, c, d, |Links(c)|, q);
        var s := AllLinks(cf, c, d, |Links(c)|, q).p.seen;
        assert KidsSeen(cf.limit, s, c, d);
        EnterAndFinish(cf.limit, p.seen, seen, s, c, d);
      }
    }
  }

  lemma {:induction false} LinksDone(cf: Config, n: Cid, depth: nat, i: nat, p: Progress)
    requires i <= |Links(n)| && cf.unique && AllLinks(cf, n, depth, i, p).ok
    ensures var s := AllLinks(cf, n, depth, i, p).p.seen;
            && Earlier(p.seen, s) && ChangesDone(cf.limit, p.seen, s)
            && forall j :: 0 <= j < i ==> SeenAt(cf.limit, s, Links(n)[j].cid, depth + 1)
    decreases n, 1, i
  {
    if i > 0 {
      LinksDone(cf, n, depth, i - 1, p);
      var q := AllLinks(cf, n, depth, i - 1, p).p;
      LinkDone(cf, n, Links(n)[i - 1], depth, q);
      ChangesCompose(cf.limit, p.seen, q.seen, AllLinks(cf, n, depth, i, p).p.seen);
    }
  }

  /** With --unique, every fetch raises the measure. */
  lemma {:induction false} LinkMeasured(cf: Config, n: Cid, l: Link, depth: nat, p: Progress)
    requires l.cid < n && cf.unique
    ensures var r := OneLink(cf, n, l, depth, p).p;
            r.fetches - p.fetches <= Measure(cf.limit, r.seen) - Measure(cf.limit, p.seen)
    decreases n, 0
  {
    var c, d := l.cid, depth + 1;
    if Enters(cf.limit, p.seen, c, d) {
      EnterRaises(cf.limit, p.seen, c, d);
      if c in cf.dag && d != cf.limit {
        var out := if c in p.seen then p.out else p.out + [Edge(n, c, l.name)];
        LinksMeasured(cf, c, d, |Links(c)|, Progress(p.seen[c := d], out, p.fetches + 1));
      }
    }
  }

  lemma {:induction false} LinksMeasured(cf: Config, n: Cid, depth: nat, i: nat, p: Progress)
    requires i <= |Links(n)| && cf.unique
    ensures var r := AllLinks(cf, n, depth, i, p).p;
            r.fetches - p.fetches <= Measure(cf.limit, r.seen) - Measure(cf.limit, p.seen)
    decreases n, 1, i
  {
    if i > 0 {
      LinksMeasured(cf, n, depth, i - 1, p);
      var r := AllLinks(cf, n, depth, i - 1, p);
      if r.ok { LinkMeasured(cf, n, Links(n)[i - 1], depth, r.p); }
    }
  }

  /** How many fetches a stretch takes: at least one for each edge and one for an error, and
      no more unless CIDs are entered again, as only --unique with a limit does. */
  ghost predicate Fetched(cf: Config, p: Progress, r: Result)
  {
    var n := |r.p.out| - |p.out| + if r.ok then 0 else 1;
    r.p.fetches - p.fetches >= n && (!cf.unique || cf.limit < 0 ==> r.p.fetches - p.fetches == n)
  }

  lemma {:induction false} LinkFetched(cf: Config, n: Cid, l: Link, depth: nat, p: Progress)
    requires l.cid < n
    ensures Fetched(cf, p, OneLink(cf, n, l, depth, p))
    decreases n, 0
  {
    var c, d := l.cid, depth + 1;
    var enters := if cf.unique then Enters(cf.limit, p.seen, c, d) else Within(cf.limit, d);
    if enters && c in cf.dag && d != cf.limit {
      var seen := if cf.unique then p.seen[c := d] else p.seen;
      var out := if cf.unique && c in p.seen then p.out else p.out + [Edge(n, c, l.name)];
      LinksFetched(cf, c, d, |Links(c)|, Progress(seen, out, p.fetches + 1));
    }
  }

  lemma {:induction false} LinksFetched(cf: Config, n: Cid, depth: nat, i: nat, p: Progress)
    requires i <= |Links(n)|
    ensures Fetched(cf, p, AllLinks(cf, n, depth, i, p))
    decreases n, 1, i
  {
    if i > 0 {
      LinksFetched(cf, n, depth, i - 1, p);
      var r := AllLinks(cf, n, depth, i - 1, p);
      if r.ok { LinkFetched(cf, n, Links(n)[i - 1], depth, r.p); }
    }
  }

  /** Without --unique, exactly the path-unfolded edges are written, in order. */
  lemma {:induction false} LinkUnfolds(cf: Config, n: Cid, i: nat, depth: nat, p: Progress)
    requires i < |Links(n)| && !cf.unique && OneLink(cf, n, Links(n)[i], depth, p).ok
    ensures OneLink(cf, n, Links(n)[i], depth, p).p.out == p.out + EdgesOf(cf.limit, n, depth, i)
    decreases n, 0
  {
    var l := Links(n)[i];
    if Within(cf.limit, depth + 1) && depth + 1 != cf.limit {
      var q := Progress(p.seen, p.out + [Edge(n, l.cid, l.name)], p.fetches + 1);
      LinksUnfold(cf, l.cid, depth + 1, |Links(l.cid)|, q);
      Assoc(p.out, [Edge(n, l.cid, l.name)], EdgesUpTo(cf.limit, l.cid, depth + 1, |Links(l.cid)|));
    }
  }

  lemma {:induction false} LinksUnfold(cf: Config, n: Cid, depth: nat, i: nat, p: Progress)
    requires i <= |Links(n)| && !cf.unique && AllLinks(cf, n, depth, i, p).ok
    ensures AllLinks(cf, n, depth, i, p).p.out == p.out + EdgesUpTo(cf.limit, n, depth, i)
    decreases n, 1, i
  {
    if i > 0 {
      LinksUnfold(cf, n, depth, i - 1, p);
      LinkUnfolds(cf, n, i - 1, depth, AllLinks(cf, n, depth, i - 1, p).p);
      Assoc(p.out, EdgesUpTo(cf.limit, n, depth, i - 1), EdgesOf(cf.limit, n, depth, i - 1));
    }
  }

  lemma Assoc(a: seq<Edge>, b: seq<Edge>, c: seq<Edge>)
    ensures a + b + c == a + (b + c)
  {
  }

  // ------------------------------------------------------------------ the edges, one by one

  /** The remaining depth. */
  ghost function Rest(limit: int, depth: nat): (most: int)
  {
    if limit < 0 then -1 else if depth > limit then 0 else limit - depth
  }

  /** `es` are the last links of the trails `ts` from `n`. */
  ghost predicate LastLinks(n: Cid, ts: seq<Trail>, es: seq<Edge>)
  {
    |es| == |ts| && forall k :: 0 <= k < |ts| ==> ts[k] != [] && Leads(Always, n, ts[k]) && es[k] == LastLink(n, ts[k])
  }

  lemma LastLinksConcat(n: Cid, ts: seq<Trail>, ts': seq<Trail>, es: seq<Edge>, es': seq<Edge>)
    requires LastLinks(n, ts, es) && LastLinks(n, ts', es')
    ensures LastLinks(n, ts + ts', es + es')
  {
  }

  lemma LastLinksPrefixed(n: Cid, i: nat, ts: seq<Trail>, es: seq<Edge>)
    requires i < |Links(n)| && LastLinks(Links(n)[i].cid, ts, es)
    ensures LastLinks(n, Prefixed(i, ts), es)
  {
    forall k | 0 <= k < |ts| ensures Leads(Always, n, [i] + ts[k]) && LastLink(n, [i] + ts[k]) == es[k] {
      assert ([i] + ts[k])[1..] == ts[k];
    }
  }

  lemma OneLinkTrail(n: Cid, i: nat)
    requires i < |Links(n)|
    ensures LastLinks(n, [[i]], [Edge(n, Links(n)[i].cid, Links(n)[i].name)])
  {
    var t: Trail, l := [i], Links(n)[i];
    assert |t| == 1 && t[0] == i && t[1..] == [];
    assert Leads(Always, l.cid, t[1..]) && Leads(Always, n, t);
    assert LastLink(n, t) == Edge(n, l.cid, l.name);
    assert [t][0] == t && [Edge(n, l.cid, l.name)][0] == LastLink(n, t);
  }

  lemma {:induction false} EdgesOfTrails(limit: int, n: Cid, depth: nat, i: nat)
    requires i < |Links(n)|
    ensures LastLinks(n, Via(Always, Rest(limit, depth), n, i), EdgesOf(limit, n, depth, i))
    decreases n, i
  {
    var l := Links(n)[i];
    if Within(limit, depth + 1) {
      var ts, es := Below(Always, Rest(limit, depth) - 1, l.cid, |Links(l.cid)|),
                    EdgesUpTo(limit, l.cid, depth + 1, |Links(l.cid)|);
      OneLinkTrail(n, i);
      if limit < 0 {
        EdgesAreTrails(limit, l.cid, depth + 1, |Links(l.cid)|);
        Unbounded(Always, -1, -2, l.cid, |Links(l.cid)|);
      } else if limit > depth + 1 {
        EdgesAreTrails(limit, l.cid, depth + 1, |Links(l.cid)|);
      } else {
        NoneBelow(Always, l.cid, |Links(l.cid)|);
      }
      if limit != depth + 1 {
        LastLinksPrefixed(n, i, ts, es);
        LastLinksConcat(n, [[i]], Prefixed(i, ts), [Edge(n, l.cid, l.name)], es);
      }
    }
  }

  /** The path-unfolded edges are the last links of all trails of at most the limit, once
      each and in the trails' order. */
  lemma {:induction false} EdgesAreTrails(limit: int, n: Cid, depth: nat, i: nat)
    requires i <= |Links(n)|
    ensures LastLinks(n, Below(Always, Rest(limit, depth), n, i), EdgesUpTo(limit, n, depth, i))
    ensures Lists(Always, Rest(limit, depth), n, i, Below(Always, Rest(limit, depth), n, i))
    decreases n, i
  {
    BelowLists(Always, Rest(limit, depth), n, i);
    if i > 0 {
      EdgesAreTrails(limit, n, depth, i - 1);
      EdgesOfTrails(limit, n, depth, i - 1);
      LastLinksConcat(n, Below(Always, Rest(limit, depth), n, i - 1), Via(Always, Rest(limit, depth), n, i - 1),
                      EdgesUpTo(limit, n, depth, i - 1), EdgesOf(limit, n, depth, i - 1));
    }
  }

  // ------------------------------------------------------------------ --unique: first occurrences

  /** The edges whose target is not known and has not occurred before. */
  ghost function Firsts(es: seq<Edge>, known: set<Cid>): (r: seq<Edge>)
  {
    if es == [] then []
    else
      var rest, e := es[..|es| - 1], es[|es| - 1];
      if e.dst in known + Dsts(rest) then Firsts(rest, known) else Firsts(rest, known) + [e]
  }

  /** The positions where a target occurs first. */
  ghost function IsFirst(es: seq<Edge>): (f: nat -> bool)
  {
    i => i < |es| && forall j :: 0 <= j < i ==> es[j].dst != es[i].dst
  }

  lemma {:induction false} FirstsPicked(es: seq<Edge>)
    ensures PickedFrom(es, IsFirst(es), Firsts(es, {}))
  {
    if es != [] {
      var rest, e := es[..|es| - 1], es[|es| - 1];
      FirstsPicked(rest);
      assert es == rest + [e];
      PickedStep(rest, IsFirst(rest), Firsts(rest, {}), e, IsFirst(es));
      assert e.dst in Dsts(rest) <==> exists j :: 0 <= j < |rest| && rest[j].dst == e.dst;
    }
  }

  lemma {:induction false} FirstsConcat(a: seq<Edge>, b: seq<Edge>, known: set<Cid>)
    ensures Firsts(a + b, known) == Firsts(a, known) + Firsts(b, known + Dsts(a))
    decreases |b|
  {
    if b == [] {
      assert a + b == a;
    } else {
      var rest, e := b[..|b| - 1], b[|b| - 1];
      assert (a + b)[..|a + b| - 1] == a + rest;
      FirstsConcat(a, rest, known);
      DstsConcat(a, rest);
    }
  }

  lemma {:induction false} FirstsNone(es: seq<Edge>, known: set<Cid>)
    requires Dsts(es) <= known
    ensures Firsts(es, known) == []
  {
    if es != [] {
      var rest := es[..|es| - 1];
      assert es == rest + [es[|es| - 1]];
      DstsConcat(rest, [es[|es| - 1]]);
      assert es[|es| - 1].dst in Dsts(es);
      FirstsNone(rest, known);
    }
  }

  lemma FirstsOne(e: Edge, known: set<Cid>)
    ensures Firsts([e], known) == if e.dst in known then [] else [e]
    ensures Dsts([e]) == {e.dst}
  {
    assert [e][..0] == [] && Dsts([]) == {};
    assert [e][0].dst == e.dst;
  }

  /** All that is at most at the limit below `x`, met at depth `d`, has been seen. */
  ghost predicate Explored(limit: int, keys: set<Cid>, x: Cid, d: nat)
  {
    Dsts(EdgesUpTo(limit, x, d, |Links(x)|)) <= keys
  }

  /** What is reached over the first `i` links is reached over one of them. */
  lemma {:induction false} OverSomeLink(limit: int, x: Cid, d: nat, i: nat, y: Cid) returns (k: nat)
    requires i <= |Links(x)| && y in Dsts(EdgesUpTo(limit, x, d, i))
    ensures k < i && y in Dsts(EdgesOf(limit, x, d, k))
  {
    DstsConcat(EdgesUpTo(limit, x, d, i - 1), EdgesOf(limit, x, d, i - 1));
    if y in Dsts(EdgesOf(limit, x, d, i - 1)) { k := i - 1; } else { k := OverSomeLink(limit, x, d, i - 1, y); }
  }

  /** What is reached over one link: its target, and what is below that. */
  lemma OverLink(limit: int, x: Cid, d: nat, i: nat, y: Cid)
    requires i < |Links(x)|
    ensures var c := Links(x)[i].cid;
            y in Dsts(EdgesOf(limit, x, d, i)) <==>
            Within(limit, d + 1) && (y == c || (limit != d + 1 && y in Dsts(EdgesUpTo(limit, c, d + 1, |Links(c)|))))
  {
    var l := Links(x)[i];
    var e := Edge(x, l.cid, l.name);
    if Within(limit, d + 1) {
      assert Dsts([e]) == {l.cid} by { FirstsOne(e, {}); }
      if limit == d + 1 {
        assert EdgesOf(limit, x, d, i) == [e];
      } else {
        DstsConcat([e], EdgesUpTo(limit, l.cid, d + 1, |Links(l.cid)|));
      }
    } else {
      assert EdgesOf(limit, x, d, i) == [];
    }
  }

  lemma OverLinkLater(limit: int, x: Cid, d: nat, d': nat, i: nat, c: Cid, y: Cid)
    requires i < |Links(x)| && c == Links(x)[i].cid && (limit < 0 || d <= d')
    requires y in Dsts(EdgesOf(limit, x, d', i))
    requires y in Dsts(EdgesUpTo(limit, c, d' + 1, |Links(c)|)) ==> y in Dsts(EdgesUpTo(limit, c, d + 1, |Links(c)|))
    ensures y in Dsts(EdgesUpTo(limit, x, d, |Links(x)|))
  {
    OverLink(limit, x, d', i, y);
    OverLink(limit, x, d, i, y);
    EdgesInclude(limit, x, d, i, |Links(x)|, y);
  }

  /** Met later, there is no more below it. */
  lemma {:induction false} LaterIsLess(limit: int, x: Cid, d: nat, d': nat, y: Cid)
    requires (limit < 0 || d <= d') && y in Dsts(EdgesUpTo(limit, x, d', |Links(x)|))
    ensures y in Dsts(EdgesUpTo(limit, x, d, |Links(x)|))
    decreases x
  {
    var i := OverSomeLink(limit, x, d', |Links(x)|, y);
    var c := Links(x)[i].cid;
    if y in Dsts(EdgesUpTo(limit, c, d' + 1, |Links(c)|)) { LaterIsLess(limit, c, d + 1, d' + 1, y); }
    OverLinkLater(limit, x, d, d', i, c, y);
  }

  /** Every CID seen that is smaller than `n`, and so is not being entered, is explored. */
  ghost predicate ExploredBelow(limit: int, seen: map<Cid, nat>, n: Cid)
  {
    forall x :: x in seen && x < n ==> Explored(limit, seen.Keys, x, seen[x])
  }

  /** Nothing changes that is not smaller than `n`. */
  ghost predicate SameAbove(seen: map<Cid, nat>, seen': map<Cid, nat>, n: Cid)
  {
    forall x :: !(x < n) ==> (x in seen <==> x in seen') && (x in seen && x in seen' ==> seen'[x] == seen[x])
  }

  /** What a stretch of a --unique run does with edges `es`: it writes their first
      occurrences, and has then seen all their targets. */
  ghost predicate WritesFirsts(limit: int, n: Cid, es: seq<Edge>, p: Progress, q: Progress)
  {
    && q.out == p.out + Firsts(es, p.seen.Keys) && q.seen.Keys == p.seen.Keys + Dsts(es)
    && SameAbove(p.seen, q.seen, n) && ExploredBelow(limit, q.seen, n)
  }

  lemma WritesFirstsCompose(limit: int, n: Cid, a: seq<Edge>, b: seq<Edge>, p: Progress, q: Progress, r: Progress)
    requires WritesFirsts(limit, n, a, p, q) && WritesFirsts(limit, n, b, q, r)
    ensures WritesFirsts(limit, n, a + b, p, r)
  {
    FirstsConcat(a, b, p.seen.Keys);
    DstsConcat(a, b);
    Assoc(p.out, Firsts(a, p.seen.Keys), Firsts(b, q.seen.Keys));
  }

  lemma PrunedTarget(limit: int, n: Cid, i: nat, depth: nat, seen: map<Cid, nat>, y: Cid)
    requires i < |Links(n)| && ExploredBelow(limit, seen, n) && !Enters(limit, seen, Links(n)[i].cid, depth + 1)
    requires y in Dsts(EdgesOf(limit, n, depth, i))
    ensures y in seen
  {
    var c := Links(n)[i].cid;
    OverLink(limit, n, depth, i, y);
    if y != c {
      assert Explored(limit, seen.Keys, c, seen[c]);
      LaterIsLess(limit, c, seen[c], depth + 1, y);
    }
  }

  /** A link whose target is pruned brings nothing new. */
  lemma PrunedIsKnown(limit: int, n: Cid, i: nat, depth: nat, p: Progress)
    requires i < |Links(n)| && ExploredBelow(limit, p.seen, n) && !Enters(limit, p.seen, Links(n)[i].cid, depth + 1)
    ensures WritesFirsts(limit, n, EdgesOf(limit, n, depth, i), p, p)
  {
    forall y | y in Dsts(EdgesOf(limit, n, depth, i)) ensures y in p.seen.Keys {
      PrunedTarget(limit, n, i, depth, p.seen, y);
    }
    FirstsNone(EdgesOf(limit, n, depth, i), p.seen.Keys);
  }

  lemma {:induction false} LinkFirsts(cf: Config, n: Cid, i: nat, depth: nat, p: Progress)
    requires i < |Links(n)| && cf.unique && OneLink(cf, n, Links(n)[i], depth, p).ok
    requires ExploredBelow(cf.limit, p.seen, n)
    ensures WritesFirsts(cf.limit, n, EdgesOf(cf.limit, n, depth, i), p, OneLink(cf, n, Links(n)[i], depth, p).p)
    decreases n, 0
  {
    var l := Links(n)[i];
    var c, d := l.cid, depth + 1;
    if !Enters(cf.limit, p.seen, c, d) {
      PrunedIsKnown(cf.limit, n, i, depth, p);
    } else if d == cf.limit {
      LastLinkFirsts(cf, n, i, depth, p);
    } else {
      var e := Edge(n, c, l.name);
      var out := if c in p.seen then p.out else p.out + [e];
      var q := Progress(p.seen[c := d], out, p.fetches + 1);
      FirstsOne(e, p.seen.Keys);
      assert ExploredBelow(cf.limit, q.seen, c) by { EnteredBelow(cf.limit, n, p.seen, c, d); }
      LinksFirsts(cf, c, d, |Links(c)|, q);
      var r := AllLinks(cf, c, d, |Links(c)|, q).p;
      EnteredThenDone(cf.limit, n, e, EdgesUpTo(cf.limit, c, d, |Links(c)|), d, p, q, r);
    }
  }

  /** A target at the limit is written, and nothing is below it. */
  lemma LastLinkFirsts(cf: Config, n: Cid, i: nat, depth: nat, p: Progress)
    requires i < |Links(n)| && cf.unique && depth + 1 == cf.limit
    requires Enters(cf.limit, p.seen, Links(n)[i].cid, depth + 1)
    requires OneLink(cf, n, Links(n)[i], depth, p).ok && ExploredBelow(cf.limit, p.seen, n)
    ensures WritesFirsts(cf.limit, n, EdgesOf(cf.limit, n, depth, i), p, OneLink(cf, n, Links(n)[i], depth, p).p)
  {
    var l := Links(n)[i];
    FirstsOne(Edge(n, l.cid, l.name), p.seen.Keys);
    EnteredAtLimit(cf.limit, n, p.seen, l.cid, depth + 1);
  }

  lemma EnteredBelow(limit: int, n: Cid, seen: map<Cid, nat>, c: Cid, d: nat)
    requires ExploredBelow(limit, seen, n) && c < n
    ensures ExploredBelow(limit, seen[c := d], c)
  {
    var seen' := seen[c := d];
    forall x | x in seen' && x < c ensures Explored(limit, seen'.Keys, x, seen'[x]) {
      assert Explored(limit, seen.Keys, x, seen[x]);
    }
  }

  lemma EnteredAtLimit(limit: int, n: Cid, seen: map<Cid, nat>, c: Cid, d: nat)
    requires ExploredBelow(limit, seen, n) && c < n && d == limit
    ensures ExploredBelow(limit, seen[c := d], n) && SameAbove(seen, seen[c := d], n)
  {
    NothingBelowLimit(limit, c, |Links(c)|);
    var seen' := seen[c := d];
    forall x | x in seen' && x < n ensures Explored(limit, seen'.Keys, x, seen'[x]) {
      if x != c { assert Explored(limit, seen.Keys, x, seen[x]); }
    }
  }

  lemma {:induction false} NothingBelowLimit(limit: int, c: Cid, i: nat)
    requires limit >= 0 && i <= |Links(c)|
    ensures EdgesUpTo(limit, c, limit, i) == []
  {
    if i > 0 { NothingBelowLimit(limit, c, i - 1); }
  }

  lemma FirstsAfter(e: Edge, es: seq<Edge>, known: set<Cid>, out: seq<Edge>)
    ensures (out + Firsts([e], known)) + Firsts(es, known + {e.dst}) == out + Firsts([e] + es, known)
    ensures known + {e.dst} + Dsts(es) == known + Dsts([e] + es)
  {
    FirstsOne(e, known);
    FirstsConcat([e], es, known);
    DstsConcat([e], es);
    Assoc(out, Firsts([e], known), Firsts(es, known + {e.dst}));
  }

  /** Entering `c` over edge `e` and then exploring what is below it. */
  lemma EnteredThenDone(limit: int, n: Cid, e: Edge, es: seq<Edge>, d: nat, p: Progress, q: Progress, r: Progress)
    requires e.dst < n && ExploredBelow(limit, p.seen, n)
    requires q.seen == p.seen[e.dst := d] && q.out == p.out + Firsts([e], p.seen.Keys)
    requires WritesFirsts(limit, e.dst, es, q, r) && Explored(limit, r.seen.Keys, e.dst, d)
    ensures WritesFirsts(limit, n, [e] + es, p, r)
  {
    assert q.seen.Keys == p.seen.Keys + {e.dst};
    FirstsAfter(e, es, p.seen.Keys, p.out);
    EnteredSame(n, e.dst, d, p.seen, r.seen);
    EnteredExplored(limit, n, e.dst, d, p.seen, r.seen);
  }

  lemma EnteredSame(n: Cid, c: Cid, d: nat, seen: map<Cid, nat>, seen': map<Cid, nat>)
    requires c < n && SameAbove(seen[c := d], seen', c)
    ensures SameAbove(seen, seen', n)
  {
  }

  lemma EnteredExplored(limit: int, n: Cid, c: Cid, d: nat, seen: map<Cid, nat>, seen': map<Cid, nat>)
    requires c < n && ExploredBelow(limit, seen, n) && seen.Keys <= seen'.Keys
    requires SameAbove(seen[c := d], seen', c) && ExploredBelow(limit, seen', c) && Explored(limit, seen'.Keys, c, d)
    ensures ExploredBelow(limit, seen', n)
  {
    forall x | x in seen' && x < n ensures Explored(limit, seen'.Keys, x, seen'[x]) {
      if !(x < c) {
        var mid := seen[c := d];
        assert x in mid && seen'[x] == mid[x];
        if x != c { assert Explored(limit, seen.Keys, x, seen[x]); }
      }
    }
  }

  lemma {:induction false} LinksFirsts(cf: Config, n: Cid, depth: nat, i: nat, p: Progress)
    requires i <= |Links(n)| && cf.unique && AllLinks(cf, n, depth, i, p).ok && ExploredBelow(cf.limit, p.seen, n)
    ensures WritesFirsts(cf.limit, n, EdgesUpTo(cf.limit, n, depth, i), p, AllLinks(cf, n, depth, i, p).p)
    decreases n, 1, i
  {
    if i == 0 {
      FirstsNone([], p.seen.Keys);
    } else {
      LinksFirsts(cf, n, depth, i - 1, p);
      var q := AllLinks(cf, n, depth, i - 1, p).p;
      LinkFirsts(cf, n, i - 1, depth, q);
      WritesFirstsCompose(cf.limit, n, EdgesUpTo(cf.limit, n, depth, i - 1), EdgesOf(cf.limit, n, depth, i - 1),
                          p, q, AllLinks(cf, n, depth, i, p).p);
    }
  }

  // ------------------------------------------------------------------ what a finished run shows

  /** All roots' children and all entered CIDs' children are seen as early as they occur. */
  ghost predicate Finished(limit: int, seen: map<Cid, nat>, roots: set<Cid>)
  {
    && ChangesDone(limit, map[], seen)
    && forall r :: r in roots ==> KidsSeen(limit, seen, r, 0)
  }

  /** Pruning by depth loses nothing: whatever occurs within the limit is seen, and under a
      limit no later than it occurs. */
  lemma {:induction false} SeenEarly(limit: int, seen: map<Cid, nat>, roots: set<Cid>, r: Cid, x: Cid, d: nat)
    requires Finished(limit, seen, roots) && r in roots && Path(r, x, d) && d >= 1 && Within(limit, d)
    ensures SeenAt(limit, seen, x, d) && x in seen
    decreases d
  {
    var y :| Path(r, y, d - 1) && x in Kids(y);
    if d > 1 {
      SeenEarly(limit, seen, roots, r, y, d - 1);
      assert KidsSeen(limit, seen, y, seen[y]);
      assert SeenAt(limit, seen, x, seen[y] + 1);
    }
  }

  /** A finished --unique run has seen exactly the referenced CIDs and, under a limit,
      recorded the length of a shortest path to each. */
  lemma UniqueExact(limit: int, seen: map<Cid, nat>, roots: set<Cid>)
    requires Finished(limit, seen, roots) && Sound(Occurs(roots), limit, seen)
    ensures forall x :: x in seen <==> Referenced(roots, limit, x)
    ensures limit >= 0 ==> forall x :: x in seen ==>
              AtDepth(roots, x, seen[x]) && forall d: nat :: 1 <= d && AtDepth(roots, x, d) ==> seen[x] <= d
  {
    forall x, d: nat | d >= 1 && Within(limit, d) && AtDepth(roots, x, d)
      ensures x in seen && SeenAt(limit, seen, x, d)
    {
      var r :| r in roots && Path(r, x, d);
      SeenEarly(limit, seen, roots, r, x, d);
    }
    forall x | x in seen ensures AtDepth(roots, x, seen[x]) && Referenced(roots, limit, x) {
      assert (x, seen[x]) in Occurs(roots);
    }
  }

  /** A path can be cut after its first link as well as before its last. */
  lemma {:induction false} PathFirst(r: Cid, x: Cid, d: nat) returns (i: nat)
    requires d >= 1 && Path(r, x, d)
    ensures i < |Links(r)| && Path(Links(r)[i].cid, x, d - 1)
    decreases d
  {
    var y :| Path(r, y, d - 1) && x in Kids(y);
    if d == 1 {
      i :| 0 <= i < |Links(r)| && Links(r)[i].cid == x;
    } else {
      i := PathFirst(r, y, d - 1);
    }
  }

  lemma {:induction false} EdgesInclude(limit: int, n: Cid, depth: nat, i: nat, m: nat, x: Cid)
    requires i < m <= |Links(n)| && x in Dsts(EdgesOf(limit, n, depth, i))
    ensures x in Dsts(EdgesUpTo(limit, n, depth, m))
    decreases m
  {
    DstsConcat(EdgesUpTo(limit, n, depth, m - 1), EdgesOf(limit, n, depth, m - 1));
    if i < m - 1 { EdgesInclude(limit, n, depth, i, m - 1, x); }
  }

  lemma RefAtMeaning(roots: set<Cid>, limit: int)
    ensures forall x :: RefAt(Occurs(roots), limit, x) <==> Referenced(roots, limit, x)
  {
    forall x | Referenced(roots, limit, x) ensures RefAt(Occurs(roots), limit, x) {
      var d: nat :| d >= 1 && Within(limit, d) && AtDepth(roots, x, d);
      assert (x, d) in Occurs(roots);
    }
  }

  lemma FinishedStep(limit: int, s: map<Cid, nat>, s': map<Cid, nat>, roots: set<Cid>, r: Cid)
    requires Finished(limit, s, roots) && Earlier(s, s') && ChangesDone(limit, s, s') && KidsSeen(limit, s', r, 0)
    ensures Finished(limit, s', roots + {r})
  {
    ChangesCompose(limit, map[], s, s');
    forall q, k | q in roots && k in Kids(q) ensures SeenAt(limit, s', k, 1) {
      assert KidsSeen(limit, s, q, 0) && SeenAt(limit, s, k, 1);
    }
  }

  /** The path-unfolded edges of the roots [..i], one root after the other. */
  ghost function Unfolded(limit: int, objs: seq<Cid>, i: nat): (r: seq<Edge>)
    requires i <= |objs|
  {
    if i == 0 then [] else Unfolded(limit, objs, i - 1) + EdgesUpTo(limit, objs[i - 1], 0, |Links(objs[i - 1])|)
  }

  lemma {:induction false} UnfoldedIncludes(limit: int, objs: seq<Cid>, i: nat, j: nat, e: Edge)
    requires j < i <= |objs| && e in EdgesUpTo(limit, objs[j], 0, |Links(objs[j])|)
    ensures e in Unfolded(limit, objs, i)
    decreases i
  {
    if j < i - 1 { UnfoldedIncludes(limit, objs, i - 1, j, e); }
  }

  /** Every link that is to be looked at is among them. */
  lemma UnfoldedComplete(limit: int, objs: seq<Cid>, e: Edge)
    requires LinkWithin(Set(objs), limit, e)
    ensures e in Unfolded(limit, objs, |objs|)
  {
    var d: nat :| AtDepth(Set(objs), e.src, d) && Within(limit, d + 1);
    var r :| r in Set(objs) && Path(r, e.src, d);
    var j :| 0 <= j < |objs| && objs[j] == r;
    EdgeComplete(limit, r, 0, e, d);
    UnfoldedIncludes(limit, objs, |objs|, j, e);
  }

  lemma {:induction false} EdgeComplete(limit: int, n: Cid, depth: nat, e: Edge, d: nat)
    requires Path(n, e.src, d) && IsLink(e) && Within(limit, depth + d + 1)
    ensures e in EdgesUpTo(limit, n, depth, |Links(n)|)
    decreases n
  {
    if d == 0 {
      var i :| 0 <= i < |Links(n)| && Links(n)[i].cid == e.dst && Links(n)[i].name == e.name;
      assert EdgesOf(limit, n, depth, i)[0] == e;
      EdgeIncluded(limit, n, depth, i, |Links(n)|, e);
    } else {
      var i := PathFirst(n, e.src, d);
      EdgeComplete(limit, Links(n)[i].cid, depth + 1, e, d - 1);
      EdgeIncluded(limit, n, depth, i, |Links(n)|, e);
    }
  }

  lemma {:induction false} EdgeIncluded(limit: int, n: Cid, depth: nat, i: nat, m: nat, e: Edge)
    requires i < m <= |Links(n)| && e in EdgesOf(limit, n, depth, i)
    ensures e in EdgesUpTo(limit, n, depth, m)
    decreases m
  {
    if i < m - 1 { EdgeIncluded(limit, n, depth, i, m - 1, e); }
  }

  lemma NonUniqueComplete(objs: seq<Cid>, limit: int, x: Cid, out: seq<Edge>)
    requires Referenced(Set(objs), limit, x) && out == Unfolded(limit, objs, |objs|)
    ensures x in Dsts(out)
  {
    var d: nat :| d >= 1 && Within(limit, d) && AtDepth(Set(objs), x, d);
    var r :| r in Set(objs) && Path(r, x, d);
    var y :| Path(r, y, d - 1) && x in Kids(y);
    var i :| 0 <= i < |Links(y)| && Links(y)[i].cid == x;
    var e := Edge(y, x, Links(y)[i].name);
    assert IsLink(e) && AtDepth(Set(objs), y, d - 1) && Within(limit, d - 1 + 1);
    UnfoldedComplete(limit, objs, e);
    var k :| 0 <= k < |out| && out[k] == e;
    assert out[k].dst == x;
  }

  ghost predicate AllExplored(limit: int, seen: map<Cid, nat>)
  {
    forall x :: x in seen ==> Explored(limit, seen.Keys, x, seen[x])
  }

  /** After a --unique root, all that has been seen is explored. */
  lemma RootExplored(limit: int, c: Cid, seen: map<Cid, nat>, seen': map<Cid, nat>)
    requires AllExplored(limit, seen) && SameAbove(seen, seen', c) && ExploredBelow(limit, seen', c)
    requires seen.Keys <= seen'.Keys
    ensures AllExplored(limit, seen')
  {
    forall x | x in seen' ensures Explored(limit, seen'.Keys, x, seen'[x]) {
      if !(x < c) { assert x in seen && Explored(limit, seen.Keys, x, seen[x]); }
    }
  }

  /** One more root of a --unique run. */
  lemma RootFirsts(cf: Config, objs: seq<Cid>, i: nat, p: Progress)
    requires i < |objs| && cf.unique && OneRoot(cf, objs[i], p).ok && UniqueSoFar(cf.limit, objs, i, p)
    ensures UniqueSoFar(cf.limit, objs, i + 1, OneRoot(cf, objs[i], p).p)
  {
    var c, q := objs[i], OneRoot(cf, objs[i], p).p;
    var before, es := Unfolded(cf.limit, objs, i), EdgesUpTo(cf.limit, c, 0, |Links(c)|);
    LinksFirsts(cf, c, 0, |Links(c)|, p);
    RootExplored(cf.limit, c, p.seen, q.seen);
    FirstsConcat(before, es, {});
    DstsConcat(before, es);
    assert {} + Dsts(before) == p.seen.Keys;
  }

  /** A --unique run without errors so far: it has written the first occurrences. */
  // ------------------------------------------------------------------ roots beside others that fail

  /** The root, and all that is to be listed for it, can be fetched. */
  ghost predicate AllThere(cf: Config, r: Cid)
  {
    r in cf.dag && forall x :: Referenced({r}, cf.limit, x) ==> x in cf.dag
  }

  /** At or below `x`, met at depth `d`, something within the limit cannot be fetched. */
  ghost predicate Broken(cf: Config, x: Cid, d: nat)
  {
    exists y, m: nat :: Path(x, y, m) && Within(cf.limit, d + m) && y !in cf.dag
  }

  lemma {:induction false} PathConcat(r: Cid, y: Cid, d: nat, z: Cid, m: nat)
    requires Path(r, y, d) && Path(y, z, m)
    ensures Path(r, z, d + m)
    decreases m
  {
    if m > 0 {
      var z' :| Path(y, z', m - 1) && z in Kids(z');
      PathConcat(r, y, d, z', m - 1);
      assert d + m - 1 == d + (m - 1);
    }
  }

  lemma BrokenChild(cf: Config, n: Cid, k: Cid, depth: nat)
    requires k in Kids(n) && Broken(cf, k, depth + 1)
    ensures Broken(cf, n, depth)
  {
    var y, m: nat :| Path(k, y, m) && Within(cf.limit, depth + 1 + m) && y !in cf.dag;
    assert Path(n, n, 0) && Path(n, k, 1);
    PathConcat(n, k, 1, y, m);
    assert Path(n, y, 1 + m) && Within(cf.limit, depth + (1 + m));
  }

  lemma NotBroken(cf: Config, r: Cid, y: Cid, d: nat)
    requires AllThere(cf, r) && Path(r, y, d)
    ensures !Broken(cf, y, d)
  {
    forall z, m: nat | Path(y, z, m) && Within(cf.limit, d + m) ensures z in cf.dag {
      PathConcat(r, y, d, z, m);
      if d + m > 0 { assert AtDepth({r}, z, d + m) && Referenced({r}, cf.limit, z); }
    }
  }

  /** An entry that differs from `seen` is finished or broken. */
  ghost predicate Settled(cf: Config, seen: map<Cid, nat>, seen': map<Cid, nat>)
  {
    forall x :: x in seen' ==>
      || (x in seen && seen[x] == seen'[x])
      || KidsSeen(cf.limit, seen', x, seen'[x]) || Broken(cf, x, seen'[x])
  }

  lemma SettledCompose(cf: Config, s0: map<Cid, nat>, s1: map<Cid, nat>, s2: map<Cid, nat>)
    requires Settled(cf, s0, s1) && Settled(cf, s1, s2) && Earlier(s1, s2)
    ensures Settled(cf, s0, s2)
  {
    forall x | x in s2 && !(x in s0 && s0[x] == s2[x]) && !Broken(cf, x, s2[x])
      ensures KidsSeen(cf.limit, s2, x, s2[x])
    {
      if x in s1 && s1[x] == s2[x] {
        forall k | k in Kids(x) ensures SeenAt(cf.limit, s2, k, s2[x] + 1) {
          assert SeenAt(cf.limit, s1, k, s1[x] + 1);
        }
      }
    }
  }

  /** What a step with --unique leaves of `seen`. */
  ghost predicate Leaves(cf: Config, p: Progress, q: Progress)
  {
    cf.unique ==> Earlier(p.seen, q.seen) && Settled(cf, p.seen, q.seen)
  }

  lemma LeavesCompose(cf: Config, p: Progress, q: Progress, r: Progress)
    requires Leaves(cf, p, q) && Leaves(cf, q, r)
    ensures Leaves(cf, p, r)
  {
    if cf.unique { SettledCompose(cf, p.seen, q.seen, r.seen); }
  }

  /** An error too leaves every entry finished or broken, and has something broken as its
      cause. */
  lemma {:induction false} LinkSettles(cf: Config, n: Cid, l: Link, depth: nat, p: Progress)
    requires l.cid < n
    ensures var r := OneLink(cf, n, l, depth, p);
            && Leaves(cf, p, r.p)
            && (if r.ok then cf.unique ==> SeenAt(cf.limit, r.p.seen, l.cid, depth + 1)
                else Broken(cf, l.cid, depth + 1))
    decreases n, 0
  {
    var c, d := l.cid, depth + 1;
    var enters := if cf.unique then Enters(cf.limit, p.seen, c, d) else Within(cf.limit, d);
    if enters {
      var known := cf.unique && c in p.seen;
      var seen := if cf.unique then p.seen[c := d] else p.seen;
      if known && d == cf.limit {
        EnterAtLimit(cf.limit, p.seen, c, d);
      } else if c !in cf.dag {
        assert Path(c, c, 0) && Within(cf.limit, d + 0);
        assert Broken(cf, c, d);
      } else if d == cf.limit {
        if cf.unique { EnterAtLimit(cf.limit, p.seen, c, d); }
      } else {
        var q := Progress(seen, if known then p.out else p.out + [Edge(n, c, l.name)], p.fetches + 1);
        LinksSettle(cf, c, d, |Links(c)|, q);
        if cf.unique { EnterAndSettle(cf, p.seen, AllLinks(cf, c, d, |Links(c)|, q).p.seen, c, d); }
      }
    }
  }

  lemma EnterAndSettle(cf: Config, s: map<Cid, nat>, s': map<Cid, nat>, c: Cid, d: nat)
    requires Enters(cf.limit, s, c, d) && Earlier(s[c := d], s') && Settled(cf, s[c := d], s')
    requires KidsSeen(cf.limit, s', c, d) || Broken(cf, c, d)
    ensures Earlier(s, s') && Settled(cf, s, s') && SeenAt(cf.limit, s', c, d)
  {
    assert c in s[c := d];
  }

  lemma {:induction false} LinksSettle(cf: Config, n: Cid, depth: nat, i: nat, p: Progress)
    requires i <= |Links(n)|
    ensures var r := AllLinks(cf, n, depth, i, p);
            && Leaves(cf, p, r.p)
            && (r.ok && cf.unique ==>
                  forall j :: 0 <= j < i ==> SeenAt(cf.limit, r.p.seen, Links(n)[j].cid, depth + 1))
            && (!r.ok ==> Broken(cf, n, depth))
    decreases n, 1, i
  {
    if i > 0 {
      LinksSettle(cf, n, depth, i - 1, p);
      var q, l := AllLinks(cf, n, depth, i - 1, p), Links(n)[i - 1];
      if q.ok {
        LinkSettles(cf, n, l, depth, q.p);
        var r := OneLink(cf, n, l, depth, q.p);
        LeavesCompose(cf, p, q.p, r.p);
        if !r.ok { assert l.cid in Kids(n); BrokenChild(cf, n, l.cid, depth); }
      }
    }
  }

  /** The complete roots among [..i] are listed, errors of others notwithstanding. */
  ghost predicate WholeRoots(cf: Config, objs: seq<Cid>, i: nat, p: Progress)
    requires i <= |objs|
  {
    && (cf.unique ==> Settled(cf, map[], p.seen))
    && forall j :: 0 <= j < i && AllThere(cf, objs[j]) ==> RootListed(cf, objs[j], p)
  }

  ghost predicate RootListed(cf: Config, r: Cid, p: Progress)
  {
    if cf.unique then KidsSeen(cf.limit, p.seen, r, 0) else forall e :: LinkWithin({r}, cf.limit, e) ==> e in p.out
  }

  lemma StillListed(cf: Config, r: Cid, p: Progress, q: Progress)
    requires RootListed(cf, r, p) && Leaves(cf, p, q) && p.out <= q.out
    ensures RootListed(cf, r, q)
  {
    if cf.unique {
      forall k | k in Kids(r) ensures SeenAt(cf.limit, q.seen, k, 1) { assert SeenAt(cf.limit, p.seen, k, 0 + 1); }
    }
  }

  lemma NowListed(cf: Config, c: Cid, p: Progress)
    requires AllThere(cf, c)
    ensures RootListed(cf, c, OneRoot(cf, c, p).p)
  {
    var r := OneRoot(cf, c, p);
    LinksSettle(cf, c, 0, |Links(c)|, p);
    assert Path(c, c, 0);
    NotBroken(cf, c, c, 0);
    if !cf.unique {
      LinksUnfold(cf, c, 0, |Links(c)|, p);
      forall e | LinkWithin({c}, cf.limit, e) ensures e in r.p.out {
        var d: nat :| AtDepth({c}, e.src, d) && Within(cf.limit, d + 1);
        EdgeComplete(cf.limit, c, 0, e, d);
      }
    }
  }

  lemma WholeRootsStep(cf: Config, objs: seq<Cid>, i: nat, p: Progress)
    requires i < |objs| && WholeRoots(cf, objs, i, p)
    ensures WholeRoots(cf, objs, i + 1, OneRoot(cf, objs[i], p).p)
  {
    var c := objs[i];
    var r := OneRoot(cf, c, p);
    assert Leaves(cf, p, r.p) && p.out <= r.p.out by {
      if c in cf.dag {
        LinksSettle(cf, c, 0, |Links(c)|, p);
        OccursClosed({c});
        assert (c, 0) in Occurs({c}) by { assert Path(c, c, 0); }
        LinksWrite(cf, c, 0, |Links(c)|, p, Occurs({c}));
      }
    }
    if cf.unique { SettledCompose(cf, map[], p.seen, r.p.seen); }
    forall j | 0 <= j <= i && AllThere(cf, objs[j]) ensures RootListed(cf, objs[j], r.p) {
      if j < i { StillListed(cf, objs[j], p, r.p); } else { NowListed(cf, c, p); }
    }
  }

  /** Below a complete root nothing is lost to another root's error, if no CID of depth two
      or more has a child within the limit, or if there is no limit. */
  lemma {:induction false} SeenBelow(cf: Config, r: Cid, p: Progress, x: Cid, d: nat)
    requires cf.unique && cf.limit < 3 && AllThere(cf, r) && RootListed(cf, r, p) && Settled(cf, map[], p.seen)
    requires forall y :: y in p.seen ==> p.seen[y] >= 1
    requires Path(r, x, d) && d >= 1 && Within(cf.limit, d)
    ensures SeenAt(cf.limit, p.seen, x, d)
    decreases d
  {
    var y :| Path(r, y, d - 1) && x in Kids(y);
    if d > 1 {
      SeenBelow(cf, r, p, y, d - 1);
      NotBroken(cf, r, y, d - 1);
      assert !Broken(cf, y, p.seen[y]) by {
        forall z, m: nat | Path(y, z, m) && Within(cf.limit, p.seen[y] + m) ensures z in cf.dag {
          assert Within(cf.limit, d - 1 + m);
        }
      }
      assert SeenAt(cf.limit, p.seen, x, p.seen[y] + 1);
    }
  }

  lemma WholeRootsMeaning(cf: Config, objs: seq<Cid>, p: Progress, r: Cid, x: Cid)
    requires WholeRoots(cf, objs, |objs|, p) && r in objs && AllThere(cf, r) && Referenced({r}, cf.limit, x)
    requires cf.unique ==> cf.limit < 3 && (forall y :: y in p.seen ==> p.seen[y] >= 1)
    requires cf.unique ==> p.seen.Keys * cf.dag <= Dsts(p.out)
    ensures x in Dsts(p.out)
  {
    var d: nat :| d >= 1 && Within(cf.limit, d) && AtDepth({r}, x, d);
    if cf.unique {
      SeenBelow(cf, r, p, x, d);
    } else {
      var y :| Path(r, y, d - 1) && x in Kids(y);
      var i :| 0 <= i < |Links(y)| && Links(y)[i].cid == x;
      var e := Edge(y, x, Links(y)[i].name);
      assert IsLink(e) && AtDepth({r}, y, d - 1) && Within(cf.limit, d - 1 + 1);
      assert e in p.out;
    }
  }

  // ------------------------------------------------------------------ the command

  ghost predicate UniqueSoFar(limit: int, objs: seq<Cid>, i: nat, p: Progress)
    requires i <= |objs|
  {
    && p.out == Firsts(Unfolded(limit, objs, i), {}) && p.seen.Keys == Dsts(Unfolded(limit, objs, i))
    && AllExplored(limit, p.seen)
  }

  /** What holds after roots [..i]; `good` says that none of them met an error. */
  ghost predicate RunInv(cf: Config, objs: seq<Cid>, i: nat, p: Progress, good: bool)
    requires i <= |objs|
  {
    var at := Occurs(Set(objs));
    && Sound(at, cf.limit, p.seen)
    && Writes(cf, at, Progress(map[], [], 0), Result(p, good))
    && (cf.unique ==> p.fetches <= Measure(cf.limit, p.seen))
    && p.fetches >= |p.out| && (good && (!cf.unique || cf.limit < 0) ==> p.fetches == |p.out|)
    && (good ==> forall j :: 0 <= j < i ==> objs[j] in cf.dag)
    && (good && cf.unique ==> Finished(cf.limit, p.seen, Set(objs[..i])) && UniqueSoFar(cf.limit, objs, i, p))
    && (good && !cf.unique ==> p.out == Unfolded(cf.limit, objs, i))
    && (!good ==> exists x :: (x in objs || RefAt(at, cf.limit, x)) && x !in cf.dag)
  }

  /** One more root. */
  lemma RunStep(cf: Config, objs: seq<Cid>, i: nat, p: Progress, good: bool)
    requires i < |objs| && RunInv(cf, objs, i, p, good)
    ensures var r := OneRoot(cf, objs[i], p);
            RunInv(cf, objs, i + 1, r.p, good && r.ok)
  {
    var at, c := Occurs(Set(objs)), objs[i];
    var r := OneRoot(cf, c, p);
    var start := Progress(map[], [], 0);
    OccursClosed(Set(objs));
    assert (c, 0) in at by { assert Path(c, c, 0); }
    if c !in cf.dag {
      assert Writes(cf, at, start, Result(p, false));
    } else {
      LinksSound(cf, c, 0, |Links(c)|, p, at);
      LinksWrite(cf, c, 0, |Links(c)|, p, at);
      RunWrites(cf, at, p, good, r);
      if cf.unique { LinksMeasured(cf, c, 0, |Links(c)|, p); }
      LinksFetched(cf, c, 0, |Links(c)|, p);
      if good && r.ok {
        assert Set(objs[..i + 1]) == Set(objs[..i]) + {c};
        if cf.unique {
          LinksDone(cf, c, 0, |Links(c)|, p);
          assert KidsSeen(cf.limit, r.p.seen, c, 0);
          FinishedStep(cf.limit, p.seen, r.p.seen, Set(objs[..i]), c);
          RootFirsts(cf, objs, i, p);
        } else {
          LinksUnfold(cf, c, 0, |Links(c)|, p);
        }
      }
    }
  }

  lemma RunWrites(cf: Config, at: iset<(Cid, nat)>, p: Progress, good: bool, r: Result)
    requires Writes(cf, at, Progress(map[], [], 0), Result(p, good)) && Writes(cf, at, p, r)
    ensures Writes(cf, at, Progress(map[], [], 0), Result(r.p, good && r.ok))
  {
    assert p.out[0..] == p.out && r.p.out[0..] == r.p.out;
    var es := r.p.out[|p.out|..];
    assert r.p.out == p.out + es;
    DstsConcat(p.out, es);
  }

  /** The command over all its roots.  An error ends one root's listing, not the run. */
  method Refs(cf: Config, objs: seq<Cid>) returns (out: seq<Edge>, seen: map<Cid, nat>, fetches: nat, ok: bool)
    // any run: what is written are links, of CIDs above the limit, to fetchable, referenced
    // CIDs, and with --unique no CID twice
    ensures forall e :: e in out ==> LinkWithin(Set(objs), cf.limit, e)
    ensures forall x :: x in Dsts(out) ==> x in cf.dag && Referenced(Set(objs), cf.limit, x)
    ensures cf.unique ==> DstOnce(out)
    // an error-free run writes them all, with or without --unique
    ensures ok ==> forall x :: x in Dsts(out) <==> Referenced(Set(objs), cf.limit, x)
    // without --unique it writes the path-unfolded edges, and so every such link; with it
    // their first occurrences
    ensures ok && !cf.unique ==> out == Unfolded(cf.limit, objs, |objs|)
    ensures ok && !cf.unique ==> forall e :: e in out <==> LinkWithin(Set(objs), cf.limit, e)
    ensures ok && cf.unique ==> out == Firsts(Unfolded(cf.limit, objs, |objs|), {})
    // a root whose listing meets no error is listed beside others that fail, except with
    // --unique and a limit of three or more
    ensures !cf.unique || cf.limit < 3 ==>
              forall r, x :: r in objs && AllThere(cf, r) && Referenced({r}, cf.limit, x) ==> x in Dsts(out)
    ensures !cf.unique ==>
              forall r, e :: r in objs && AllThere(cf, r) && LinkWithin({r}, cf.limit, e) ==> e in out
    // it is error-free iff all roots and all referenced CIDs can be fetched
    ensures ok <==> Set(objs) <= cf.dag && forall x :: Referenced(Set(objs), cf.limit, x) ==> x in cf.dag
    // and then `seen` holds the referenced CIDs and their shortest depths
    ensures ok && cf.unique ==> forall x :: x in seen <==> Referenced(Set(objs), cf.limit, x)
    ensures ok && cf.unique && cf.limit >= 0 ==>
              forall x :: x in seen ==>
                && AtDepth(Set(objs), x, seen[x])
                && forall d: nat :: 1 <= d && AtDepth(Set(objs), x, d) ==> seen[x] <= d
    // a fetch for every edge, and more only with --unique and a limit, where the number is
    // bounded by the CIDs seen times the limit
    ensures fetches >= |out| && (ok && (!cf.unique || cf.limit < 0) ==> fetches == |out|)
    ensures cf.unique ==> fetches <= |seen| * (if cf.limit < 0 then 1 else cf.limit)
  {
    var rw := new RefWriter(cf);
    ok := true;
    assert Set(objs[..0]) == {};
    WritesNothing(cf, Occurs(Set(objs)), Progress(map[], [], 0), map[], 0, true);
    for i := 0 to |objs|
      invariant rw.cf == cf && RunInv(cf, objs, i, rw.State(), ok) && WholeRoots(cf, objs, i, rw.State())
    {
      WholeRootsStep(cf, objs, i, rw.State());
      RunStep(cf, objs, i, rw.State(), ok);
      var count, good := rw.WriteRefs(objs[i]);
      ok := ok && good;
    }
    out, seen, fetches := rw.out, rw.seen, rw.fetches;
    RunMeaning(cf, objs, rw.State(), ok);
    RootsMeaning(cf, objs, rw.State(), ok);
  }

  lemma RootsMeaning(cf: Config, objs: seq<Cid>, p: Progress, ok: bool)
    requires RunInv(cf, objs, |objs|, p, ok) && WholeRoots(cf, objs, |objs|, p)
    ensures !cf.unique || cf.limit < 3 ==>
              forall r, x :: r in objs && AllThere(cf, r) && Referenced({r}, cf.limit, x) ==> x in Dsts(p.out)
    ensures !cf.unique ==>
              forall r, e :: r in objs && AllThere(cf, r) && LinkWithin({r}, cf.limit, e) ==> e in p.out
  {
    assert p.out[0..] == p.out;
    if !cf.unique || cf.limit < 3 {
      forall r, x | r in objs && AllThere(cf, r) && Referenced({r}, cf.limit, x) ensures x in Dsts(p.out) {
        WholeRootsMeaning(cf, objs, p, r, x);
      }
    }
    forall r | r in objs && AllThere(cf, r) ensures RootListed(cf, r, p) { }
  }

  lemma RunMeaning(cf: Config, objs: seq<Cid>, p: Progress, ok: bool)
    requires RunInv(cf, objs, |objs|, p, ok)
    ensures forall e :: e in p.out ==> LinkWithin(Set(objs), cf.limit, e)
    ensures forall x :: x in Dsts(p.out) ==> x in cf.dag && Referenced(Set(objs), cf.limit, x)
    ensures cf.unique ==> DstOnce(p.out)
    ensures ok ==> forall x :: x in Dsts(p.out) <==> Referenced(Set(objs), cf.limit, x)
    ensures ok && !cf.unique ==> forall e :: e in p.out <==> LinkWithin(Set(objs), cf.limit, e)
    ensures ok <==> Set(objs) <= cf.dag && forall x :: Referenced(Set(objs), cf.limit, x) ==> x in cf.dag
    ensures ok && cf.unique ==> forall x :: x in p.seen <==> Referenced(Set(objs), cf.limit, x)
    ensures ok && cf.unique && cf.limit >= 0 ==>
              forall x :: x in p.seen ==>
                && AtDepth(Set(objs), x, p.seen[x])
                && forall d: nat :: 1 <= d && AtDepth(Set(objs), x, d) ==> p.seen[x] <= d
    ensures cf.unique ==> p.fetches <= |p.seen| * (if cf.limit < 0 then 1 else cf.limit)
  {
    var at := Occurs(Set(objs));
    RefAtMeaning(Set(objs), cf.limit);
    assert p.out[0..] == p.out && objs[..|objs|] == objs;
    forall e | e in p.out ensures LinkWithin(Set(objs), cf.limit, e) {
      assert EdgeAt(at, cf.limit, e);
      var d: nat :| (e.src, d) in at && Within(cf.limit, d + 1);
      assert AtDepth(Set(objs), e.src, d);
    }
    if ok {
      if cf.unique {
        UniqueExact(cf.limit, p.seen, Set(objs));
      } else {
        forall x | Referenced(Set(objs), cf.limit, x) ensures x in Dsts(p.out) {
          NonUniqueComplete(objs, cf.limit, x, p.out);
        }
        forall e | LinkWithin(Set(objs), cf.limit, e) ensures e in p.out {
          UnfoldedComplete(cf.limit, objs, e);
        }
      }
    }
    if cf.unique { MeasureBound(at, cf.limit, p.seen); }
  }
}
