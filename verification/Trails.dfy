/** Link trails: the ways down from a node, as the positions of the links taken.  What a
    recursion over links lists or adds up is said here without the recursion: one entry per
    trail, in lexicographic order. */
module Trails {
  import opened Ipld

  type Trail = seq<nat>

  /** Which nodes' links are followed. */
  type Follow = Cid -> bool

  predicate Always(c: Cid) { true }

  /** `t` leads down from `c`, through nodes whose links are followed. */
  ghost predicate Leads(open: Follow, c: Cid, t: Trail)
    decreases |t|
  {
    t == [] || (t[0] < |Links(c)| && var k := Links(c)[t[0]].cid; (|t| > 1 ==> open(k)) && Leads(open, k, t[1..]))
  }

  /** Where it leads. */
  ghost function End(open: Follow, c: Cid, t: Trail): (x: Cid)
    requires Leads(open, c, t)
    decreases |t|
  {
    if t == [] then c else End(open, Links(c)[t[0]].cid, t[1..])
  }

  /** A trail comes before those that continue it, and before those that turn off later. */
  ghost predicate Before(a: Trail, b: Trail)
    decreases |a|
  {
    b != [] && (a == [] || a[0] < b[0] || (a[0] == b[0] && Before(a[1..], b[1..])))
  }

  ghost predicate Sorted(ts: seq<Trail>) { forall i, j :: 0 <= i < j < |ts| ==> Before(ts[i], ts[j]) }

  /** `most` bounds the length; a negative one does not. */
  ghost predicate Short(most: int, t: Trail) { most < 0 || |t| <= most }

  /** A trail that starts with one of the first `n` links. */
  ghost predicate Fits(open: Follow, most: int, c: Cid, n: nat, t: Trail)
  {
    t != [] && t[0] < n && Leads(open, c, t) && Short(most, t)
  }

  /** All of them, in order. */
  ghost predicate Lists(open: Follow, most: int, c: Cid, n: nat, ts: seq<Trail>)
  {
    Sorted(ts) && forall t :: t in ts <==> Fits(open, most, c, n, t)
  }

  // ------------------------------------------------------------------ listing them

  ghost function Prefixed(i: nat, ts: seq<Trail>): (r: seq<Trail>)
  {
    seq(|ts|, k requires 0 <= k < |ts| => [i] + ts[k])
  }

  ghost function Via(open: Follow, most: int, c: Cid, i: nat): (r: seq<Trail>)
    requires i < |Links(c)|
    decreases c, i
  {
    var k := Links(c)[i].cid;
    if most == 0 then []
    else [[i]] + if open(k) then Prefixed(i, Below(open, most - 1, k, |Links(k)|)) else []
  }

  ghost function Below(open: Follow, most: int, c: Cid, n: nat): (r: seq<Trail>)
    requires n <= |Links(c)|
    decreases c, n
  {
    if n == 0 then [] else Below(open, most, c, n - 1) + Via(open, most, c, n - 1)
  }

  lemma SortedConcat(a: seq<Trail>, b: seq<Trail>)
    requires Sorted(a) && Sorted(b) && forall i, j :: 0 <= i < |a| && 0 <= j < |b| ==> Before(a[i], b[j])
    ensures Sorted(a + b)
  {
  }

  lemma SortedPrefixed(i: nat, ts: seq<Trail>)
    requires Sorted(ts)
    ensures Sorted(Prefixed(i, ts))
  {
    var r := Prefixed(i, ts);
    forall j, k | 0 <= j < k < |r| ensures Before(r[j], r[k]) {
      assert r[j][1..] == ts[j] && r[k][1..] == ts[k];
    }
  }

  lemma InPrefixed(i: nat, ts: seq<Trail>, t: Trail)
    ensures t in Prefixed(i, ts) <==> t != [] && t[0] == i && t[1..] in ts
  {
    if t in Prefixed(i, ts) {
      var k :| 0 <= k < |ts| && t == [i] + ts[k];
      assert t[1..] == ts[k];
    }
    if t != [] && t[0] == i && t[1..] in ts {
      var k :| 0 <= k < |ts| && ts[k] == t[1..];
      assert t == [i] + t[1..] == Prefixed(i, ts)[k];
    }
  }

  /** A trail of more than one link is its first link and a trail from there. */
  lemma TrailTail(open: Follow, most: int, c: Cid, t: Trail)
    requires t != [] && t[0] < |Links(c)| && most != 0
    ensures var k := Links(c)[t[0]].cid;
            Leads(open, c, t) && Short(most, t) <==>
            |t| == 1 || (open(k) && Fits(open, most - 1, k, |Links(k)|, t[1..]))
  {
    if |t| == 1 { assert t[1..] == []; }
  }

  lemma {:induction false} InVia(open: Follow, most: int, c: Cid, i: nat, t: Trail)
    requires i < |Links(c)|
    ensures t in Via(open, most, c, i) <==> Fits(open, most, c, i + 1, t) && t[0] == i
    decreases c, i
  {
    if most != 0 {
      var k := Links(c)[i].cid;
      var sub := Below(open, most - 1, k, |Links(k)|);
      assert t in Via(open, most, c, i) <==> t == [i] || (open(k) && t in Prefixed(i, sub));
      InPrefixed(i, sub, t);
      if t != [] && t[0] == i {
        TrailTail(open, most, c, t);
        InBelow(open, most - 1, k, |Links(k)|, t[1..]);
        if |t| == 1 { assert t == [i]; }
      }
    }
  }

  lemma {:induction false} InBelow(open: Follow, most: int, c: Cid, n: nat, t: Trail)
    requires n <= |Links(c)|
    ensures t in Below(open, most, c, n) <==> Fits(open, most, c, n, t)
    decreases c, n
  {
    if n > 0 {
      InBelow(open, most, c, n - 1, t);
      InVia(open, most, c, n - 1, t);
      assert t in Below(open, most, c, n) <==> t in Below(open, most, c, n - 1) || t in Via(open, most, c, n - 1);
    }
  }

  lemma {:induction false} ViaSorted(open: Follow, most: int, c: Cid, i: nat)
    requires i < |Links(c)|
    ensures Sorted(Via(open, most, c, i))
    decreases c, i
  {
    var k := Links(c)[i].cid;
    if most != 0 && open(k) {
      var sub := Below(open, most - 1, k, |Links(k)|);
      BelowSorted(open, most - 1, k, |Links(k)|);
      SortedPrefixed(i, sub);
      forall j | 0 <= j < |sub| ensures Before([i], Prefixed(i, sub)[j]) {
        InBelow(open, most - 1, k, |Links(k)|, sub[j]);
        assert Prefixed(i, sub)[j][1..] == sub[j] && [i][1..] == [];
      }
      SortedConcat([[i]], Prefixed(i, sub));
    }
  }

  lemma BelowBefore(open: Follow, most: int, c: Cid, n: nat, a: Trail, b: Trail)
    requires n < |Links(c)| && a in Below(open, most, c, n) && b in Via(open, most, c, n)
    ensures Before(a, b)
  {
    InBelow(open, most, c, n, a);
    InVia(open, most, c, n, b);
  }

  lemma {:induction false} BelowSorted(open: Follow, most: int, c: Cid, n: nat)
    requires n <= |Links(c)|
    ensures Sorted(Below(open, most, c, n))
    decreases c, n
  {
    if n > 0 {
      var a, b := Below(open, most, c, n - 1), Via(open, most, c, n - 1);
      BelowSorted(open, most, c, n - 1);
      ViaSorted(open, most, c, n - 1);
      forall i, j | 0 <= i < |a| && 0 <= j < |b| ensures Before(a[i], b[j]) {
        BelowBefore(open, most, c, n - 1, a[i], b[j]);
      }
      SortedConcat(a, b);
    }
  }

  /** The recursion lists exactly the trails, in order. */
  lemma BelowLists(open: Follow, most: int, c: Cid, n: nat)
    requires n <= |Links(c)|
    ensures Lists(open, most, c, n, Below(open, most, c, n))
  {
    BelowSorted(open, most, c, n);
    forall t ensures t in Below(open, most, c, n) <==> Fits(open, most, c, n, t) {
      InBelow(open, most, c, n, t);
    }
  }

  /** Without a bound it does not matter which negative number says so. */
  lemma {:induction false} Unbounded(open: Follow, most: int, most': int, c: Cid, n: nat)
    requires n <= |Links(c)| && most < 0 && most' < 0
    ensures Below(open, most, c, n) == Below(open, most', c, n)
    decreases c, n
  {
    if n > 0 {
      var k := Links(c)[n - 1].cid;
      Unbounded(open, most, most', c, n - 1);
      Unbounded(open, most - 1, most' - 1, k, |Links(k)|);
    }
  }

  lemma {:induction false} NoneBelow(open: Follow, c: Cid, n: nat)
    requires n <= |Links(c)|
    ensures Below(open, 0, c, n) == []
  {
    if n > 0 { NoneBelow(open, c, n - 1); }
  }

  // ------------------------------------------------------------------ where they lead

  ghost predicate AllLead(open: Follow, c: Cid, ts: seq<Trail>) { forall t :: t in ts ==> Leads(open, c, t) }

  ghost function Ends(open: Follow, c: Cid, ts: seq<Trail>): (r: seq<Cid>)
    requires AllLead(open, c, ts)
  {
    seq(|ts|, k requires 0 <= k < |ts| => assert ts[k] in ts; End(open, c, ts[k]))
  }

  /** The ends of all trails that start with one of the first `n` links, in the trails'
      order. */
  ghost function EndsBelow(open: Follow, c: Cid, n: nat): (r: seq<Cid>)
    requires n <= |Links(c)|
  {
    BelowLists(open, -1, c, n);
    Ends(open, c, Below(open, -1, c, n))
  }

  lemma EndsConcat(open: Follow, c: Cid, a: seq<Trail>, b: seq<Trail>)
    requires AllLead(open, c, a) && AllLead(open, c, b)
    ensures AllLead(open, c, a + b) && Ends(open, c, a + b) == Ends(open, c, a) + Ends(open, c, b)
  {
  }

  lemma EndsPrefixed(open: Follow, c: Cid, i: nat, ts: seq<Trail>)
    requires i < |Links(c)| && open(Links(c)[i].cid) && AllLead(open, Links(c)[i].cid, ts)
    ensures AllLead(open, c, Prefixed(i, ts)) && Ends(open, c, Prefixed(i, ts)) == Ends(open, Links(c)[i].cid, ts)
  {
    forall k | 0 <= k < |ts| ensures Leads(open, c, [i] + ts[k]) {
      assert ts[k] in ts && ([i] + ts[k])[1..] == ts[k];
    }
    forall k | 0 <= k < |ts| ensures End(open, c, [i] + ts[k]) == End(open, Links(c)[i].cid, ts[k]) {
      assert ts[k] in ts && ([i] + ts[k])[1..] == ts[k];
    }
  }

  lemma OneLinkEnd(open: Follow, c: Cid, i: nat)
    requires i < |Links(c)|
    ensures AllLead(open, c, [[i]]) && Ends(open, c, [[i]]) == [Links(c)[i].cid]
  {
    var t: Trail, k := [i], Links(c)[i].cid;
    assert |t| == 1 && t[0] == i && t[1..] == [];
    assert Leads(open, k, t[1..]) && Leads(open, c, t);
    assert End(open, k, t[1..]) == k && End(open, c, t) == k;
    assert AllLead(open, c, [t]);
    assert Ends(open, c, [t])[0] == k;
  }

  lemma EndsVia(open: Follow, c: Cid, i: nat)
    requires i < |Links(c)|
    ensures var k := Links(c)[i].cid;
            && AllLead(open, c, Via(open, -1, c, i))
            && Ends(open, c, Via(open, -1, c, i)) == [k] + if open(k) then EndsBelow(open, k, |Links(k)|) else []
  {
    var k := Links(c)[i].cid;
    var sub := Below(open, -2, k, |Links(k)|);
    Unbounded(open, -2, -1, k, |Links(k)|);
    BelowLists(open, -1, k, |Links(k)|);
    OneLinkEnd(open, c, i);
    if open(k) {
      EndsPrefixed(open, c, i, sub);
      EndsConcat(open, c, [[i]], Prefixed(i, sub));
    }
  }

  /** One link more: its target, and what is below it if that is followed. */
  lemma EndsStep(open: Follow, c: Cid, n: nat)
    requires n < |Links(c)|
    ensures var k := Links(c)[n].cid;
            EndsBelow(open, c, n + 1)
            == EndsBelow(open, c, n) + ([k] + if open(k) then EndsBelow(open, k, |Links(k)|) else [])
  {
    BelowLists(open, -1, c, n);
    EndsVia(open, c, n);
    EndsConcat(open, c, Below(open, -1, c, n), Via(open, -1, c, n));
  }

  /** The nodes that a recursion over the links meets, once for each way down. */
  ghost function Met(open: Follow, c: Cid, n: nat): (r: seq<Cid>)
    requires n <= |Links(c)|
    decreases c, n
  {
    if n == 0 then []
    else
      var k := Links(c)[n - 1].cid;
      Met(open, c, n - 1) + ([k] + if open(k) then Met(open, k, |Links(k)|) else [])
  }

  lemma MetStep(open: Follow, c: Cid, n: nat)
    requires n < |Links(c)|
    ensures var k := Links(c)[n].cid;
            Met(open, c, n + 1) == Met(open, c, n) + ([k] + if open(k) then Met(open, k, |Links(k)|) else [])
  {
  }

  /** They are the ends of the trails, in the trails' order. */
  lemma {:induction false} MetAreEnds(open: Follow, c: Cid, n: nat)
    requires n <= |Links(c)|
    ensures Met(open, c, n) == EndsBelow(open, c, n)
    decreases c, n
  {
    if n > 0 {
      var k := Links(c)[n - 1].cid;
      MetAreEnds(open, c, n - 1);
      if open(k) { MetAreEnds(open, k, |Links(k)|); }
      EndsStep(open, c, n - 1);
    }
  }
}
