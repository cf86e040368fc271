/** `files stat --with-local`: walkBlock of core/commands/files.go against the node's
    cumulative size.  `len(c)` stands for the length of the encoded block. */
module Locality {
  import opened Ipld
  import opened DagWalk
  import opened Seqs
  import opened Trails

  const WORD: nat := 0x1_0000_0000_0000_0000   // sizes are uint64

  /** x modulo 2^64. */
  function Wrap(x: nat): (r: nat)
    ensures r < WORD
  {
    if x < WORD then x else Wrap(x - WORD)
  }

  /** A value below 2^64 that differs by a multiple of it. */
  lemma {:induction false} WrapMeaning(x: nat)
    ensures 0 <= Wrap(x) < 18_446_744_073_709_551_616
    ensures exists q: nat :: x == q * 18_446_744_073_709_551_616 + Wrap(x)
  {
    if x < WORD {
      assert x == 0 * 18_446_744_073_709_551_616 + Wrap(x);
    } else {
      WrapMeaning(x - WORD);
      var q: nat :| x - WORD == q * 18_446_744_073_709_551_616 + Wrap(x - WORD);
      assert x == (q + 1) * 18_446_744_073_709_551_616 + Wrap(x);
    }
  }

  lemma {:induction false} WrapAdd(a: nat, b: nat)
    ensures Wrap(Wrap(a) + Wrap(b)) == Wrap(a + b)
    decreases a + b
  {
    if a >= WORD { WrapAdd(a - WORD, b); }
    else if b >= WORD { WrapAdd(a, b - WORD); }
  }

  lemma WrapCongruent(a: nat, b: nat, c: nat, d: nat)
    requires Wrap(a) == Wrap(b) && Wrap(c) == Wrap(d)
    ensures Wrap(a + c) == Wrap(b + d)
  {
    WrapAdd(a, c);
    WrapAdd(b, d);
  }

  // ------------------------------------------------------------------ specification

  /** The block sizes summed over every path that stays within the local store. */
  ghost function LocalSum(st: Store, len: Cid -> nat, c: Cid): (r: nat)
    decreases c
  {
    len(c) + LocalBelow(st, len, c, |Links(c)|)
  }

  ghost function LocalBelow(st: Store, len: Cid -> nat, c: Cid, n: nat): (r: nat)
    requires n <= |Links(c)|
    decreases c, n
  {
    if n == 0 then 0
    else LocalBelow(st, len, c, n - 1) +
         (var k := Links(c)[n - 1].cid; if k in st.Open() then LocalSum(st, len, k) else 0)
  }

  /** The block sizes summed over every path. */
  ghost function Total(len: Cid -> nat, c: Cid): (r: nat)
    decreases c
  {
    len(c) + TotalBelow(len, c, |Links(c)|)
  }

  ghost function TotalBelow(len: Cid -> nat, c: Cid, n: nat): (r: nat)
    requires n <= |Links(c)|
    decreases c, n
  {
    if n == 0 then 0 else TotalBelow(len, c, n - 1) + Total(len, Links(c)[n - 1].cid)
  }

  ghost function LinkSizes(c: Cid, n: nat): (r: nat)
    requires n <= |Links(c)|
  {
    if n == 0 then 0 else LinkSizes(c, n - 1) + Links(c)[n - 1].size
  }

  /** Node.Size: the block's length plus the sizes its links claim. */
  ghost function CumulativeSize(len: Cid -> nat, c: Cid): (r: nat)
  {
    Wrap(len(c) + LinkSizes(c, |Links(c)|))
  }

  /** Every link below `c` claims the cumulative size of its target. */
  ghost predicate Honest(len: Cid -> nat, c: Cid)
    decreases c
  {
    forall i :: 0 <= i < |Links(c)| ==>
                  Wrap(Links(c)[i].size) == CumulativeSize(len, Links(c)[i].cid) && Honest(len, Links(c)[i].cid)
  }

  /** No fetch below `c`, over links [..n], fails other than by not finding a block. */
  ghost predicate ReadableUpTo(st: Store, c: Cid, n: nat)
    requires n <= |Links(c)|
    decreases c, n
  {
    n == 0 || (ReadableUpTo(st, c, n - 1) &&
               var k := Links(c)[n - 1].cid; k !in st.broken && (k in st.blocks ==> Readable(st, k)))
  }

  ghost predicate Readable(st: Store, c: Cid)
    decreases c
  {
    ReadableUpTo(st, c, |Links(c)|)
  }

  ghost predicate LocalUpTo(st: Store, c: Cid, n: nat)
    requires n <= |Links(c)|
    decreases c, n
  {
    n == 0 || (LocalUpTo(st, c, n - 1) && var k := Links(c)[n - 1].cid; k in st.Open() && AllLocal(st, k))
  }

  ghost predicate AllLocal(st: Store, c: Cid)
    decreases c
  {
    LocalUpTo(st, c, |Links(c)|)
  }

  // ------------------------------------------------------------------ operation

  /** The addition of two wrapped sizes, itself wrapped. */
  method AddSize(a: nat, b: nat, ghost x: nat, ghost y: nat) returns (r: nat)
    requires a == Wrap(x) && b == Wrap(y)
    ensures r == Wrap(x + y)
  {
    WrapAdd(x, y);
    r := Wrap(a + b);
  }

  /** walkBlock.  A missing child makes the answer not-local; any other failure ends the
      walk. */
  method WalkBlock(st: Store, len: Cid -> nat, nd: Cid) returns (local: bool, sizeLocal: nat, ok: bool)
    ensures ok <==> Readable(st, nd)
    ensures ok ==> (local <==> AllLocal(st, nd))
    ensures ok ==> sizeLocal == Wrap(LocalSum(st, len, nd))
    decreases nd
  {
    sizeLocal, local, ok := Wrap(len(nd)), true, true;
    var links := Links(nd);
    for i := 0 to |links|
      invariant ok
      invariant ReadableUpTo(st, nd, i)
      invariant local <==> LocalUpTo(st, nd, i)
      invariant sizeLocal == Wrap(len(nd) + LocalBelow(st, len, nd, i))
    {
      var child := links[i].cid;
      if child in st.broken {
        ok := false;
        UnreadableSticks(st, nd, i + 1, |links|);
        return;
      }
      if child !in st.blocks {
        local := false;
        continue;
      }
      var childLocal, childSize;
      childLocal, childSize, ok := WalkBlock(st, len, child);
      if !ok {
        UnreadableSticks(st, nd, i + 1, |links|);
        return;
      }
      local := local && childLocal;
      assert LocalBelow(st, len, nd, i + 1) == LocalBelow(st, len, nd, i) + LocalSum(st, len, child);
      sizeLocal := AddSize(sizeLocal, childSize, len(nd) + LocalBelow(st, len, nd, i), LocalSum(st, len, child));
    }
  }

  lemma {:induction false} UnreadableSticks(st: Store, c: Cid, i: nat, n: nat)
    requires i <= n <= |Links(c)| && !ReadableUpTo(st, c, i)
    ensures !ReadableUpTo(st, c, n)
    decreases n
  {
    if i < n { UnreadableSticks(st, c, i, n - 1); }
  }

  // ------------------------------------------------------------------ properties

  lemma {:induction false} LocalEach(st: Store, c: Cid, n: nat)
    requires n <= |Links(c)|
    ensures LocalUpTo(st, c, n) <==>
            forall i :: 0 <= i < n ==> Links(c)[i].cid in st.Open() && AllLocal(st, Links(c)[i].cid)
    decreases n
  {
    if n > 0 { LocalEach(st, c, n - 1); }
  }

  lemma {:induction false} ReadableEach(st: Store, c: Cid, n: nat)
    requires n <= |Links(c)|
    ensures ReadableUpTo(st, c, n) <==>
            forall i :: 0 <= i < n ==>
              Links(c)[i].cid !in st.broken && (Links(c)[i].cid in st.blocks ==> Readable(st, Links(c)[i].cid))
    decreases n
  {
    if n > 0 { ReadableEach(st, c, n - 1); }
  }

  /** What is below a node is what is at or below its children. */
  lemma BelowEach(c: Cid, s: set<Cid>)
    ensures DescAll(Kids(c)) <= s <==> forall i :: 0 <= i < |Links(c)| ==> Desc(Links(c)[i].cid) <= s
  {
    forall i | 0 <= i < |Links(c)| ensures Desc(Links(c)[i].cid) <= DescAll(Kids(c)) {
      assert Links(c)[i].cid in Kids(c);
    }
  }

  /** Local means that every block below the node is in the store. */
  lemma {:induction false} LocalMeaning(st: Store, c: Cid)
    ensures AllLocal(st, c) <==> DescAll(Kids(c)) <= st.Open()
    decreases c
  {
    LocalEach(st, c, |Links(c)|);
    forall i | 0 <= i < |Links(c)|
      ensures var k := Links(c)[i].cid; k in st.Open() && AllLocal(st, k) <==> Desc(k) <= st.Open()
    {
      var k := Links(c)[i].cid;
      LocalMeaning(st, k);
      DescUnfold(k);
    }
    BelowEach(c, st.Open());
  }

  /** The walk fails exactly when it would fetch an unreadable block. */
  lemma {:induction false} ReadableMeaning(st: Store, c: Cid)
    ensures Readable(st, c) <==> ReachAll(st.Open(), Kids(c)) !! st.broken
    decreases c
  {
    ReadableEach(st, c, |Links(c)|);
    forall i | 0 <= i < |Links(c)|
      ensures var k := Links(c)[i].cid;
              k !in st.broken && (k in st.blocks ==> Readable(st, k)) <==> Reach(st.Open(), k) !! st.broken
    {
      var k := Links(c)[i].cid;
      ReadableMeaning(st, k);
      if k in st.Open() { ReachUnfold(st.Open(), k); }
    }
    assert forall i, x :: 0 <= i < |Links(c)| && x in Reach(st.Open(), Links(c)[i].cid)
                          ==> x in ReachAll(st.Open(), Kids(c)) by {
      forall i, x | 0 <= i < |Links(c)| && x in Reach(st.Open(), Links(c)[i].cid)
        ensures x in ReachAll(st.Open(), Kids(c))
      {
        assert Links(c)[i].cid in Kids(c);
      }
    }
  }

  ghost function Stored(st: Store): (f: Cid -> bool) { x => x in st.Open() }

  ghost function LocalMet(st: Store, len: Cid -> nat, c: Cid, n: nat): (r: nat)
    requires n <= |Links(c)|
  {
    Sum(Filter(Met(Stored(st), c, n), Stored(st)), len)
  }

  lemma LocalStep(f: Cid -> bool, len: Cid -> nat, k: Cid, all: seq<Cid>, before: seq<Cid>, below: seq<Cid>)
    requires all == before + ([k] + below) && (f(k) || below == [])
    ensures Sum(Filter(all, f), len)
         == Sum(Filter(before, f), len) + if f(k) then len(k) + Sum(Filter(below, f), len) else 0
  {
    FilterAround(before, k, below, f);
    if f(k) {
      SumAround(Filter(before, f), k, Filter(below, f), len);
    } else {
      assert Filter(before, f) + ([] + Filter([], f)) == Filter(before, f);
    }
  }

  lemma LocalMetStep(st: Store, len: Cid -> nat, c: Cid, n: nat, k: Cid)
    requires n < |Links(c)| && k == Links(c)[n].cid && LocalBelow(st, len, c, n) == LocalMet(st, len, c, n)
    requires k in st.Open() ==> LocalBelow(st, len, k, |Links(k)|) == LocalMet(st, len, k, |Links(k)|)
    ensures LocalBelow(st, len, c, n + 1) == LocalMet(st, len, c, n + 1)
  {
    var f := Stored(st);
    MetStep(f, c, n);
    LocalStep(f, len, k, Met(f, c, n + 1), Met(f, c, n), if f(k) then Met(f, k, |Links(k)|) else []);
  }

  /** The local size is the block's length and that of every block met on a way down that
      stays in the store, once for each way. */
  lemma {:induction false} LocalBelowListed(st: Store, len: Cid -> nat, c: Cid, n: nat)
    requires n <= |Links(c)|
    ensures LocalBelow(st, len, c, n) == LocalMet(st, len, c, n)
    decreases c, n
  {
    if n > 0 {
      var k := Links(c)[n - 1].cid;
      LocalBelowListed(st, len, c, n - 1);
      if k in st.Open() { LocalBelowListed(st, len, k, |Links(k)|); }
      LocalMetStep(st, len, c, n - 1, k);
    }
  }

  ghost function TotalMet(len: Cid -> nat, c: Cid, n: nat): (r: nat)
    requires n <= |Links(c)|
  {
    Sum(Met(Always, c, n), len)
  }

  lemma TotalStep(len: Cid -> nat, c: Cid, n: nat, k: Cid, all: seq<Cid>, before: seq<Cid>, below: seq<Cid>)
    requires n < |Links(c)| && k == Links(c)[n].cid && all == before + ([k] + below)
    requires TotalBelow(len, c, n) == Sum(before, len) && TotalBelow(len, k, |Links(k)|) == Sum(below, len)
    ensures TotalBelow(len, c, n + 1) == Sum(all, len)
  {
    SumAround(before, k, below, len);
  }

  /** And the total that of every block on any way down. */
  lemma {:induction false} TotalBelowListed(len: Cid -> nat, c: Cid, n: nat)
    requires n <= |Links(c)|
    ensures TotalBelow(len, c, n) == TotalMet(len, c, n)
    decreases c, n
  {
    if n > 0 {
      var k := Links(c)[n - 1].cid;
      TotalBelowListed(len, c, n - 1);
      TotalBelowListed(len, k, |Links(k)|);
      TotalMetStep(len, c, n - 1, k);
    }
  }

  lemma TotalMetStep(len: Cid -> nat, c: Cid, n: nat, k: Cid)
    requires n < |Links(c)| && k == Links(c)[n].cid && TotalBelow(len, c, n) == TotalMet(len, c, n)
    requires TotalBelow(len, k, |Links(k)|) == TotalMet(len, k, |Links(k)|)
    ensures TotalBelow(len, c, n + 1) == TotalMet(len, c, n + 1)
  {
    MetStep(Always, c, n);
    TotalStep(len, c, n, k, Met(Always, c, n + 1), Met(Always, c, n), Met(Always, k, |Links(k)|));
  }

  /** The local size never exceeds the path-unfolded total; it equals it when everything
      is local, and only then if no block is empty. */
  lemma {:induction false} LocalWithinTotal(st: Store, len: Cid -> nat, c: Cid)
    ensures LocalSum(st, len, c) <= Total(len, c)
    ensures AllLocal(st, c) ==> LocalSum(st, len, c) == Total(len, c)
    ensures (forall x :: len(x) > 0) && LocalSum(st, len, c) == Total(len, c) ==> AllLocal(st, c)
    decreases c
  {
    LocalBelowWithin(st, len, c, |Links(c)|);
  }

  lemma {:induction false} LocalBelowWithin(st: Store, len: Cid -> nat, c: Cid, n: nat)
    requires n <= |Links(c)|
    ensures LocalBelow(st, len, c, n) <= TotalBelow(len, c, n)
    ensures LocalUpTo(st, c, n) ==> LocalBelow(st, len, c, n) == TotalBelow(len, c, n)
    ensures (forall x :: len(x) > 0) && LocalBelow(st, len, c, n) == TotalBelow(len, c, n) ==> LocalUpTo(st, c, n)
    decreases c, n
  {
    if n > 0 {
      LocalBelowWithin(st, len, c, n - 1);
      LocalWithinTotal(st, len, Links(c)[n - 1].cid);
    }
  }

  lemma {:induction false} SizesBelow(len: Cid -> nat, c: Cid, n: nat)
    requires n <= |Links(c)|
    requires forall i :: 0 <= i < n ==> Wrap(Links(c)[i].size) == Wrap(Total(len, Links(c)[i].cid))
    ensures Wrap(LinkSizes(c, n)) == Wrap(TotalBelow(len, c, n))
    decreases n
  {
    if n > 0 {
      SizesBelow(len, c, n - 1);
      WrapCongruent(LinkSizes(c, n - 1), TotalBelow(len, c, n - 1),
                    Links(c)[n - 1].size, Total(len, Links(c)[n - 1].cid));
    }
  }

  /** Honest link sizes make the cumulative size the path-unfolded total. */
  lemma {:induction false} HonestTotal(len: Cid -> nat, c: Cid)
    requires Honest(len, c)
    ensures CumulativeSize(len, c) == Wrap(Total(len, c))
    decreases c
  {
    var claimed, total := LinkSizes(c, |Links(c)|), TotalBelow(len, c, |Links(c)|);
    assert Wrap(claimed) == Wrap(total) by {
      forall i | 0 <= i < |Links(c)| ensures Wrap(Links(c)[i].size) == Wrap(Total(len, Links(c)[i].cid)) {
        HonestTotal(len, Links(c)[i].cid);
      }
      SizesBelow(len, c, |Links(c)|);
    }
    WrapCongruent(len(c), len(c), claimed, total);
  }

  /** The figures `stat` prints: with honest links a local node's local size is its
      cumulative size, and below 2^64 with no empty block only a local node's is. */
  lemma StatFigures(st: Store, len: Cid -> nat, c: Cid)
    requires Honest(len, c)
    ensures AllLocal(st, c) ==> Wrap(LocalSum(st, len, c)) == CumulativeSize(len, c)
    ensures (forall x :: len(x) > 0) && Total(len, c) < WORD ==>
              (AllLocal(st, c) <==> Wrap(LocalSum(st, len, c)) == CumulativeSize(len, c))
  {
    HonestTotal(len, c);
    LocalWithinTotal(st, len, c);
  }
}
