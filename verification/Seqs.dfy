/** Sequences picked from others by position. */
module Seqs {

  /** The positions below `n` that are kept, in order. */
  ghost function Picks(n: nat, keep: nat -> bool): (r: seq<nat>)
  {
    if n == 0 then [] else Picks(n - 1, keep) + if keep(n - 1) then [n - 1] else []
  }

  lemma {:induction false} PicksMeaning(n: nat, keep: nat -> bool)
    ensures forall i: nat :: i in Picks(n, keep) <==> i < n && keep(i)
    ensures forall j, k :: 0 <= j < k < |Picks(n, keep)| ==> Picks(n, keep)[j] < Picks(n, keep)[k]
  {
    if n > 0 {
      PicksMeaning(n - 1, keep);
      var r, last := Picks(n - 1, keep), if keep(n - 1) then [n - 1] else [];
      assert forall j :: 0 <= j < |r| ==> r[j] in r;
      forall i: nat ensures i in r + last <==> i < n && keep(i) {
        assert i in r + last <==> i in r || i in last;
      }
    }
  }

  /** `r` is what `s` has at the positions kept. */
  ghost predicate PickedFrom<T>(s: seq<T>, keep: nat -> bool, r: seq<T>)
  {
    var at := Picks(|s|, keep);
    |r| == |at| && forall k :: 0 <= k < |at| ==> at[k] < |s| && r[k] == s[at[k]]
  }

  /** One element more: it is picked or not. */
  lemma PickedStep<T>(s: seq<T>, keep: nat -> bool, r: seq<T>, x: T, keep': nat -> bool)
    requires PickedFrom(s, keep, r) && forall i :: 0 <= i < |s| ==> keep(i) == keep'(i)
    ensures PickedFrom(s + [x], keep', if keep'(|s|) then r + [x] else r)
  {
    SamePicks(|s|, keep, keep');
    PicksMeaning(|s|, keep);
    var at := Picks(|s|, keep);
    assert forall k :: 0 <= k < |at| ==> at[k] in at;
  }

  lemma {:induction false} SamePicks(n: nat, keep: nat -> bool, keep': nat -> bool)
    requires forall i :: 0 <= i < n ==> keep(i) == keep'(i)
    ensures Picks(n, keep) == Picks(n, keep')
  {
    if n > 0 { SamePicks(n - 1, keep, keep'); }
  }

  /** The elements with a property, in order. */
  ghost function Filter<T>(s: seq<T>, f: T -> bool): (r: seq<T>)
  {
    if s == [] then [] else Filter(s[..|s| - 1], f) + if f(s[|s| - 1]) then [s[|s| - 1]] else []
  }

  /** The positions of the elements with a property. */
  ghost function Where<T>(s: seq<T>, f: T -> bool): (keep: nat -> bool) { (i: nat) => i < |s| && f(s[i]) }

  lemma {:induction false} FilterPicked<T>(s: seq<T>, f: T -> bool)
    ensures PickedFrom(s, Where(s, f), Filter(s, f))
  {
    if s != [] {
      var rest, x := s[..|s| - 1], s[|s| - 1];
      FilterPicked(rest, f);
      assert s == rest + [x];
      PickedStep(rest, Where(rest, f), Filter(rest, f), x, Where(s, f));
    }
  }

  lemma {:induction false} FilterConcat<T>(a: seq<T>, b: seq<T>, f: T -> bool)
    ensures Filter(a + b, f) == Filter(a, f) + Filter(b, f)
    decreases |b|
  {
    if b == [] {
      assert a + b == a;
    } else {
      assert (a + b)[..|a + b| - 1] == a + b[..|b| - 1];
      FilterConcat(a, b[..|b| - 1], f);
    }
  }

  ghost function Sum<T>(s: seq<T>, w: T -> nat): (n: nat)
  {
    if s == [] then 0 else Sum(s[..|s| - 1], w) + w(s[|s| - 1])
  }

  lemma {:induction false} SumConcat<T>(a: seq<T>, b: seq<T>, w: T -> nat)
    ensures Sum(a + b, w) == Sum(a, w) + Sum(b, w)
    decreases |b|
  {
    if b == [] {
      assert a + b == a;
    } else {
      assert (a + b)[..|a + b| - 1] == a + b[..|b| - 1];
      SumConcat(a, b[..|b| - 1], w);
    }
  }

  lemma SumOne<T>(x: T, w: T -> nat)
    ensures Sum([x], w) == w(x)
  {
    assert [x][..0] == [];
  }

  lemma FilterOne<T>(x: T, f: T -> bool)
    ensures Filter([x], f) == if f(x) then [x] else []
  {
    assert [x][..0] == [];
  }

  lemma FilterAround<T>(a: seq<T>, x: T, b: seq<T>, f: T -> bool)
    ensures Filter(a + ([x] + b), f) == Filter(a, f) + ((if f(x) then [x] else []) + Filter(b, f))
  {
    FilterConcat(a, [x] + b, f);
    FilterConcat([x], b, f);
    FilterOne(x, f);
  }

  lemma SumAround<T>(a: seq<T>, x: T, b: seq<T>, w: T -> nat)
    ensures Sum(a + ([x] + b), w) == Sum(a, w) + (w(x) + Sum(b, w))
  {
    SumConcat(a, [x] + b, w);
    SumConcat([x], b, w);
    SumOne(x, w);
  }
}
