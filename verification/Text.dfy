/** The string functions of Go's standard library that the repository's codecs use.
    A character stands for one byte of the Go string. */
module Text {

  /** strings.Split on a one-character separator. */
  function Split(s: string, sep: char): (ls: seq<string>)
    ensures |ls| >= 1
    ensures forall i :: 0 <= i < |ls| ==> sep !in ls[i]
  {
    if s == "" then [""]
    else
      var r := Split(s[1..], sep);
      if s[0] == sep then [""] + r else [[s[0]] + r[0]] + r[1..]
  }

  /** strings.Join. */
  function Join(ls: seq<string>, sep: char): (s: string)
  {
    if |ls| == 0 then "" else if |ls| == 1 then ls[0] else ls[0] + [sep] + Join(ls[1..], sep)
  }

  lemma {:induction false} JoinSplit(s: string, sep: char)
    ensures Join(Split(s, sep), sep) == s
  {
    if s != "" {
      JoinSplit(s[1..], sep);
      var r, ls := Split(s[1..], sep), Split(s, sep);
      if s[0] == sep {
        assert ls[1..] == r;
      } else if |r| > 1 {
        assert ls[1..] == r[1..];
      }
    }
  }

  lemma {:induction false} SplitFree(s: string, sep: char)
    requires sep !in s
    ensures Split(s, sep) == [s]
  {
    if s != "" {
      SplitFree(s[1..], sep);
      assert s == [s[0]] + s[1..];
    }
  }

  lemma Regroup(r: seq<string>, t: seq<string>, c: char)
    requires |r| >= 1
    ensures [""] + (r + t) == ([""] + r) + t
    ensures [[c] + (r + t)[0]] + (r + t)[1..] == ([[c] + r[0]] + r[1..]) + t
  {
  }

  /** Splitting at a known separator. */
  lemma {:induction false} SplitAt(a: string, b: string, sep: char)
    ensures Split(a + [sep] + b, sep) == Split(a, sep) + Split(b, sep)
  {
    var s := a + [sep] + b;
    if a == "" {
      assert s[1..] == b;
    } else {
      assert s[1..] == a[1..] + [sep] + b && s[0] == a[0];
      SplitAt(a[1..], b, sep);
      Regroup(Split(a[1..], sep), Split(b, sep), a[0]);
    }
  }

  lemma {:induction false} JoinConcat(a: seq<string>, b: seq<string>, sep: char)
    requires |a| >= 1 && |b| >= 1
    ensures Join(a + b, sep) == Join(a, sep) + [sep] + Join(b, sep)
  {
    if |a| == 1 {
      assert (a + b)[1..] == b;
    } else {
      assert (a + b)[1..] == a[1..] + b;
      JoinConcat(a[1..], b, sep);
    }
  }

  /** strings.ReplaceAll for a non-empty pattern: leftmost matches, not overlapping. */
  function ReplaceAll(s: string, pat: string, sub: string): (r: string)
    requires pat != ""
    decreases |s|
  {
    if |s| < |pat| then s
    else if s[..|pat|] == pat then sub + ReplaceAll(s[|pat|..], pat, sub)
    else [s[0]] + ReplaceAll(s[1..], pat, sub)
  }
}
