/** The config filters of core/commands/config.go: the scrubber behind `config show` and
    the glob matcher behind `config <key>`. */
module Config {
  import opened Text
  import opened Wrappers

  /** A decoded JSON value, as far as the scrubber looks into it. */
  datatype Value = Leaf(id: int) | Map(m: map<string, Value>)

  /** Case folding: the representative of a character's folding class. */
  type Folding = char -> char

  /** strings.EqualFold. */
  predicate EqualFold(fold: Folding, a: string, b: string)
  {
    |a| == |b| && forall i :: 0 <= i < |a| ==> fold(a[i]) == fold(b[i])
  }

  predicate Hits(fold: Folding, pattern: string, part: string) { pattern == "*" || EqualFold(fold, pattern, part) }

  // ------------------------------------------------------------------ specification

  /** The patterns match the parts, as far as both go. */
  ghost predicate Matches(fold: Folding, path: seq<string>, glob: seq<string>)
  {
    forall i :: 0 <= i < |path| && i < |glob| ==> Hits(fold, glob[i], path[i])
  }

  /** The value at a path. */
  ghost function At(v: Value, path: seq<string>): (r: Option<Value>)
    decreases |path|
  {
    if path == [] then Some(v)
    else if v.Map? && path[0] in v.m then At(v.m[path[0]], path[1..])
    else None
  }

  /** The scrubbed map: a hit map is scrubbed below, a hit leaf goes. */
  ghost function Scrub(fold: Folding, m: map<string, Value>, key: seq<string>): (r: map<string, Value>)
    decreases |key|
  {
    if key == [] then map[]
    else map k | k in m && (Hits(fold, key[0], k) ==> m[k].Map?) ::
           if Hits(fold, key[0], k) then Map(Scrub(fold, m[k].m, key[1..])) else m[k]
  }

  // ------------------------------------------------------------------ operations

  /** matchesGlobPrefix. */
  method MatchesGlobPrefix(fold: Folding, key: string, glob: seq<string>) returns (r: bool)
    ensures r <==> Matches(fold, Split(key, '.'), glob)
  {
    var k := Split(key, '.');
    for i := 0 to |glob|
      invariant i <= |k| && forall j :: 0 <= j < i ==> Hits(fold, glob[j], k[j])
    {
      if i >= |k| { break; }
      if glob[i] == "*" { continue; }
      if !EqualFold(fold, k[i], glob[i]) {
        assert !Hits(fold, glob[i], k[i]);
        return false;
      }
    }
    return true;
  }

  /** MapGetKV: what `config <key>` reads, the value at the path that the key's dots make. */
  method MapGetKV(m: map<string, Value>, key: string) returns (r: Option<Value>)
    ensures r == At(Map(m), Split(key, '.'))
  {
    var parts := Split(key, '.');
    var cursor := Map(m);
    for i := 0 to |parts|
      invariant At(Map(m), parts) == At(cursor, parts[i..])
    {
      if !cursor.Map? || parts[i] !in cursor.m { return None; }
      assert parts[i..][1..] == parts[i + 1..];
      cursor := cursor.m[parts[i]];
    }
    return Some(cursor);
  }

  /** scrubValueInternal. */
  method ScrubValueInternal(isNil: bool, okIfMissing: bool) returns (err: bool)
    ensures err <==> isNil && !okIfMissing
  {
    return isNil && !okIfMissing;
  }

  /** scrubEither.  For a leaf it hands on the failed type assertion's nil map, which as an
      interface value is not nil: the leaf goes and no error can arise. */
  method ScrubEither(fold: Folding, u: Value, key: seq<string>, okIfMissing: bool)
    returns (r: Option<Value>, err: bool)
    ensures !err
    ensures r == if u.Map? then Some(Map(Scrub(fold, u.m, key))) else None
    decreases |key|, 1
  {
    if u.Map? {
      var n;
      n, err := ScrubMapInternal(fold, u.m, key, okIfMissing);
      r := Some(Map(n));
    } else {
      err := ScrubValueInternal(false, okIfMissing);
      r := None;
    }
  }

  /** scrubMapInternal: a fresh map, filled in any order of the keys.  Whatever
      `okIfMissing` says, it never fails. */
  method ScrubMapInternal(fold: Folding, m: map<string, Value>, key: seq<string>, okIfMissing: bool)
    returns (n: map<string, Value>, err: bool)
    ensures !err && n == Scrub(fold, m, key)
    decreases |key|, 0
  {
    n, err := map[], false;
    if key == [] { return; }
    var todo := m.Keys;
    ghost var done: set<string> := {};
    while todo != {}
      invariant !err && todo + done == m.Keys && todo !! done
      invariant n.Keys == Scrub(fold, m, key).Keys * done
      invariant forall k :: k in n ==> n[k] == Scrub(fold, m, key)[k]
    {
      var k :| k in todo;
      todo, done := todo - {k}, done + {k};
      if key[0] == "*" || EqualFold(fold, key[0], k) {
        var u;
        u, err := ScrubEither(fold, m[k], key[1..], okIfMissing);
        if err { return; }
        if u.Some? { n := n[k := u.value]; }
      } else {
        n := n[k := m[k]];
      }
    }
    assert done == m.Keys;
    assert n.Keys == Scrub(fold, m, key).Keys;
  }

  // ------------------------------------------------------------------ properties

  /** Paths compose: the empty one stays, one part looks up one key, and a longer one goes on
      from where its start leads. */
  lemma {:induction false} AtConcat(v: Value, a: seq<string>, b: seq<string>)
    ensures At(v, []) == Some(v)
    ensures At(v, a + b) == match At(v, a) case Some(w) => At(w, b) case None => None
    decreases |a|
  {
    if a == [] {
      assert a + b == b;
    } else {
      assert (a + b)[0] == a[0] && (a + b)[1..] == a[1..] + b;
      if v.Map? && a[0] in v.m { AtConcat(v.m[a[0]], a[1..], b); }
    }
  }

  lemma AtOne(v: Value, k: string)
    ensures At(v, [k]) == if v.Map? && k in v.m then Some(v.m[k]) else None
  {
    assert [k][1..] == [];
  }

  /** What scrubbing does at every path: a path the selector rejects is untouched; on an
      accepted one only the maps no deeper than the selector remain, scrubbed by the rest
      of the selector. */
  lemma {:induction false} ScrubAt(fold: Folding, m: map<string, Value>, key: seq<string>, path: seq<string>)
    requires path != []
    ensures var was := At(Map(m), path);
            At(Map(Scrub(fold, m, key)), path) ==
              if !Matches(fold, path, key) then was
              else if was.Some? && was.value.Map? && |path| <= |key|
              then Some(Map(Scrub(fold, was.value.m, key[|path|..])))
              else None
    decreases |path|
  {
    var p, rest := path[0], path[1..];
    if key != [] {
      MatchesStep(fold, path, key);
      if p in m && Hits(fold, key[0], p) && m[p].Map? {
        var sub := Scrub(fold, m[p].m, key[1..]);
        assert Scrub(fold, m, key)[p] == Map(sub);
        if rest != [] {
          ScrubAt(fold, m[p].m, key[1..], rest);
          assert |path| <= |key| ==> key[1..][|rest|..] == key[|path|..];
        }
      }
    }
  }

  lemma MatchesStep(fold: Folding, path: seq<string>, key: seq<string>)
    requires path != [] && key != []
    ensures Matches(fold, path, key) <==> Hits(fold, key[0], path[0]) && Matches(fold, path[1..], key[1..])
  {
    if Hits(fold, key[0], path[0]) && Matches(fold, path[1..], key[1..]) {
      forall i | 0 <= i < |path| && i < |key| ensures Hits(fold, key[i], path[i]) {
        if i > 0 { assert key[i] == key[1..][i - 1] && path[i] == path[1..][i - 1]; }
      }
    }
    if Matches(fold, path, key) {
      forall i | 0 <= i < |path[1..]| && i < |key[1..]| ensures Hits(fold, key[1..][i], path[1..][i]) {
        assert Hits(fold, key[i + 1], path[i + 1]);
      }
    }
  }

  ghost function Folded(fold: Folding, s: string): (r: string)
  {
    seq(|s|, i requires 0 <= i < |s| => fold(s[i]))
  }

  ghost function FoldedPath(fold: Folding, path: seq<string>): (r: seq<string>)
  {
    seq(|path|, i requires 0 <= i < |path| => Folded(fold, path[i]))
  }

  /** Parts are compared by their foldings. */
  lemma EqualFoldMeaning(fold: Folding, a: string, b: string)
    ensures EqualFold(fold, a, b) <==> Folded(fold, a) == Folded(fold, b)
  {
    if Folded(fold, a) == Folded(fold, b) {
      forall i | 0 <= i < |a| ensures fold(a[i]) == fold(b[i]) {
        assert Folded(fold, a)[i] == fold(a[i]) && Folded(fold, b)[i] == fold(b[i]);
      }
    }
  }

  /** So paths that are equal up to folding are treated alike. */
  lemma FoldedAlike(fold: Folding, path: seq<string>, path': seq<string>, glob: seq<string>)
    requires FoldedPath(fold, path) == FoldedPath(fold, path')
    ensures Matches(fold, path, glob) <==> Matches(fold, path', glob)
  {
    assert |path| == |FoldedPath(fold, path)| == |path'|;
    forall i | 0 <= i < |path| && i < |glob| ensures Hits(fold, glob[i], path[i]) <==> Hits(fold, glob[i], path'[i]) {
      assert FoldedPath(fold, path)[i] == Folded(fold, path[i]);
      assert FoldedPath(fold, path')[i] == Folded(fold, path'[i]);
      EqualFoldMeaning(fold, glob[i], path[i]);
      EqualFoldMeaning(fold, glob[i], path'[i]);
    }
  }

  /** The selector that both commands use, config.PinningConcealSelector. */
  const CONCEAL: seq<string> := ["Pinning", "RemoteServices", "*", "API", "Key"]

  /** Written out: a path that is, up to case, `Pinning.RemoteServices.<any>.API.Key`, a
      start of that, or a continuation. */
  ghost predicate Concealed(fold: Folding, path: seq<string>)
  {
    && (|path| > 0 ==> Folded(fold, path[0]) == Folded(fold, "Pinning"))
    && (|path| > 1 ==> Folded(fold, path[1]) == Folded(fold, "RemoteServices"))
    && (|path| > 3 ==> Folded(fold, path[3]) == Folded(fold, "API"))
    && (|path| > 4 ==> Folded(fold, path[4]) == Folded(fold, "Key"))
  }

  lemma ConcealMatches(fold: Folding, path: seq<string>)
    ensures Matches(fold, path, CONCEAL) <==> Concealed(fold, path)
  {
    forall i | 0 <= i < |path| && i < 5 && i != 2
      ensures Hits(fold, CONCEAL[i], path[i]) <==> Folded(fold, path[i]) == Folded(fold, CONCEAL[i])
    {
      EqualFoldMeaning(fold, CONCEAL[i], path[i]);
      assert |CONCEAL[i]| > 1;
    }
    if Concealed(fold, path) {
      forall i | 0 <= i < |path| && i < |CONCEAL| ensures Hits(fold, CONCEAL[i], path[i]) { }
    }
  }

  /** So `config show` shows exactly the leaves at other paths. */
  lemma ShownExactly(fold: Folding, m: map<string, Value>, path: seq<string>, id: int)
    requires path != []
    ensures Shown(fold, m, CONCEAL, path, id) <==> At(Map(m), path) == Some(Leaf(id)) && !Concealed(fold, path)
  {
    ScrubAt(fold, m, CONCEAL, path);
    ConcealMatches(fold, path);
  }

  ghost predicate Shown(fold: Folding, m: map<string, Value>, key: seq<string>, path: seq<string>, id: int)
  {
    At(Map(Scrub(fold, m, key)), path) == Some(Leaf(id))
  }

  /** `config <key>` refuses the dotted key of a path. */
  ghost predicate Refused(fold: Folding, key: seq<string>, path: seq<string>)
  {
    Matches(fold, Split(Join(path, '.'), '.'), key)
  }

  /** The parts of a dotted key are the path's parts, each split at its dots. */
  ghost function Pieces(path: seq<string>): (r: seq<string>)
  {
    if path == [] then [] else Split(path[0], '.') + Pieces(path[1..])
  }

  lemma {:induction false} PiecesOf(path: seq<string>)
    requires path != []
    ensures Split(Join(path, '.'), '.') == Pieces(path)
  {
    if |path| > 1 {
      PiecesOf(path[1..]);
      SplitAt(path[0], Join(path[1..], '.'), '.');
    }
  }

  /** A leaf is shown or gone; it is shown exactly when it is not refused iff the selector
      treats the path and its pieces alike. */
  lemma FiltersAgree(fold: Folding, m: map<string, Value>, key: seq<string>, path: seq<string>, id: int)
    requires path != [] && At(Map(m), path) == Some(Leaf(id))
    ensures Shown(fold, m, key, path, id) || At(Map(Scrub(fold, m, key)), path) == None
    ensures (Shown(fold, m, key, path, id) <==> !Refused(fold, key, path)) <==>
            (Matches(fold, path, key) <==> Matches(fold, Pieces(path), key))
  {
    PiecesOf(path);
    ScrubAt(fold, m, key, path);
  }

  lemma {:induction false} PiecesStart(path: seq<string>, n: nat)
    requires n <= |path| && forall i :: 0 <= i < n ==> '.' !in path[i]
    ensures n <= |Pieces(path)| && Pieces(path)[..n] == path[..n] && (n == |path| ==> Pieces(path) == path)
    decreases n
  {
    if n > 0 {
      SplitFree(path[0], '.');
      PiecesStart(path[1..], n - 1);
      assert Pieces(path) == [path[0]] + Pieces(path[1..]);
      assert path == [path[0]] + path[1..];
    }
  }

  /** So they agree when no key that the selector looks at has a dot. */
  lemma FiltersAgreeWithoutDots(fold: Folding, m: map<string, Value>, key: seq<string>, path: seq<string>, id: int)
    requires path != [] && At(Map(m), path) == Some(Leaf(id))
    requires forall i :: 0 <= i < |path| && i < |key| ==> '.' !in path[i]
    ensures Shown(fold, m, key, path, id) <==> !Refused(fold, key, path)
  {
    FiltersAgree(fold, m, key, path, id);
    var n := if |path| < |key| then |path| else |key|;
    PiecesStart(path, n);
    assert forall i :: 0 <= i < n ==> Pieces(path)[i] == Pieces(path)[..n][i] && path[i] == path[..n][i];
    assert Matches(fold, path, key) <==> Matches(fold, Pieces(path), key);
  }

  /** A config with one leaf. */
  ghost function Only(path: seq<string>, id: int): (v: Value)
  {
    if path == [] then Leaf(id) else Map(map[path[0] := Only(path[1..], id)])
  }

  lemma {:induction false} OnlyAt(path: seq<string>, id: int)
    ensures At(Only(path, id), path) == Some(Leaf(id))
  {
    if path != [] { OnlyAt(path[1..], id); }
  }

  lemma SplitTwo(a: string, b: string)
    requires '.' !in a && '.' !in b
    ensures Split(a + ['.'] + b, '.') == [a, b]
  {
    SplitAt(a, b, '.');
    SplitFree(a, '.');
    SplitFree(b, '.');
  }

  /** A selector's first two patterns joined by a dot, as one key: the leaf is shown, for the
      key is too long for the first pattern, and its dotted key is refused. */
  lemma JoinedKeyShown(fold: Folding, sel: seq<string>, id: int)
    requires |sel| >= 2 && sel[0] != "*" && '.' !in sel[0] && '.' !in sel[1]
    ensures var path := [sel[0] + ['.'] + sel[1]];
            && At(Only(path, id), path) == Some(Leaf(id))
            && Shown(fold, Only(path, id).m, sel, path, id) && Refused(fold, sel, path)
  {
    var path := [sel[0] + ['.'] + sel[1]];
    OnlyAt(path, id);
    assert !Hits(fold, sel[0], path[0]);
    ScrubAt(fold, Only(path, id).m, sel, path);
    assert Join(path, '.') == path[0];
    SplitTwo(sel[0], sel[1]);
  }

  /** A dotted name where the selector has a wildcard: the leaf is hidden, and its dotted key
      is not refused unless the name's second half happens to hit the next pattern. */
  lemma DottedNameHidden(fold: Folding, sel: seq<string>, x: string, y: string, id: int)
    requires |sel| == 5 && sel[2] == "*" && (forall i :: 0 <= i < 5 ==> '.' !in sel[i])
    requires '.' !in x && '.' !in y && !Hits(fold, sel[3], y)
    ensures var path := [sel[0], sel[1], x + ['.'] + y, sel[3], sel[4]];
            && At(Only(path, id), path) == Some(Leaf(id))
            && !Shown(fold, Only(path, id).m, sel, path, id) && !Refused(fold, sel, path)
  {
    var path := [sel[0], sel[1], x + ['.'] + y, sel[3], sel[4]];
    OnlyAt(path, id);
    assert Matches(fold, path, sel);
    ScrubAt(fold, Only(path, id).m, sel, path);
    PiecesOf(path);
    assert Pieces(path)[3] == y by {
      SplitFree(sel[0], '.');
      SplitFree(sel[1], '.');
      SplitTwo(x, y);
      assert path[1..][1..] == path[2..];
      assert Pieces(path) == [sel[0]] + ([sel[1]] + Pieces(path[2..]));
      assert Pieces(path[2..]) == [x, y] + Pieces(path[2..][1..]);
    }
  }

  /** So at the commands' own selector they disagree in both directions: the leaf at the one
      key `Pinning.RemoteServices` is shown, and its dotted key refused ... */
  lemma ShownThoughRefused(fold: Folding, id: int)
    ensures var path := [CONCEAL[0] + ['.'] + CONCEAL[1]];
            && At(Only(path, id), path) == Some(Leaf(id))
            && Shown(fold, Only(path, id).m, CONCEAL, path, id) && Refused(fold, CONCEAL, path)
  {
    JoinedKeyShown(fold, CONCEAL, id);
  }

  /** ... and the API key of a service named `my.service` is hidden, and its dotted key not
      refused. */
  lemma HiddenThoughNotRefused(fold: Folding, id: int)
    ensures var path := [CONCEAL[0], CONCEAL[1], "my" + ['.'] + "service", CONCEAL[3], CONCEAL[4]];
            && At(Only(path, id), path) == Some(Leaf(id))
            && !Shown(fold, Only(path, id).m, CONCEAL, path, id) && !Refused(fold, CONCEAL, path)
  {
    var sel := CONCEAL;
    assert |sel[3]| == 3 && sel[3] != "*";
    DottedNameHidden(fold, sel, "my", "service", id);
  }

  /** But a key of `config <key>` can only name a path without dots.  Whatever it reads when
      it is not refused, a leaf or a map, is shown in full. */
  lemma ReadableIsShown(fold: Folding, m: map<string, Value>, sel: seq<string>, key: string)
    ensures !Matches(fold, Split(key, '.'), sel) ==>
              At(Map(Scrub(fold, m, sel)), Split(key, '.')) == At(Map(m), Split(key, '.'))
    ensures Matches(fold, Split(key, '.'), sel) ==>
              forall id :: !Shown(fold, m, sel, Split(key, '.'), id)
  {
    ScrubAt(fold, m, sel, Split(key, '.'));
  }

  /** Scrubbing shows nothing new: every leaf it leaves was there. */
  lemma ScrubAddsNothing(fold: Folding, m: map<string, Value>, key: seq<string>, path: seq<string>, id: int)
    requires path != [] && At(Map(Scrub(fold, m, key)), path) == Some(Leaf(id))
    ensures At(Map(m), path) == Some(Leaf(id)) && !Matches(fold, path, key)
  {
    ScrubAt(fold, m, key, path);
  }
}
