/** The DNSLink label codec of core/corehttp/hostname.go. */
module DnsLink {
  import opened Text
  import opened Wrappers

  const DNS_LABEL_MAX_LENGTH := 63

  /** toDNSLinkDNSLabel; `None` is its error. */
  function ToLabel(fqdn: string): (r: Option<string>)
  {
    var dnsLabel := ReplaceAll(ReplaceAll(fqdn, "-", "--"), ".", "-");
    if |dnsLabel| > DNS_LABEL_MAX_LENGTH then None else Some(dnsLabel)
  }

  /** toDNSLinkFQDN. */
  function ToName(dnsLabel: string): (r: string)
  {
    ReplaceAll(ReplaceAll(ReplaceAll(dnsLabel, "--", "@"), "-", "."), "@", "-")
  }

  // ------------------------------------------------------------------ one-pass forms

  /** The encoding, character by character. */
  ghost function Enc(s: string): (r: string)
  {
    if s == "" then "" else (if s[0] == '-' then "--" else if s[0] == '.' then "-" else [s[0]]) + Enc(s[1..])
  }

  /** The decoding, left to right: a pair of dashes, a single dash, an at sign. */
  ghost function Dec(s: string): (r: string)
    decreases |s|
  {
    if s == "" then ""
    else if |s| >= 2 && s[0] == '-' && s[1] == '-' then "-" + Dec(s[2..])
    else (if s[0] == '-' then "." else if s[0] == '@' then "-" else [s[0]]) + Dec(s[1..])
  }

  /** Replacing one character, from the left. */
  lemma ReplaceHead(h: char, a: string, c: char, sub: string)
    ensures ReplaceAll([h] + a, [c], sub) == (if h == c then sub else [h]) + ReplaceAll(a, [c], sub)
  {
    var s := [h] + a;
    assert s[..1] == [h] && s[1..] == a;
  }

  lemma {:induction false} EncIs(s: string)
    ensures ReplaceAll(ReplaceAll(s, "-", "--"), ".", "-") == Enc(s)
  {
    if s != "" {
      EncIs(s[1..]);
      EncHead(s[0], s[1..]);
      assert [s[0]] + s[1..] == s;
    }
  }

  lemma EncHead(h: char, rest: string)
    ensures ReplaceAll(ReplaceAll([h] + rest, "-", "--"), ".", "-") ==
            (if h == '-' then "--" else if h == '.' then "-" else [h])
            + ReplaceAll(ReplaceAll(rest, "-", "--"), ".", "-")
  {
    var t := ReplaceAll(rest, "-", "--");
    assert ReplaceAll([h] + rest, "-", "--") == (if h == '-' then "--" else [h]) + t by {
      ReplaceHead(h, rest, '-', "--");
    }
    if h == '-' { UndottedPair(t); } else { ReplaceHead(h, t, '.', "-"); }
  }

  lemma UndottedPair(t: string)
    ensures ReplaceAll("--" + t, ".", "-") == "--" + ReplaceAll(t, ".", "-")
  {
    var u := ['-'] + t;
    assert "--" + t == ['-'] + u;
    assert ReplaceAll(['-'] + u, ".", "-") == ['-'] + ReplaceAll(u, ".", "-") by { ReplaceHead('-', u, '.', "-"); }
    assert ReplaceAll(u, ".", "-") == ['-'] + ReplaceAll(t, ".", "-") by { ReplaceHead('-', t, '.', "-"); }
  }

  /** Replacing pairs of dashes, from the left. */
  lemma ReplacePair(s: string)
    requires s != ""
    ensures var pair := |s| >= 2 && s[0] == '-' && s[1] == '-';
            ReplaceAll(s, "--", "@") ==
              if pair then ['@'] + ReplaceAll(s[2..], "--", "@") else [s[0]] + ReplaceAll(s[1..], "--", "@")
  {
    if |s| >= 2 { assert s[..2] == [s[0], s[1]]; }
  }

  lemma {:induction false} DecIs(s: string)
    ensures ToName(s) == Dec(s)
    decreases |s|
  {
    if s != "" {
      var pair := |s| >= 2 && s[0] == '-' && s[1] == '-';
      var rest, h := if pair then s[2..] else s[1..], if pair then '@' else s[0];
      DecIs(rest);
      DecHead(s, rest, h);
    }
  }

  lemma DecHead(s: string, rest: string, h: char)
    requires s != ""
    requires if |s| >= 2 && s[0] == '-' && s[1] == '-' then rest == s[2..] && h == '@' else rest == s[1..] && h == s[0]
    ensures ToName(s) == (if h == '@' then "-" else if h == '-' then "." else [h]) + ToName(rest)
  {
    var a := ReplaceAll(rest, "--", "@");
    var b, k := ReplaceAll(a, "-", "."), if h == '-' then '.' else h;
    assert ReplaceAll(s, "--", "@") == [h] + a by { ReplacePair(s); }
    assert ReplaceAll([h] + a, "-", ".") == [k] + b by { ReplaceHead(h, a, '-', "."); }
    assert ReplaceAll([k] + b, "@", "-") == (if k == '@' then "-" else [k]) + ReplaceAll(b, "@", "-") by {
      ReplaceHead(k, b, '@', "-");
    }
  }

  // ------------------------------------------------------------------ round trips

  /** No at sign, and no dot followed by a dot or a dash. */
  predicate Clean(name: string)
  {
    && '@' !in name
    && forall i :: 0 <= i < |name| - 1 && name[i] == '.' ==> name[i + 1] != '.' && name[i + 1] != '-'
  }

  /** A name whose first character the codec cannot carry. */
  predicate Stuck(s: string)
    requires s != ""
  {
    s[0] == '@' || (s[0] == '.' && |s| >= 2 && (s[1] == '.' || s[1] == '-'))
  }

  lemma CleanStep(s: string)
    requires s != ""
    ensures Clean(s) <==> !Stuck(s) && Clean(s[1..])
  {
    var rest := s[1..];
    assert s == [s[0]] + rest;
    assert forall i :: 0 <= i < |rest| ==> rest[i] == s[i + 1];
    assert forall i :: 1 <= i < |s| ==> s[i] == rest[i - 1];
  }

  lemma StuckDiffers(s: string)
    requires s != "" && Stuck(s)
    ensures Dec(Enc(s)) != s
  {
    if s[0] == '.' {
      assert Enc(s) == "-" + Enc(s[1..]);
      assert Enc(s[1..])[0] == '-';
      assert Dec(Enc(s))[0] == '-';
    }
  }

  lemma DecStep(s: string)
    requires s != "" && !Stuck(s)
    ensures Dec(Enc(s)) == [s[0]] + Dec(Enc(s[1..]))
  {
    var e, t := Enc(s), Enc(s[1..]);
    if s[0] == '-' {
      assert e == "--" + t && e[2..] == t;
    } else {
      assert e[1..] == t;
      if s[0] == '.' && |s| >= 2 { assert t[0] == s[1]; }
    }
  }

  lemma {:induction false} NameRoundTrip(s: string)
    ensures Dec(Enc(s)) == s <==> Clean(s)
    decreases |s|
  {
    if s != "" {
      CleanStep(s);
      if Stuck(s) {
        StuckDiffers(s);
      } else {
        DecStep(s);
        NameRoundTrip(s[1..]);
        assert s == [s[0]] + s[1..];
        assert Dec(Enc(s))[1..] == Dec(Enc(s[1..]));
      }
    }
  }

  /** A character the codec carries: the rest is coded as it would be on its own. */
  lemma LabelStep(s: string, head: string, rest: string)
    requires s != "" && s[0] != '.' && s[0] != '@' && s == head + rest
    requires head == if |s| >= 2 && s[0] == '-' && s[1] == '-' then "--" else [s[0]]
    ensures Enc(Dec(s)) == head + Enc(Dec(rest))
  {
    assert rest == s[|head|..];
    var h := if head == "--" then '-' else if s[0] == '-' then '.' else s[0];
    assert Dec(s) == [h] + Dec(rest);
    assert Dec(s)[1..] == Dec(rest);
  }

  lemma LabelStuck(s: string)
    requires s != "" && (s[0] == '.' || s[0] == '@')
    ensures Enc(Dec(s)) != s
  {
    assert Dec(s)[0] == '.' || Dec(s)[0] == '-';
    assert Enc(Dec(s))[0] == '-';
  }

  lemma SameTail(head: string, a: string, b: string)
    ensures head + a == head + b <==> a == b
  {
    assert (head + a)[|head|..] == a && (head + b)[|head|..] == b;
  }

  lemma {:induction false} LabelRoundTrip(s: string)
    ensures Enc(Dec(s)) == s <==> '.' !in s && '@' !in s
    decreases |s|
  {
    if s != "" {
      if s[0] == '.' || s[0] == '@' {
        LabelStuck(s);
      } else {
        var head := if |s| >= 2 && s[0] == '-' && s[1] == '-' then "--" else [s[0]];
        var rest := s[|head|..];
        assert s == head + rest;
        LabelRoundTrip(rest);
        LabelStep(s, head, rest);
        SameTail(head, Enc(Dec(rest)), rest);
      }
    }
  }

  /** Decoding the label of a name gives the name back iff the name has no at sign and no
      dot before a dot or a dash. */
  lemma NameThereAndBack(name: string)
    ensures ToLabel(name).Some? ==> (ToName(ToLabel(name).value) == name <==> Clean(name))
  {
    EncIs(name);
    DecIs(Enc(name));
    NameRoundTrip(name);
  }

  /** Encoding the decoding of a label gives the label back iff it fits and has neither a
      dot nor an at sign. */
  lemma LabelThereAndBack(dnsLabel: string)
    ensures ToLabel(ToName(dnsLabel)) == Some(dnsLabel) <==>
            |dnsLabel| <= 63 && '.' !in dnsLabel && '@' !in dnsLabel
  {
    DecIs(dnsLabel);
    EncIs(Dec(dnsLabel));
    LabelRoundTrip(dnsLabel);
  }

  /** The encoding is a single DNS label: it has no dot; and it fails exactly when the
      name's length plus its dashes exceeds the limit. */
  lemma {:induction false} LabelShape(name: string)
    ensures '.' !in Enc(name) && |Enc(name)| == |name| + multiset(name)['-']
  {
    if name != "" {
      LabelShape(name[1..]);
      assert name == [name[0]] + name[1..];
    }
  }

  lemma ToLabelSucceeds(name: string)
    ensures ToLabel(name).Some? <==> |name| + multiset(name)['-'] <= 63
    ensures ToLabel(name).Some? ==> '.' !in ToLabel(name).value
  {
    EncIs(name);
    LabelShape(name);
  }

  /** A host name in the preferred syntax of section 3.5 of RFC 1034: labels of letters,
      digits and inner dashes, separated by dots. */
  ghost predicate PreferredLabel(l: string)
  {
    l != "" && l[0] != '-' && l[|l| - 1] != '-' &&
    forall c :: c in l ==> 'a' <= c <= 'z' || 'A' <= c <= 'Z' || '0' <= c <= '9' || c == '-'
  }

  ghost predicate PreferredName(name: string)
  {
    forall i :: 0 <= i < |Split(name, '.')| ==> PreferredLabel(Split(name, '.')[i])
  }

  lemma {:induction false} PreferredIsClean(ls: seq<string>)
    requires |ls| >= 1 && forall i :: 0 <= i < |ls| ==> PreferredLabel(ls[i])
    ensures ls[0] != "" && Join(ls, '.') != "" && Join(ls, '.')[0] == ls[0][0]
    ensures Clean(Join(ls, '.'))
  {
    assert PreferredLabel(ls[0]);
    assert forall i :: 0 <= i < |ls[0]| ==> ls[0][i] in ls[0];
    if |ls| > 1 {
      PreferredIsClean(ls[1..]);
      var a, b := ls[0], Join(ls[1..], '.');
      var s := a + ['.'] + b;
      assert forall i :: 0 <= i < |a| ==> s[i] == a[i];
      assert forall i :: 0 <= i < |b| ==> s[|a| + 1 + i] == b[i];
      assert PreferredLabel(ls[1]) && b[0] == ls[1][0] && ls[1][0] in ls[1];
    }
  }

  /** Names of each kind that are lost. */
  lemma NamesLost()
    ensures forall name :: name == "a..b" || name == "a.-b" || name == "a@b" ==>
              ToLabel(name).Some? && ToName(ToLabel(name).value) != name
  {
    assert "a..b"[1] == '.' && "a..b"[2] == '.' && !Clean("a..b");
    assert "a.-b"[1] == '.' && "a.-b"[2] == '-' && !Clean("a.-b");
    assert "a@b"[1] == '@' && !Clean("a@b");
    forall name | name == "a..b" || name == "a.-b" || name == "a@b"
      ensures ToLabel(name).Some? && ToName(ToLabel(name).value) != name
    {
      assert multiset(name)['-'] <= |name|;
      ToLabelSucceeds(name);
      NameThereAndBack(name);
    }
  }

  /** So every such name that fits survives the round trip. */
  lemma PreferredNamesSurvive(name: string)
    requires PreferredName(name) && ToLabel(name).Some?
    ensures ToName(ToLabel(name).value) == name
  {
    PreferredIsClean(Split(name, '.'));
    JoinSplit(name, '.');
    NameThereAndBack(name);
  }
}
