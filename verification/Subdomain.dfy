/** Subdomain gateway hosts, {rootID}.{ns}.{gateway}: core/corehttp/hostname.go. */
module Subdomain {
  import opened Text
  import opened Wrappers

  type Spec = nat   // identifies a gateway's configuration

  /** isKnownHostname, as the configuration makes it: any lookup of host names. */
  type Lookup = string -> Option<Spec>

  predicate IsNamespace(ns: string) { ns == "ipfs" || ns == "ipns" || ns == "p2p" || ns == "ipld" }

  datatype Details = Found(gw: Spec, gwHostname: string, ns: string, rootID: string) | NoMatch

  /** The host part that toSubdomainURL assembles. */
  function Assemble(rootID: string, ns: string, gateway: string): (host: string)
  {
    rootID + "." + ns + "." + gateway
  }

  // ------------------------------------------------------------------ specification

  /** `host` reads as {rootID}.{ns}.{gateway} with a known gateway and a namespace. */
  ghost predicate Reads(known: Lookup, host: string, rootID: string, ns: string, gateway: string)
  {
    && host == rootID + "." + ns + "." + gateway && ns in {"ipfs", "ipns", "p2p", "ipld"}
    && known(gateway).Some?
  }

  /** The split of the labels at `i` is such a reading. */
  ghost predicate ValidAt(known: Lookup, labels: seq<string>, i: int)
  {
    2 <= i < |labels| && known(Join(labels[i..], '.')).Some? && IsNamespace(labels[i - 1])
  }

  ghost function ReadAt(known: Lookup, labels: seq<string>, i: int): (d: Details)
    requires ValidAt(known, labels, i)
  {
    var gateway := Join(labels[i..], '.');
    Found(known(gateway).value, gateway, labels[i - 1], Join(labels[..i - 1], '.'))
  }

  /** The last valid split below `i`. */
  ghost function Search(known: Lookup, labels: seq<string>, i: int): (d: Details)
    requires i <= |labels|
    decreases i
  {
    if i <= 2 then NoMatch
    else if ValidAt(known, labels, i - 1) then ReadAt(known, labels, i - 1)
    else Search(known, labels, i - 1)
  }

  ghost function Parse(known: Lookup, host: string): (d: Details)
  {
    Search(known, Split(host, '.'), |Split(host, '.')|)
  }

  // ------------------------------------------------------------------ operation

  /** knownSubdomainDetails: try ever longer suffixes, starting from the top-level label. */
  method KnownSubdomainDetails(known: Lookup, host: string) returns (d: Details)
    ensures d == Parse(known, host)
  {
    var labels := Split(host, '.');
    var i := |labels| - 1;
    while i >= 2
      invariant -1 <= i < |labels|
      invariant Parse(known, host) == Search(known, labels, i + 1)
    {
      var fqdn := Join(labels[i..], '.');
      var gw := known(fqdn);
      if gw.Some? {
        var ns := labels[i - 1];
        if IsNamespace(ns) {
          var rootID := Join(labels[..i - 1], '.');
          return Found(gw.value, fqdn, ns, rootID);
        }
      }
      i := i - 1;
    }
    return NoMatch;
  }

  // ------------------------------------------------------------------ properties

  lemma NamespaceIsOneLabel(ns: string)
    requires IsNamespace(ns)
    ensures Split(ns, '.') == [ns]
  {
    SplitFree(ns, '.');
  }

  lemma AssembleLabels(rootID: string, ns: string, gateway: string)
    requires IsNamespace(ns)
    ensures Split(Assemble(rootID, ns, gateway), '.') == Split(rootID, '.') + [ns] + Split(gateway, '.')
  {
    SplitAt(rootID + "." + ns, gateway, '.');
    SplitAt(rootID, ns, '.');
    NamespaceIsOneLabel(ns);
  }

  /** Every reading is a valid split of the labels ... */
  lemma ReadingIsSplit(known: Lookup, host: string, rootID: string, ns: string, gateway: string)
    requires Reads(known, host, rootID, ns, gateway)
    ensures var labels, i := Split(host, '.'), |Split(rootID, '.')| + 1;
            && ValidAt(known, labels, i) && labels[i..] == Split(gateway, '.')
            && ReadAt(known, labels, i) == Found(known(gateway).value, gateway, ns, rootID)
  {
    AssembleLabels(rootID, ns, gateway);
    JoinSplit(rootID, '.');
    JoinSplit(gateway, '.');
    Parts(Split(rootID, '.'), ns, Split(gateway, '.'));
  }

  lemma Parts(a: seq<string>, ns: string, c: seq<string>)
    ensures var labels, i := a + [ns] + c, |a| + 1;
            |labels| == i + |c| && labels[..i - 1] == a && labels[i - 1] == ns && labels[i..] == c
  {
  }

  lemma AssembleGroups(rootID: string, ns: string, gateway: string)
    ensures Assemble(rootID, ns, gateway) == rootID + ['.'] + (ns + ['.'] + gateway)
  {
  }

  /** ... and every valid split is a reading. */
  lemma SplitIsReading(known: Lookup, host: string, i: int)
    requires ValidAt(known, Split(host, '.'), i)
    ensures var labels := Split(host, '.');
            Reads(known, host, Join(labels[..i - 1], '.'), labels[i - 1], Join(labels[i..], '.'))
  {
    var labels := Split(host, '.');
    var a, ns, c := labels[..i - 1], labels[i - 1], labels[i..];
    assert Join(labels, '.') == Join(a, '.') + ['.'] + Join([ns] + c, '.') by {
      assert labels == a + ([ns] + c);
      JoinConcat(a, [ns] + c, '.');
    }
    assert Join([ns] + c, '.') == ns + ['.'] + Join(c, '.') by { JoinConcat([ns], c, '.'); }
    assert Join(labels, '.') == host by { JoinSplit(host, '.'); }
    AssembleGroups(Join(a, '.'), ns, Join(c, '.'));
  }

  lemma SuffixShorter(labels: seq<string>, i: int, j: int)
    requires 0 <= i < j < |labels|
    ensures |Join(labels[j..], '.')| < |Join(labels[i..], '.')|
  {
    assert labels[i..] == labels[i..j] + labels[j..];
    JoinConcat(labels[i..j], labels[j..], '.');
  }

  lemma {:induction false} SearchFinds(known: Lookup, labels: seq<string>, n: int)
    requires n <= |labels|
    ensures match Search(known, labels, n)
            case NoMatch => forall i :: i < n ==> !ValidAt(known, labels, i)
            case Found(_, _, _, _) =>
              exists i :: i < n && ValidAt(known, labels, i) && Search(known, labels, n) == ReadAt(known, labels, i) &&
                          forall j :: i < j < n ==> !ValidAt(known, labels, j)
    decreases n
  {
    if n > 2 && !ValidAt(known, labels, n - 1) {
      SearchFinds(known, labels, n - 1);
    }
  }

  /** No other reading of the host has a shorter gateway than the last valid split. */
  lemma LastIsShortest(known: Lookup, host: string, i: int, rootID: string, ns: string, gateway: string)
    requires var labels := Split(host, '.');
             ValidAt(known, labels, i) && forall j :: i < j < |labels| ==> !ValidAt(known, labels, j)
    requires Reads(known, host, rootID, ns, gateway)
    ensures |Join(Split(host, '.')[i..], '.')| <= |gateway|
  {
    var labels, k := Split(host, '.'), |Split(rootID, '.')| + 1;
    ReadingIsSplit(known, host, rootID, ns, gateway);
    assert k <= i;
    JoinSplit(gateway, '.');
    if k < i { SuffixShorter(labels, k, i); }
  }

  /** The parser succeeds iff the host has a reading; the parts rejoin to the host, and the
      gateway is the shortest one of any reading. */
  lemma ParseExact(known: Lookup, host: string)
    ensures Parse(known, host).NoMatch? <==>
              forall rootID, ns, gateway :: !Reads(known, host, rootID, ns, gateway)
    ensures var d := Parse(known, host);
            d.Found? ==>
              && Reads(known, host, d.rootID, d.ns, d.gwHostname)
              && known(d.gwHostname) == Some(d.gw)
              && forall rootID, ns, gateway :: Reads(known, host, rootID, ns, gateway) ==> |d.gwHostname| <= |gateway|
  {
    var labels, d := Split(host, '.'), Parse(known, host);
    SearchFinds(known, labels, |labels|);
    if d.NoMatch? {
      forall rootID, ns, gateway ensures !Reads(known, host, rootID, ns, gateway) {
        if Reads(known, host, rootID, ns, gateway) { ReadingIsSplit(known, host, rootID, ns, gateway); }
      }
    } else {
      var i :| i < |labels| && ValidAt(known, labels, i) && d == ReadAt(known, labels, i) &&
               forall j :: i < j < |labels| ==> !ValidAt(known, labels, j);
      assert Reads(known, host, d.rootID, d.ns, d.gwHostname) by { SplitIsReading(known, host, i); }
      forall rootID, ns, gateway | Reads(known, host, rootID, ns, gateway) ensures |d.gwHostname| <= |gateway| {
        LastIsShortest(known, host, i, rootID, ns, gateway);
      }
    }
  }

  /** A gateway some shorter suffix of which is known too, and preceded by a namespace
      label. */
  ghost predicate Shadowed(known: Lookup, gateway: string)
  {
    exists m :: ShadowedAt(known, Split(gateway, '.'), m)
  }

  ghost predicate ShadowedAt(known: Lookup, labels: seq<string>, m: int)
  {
    1 <= m < |labels| && IsNamespace(labels[m - 1]) && known(Join(labels[m..], '.')).Some?
  }

  /** A host assembled for a known gateway parses back to the same three parts iff the
      gateway is not shadowed. */
  lemma AssembleThereAndBack(known: Lookup, rootID: string, ns: string, gateway: string)
    requires IsNamespace(ns) && known(gateway).Some?
    ensures Parse(known, Assemble(rootID, ns, gateway)) == Found(known(gateway).value, gateway, ns, rootID)
            <==> !Shadowed(known, gateway)
  {
    var host := Assemble(rootID, ns, gateway);
    var labels, i := Split(host, '.'), |Split(rootID, '.')| + 1;
    ReadingIsSplit(known, host, rootID, ns, gateway);
    var j := LastSplit(known, host, i);
    LastIsOwn(known, labels, i, j, gateway);
  }

  lemma LastSplit(known: Lookup, host: string, i: int) returns (j: int)
    requires ValidAt(known, Split(host, '.'), i)
    ensures var labels := Split(host, '.');
            && i <= j < |labels| && ValidAt(known, labels, j) && Parse(known, host) == ReadAt(known, labels, j)
            && forall k :: j < k < |labels| ==> !ValidAt(known, labels, k)
  {
    var labels := Split(host, '.');
    SearchFinds(known, labels, |labels|);
    j :| j < |labels| && ValidAt(known, labels, j) && Parse(known, host) == ReadAt(known, labels, j) &&
         forall k :: j < k < |labels| ==> !ValidAt(known, labels, k);
  }

  /** The last valid split is the assembled one iff the gateway is not shadowed. */
  lemma LastIsOwn(known: Lookup, labels: seq<string>, i: int, j: int, gateway: string)
    requires i <= j && ValidAt(known, labels, i) && ValidAt(known, labels, j) && labels[i..] == Split(gateway, '.')
    requires forall k :: j < k < |labels| ==> !ValidAt(known, labels, k)
    ensures i == j <==> !Shadowed(known, gateway)
    ensures i < j ==> ReadAt(known, labels, j).gwHostname != gateway
  {
    if i < j {
      LaterIsShadow(known, labels, i, j, gateway);
      SuffixShorter(labels, i, j);
      JoinSplit(gateway, '.');
    } else {
      forall m | ShadowedAt(known, Split(gateway, '.'), m) ensures false {
        LaterIsShadow(known, labels, i, i + m, gateway);
      }
    }
  }

  /** The splits after the assembled one are those of the gateway's own labels. */
  lemma LaterIsShadow(known: Lookup, labels: seq<string>, i: int, j: int, gateway: string)
    requires 2 <= i <= j < |labels| && labels[i..] == Split(gateway, '.')
    ensures i < j ==> (ValidAt(known, labels, j) <==> ShadowedAt(known, Split(gateway, '.'), j - i))
  {
    var gl := Split(gateway, '.');
    if i < j {
      assert labels[j..] == gl[j - i..];
      assert labels[j - 1] == gl[j - i - 1];
    }
  }

  /** Both `dweb.link` and `ipfs.dweb.link` as gateways: a host assembled for the longer is
      read as one of the shorter. */
  lemma LongerGatewayShadowed(rootID: string, ns: string)
    requires IsNamespace(ns)
    ensures var known: Lookup := host => if host == "dweb.link" || host == "ipfs.dweb.link" then Some(0) else None;
            && Shadowed(known, "ipfs.dweb.link")
            && Parse(known, Assemble(rootID, ns, "ipfs.dweb.link")) != Found(0, "ipfs.dweb.link", ns, rootID)
  {
    var known: Lookup := host => if host == "dweb.link" || host == "ipfs.dweb.link" then Some(0) else None;
    assert "ipfs.dweb.link" == "ipfs" + ['.'] + "dweb.link";
    NamespacedShadowed(known, "ipfs", "dweb.link");
    AssembleThereAndBack(known, rootID, ns, "ipfs.dweb.link");
  }

  /** A namespace label before a known gateway makes a gateway that is shadowed. */
  lemma NamespacedShadowed(known: Lookup, ns: string, gateway: string)
    requires IsNamespace(ns) && known(gateway).Some?
    ensures Shadowed(known, ns + ['.'] + gateway)
  {
    SplitAt(ns, gateway, '.');
    NamespaceIsOneLabel(ns);
    JoinSplit(gateway, '.');
    var labels := Split(ns + ['.'] + gateway, '.');
    assert labels[0] == ns && labels[1..] == Split(gateway, '.');
    assert ShadowedAt(known, labels, 1);
  }
}
