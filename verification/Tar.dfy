/** `tar cat`: the stateful tarReader of tar/format.go. */
module Tar {
  import opened Ipld
  import opened Wrappers

  const BLOCK_SIZE: nat := 512

  /** What the reader depends on: the nodes that can be fetched, the bytes that
      uio.NewDagReader yields for a file node (`None` when it refuses the node), and
      whether reading them never fails. */
  datatype Source = Source(dag: set<Cid>, file: Cid -> Option<seq<Byte>>, steady: bool)

  // ------------------------------------------------------------------ specification

  /** The number of zero bytes that complete `n` bytes to whole blocks. */
  function PadLen(n: nat): (p: nat)
    ensures p < BLOCK_SIZE
  {
    if n >= BLOCK_SIZE then PadLen(n - BLOCK_SIZE) else if n == 0 then 0 else BLOCK_SIZE - n
  }

  lemma OneBlockLess(n: nat)
    requires n >= BLOCK_SIZE
    ensures n % BLOCK_SIZE == (n - BLOCK_SIZE) % BLOCK_SIZE
  {
  }

  /** The formula the reader uses. */
  lemma {:induction false} PadFormula(n: nat)
    ensures PadLen(n) == (512 - n % 512) % 512
    ensures (n + PadLen(n)) % 512 == 0 && PadLen(n) < 512
  {
    if n >= BLOCK_SIZE {
      PadFormula(n - BLOCK_SIZE);
      OneBlockLess(n);
      OneBlockLess(n + PadLen(n));
      assert n + PadLen(n) - BLOCK_SIZE == n - BLOCK_SIZE + PadLen(n - BLOCK_SIZE);
    } else if n > 0 {
      assert n % BLOCK_SIZE == n && PadLen(n) == BLOCK_SIZE - n;
    }
  }

  function Zeros(n: nat): (z: seq<Byte>)
    ensures |z| == n && forall i :: 0 <= i < n ==> z[i] == 0
  {
    seq(n, _ => 0 as Byte)
  }

  /** The first link with a given name. */
  function FindLink(ls: seq<Link>, name: string): (r: Option<Cid>)
  {
    if ls == [] then None else if ls[0].name == name then Some(ls[0].cid) else FindLink(ls[1..], name)
  }

  /** What hangs below a header: file data, nothing because the data cannot be read, or
      further entries. */
  datatype Body = File(bytes: seq<Byte>) | Unreadable | Children

  function BodyOf(src: Source, c: Cid): (b: Body)
  {
    match FindLink(Links(c), "data")
    case None => Children
    case Some(d) =>
      if d in src.dag && d.Node? && src.file(d).Some? then File(src.file(d).value) else Unreadable
  }

  /** The archive: for each entry its header, then its data padded to a block, else its
      children in order.  A link that cannot be followed contributes nothing. */
  ghost function Flat(src: Source, c: Cid): (r: seq<Byte>)
    decreases c
  {
    if c !in src.dag || c.Raw? then []
    else c.data + match BodyOf(src, c)
                  case File(bytes) => bytes + Zeros(PadLen(|bytes|))
                  case Unreadable => []
                  case Children => FlatAll(src, c.links)
  }

  ghost function FlatAll(src: Source, ls: seq<Link>): (r: seq<Byte>)
    decreases ls
  {
    if ls == [] then [] else Flat(src, ls[0].cid) + FlatAll(src, ls[1..])
  }

  /** How many calls an entry can take at most. */
  ghost function Steps(src: Source, c: Cid): (n: nat)
    ensures n >= 1
    decreases c
  {
    if c !in src.dag || c.Raw? then 1
    else 2 + |c.data| + match BodyOf(src, c)
                        case File(bytes) => 1 + |bytes| + PadLen(|bytes|)
                        case Unreadable => 0
                        case Children => 1 + StepsAll(src, c.links)
  }

  ghost function StepsAll(src: Source, ls: seq<Link>): (n: nat)
    decreases ls
  {
    if ls == [] then 0 else Steps(src, ls[0].cid) + StepsAll(src, ls[1..])
  }

  /** Every link can be followed. */
  ghost predicate Intact(src: Source, c: Cid)
    decreases c
  {
    && c in src.dag && c.Node?
    && match BodyOf(src, c)
       case File(_) => true
       case Unreadable => false
       case Children => IntactAll(src, c.links)
  }

  ghost predicate IntactAll(src: Source, ls: seq<Link>)
    decreases ls
  {
    ls == [] || (Intact(src, ls[0].cid) && IntactAll(src, ls[1..]))
  }

  // ------------------------------------------------------------------ the reader's state

  /** A file's reader with its count of bytes delivered. */
  datatype FileReader = FileReader(left: seq<Byte>, n: nat)

  /** The fields of a tarReader, its child reader included. */
  datatype View = View(hdr: Option<seq<Byte>>, child: Option<View>,
                       file: Option<FileReader>, pad: nat, links: seq<Link>)

  ghost function HeaderPart(v: View): (r: seq<Byte>) { if v.hdr.Some? then v.hdr.value else [] }

  ghost function FilePart(v: View): (r: seq<Byte>)
  {
    match v.file
    case Some(f) => f.left + Zeros(PadLen(f.n + |f.left|))
    case None => Zeros(v.pad)
  }

  /** All that is still to come. */
  ghost function Rest(src: Source, v: View): (r: seq<Byte>)
    decreases v
  {
    HeaderPart(v) + ((if v.child.Some? then Rest(src, v.child.value) else []) + (FilePart(v) + FlatAll(src, v.links)))
  }

  /** A bound on the calls still to come. */
  ghost function Left(src: Source, v: View): (n: nat)
    decreases v
  {
    (if v.hdr.Some? then |v.hdr.value| + 1 else 0)
    + (if v.child.Some? then Left(src, v.child.value) + 1 else 0)
    + |FilePart(v)| + (if v.file.Some? then 1 else 0) + StepsAll(src, v.links)
  }

  /** No link still to be followed is broken. */
  ghost predicate Unbroken(src: Source, v: View)
    decreases v
  {
    (v.child.Some? ==> Unbroken(src, v.child.value)) && IntactAll(src, v.links)
  }

  datatype Outcome = Data | EOF | LinkError | FileError

  /** What one call may do: deliver a prefix of what is to come, end only when nothing is,
      and otherwise move on; a broken link is an error and is passed over. */
  ghost predicate Advances(src: Source, v: View, n: nat, v': View, out: seq<Byte>, res: Outcome)
  {
    && Rest(src, v) == out + Rest(src, v') && |out| <= n
    && Left(src, v') <= Left(src, v)
    && (Unbroken(src, v) ==> Unbroken(src, v'))
    && match res
       case Data => (n > 0 ==> Left(src, v') < Left(src, v)) && (Unbroken(src, v') ==> Unbroken(src, v))
       case EOF => v' == v && out == [] && Left(src, v) == 0
       case LinkError => out == [] && Left(src, v') < Left(src, v) && !Unbroken(src, v)
       case FileError => !src.steady && (Unbroken(src, v') ==> Unbroken(src, v))
  }

  lemma Cut(a: seq<Byte>, k: nat, t: seq<Byte>)
    requires k <= |a|
    ensures a + t == a[..k] + (a[k..] + t)
  {
  }

  lemma Assoc(a: seq<Byte>, b: seq<Byte>, c: seq<Byte>)
    ensures (a + b) + c == a + (b + c)
  {
  }

  lemma HeaderStep(src: Source, v: View, n: nat, k: nat)
    requires v.hdr.Some? && k <= |v.hdr.value| && k <= n && (k > 0 || n == 0)
    ensures Advances(src, v, n, v.(hdr := Some(v.hdr.value[k..])), v.hdr.value[..k], Data)
  {
    var h := v.hdr.value;
    var tail := (if v.child.Some? then Rest(src, v.child.value) else []) + (FilePart(v) + FlatAll(src, v.links));
    Cut(h, k, tail);
  }

  lemma HeaderEnd(src: Source, v: View, n: nat)
    requires v.hdr == Some([])
    ensures Advances(src, v, n, v.(hdr := None), [], Data)
  {
  }

  /** A reader's view in terms of its child's. */
  lemma WithChild(src: Source, v: View, c: View)
    requires v.hdr.None?
    ensures var w := v.(child := Some(c));
            && Rest(src, w) == Rest(src, c) + (FilePart(v) + FlatAll(src, v.links))
            && Left(src, w) == Left(src, c) + 1 + Left(src, v.(child := None))
            && (Unbroken(src, w) <==> Unbroken(src, c) && IntactAll(src, v.links))
  {
  }

  lemma WithoutChild(src: Source, v: View)
    requires v.hdr.None?
    ensures var w := v.(child := None);
            && Rest(src, w) == [] + (FilePart(v) + FlatAll(src, v.links))
            && (Unbroken(src, w) <==> IntactAll(src, v.links))
  {
  }

  lemma ChildStep(src: Source, v: View, n: nat, c: View, out: seq<Byte>, res: Outcome)
    requires v.hdr.None? && v.child.Some? && Advances(src, v.child.value, n, c, out, res) && res != EOF
    ensures Advances(src, v, n, v.(child := Some(c)), out, res)
  {
    assert v == v.(child := Some(v.child.value));
    WithChild(src, v, v.child.value);
    WithChild(src, v, c);
    Assoc(out, Rest(src, c), FilePart(v) + FlatAll(src, v.links));
  }

  lemma ChildEnd(src: Source, v: View, n: nat)
    requires v.hdr.None? && v.child.Some? && Left(src, v.child.value) == 0
    ensures Advances(src, v, n, v.(child := None), [], Data)
  {
    assert v == v.(child := Some(v.child.value));
    WithChild(src, v, v.child.value);
    NothingLeft(src, v.child.value);
    WithoutChild(src, v);
  }

  /** What a child's answer makes of the reader: the child's end only drops the child. */
  lemma ChildAsked(src: Source, v: View, n: nat, c: View, out: seq<Byte>, res: Outcome)
    requires v.hdr.None? && v.child.Some? && Advances(src, v.child.value, n, c, out, res)
    ensures if res == EOF then Advances(src, v, n, v.(child := None), out, Data)
            else Advances(src, v, n, v.(child := Some(c)), out, res)
  {
    if res == EOF { ChildEnd(src, v, n); } else { ChildStep(src, v, n, c, out, res); }
  }

  /** When no call is left, nothing is to come. */
  lemma {:induction false} NothingLeft(src: Source, v: View)
    requires Left(src, v) == 0
    ensures Rest(src, v) == [] && Unbroken(src, v)
  {
  }

  lemma FileStep(src: Source, v: View, n: nat, k: nat, res: Outcome)
    requires v.hdr.None? && v.child.None? && v.file.Some?
    requires k <= n && k <= |v.file.value.left|
    requires (res == Data && (k > 0 || n == 0)) || (res == FileError && !src.steady)
    ensures var f := v.file.value;
            Advances(src, v, n, v.(file := Some(FileReader(f.left[k..], f.n + k))), f.left[..k], res)
  {
    var f, w := v.file.value, v.(file := Some(FileReader(v.file.value.left[k..], v.file.value.n + k)));
    var zeros, flat := Zeros(PadLen(f.n + |f.left|)), FlatAll(src, v.links);
    assert FilePart(v) == f.left + zeros;
    assert FilePart(w) == f.left[k..] + zeros;
    Assoc(f.left, zeros, flat);
    Assoc(f.left[k..], zeros, flat);
    Cut(f.left, k, zeros + flat);
  }

  lemma FileEnd(src: Source, v: View, n: nat)
    requires v.hdr.None? && v.child.None? && v.file.Some? && |v.file.value.left| <= n
    ensures var f := v.file.value;
            Advances(src, v, n, v.(file := None, pad := PadLen(f.n + |f.left|)), f.left, Data)
  {
    var f := v.file.value;
    Assoc(f.left, Zeros(PadLen(f.n + |f.left|)), FlatAll(src, v.links));
  }

  lemma PadStep(src: Source, v: View, n: nat, k: nat)
    requires v.hdr.None? && v.child.None? && v.file.None? && k <= v.pad && k <= n && (k > 0 || n == 0)
    ensures Advances(src, v, n, v.(pad := v.pad - k), Zeros(k), Data)
  {
    assert Zeros(v.pad) == Zeros(k) + Zeros(v.pad - k);
    Assoc(Zeros(k), Zeros(v.pad - k), FlatAll(src, v.links));
  }

  /** What taking the next link leads to. */
  ghost function Expanded(src: Source, v: View): (r: View)
    requires v.links != []
  {
    var c, ls := v.links[0].cid, v.links[1..];
    if c !in src.dag || c.Raw? then v.(links := ls)
    else match BodyOf(src, c)
         case File(bytes) => View(Some(c.data), None, Some(FileReader(bytes, 0)), 0, ls)
         case Unreadable => View(Some(c.data), None, None, 0, ls)
         case Children =>
           View(Some(c.data), if |c.links| > 0 then Some(View(None, None, None, 0, c.links)) else None, None, 0, ls)
  }

  /** A link that is an error: its node cannot be fetched or is not a protobuf node, or its
      data cannot be read. */
  ghost predicate LinkFails(src: Source, c: Cid) { c !in src.dag || c.Raw? || BodyOf(src, c).Unreadable? }

  lemma ExpandStep(src: Source, v: View)
    requires v.hdr.None? && v.child.None? && v.file.None? && v.pad == 0 && v.links != []
    ensures var w := Expanded(src, v);
            && Rest(src, w) == Rest(src, v) && Left(src, w) < Left(src, v)
            && (Unbroken(src, v) <==> Unbroken(src, w) && !LinkFails(src, v.links[0].cid))
  {
    var c, ls := v.links[0].cid, v.links[1..];
    assert Rest(src, v) == Flat(src, c) + FlatAll(src, ls);
    assert Left(src, v) == Steps(src, c) + StepsAll(src, ls);
    FirstIntact(src, v);
    if c in src.dag && c.Node? {
      match BodyOf(src, c)
      case File(_) => ExpandFile(src, v, c, ls);
      case Unreadable => ExpandHeader(src, v, c, ls);
      case Children =>
        if |c.links| > 0 { ExpandChildren(src, v, c, ls); } else { ExpandHeader(src, v, c, ls); }
    }
  }

  lemma FirstIntact(src: Source, v: View)
    requires v.child.None? && v.links != []
    ensures Unbroken(src, v) <==> Intact(src, v.links[0].cid) && IntactAll(src, v.links[1..])
  {
  }

  lemma ExpandHeader(src: Source, v: View, c: Cid, ls: seq<Link>)
    requires v.hdr.None? && v.child.None? && v.file.None? && v.pad == 0 && v.links != []
    requires c == v.links[0].cid && ls == v.links[1..] && c in src.dag && c.Node?
    requires BodyOf(src, c).Unreadable? || (BodyOf(src, c).Children? && c.links == [])
    ensures var w := Expanded(src, v);
            && Rest(src, w) == Flat(src, c) + FlatAll(src, ls) && Left(src, w) < Steps(src, c) + StepsAll(src, ls)
            && (Unbroken(src, v) <==> Unbroken(src, w) && !LinkFails(src, v.links[0].cid))
  {
    var w := Expanded(src, v);
    assert FilePart(w) == [];
    assert Left(src, w) == |c.data| + 1 + StepsAll(src, ls);
    FirstIntact(src, v);
    assert Intact(src, c) <==> !BodyOf(src, c).Unreadable?;
  }

  lemma ExpandFile(src: Source, v: View, c: Cid, ls: seq<Link>)
    requires v.hdr.None? && v.child.None? && v.file.None? && v.pad == 0 && v.links != []
    requires c == v.links[0].cid && ls == v.links[1..] && c in src.dag && c.Node? && BodyOf(src, c).File?
    ensures var w := Expanded(src, v);
            && Rest(src, w) == Flat(src, c) + FlatAll(src, ls) && Left(src, w) < Steps(src, c) + StepsAll(src, ls)
            && (Unbroken(src, v) <==> Unbroken(src, w) && !LinkFails(src, v.links[0].cid))
  {
    var w, bytes := Expanded(src, v), BodyOf(src, c).bytes;
    assert FilePart(w) == bytes + Zeros(PadLen(|bytes|));
    assert Left(src, w) == |c.data| + 1 + |FilePart(w)| + 1 + StepsAll(src, ls);
    Assoc(c.data, FilePart(w), FlatAll(src, ls));
    FirstIntact(src, v);
  }

  lemma ExpandChildren(src: Source, v: View, c: Cid, ls: seq<Link>)
    requires v.hdr.None? && v.child.None? && v.file.None? && v.pad == 0 && v.links != []
    requires c == v.links[0].cid && ls == v.links[1..]
    requires c in src.dag && c.Node? && BodyOf(src, c).Children? && |c.links| > 0
    ensures var w := Expanded(src, v);
            && Rest(src, w) == Flat(src, c) + FlatAll(src, ls) && Left(src, w) < Left(src, v)
            && (Unbroken(src, v) <==> Unbroken(src, w) && !LinkFails(src, v.links[0].cid))
  {
    var k := View(None, None, None, 0, c.links);
    NewView(src, c.links);
    HeadedView(src, c.data, k, ls);
    assert Expanded(src, v) == View(Some(c.data), Some(k), None, 0, ls);
    assert Flat(src, c) == c.data + FlatAll(src, c.links);
    Assoc(c.data, FlatAll(src, c.links), FlatAll(src, ls));
    assert Left(src, v) == Steps(src, c) + StepsAll(src, ls);
    FirstIntact(src, v);
    assert Intact(src, c) <==> IntactAll(src, c.links);
  }

  lemma NewView(src: Source, ls: seq<Link>)
    ensures var k := View(None, None, None, 0, ls);
            && Rest(src, k) == FlatAll(src, ls) && Left(src, k) == StepsAll(src, ls)
            && (Unbroken(src, k) <==> IntactAll(src, ls))
  {
  }

  lemma HeadedView(src: Source, data: seq<Byte>, k: View, ls: seq<Link>)
    ensures var w := View(Some(data), Some(k), None, 0, ls);
            && Rest(src, w) == data + (Rest(src, k) + FlatAll(src, ls))
            && Left(src, w) == |data| + 1 + (Left(src, k) + 1) + StepsAll(src, ls)
            && (Unbroken(src, w) <==> Unbroken(src, k) && IntactAll(src, ls))
  {
    var w := View(Some(data), Some(k), None, 0, ls);
    assert FilePart(w) == [] && [] + FlatAll(src, ls) == FlatAll(src, ls);
  }

  // ------------------------------------------------------------------ the reader

  method PadNeeded(nr: nat) returns (pad: nat)
    ensures pad == PadLen(nr)
  {
    PadFormula(nr);
    pad := (BLOCK_SIZE - nr % BLOCK_SIZE) % BLOCK_SIZE;
  }

  /** How much a file's reader returns of what is left: possibly less than asked, with the
      end reported together with the last bytes or after them.  A failed read may have
      delivered bytes too. */
  method Deliver(left: seq<Byte>, n: nat, steady: bool) returns (k: nat, eof: bool, fails: bool)
    ensures fails ==> !steady && !eof
    ensures k <= n && k <= |left| && (eof ==> k == |left|) && (n > 0 ==> k > 0 || eof || fails)
  {
    fails := *;
    fails := fails && !steady;
    k, eof := if n < |left| then n else |left|, left == [];
    if fails {
      eof := false;
      if * { k :| k <= n && k <= |left|; }
    } else if * {
      k, eof :| k <= n && k <= |left| && (eof ==> k == |left|) && (n > 0 ==> k > 0 || eof);
    }
  }

  class TarReader {
    const src: Source
    var links: seq<Link>
    var childRead: TarReader?
    var hdrBuf: Option<seq<Byte>>
    var fileRead: Option<FileReader>
    var pad: nat

    ghost var Repr: set<object>
    ghost var view: View

    ghost predicate Valid()
      reads this, Repr
      decreases Repr
    {
      && this in Repr
      && (childRead != null ==>
            && childRead in Repr && childRead.Repr <= Repr && this !in childRead.Repr
            && childRead.Valid() && childRead.src == src)
      && view == View(hdrBuf, if childRead == null then None else Some(childRead.view), fileRead, pad, links)
      && pad < BLOCK_SIZE
    }

    constructor (src: Source, links: seq<Link>)
      ensures Valid() && fresh(Repr) && this.src == src
      ensures view == View(None, None, None, 0, links)
    {
      this.src, this.links := src, links;
      childRead, hdrBuf, fileRead, pad := null, None, None, 0;
      Repr, view := {this}, View(None, None, None, 0, links);
    }

    /** The header takes priority; its end is noticed by an empty read. */
    method ReadHeader(n: nat) returns (out: seq<Byte>)
      requires Valid() && hdrBuf.Some?
      modifies this
      ensures Valid() && Repr == old(Repr)
      ensures Advances(src, old(view), n, view, out, Data)
      ensures |out| == if n < |old(hdrBuf).value| then n else |old(hdrBuf).value|
    {
      var h := hdrBuf.value;
      if h == [] {
        HeaderEnd(src, view, n);
        out, hdrBuf := [], None;
        view := view.(hdr := None);
      } else {
        var k := if n < |h| then n else |h|;
        HeaderStep(src, view, n, k);
        out, hdrBuf := h[..k], Some(h[k..]);
        view := view.(hdr := hdrBuf);
      }
    }

    method AskChild(n: nat) returns (out: seq<Byte>, res: Outcome)
      requires Valid() && hdrBuf.None? && childRead != null
      modifies Repr
      ensures Valid() && fresh(Repr - old(Repr)) && childRead == old(childRead)
      ensures view == old(view).(child := Some(childRead.view))
      ensures if res == EOF then Advances(src, old(view), n, old(view).(child := None), out, Data)
              else Advances(src, old(view), n, view, out, res)
      decreases Left(src, view), 0
    {
      out, res := childRead.Read(n);
      ChildAsked(src, view, n, childRead.view, out, res);
      Repr := Repr + childRead.Repr;
      view := view.(child := Some(childRead.view));
    }

    method ReadChild(n: nat) returns (out: seq<Byte>, res: Outcome)
      requires Valid() && hdrBuf.None? && childRead != null
      modifies Repr
      ensures Valid() && fresh(Repr - old(Repr))
      ensures Advances(src, old(view), n, view, out, res) && res != EOF
      decreases Left(src, view), 1
    {
      ghost var before := view;
      out, res := AskChild(n);
      if res == EOF {
        childRead, res := null, Data;
        view := before.(child := None);
      }
    }

    /** File data; at its end the padding is set. */
    method ReadFile(n: nat) returns (out: seq<Byte>, res: Outcome)
      requires Valid() && hdrBuf.None? && childRead == null && fileRead.Some?
      modifies this
      ensures Valid() && Repr == old(Repr)
      ensures Advances(src, old(view), n, view, out, res) && res != EOF
    {
      var f := fileRead.value;
      var k, eof, fails := Deliver(f.left, n, src.steady);
      res := if fails then FileError else Data;
      if eof { out := EndFile(n); } else { out := TakeFile(n, k, res); }
    }

    method TakeFile(n: nat, k: nat, res: Outcome) returns (out: seq<Byte>)
      requires Valid() && hdrBuf.None? && childRead == null && fileRead.Some?
      requires k <= n && k <= |fileRead.value.left|
      requires (res == Data && (k > 0 || n == 0)) || (res == FileError && !src.steady)
      modifies this
      ensures Valid() && Repr == old(Repr)
      ensures Advances(src, old(view), n, view, out, res)
    {
      var f := fileRead.value;
      out := f.left[..k];
      FileStep(src, view, n, k, res);
      SetFile(Some(FileReader(f.left[k..], f.n + k)), pad);
    }

    method SetFile(file: Option<FileReader>, needed: nat)
      requires Valid() && needed < BLOCK_SIZE
      modifies this
      ensures Valid() && Repr == old(Repr) && view == old(view).(file := file, pad := needed)
    {
      fileRead, pad, view := file, needed, view.(file := file, pad := needed);
    }

    method EndFile(n: nat) returns (out: seq<Byte>)
      requires Valid() && hdrBuf.None? && childRead == null && fileRead.Some? && |fileRead.value.left| <= n
      modifies this
      ensures Valid() && Repr == old(Repr)
      ensures Advances(src, old(view), n, view, out, Data)
    {
      var f := fileRead.value;
      out := f.left;
      var needed := PadNeeded(f.n + |f.left|);
      FileEnd(src, view, n);
      SetFile(None, needed);
    }

    method ReadPad(n: nat) returns (out: seq<Byte>)
      requires Valid() && hdrBuf.None? && childRead == null && fileRead.None? && pad > 0
      modifies this
      ensures Valid() && Repr == old(Repr)
      ensures Advances(src, old(view), n, view, out, Data)
      ensures |out| == if n < old(pad) then n else old(pad)
    {
      var k := if n < pad then n else pad;
      PadStep(src, view, n, k);
      out := Zeros(k);
      pad := pad - k;
      view := view.(pad := pad);
    }

    /** Take the next link: set the header and what follows it. */
    method Next() returns (res: Outcome)
      requires Valid() && hdrBuf.None? && childRead == null && fileRead.None? && pad == 0 && links != []
      modifies this
      ensures Valid() && fresh(Repr - old(Repr))
      ensures view == Expanded(src, old(view))
      ensures res == if LinkFails(src, old(links)[0].cid) then LinkError else Data
      ensures res == Data ==> hdrBuf.Some?
    {
      var c := links[0].cid;
      links := links[1..];
      view := Expanded(src, view);
      if c !in src.dag || c.Raw? { return LinkError; }
      hdrBuf := Some(c.data);
      res := Data;
      match BodyOf(src, c) {
        case File(bytes) => fileRead := Some(FileReader(bytes, 0));
        case Unreadable => res := LinkError;
        case Children =>
          if |c.links| > 0 {
            childRead := new TarReader(src, c.links);
            Repr := Repr + childRead.Repr;
          }
      }
    }

    /** Read into a buffer of `n` bytes. */
    method Read(n: nat) returns (out: seq<Byte>, res: Outcome)
      requires Valid()
      modifies Repr
      ensures Valid() && fresh(Repr - old(Repr))
      ensures Advances(src, old(view), n, view, out, res)
      ensures old(hdrBuf.Some?) ==> res == Data
      decreases Left(src, view), 2
    {
      if hdrBuf.Some? {
        out := ReadHeader(n);
        res := Data;
      } else if childRead != null {
        out, res := ReadChild(n);
      } else if fileRead.Some? {
        out, res := ReadFile(n);
      } else if pad > 0 {
        out := ReadPad(n);
        res := Data;
      } else if links == [] {
        out, res := [], EOF;
      } else {
        ExpandStep(src, view);
        res := Next();
        if res == LinkError { return [], LinkError; }
        out, res := Read(n);
      }
    }
  }

  // ------------------------------------------------------------------ whole archives

  const TAR_MARK: seq<Byte> := [105, 112, 102, 115, 47, 116, 97, 114]   // "ipfs/tar"

  /** The bytes of an ASCII string. */
  ghost function Ascii(s: string): (r: seq<Byte>)
  {
    seq(|s|, i requires 0 <= i < |s| => if s[i] < '\U{80}' then s[i] as int else 0)
  }

  /** ExportTar. */
  method ExportTar(src: Source, root: Cid) returns (r: TarReader?)
    ensures r != null <==> root.data == Ascii("ipfs/tar")
    ensures r != null ==> r.Valid() && fresh(r.Repr) && r.src == src && r.view == View(None, None, None, 0, Links(root))
    ensures r != null ==> Rest(src, r.view) == FlatAll(src, Links(root))
  {
    assert TAR_MARK == Ascii("ipfs/tar");
    if root.data != TAR_MARK { return null; }
    r := new TarReader(src, Links(root));
  }

  /** Copy everything out with buffers of any positive sizes, up to the first error.  What
      has been delivered is always a prefix of the archive, and is all of it at the end. */
  method Copy(tr: TarReader) returns (all: seq<Byte>, res: Outcome)
    requires tr.Valid()
    modifies tr.Repr
    ensures Rest(tr.src, old(tr.view)) == all + Rest(tr.src, tr.view)
    ensures res != Data && (res == EOF ==> all == Rest(tr.src, old(tr.view)))
    ensures res == EOF ==> Unbroken(tr.src, old(tr.view))
    ensures Unbroken(tr.src, old(tr.view)) ==> res != LinkError
    ensures tr.src.steady ==> (res == EOF <==> Unbroken(tr.src, old(tr.view)))
  {
    all, res := [], Data;
    while res == Data
      invariant tr.Valid() && fresh(tr.Repr - old(tr.Repr))
      invariant Rest(tr.src, old(tr.view)) == all + Rest(tr.src, tr.view)
      invariant res == EOF ==> Left(tr.src, tr.view) == 0
      invariant Unbroken(tr.src, old(tr.view)) ==> Unbroken(tr.src, tr.view) && res != LinkError
      invariant Unbroken(tr.src, tr.view) && res != LinkError ==> Unbroken(tr.src, old(tr.view))
      invariant res == FileError ==> !tr.src.steady
      decreases Left(tr.src, tr.view), res == Data
    {
      var n: nat := *;
      if n == 0 { n := BLOCK_SIZE; }
      ghost var before := tr.view;
      var out;
      out, res := tr.Read(n);
      Assoc(all, out, Rest(tr.src, tr.view));
      all := all + out;
    }
    if res == EOF { NothingLeft(tr.src, tr.view); }
  }

  /** Headers of whole blocks, as tar writers produce. */
  ghost predicate BlockHeaders(src: Source, c: Cid)
    decreases c
  {
    c in src.dag && c.Node? ==>
      |c.data| % BLOCK_SIZE == 0 && (BodyOf(src, c).Children? ==> BlockHeadersAll(src, c.links))
  }

  ghost predicate BlockHeadersAll(src: Source, ls: seq<Link>)
    decreases ls
  {
    ls == [] || (BlockHeaders(src, ls[0].cid) && BlockHeadersAll(src, ls[1..]))
  }

  lemma WholeBlocks(a: nat, b: nat)
    requires a % BLOCK_SIZE == 0 && b % BLOCK_SIZE == 0
    ensures (a + b) % BLOCK_SIZE == 0
  {
  }

  /** Then the archive is made of whole blocks. */
  lemma {:induction false} FlatBlocks(src: Source, c: Cid)
    requires BlockHeaders(src, c)
    ensures |Flat(src, c)| % BLOCK_SIZE == 0
    decreases c
  {
    if c in src.dag && c.Node? {
      match BodyOf(src, c)
      case File(bytes) =>
        PadFormula(|bytes|);
        WholeBlocks(|c.data|, |bytes| + PadLen(|bytes|));
      case Unreadable =>
      case Children =>
        FlatAllBlocks(src, c.links);
        WholeBlocks(|c.data|, |FlatAll(src, c.links)|);
    }
  }

  lemma {:induction false} FlatAllBlocks(src: Source, ls: seq<Link>)
    requires BlockHeadersAll(src, ls)
    ensures |FlatAll(src, ls)| % BLOCK_SIZE == 0
    decreases ls
  {
    if ls != [] {
      FlatBlocks(src, ls[0].cid);
      FlatAllBlocks(src, ls[1..]);
      WholeBlocks(|Flat(src, ls[0].cid)|, |FlatAll(src, ls[1..])|);
    }
  }

  // ------------------------------------------------------------------ the archive, entry by entry

  /** The first link named "data" is at `i`. */
  ghost predicate DataAt(c: Cid, i: nat)
  {
    i < |Links(c)| && Links(c)[i].name == "data" && forall j :: 0 <= j < i ==> Links(c)[j].name != "data"
  }

  ghost predicate NoData(c: Cid) { forall j :: 0 <= j < |Links(c)| ==> Links(c)[j].name != "data" }

  lemma {:induction false} FindLinkMeaning(ls: seq<Link>, name: string)
    ensures FindLink(ls, name).None? <==> forall j :: 0 <= j < |ls| ==> ls[j].name != name
    ensures forall i :: 0 <= i < |ls| && ls[i].name == name && (forall j :: 0 <= j < i ==> ls[j].name != name) ==>
              FindLink(ls, name) == Some(ls[i].cid)
  {
    if ls != [] {
      FindLinkMeaning(ls[1..], name);
      assert forall j :: 1 <= j < |ls| ==> ls[j] == ls[1..][j - 1];
      assert forall j :: 0 <= j < |ls| - 1 ==> ls[1..][j] == ls[j + 1];
    }
  }

  /** A file: its header, the bytes of the node under its first "data" link, and zeros to the
      end of the block. */
  lemma FlatFile(src: Source, c: Cid, i: nat)
    requires c in src.dag && c.Node? && DataAt(c, i)
    requires var d := Links(c)[i].cid; d in src.dag && d.Node? && src.file(d).Some?
    ensures var b := src.file(Links(c)[i].cid).value;
            Flat(src, c) == c.data + (b + Zeros(PadLen(|b|))) && Intact(src, c)
  {
    FindLinkMeaning(Links(c), "data");
  }

  /** A "data" node that cannot be fetched, is not a protobuf node or is refused: the header
      alone, and an error. */
  lemma FlatUnreadable(src: Source, c: Cid, i: nat)
    requires c in src.dag && c.Node? && DataAt(c, i)
    requires var d := Links(c)[i].cid; d !in src.dag || d.Raw? || src.file(d).None?
    ensures Flat(src, c) == c.data && !Intact(src, c)
  {
    FindLinkMeaning(Links(c), "data");
    assert c.data + [] == c.data;
  }

  /** No "data" link: the header, then every link's entry. */
  lemma FlatDirectory(src: Source, c: Cid)
    requires c in src.dag && c.Node? && NoData(c)
    ensures Flat(src, c) == c.data + FlatAll(src, Links(c))
    ensures Intact(src, c) <==> IntactAll(src, Links(c))
  {
    FindLinkMeaning(Links(c), "data");
  }

  /** An entry that cannot be fetched or is not a protobuf node is passed over with an error. */
  lemma FlatBroken(src: Source, c: Cid)
    requires c !in src.dag || c.Raw?
    ensures Flat(src, c) == [] && !Intact(src, c)
  {
  }

  /** Entries come one after the other, in the order of the links. */
  lemma {:induction false} FlatAllConcat(src: Source, a: seq<Link>, b: seq<Link>)
    ensures FlatAll(src, a + b) == FlatAll(src, a) + FlatAll(src, b)
    ensures IntactAll(src, a + b) <==> IntactAll(src, a) && IntactAll(src, b)
    decreases |a|
  {
    if a == [] {
      assert a + b == b;
    } else {
      assert (a + b)[0] == a[0] && (a + b)[1..] == a[1..] + b;
      FlatAllConcat(src, a[1..], b);
      Assoc(Flat(src, a[0].cid), FlatAll(src, a[1..]), FlatAll(src, b));
    }
  }

  lemma FlatAllOne(src: Source, l: Link)
    ensures FlatAll(src, [l]) == Flat(src, l.cid) && (IntactAll(src, [l]) <==> Intact(src, l.cid))
  {
    assert [l][1..] == [] && Flat(src, l.cid) + [] == Flat(src, l.cid);
  }

  /** A whole export: with any buffer sizes the bytes of the flattening, up to an error. */
  method Export(src: Source, root: Cid) returns (all: seq<Byte>, res: Outcome, refused: bool)
    ensures refused <==> root.data != Ascii("ipfs/tar")
    ensures !refused ==> all <= FlatAll(src, Links(root)) && (res == EOF ==> all == FlatAll(src, Links(root)))
    ensures !refused && src.steady ==> (res == EOF <==> IntactAll(src, Links(root)))
    ensures !refused && res == EOF ==> IntactAll(src, Links(root))
  {
    var tr := ExportTar(src, root);
    if tr == null { return [], EOF, true; }
    refused := false;
    all, res := Copy(tr);
  }
}
