/** The byte window of `cat`: core/commands/cat.go. */
module Cat {
  import opened Ipld

  /** What a path resolves to. */
  datatype Item = File(bytes: seq<Byte>) | NotAFile

  /** A reader over the rest of a file, possibly cut off by io.LimitReader. */
  datatype Reader = Whole(rest: seq<Byte>) | Limited(rest: seq<Byte>, limit: int)

  ghost function BytesOf(r: Reader): (b: seq<Byte>)
  {
    match r
    case Whole(rest) => rest
    case Limited(rest, limit) => if limit <= 0 then [] else if limit < |rest| then rest[..limit] else rest
  }

  ghost function Output(rs: seq<Reader>): (b: seq<Byte>)
  {
    if rs == [] then [] else Output(rs[..|rs| - 1]) + BytesOf(rs[|rs| - 1])
  }

  /** The contents of the first `n` items together. */
  ghost function Contents(items: seq<Item>, n: nat): (b: seq<Byte>)
    requires n <= |items|
  {
    if n == 0 then []
    else Contents(items, n - 1) + match items[n - 1] case File(bytes) => bytes case NotAFile => []
  }

  ghost function Drop(b: seq<Byte>, n: nat): (r: seq<Byte>) { if n <= |b| then b[n..] else [] }

  /** A negative limit is no limit. */
  ghost function Take(b: seq<Byte>, n: int): (r: seq<Byte>) { if 0 <= n <= |b| then b[..n] else b }

  /** Whether `cat` gets as far as item `j`: the items before it do not fill the window. */
  ghost predicate Needed(items: seq<Item>, offset: nat, max: int, j: nat)
    requires j <= |items|
  {
    max < 0 || |Drop(Contents(items, j), offset)| < max
  }

  ghost predicate Blocked(items: seq<Item>, offset: nat, max: int)
  {
    exists j :: 0 <= j < |items| && items[j].NotAFile? && Needed(items, offset, max, j)
  }

  lemma {:induction false} ContentsGrow(items: seq<Item>, i: nat, j: nat)
    requires i <= j <= |items|
    ensures Contents(items, i) <= Contents(items, j)
    decreases j
  {
    if i < j { ContentsGrow(items, i, j - 1); }
  }

  /** The items' contents come one after the other. */
  lemma {:induction false} ContentsConcat(a: seq<Item>, b: seq<Item>, n: nat)
    requires n <= |b|
    ensures Contents(a + b, |a| + n) == Contents(a, |a|) + Contents(b, n)
    decreases n
  {
    if n == 0 {
      ContentsPrefix(a, b, |a|);
    } else {
      ContentsConcat(a, b, n - 1);
      assert (a + b)[|a| + n - 1] == b[n - 1];
    }
  }

  lemma {:induction false} ContentsPrefix(a: seq<Item>, b: seq<Item>, n: nat)
    requires n <= |a|
    ensures Contents(a + b, n) == Contents(a, n)
  {
    if n > 0 { ContentsPrefix(a, b, n - 1); }
  }

  lemma ContentsOne(bytes: seq<Byte>)
    ensures Contents([File(bytes)], 1) == bytes
  {
    assert Contents([File(bytes)], 0) == [];
  }

  /** What one more file adds to the bytes after the offset; `off` is the part of the
      offset that reaches into it. */
  lemma DropStep(done: seq<Byte>, file: seq<Byte>, offset: nat, off: nat)
    requires off == if |done| < offset then offset - |done| else 0
    ensures Drop(done + file, offset) == Drop(done, offset) + Drop(file, off)
  {
  }

  lemma OutputAppend(rs: seq<Reader>, r: Reader)
    ensures Output(rs + [r]) == Output(rs) + BytesOf(r)
  {
    assert (rs + [r])[..|rs|] == rs;
  }

  lemma TakeAcross(a: seq<Byte>, b: seq<Byte>, max: int)
    requires |a| < max <= |a| + |b|
    ensures Take(a + b, max) == a + b[..max - |a|]
  {
  }

  ghost predicate OnlyLastCut(rs: seq<Reader>)
  {
    forall i :: 0 <= i < |rs| && rs[i].Limited? ==> i == |rs| - 1 && 0 < rs[i].limit < |rs[i].rest|
  }

  ghost predicate AllFiles(items: seq<Item>, n: nat) { forall j :: 0 <= j < n && j < |items| ==> items[j].File? }

  ghost predicate AllWhole(rs: seq<Reader>) { forall k :: 0 <= k < |rs| ==> rs[k].Whole? }

  /** What holds after files with contents `done`, while the window is not full. */
  ghost predicate Collected(done: seq<Byte>, offset: nat, max: int, off: nat, readers: seq<Reader>, length: nat)
  {
    && off == (if |done| < offset then offset - |done| else 0)
    && Output(readers) == Drop(done, offset) && length == |Output(readers)|
    && (max < 0 || length < max)
    && AllWhole(readers)
  }

  /** The body of the loop for one file. */
  method AddFile(file: seq<Byte>, off: nat, max: int, readers: seq<Reader>, length: nat,
                 ghost done: seq<Byte>, ghost offset: nat)
    returns (readers': seq<Reader>, length': nat, off': nat, full: bool)
    requires max != 0 && Collected(done, offset, max, off, readers, length)
    ensures !full ==> Collected(done + file, offset, max, off', readers', length')
    ensures full ==> Output(readers') == Take(Drop(done + file, offset), max) && length' == |Output(readers')|
                     && 0 < max <= |Drop(done + file, offset)| && OnlyLastCut(readers')
  {
    DropStep(done, file, offset, off);
    readers', length', off', full := readers, length, 0, false;
    if off > |file| {
      off' := off - |file|;
      return;
    }
    var rest := file[off..];
    assert Drop(done + file, offset) == Output(readers) + rest;
    length' := length + |rest|;
    var r := Whole(rest);
    if max > 0 && length' >= max {
      full := true;
      r, length' := Cut(rest, length', max);
      TakeAcross(Output(readers), rest, max);
    }
    OutputAppend(readers, r);
    readers' := readers + [r];
  }

  /** The readers yield the window of all items, and nothing that is not a file is needed. */
  ghost predicate IsWindow(items: seq<Item>, offset: nat, max: int, readers: seq<Reader>, length: nat)
  {
    && Output(readers) == Take(Drop(Contents(items, |items|), offset), max) && length == |Output(readers)|
    && OnlyLastCut(readers) && !Blocked(items, offset, max)
  }

  /** The body of the loop for a file among the items. */
  method AddItem(items: seq<Item>, i: nat, off: nat, max: int, readers: seq<Reader>, length: nat, ghost offset: nat)
    returns (readers': seq<Reader>, length': nat, off': nat, full: bool)
    requires i < |items| && items[i].File? && AllFiles(items, i) && max != 0
    requires Collected(Contents(items, i), offset, max, off, readers, length)
    ensures !full ==> Collected(Contents(items, i + 1), offset, max, off', readers', length')
    ensures full ==> IsWindow(items, offset, max, readers', length')
  {
    ghost var done := Contents(items, i);
    assert Contents(items, i + 1) == done + items[i].bytes;
    readers', length', off', full := AddFile(items[i].bytes, off, max, readers, length, done, offset);
    if full { WindowFull(items, i + 1, offset, max); }
  }

  /** The loop over the items. */
  method Collect(items: seq<Item>, offset: nat, max: int) returns (readers: seq<Reader>, length: nat, ok: bool)
    requires max != 0
    ensures if ok then IsWindow(items, offset, max, readers, length)
            else readers == [] && length == 0 && Blocked(items, offset, max)
  {
    readers, length, ok := [], 0, true;
    var off := offset;
    for i := 0 to |items|
      invariant ok && AllFiles(items, i)
      invariant Collected(Contents(items, i), offset, max, off, readers, length)
    {
      if items[i].NotAFile? {
        StuckAt(items, i, offset, max);
        return [], 0, false;
      }
      var full;
      readers, length, off, full := AddItem(items, i, off, max, readers, length, offset);
      if full { return; }
    }
    WindowOpen(items, offset, max, off, readers, length);
  }

  /** cat.  The readers yield exactly the window [offset, offset + max) of all files
      together, `length` is its size, and only the last reader is cut, to a positive
      limit.  It fails iff it gets as far as something that is not a file. */
  method Cat(items: seq<Item>, offset: nat, max: int) returns (readers: seq<Reader>, length: nat, ok: bool)
    requires max >= -1
    ensures ok ==> Output(readers) == Take(Drop(Contents(items, |items|), offset), max) && length == |Output(readers)|
    // that is, byte k of the output is byte offset + k of the files, as far as both go
    ensures ok ==> var all := Contents(items, |items|);
              && length == (var left := if offset < |all| then |all| - offset else 0;
                            if 0 <= max < left then max else left)
              && forall k :: 0 <= k < length ==> Output(readers)[k] == all[offset + k]
    ensures OnlyLastCut(readers)
    ensures !ok <==> max != 0 && Blocked(items, offset, max)
  {
    if max == 0 { return [], 0, true; }
    readers, length, ok := Collect(items, offset, max);
  }

  /** When the items end before the window is full. */
  lemma WindowOpen(items: seq<Item>, offset: nat, max: int, off: nat, readers: seq<Reader>, length: nat)
    requires AllFiles(items, |items|) && max != 0
    requires Collected(Contents(items, |items|), offset, max, off, readers, length)
    ensures IsWindow(items, offset, max, readers, length)
  {
    NothingStuck(items, offset, max);
  }

  lemma StuckAt(items: seq<Item>, i: nat, offset: nat, max: int)
    requires i < |items| && items[i].NotAFile? && Needed(items, offset, max, i)
    ensures Blocked(items, offset, max)
  {
  }

  lemma NothingStuck(items: seq<Item>, offset: nat, max: int)
    requires AllFiles(items, |items|)
    ensures !Blocked(items, offset, max)
  {
  }

  /** The last reader: cut by what the total overshoots. */
  method Cut(rest: seq<Byte>, length: nat, max: int) returns (r: Reader, cut: nat)
    requires 0 < max <= length && length - |rest| < max
    ensures cut == max && BytesOf(r) == rest[..max - (length - |rest|)]
    ensures r.Limited? ==> 0 < r.limit < |r.rest|
  {
    r, cut := Whole(rest), length;
    var overshoot := length - max;
    if overshoot != 0 {
      r, cut := Limited(rest, |rest| - overshoot), max;
    }
  }

  /** Once the window is full, the remaining items do not matter. */
  lemma WindowFull(items: seq<Item>, i: nat, offset: nat, max: int)
    requires i <= |items| && AllFiles(items, i) && 0 < max <= |Drop(Contents(items, i), offset)|
    ensures Take(Drop(Contents(items, |items|), offset), max) == Take(Drop(Contents(items, i), offset), max)
    ensures !Blocked(items, offset, max)
  {
    ContentsGrow(items, i, |items|);
    forall j | 0 <= j < |items| && items[j].NotAFile? ensures !Needed(items, offset, max, j) {
      ContentsGrow(items, i, j);
    }
  }
}
