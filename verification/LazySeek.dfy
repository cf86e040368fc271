/** The lazy seeker of core/corehttp/lazyseek.go against an eager one. */
module LazySeek {
  import opened Ipld

  datatype Whence = SeekStart | SeekCurrent | SeekEnd | OtherWhence

  /** The eager seeker: a position, moved at once. */
  ghost function EagerSeek(size: int, pos: int, offset: int, whence: Whence): (r: (int, bool))
  {
    var to := match whence
              case SeekStart => offset
              case SeekCurrent => pos + offset
              case SeekEnd => size + offset
              case OtherWhence => -1;
    if to < 0 then (pos, false) else (to, true)
  }

  /** A seek succeeds iff its target is not negative, and then a seek back by the same amount
      undoes it; the three origins are the start, where it is, and the end. */
  lemma SeekLaws(size: int, pos: int, offset: int)
    requires 0 <= pos
    ensures EagerSeek(size, pos, offset, SeekStart) == if offset >= 0 then (offset, true) else (pos, false)
    ensures EagerSeek(size, pos, offset, SeekStart) == EagerSeek(size, pos, offset - pos, SeekCurrent)
    ensures EagerSeek(size, pos, offset, SeekStart) == EagerSeek(size, pos, offset - size, SeekEnd)
    ensures var r := EagerSeek(size, pos, offset, SeekCurrent);
            r.1 ==> EagerSeek(size, r.0, -offset, SeekCurrent) == (pos, true)
    ensures EagerSeek(size, pos, offset, OtherWhence) == (pos, false)
  {
  }

  datatype Outcome = Ok | EOF | Failed

  /** The wrapped reader, with its own position.  A read may be short.  A faulty reader's
      calls may fail; a failed seek leaves the position. */
  class Underlying {
    const content: seq<Byte>
    const faulty: bool
    var pos: nat
    ghost var calls: nat            // of either method

    constructor (content: seq<Byte>, faulty: bool)
      ensures this.content == content && this.faulty == faulty && pos == 0 && calls == 0
    {
      this.content, this.faulty, pos, calls := content, faulty, 0, 0;
    }

    method Seek(to: nat) returns (ok: bool)
      modifies this
      ensures pos == (if ok then to else old(pos)) && calls == old(calls) + 1
      ensures !faulty ==> ok
    {
      ok := *;
      ok := ok || !faulty;
      if ok { pos := to; }
      calls := calls + 1;
    }

    method Read(n: nat) returns (out: seq<Byte>, res: Outcome)
      modifies this
      ensures |out| <= n && pos == old(pos) + |out| && calls == old(calls) + 1
      ensures old(pos) <= |content| ==> pos <= |content| && out == content[old(pos)..pos]
      ensures old(pos) > |content| ==> out == []
      ensures res == EOF ==> old(pos) + |out| >= |content|
      ensures !faulty && n > 0 && old(pos) < |content| ==> out != [] && res != Failed
    {
      calls := calls + 1;
      if pos >= |content| { return [], EOF; }
      var most := if n < |content| - pos then n else |content| - pos;
      var k: nat := most;
      if faulty { k :| k <= most; } else if most > 0 { k :| 0 < k <= most; }
      out := content[pos..pos + k];
      pos := pos + k;
      res := if pos == |content| then EOF else Ok;
      if * { res := if faulty then Failed else Ok; }
    }
  }

  class LazySeeker {
    const reader: Underlying
    var size: int
    var offset: int
    var realOffset: int

    /** `realOffset` is where the reader really is. */
    ghost predicate Valid()
      reads this, reader
    {
      0 <= offset && realOffset == reader.pos && size == |reader.content|
    }

    constructor (r: Underlying)
      requires r.pos == 0
      ensures Valid() && reader == r && offset == 0
    {
      reader, size, offset, realOffset := r, |r.content|, 0, 0;
    }

    /** Seek: the eager seeker's answer, without touching the reader. */
    method Seek(to: int, whence: Whence) returns (pos: int, ok: bool)
      requires Valid()
      modifies this`offset
      ensures Valid() && (pos, ok) == EagerSeek(size, old(offset), to, whence) && offset == pos
      decreases if whence.SeekStart? then 0 else 1
    {
      match whence {
        case SeekEnd => pos, ok := Seek(size + to, SeekStart);
        case SeekCurrent => pos, ok := Seek(offset + to, SeekStart);
        case SeekStart =>
          if to < 0 { return offset, false; }
          offset := to;
          return offset, true;
        case OtherWhence => return offset, false;
      }
    }

    /** Read: the bytes an eager seeker would be at.  Past the end the reader is not asked;
        a failed seek of the reader is an error that moves nothing. */
    method Read(n: nat) returns (out: seq<Byte>, res: Outcome)
      requires Valid()
      modifies this, reader
      ensures Valid() && size == old(size) && offset == old(offset) + |out| && |out| <= n
      ensures old(offset) >= size ==> res == EOF && out == [] && reader.calls == old(reader.calls)
      ensures old(offset) < size ==> offset <= size && out == reader.content[old(offset)..offset]
      ensures res == EOF ==> offset >= size
      ensures old(offset) < size && !reader.faulty && n > 0 ==> out != [] && res != Failed
    {
      if offset >= size { return [], EOF; }
      while offset != realOffset
        invariant Valid() && offset == old(offset) && size == old(size)
        decreases offset != realOffset
      {
        var ok := reader.Seek(offset);
        if !ok { return [], Failed; }
        realOffset := offset;
      }
      out, res := reader.Read(n);
      realOffset := realOffset + |out|;
      offset := offset + |out|;
    }
  }

  // ------------------------------------------------------------------ whole conversations

  datatype Op = SeekOp(offset: int, whence: Whence) | ReadOp(n: nat)

  datatype Answer = Sought(pos: int, ok: bool) | Got(out: seq<Byte>, res: Outcome)

  /** Where an eager seeker is after its answers. */
  ghost function EagerPos(start: int, answers: seq<Answer>): (pos: int)
  {
    if answers == [] then start
    else match answers[|answers| - 1]
         case Sought(pos, _) => pos
         case Got(out, _) => EagerPos(start, answers[..|answers| - 1]) + |out|
  }

  /** What an eager seeker at `pos` may answer to a read: the bytes from there, an end only
      at the end, and something unless the reader can fail. */
  ghost predicate EagerBytes(content: seq<Byte>, faulty: bool, pos: int, n: nat, out: seq<Byte>, res: Outcome)
  {
    if 0 <= pos < |content| then
      && |out| <= n && pos + |out| <= |content| && out == content[pos..pos + |out|]
      && (res == EOF ==> pos + |out| == |content|)
      && (!faulty && n > 0 ==> out != [] && res != Failed)
    else out == [] && res == EOF
  }

  ghost predicate EagerAnswer(content: seq<Byte>, faulty: bool, pos: int, op: Op, a: Answer)
  {
    match op
    case SeekOp(offset, whence) =>
      var (to, ok) := EagerSeek(|content|, pos, offset, whence);
      a == Sought(to, ok)
    case ReadOp(n) => a.Got? && EagerBytes(content, faulty, pos, n, a.out, a.res)
  }

  ghost predicate EagerAt(r: Underlying, start: int, ops: seq<Op>, answers: seq<Answer>, i: nat)
    requires i < |ops| && i < |answers|
  {
    EagerAnswer(r.content, r.faulty, EagerPos(start, answers[..i]), ops[i], answers[i])
  }

  /** Every answer is that of an eager seeker at the position its earlier answers led to. */
  ghost predicate EagerRun(r: Underlying, start: int, ops: seq<Op>, answers: seq<Answer>)
    requires |answers| <= |ops|
  {
    forall i :: 0 <= i < |answers| ==> EagerAt(r, start, ops, answers, i)
  }

  lemma EagerStep(r: Underlying, start: int, ops: seq<Op>, answers: seq<Answer>, a: Answer)
    requires |answers| < |ops| && EagerRun(r, start, ops, answers)
    requires EagerAnswer(r.content, r.faulty, EagerPos(start, answers), ops[|answers|], a)
    ensures EagerRun(r, start, ops, answers + [a])
  {
    forall i | 0 <= i < |answers + [a]| ensures EagerAt(r, start, ops, answers + [a], i) {
      if i < |answers| {
        assert EagerAt(r, start, ops, answers, i);
        assert (answers + [a])[..i] == answers[..i];
      } else {
        assert (answers + [a])[..i] == answers;
      }
    }
  }

  lemma EagerMoves(start: int, answers: seq<Answer>, a: Answer)
    ensures EagerPos(start, answers + [a]) == if a.Sought? then a.pos else EagerPos(start, answers) + |a.out|
  {
    assert (answers + [a])[..|answers|] == answers;
  }

  method Answering(s: LazySeeker, op: Op) returns (a: Answer)
    requires s.Valid()
    modifies s, s.reader
    ensures s.Valid() && EagerAnswer(s.reader.content, s.reader.faulty, old(s.offset), op, a)
    ensures s.offset == if a.Sought? then a.pos else old(s.offset) + |a.out|
    ensures op.SeekOp? ==> s.reader.calls == old(s.reader.calls)
  {
    match op {
      case SeekOp(offset, whence) =>
        var pos, ok := s.Seek(offset, whence);
        a := Sought(pos, ok);
      case ReadOp(n) =>
        var out, res := s.Read(n);
        a := Got(out, res);
    }
  }

  /** Any sequence of seeks and reads is answered as by an eager seeker, and the reader is
      called for reads only. */
  method Drive(s: LazySeeker, ops: seq<Op>) returns (answers: seq<Answer>)
    requires s.Valid()
    modifies s, s.reader
    ensures s.Valid() && |answers| == |ops| && EagerRun(s.reader, old(s.offset), ops, answers)
    ensures s.offset == EagerPos(old(s.offset), answers)
    ensures (forall op :: op in ops ==> op.SeekOp?) ==> s.reader.calls == old(s.reader.calls)
  {
    answers := [];
    for i := 0 to |ops|
      invariant s.Valid() && |answers| == i && EagerRun(s.reader, old(s.offset), ops, answers)
      invariant s.offset == EagerPos(old(s.offset), answers)
      invariant (forall op :: op in ops[..i] ==> op.SeekOp?) ==> s.reader.calls == old(s.reader.calls)
    {
      var a := Answering(s, ops[i]);
      EagerStep(s.reader, old(s.offset), ops, answers, a);
      EagerMoves(old(s.offset), answers, a);
      answers := answers + [a];
      assert ops[..i + 1] == ops[..i] + [ops[i]];
    }
    assert ops[..|ops|] == ops;
  }
}
