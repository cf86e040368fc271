/** The reference counts of p2p/stream.go. */
module Streams {

  type Pid = nat
  type Id = nat

  /** The registry: live streams by id, streams per peer, and the peers tagged with the
      connection manager. */
  datatype Registry = Registry(streams: map<Id, Pid>, conns: map<Pid, int>, nextID: Id, tagged: set<Pid>)

  datatype Op = Register(p: Pid) | Deregister(id: Id)

  ghost function Count(conns: map<Pid, int>, p: Pid): (n: int) { if p in conns then conns[p] else 0 }

  ghost function Apply(r: Registry, op: Op): (r': Registry)
  {
    match op
    case Register(p) =>
      Registry(r.streams[r.nextID := p], r.conns[p := Count(r.conns, p) + 1], r.nextID + 1, r.tagged + {p})
    case Deregister(id) =>
      if id !in r.streams then r
      else
        var p := r.streams[id];
        var n := Count(r.conns, p) - 1;
        if n < 1 then Registry(r.streams - {id}, r.conns - {p}, r.nextID, r.tagged - {p})
        else Registry(r.streams - {id}, r.conns[p := n], r.nextID, r.tagged)
  }

  class StreamRegistry {
    var streams: map<Id, Pid>
    var conns: map<Pid, int>
    var nextID: Id
    var tagged: set<Pid>

    constructor ()
      ensures State() == Registry(map[], map[], 0, {})
    {
      streams, conns, nextID, tagged := map[], map[], 0, {};
    }

    ghost function State(): (r: Registry)
      reads this
    {
      Registry(streams, conns, nextID, tagged)
    }

    /** Register, one critical section; returns the id stored in the stream. */
    method Register(p: Pid) returns (id: Id)
      modifies this
      ensures State() == Apply(old(State()), Op.Register(p)) && id == old(nextID)
    {
      tagged := tagged + {p};
      conns := conns[p := (if p in conns then conns[p] else 0) + 1];
      id := nextID;
      streams := streams[nextID := p];
      nextID := nextID + 1;
    }

    /** Deregister, called by every Close and Reset of a stream. */
    method Deregister(id: Id)
      modifies this
      ensures State() == Apply(old(State()), Op.Deregister(id))
    {
      if id !in streams { return; }
      var p := streams[id];
      conns := conns[p := (if p in conns then conns[p] else 0) - 1];
      if conns[p] < 1 {
        assert conns - {p} == old(conns) - {p};
        conns := conns - {p};
        tagged := tagged - {p};
      }
      streams := streams - {id};
    }
  }

  // ------------------------------------------------------------------ over every interleaving

  /** The live streams of a peer. */
  ghost function Live(r: Registry, p: Pid): (ids: set<Id>) { set id | id in r.streams && r.streams[id] == p }

  ghost function Run(ops: seq<Op>): (r: Registry)
  {
    if ops == [] then Registry(map[], map[], 0, {}) else Apply(Run(ops[..|ops| - 1]), ops[|ops| - 1])
  }

  /** A peer's count is the number of its live streams, and it is counted and tagged iff it
      has one. */
  ghost predicate Counted(r: Registry, p: Pid)
  {
    && Count(r.conns, p) == |Live(r, p)|
    && (p in r.conns <==> Live(r, p) != {})
    && (p in r.tagged <==> Live(r, p) != {})
  }

  ghost predicate IdsBelow(r: Registry) { forall id :: id in r.streams ==> id < r.nextID }

  ghost predicate Consistent(r: Registry) { IdsBelow(r) && forall p :: Counted(r, p) }

  lemma RegisterCounts(r: Registry, q: Pid, p: Pid)
    requires IdsBelow(r) && Counted(r, p)
    ensures Counted(Apply(r, Register(q)), p)
  {
    var r' := Apply(r, Register(q));
    if p == q {
      assert Live(r', p) == Live(r, p) + {r.nextID} && r.nextID !in Live(r, p);
    } else {
      assert Live(r', p) == Live(r, p);
    }
  }

  lemma DeregisterCounts(r: Registry, id: Id, p: Pid)
    requires Counted(r, p)
    ensures Counted(Apply(r, Deregister(id)), p)
  {
    var r' := Apply(r, Deregister(id));
    assert Live(r', p) == Live(r, p) - {id};
    if id in Live(r, p) {
      assert |Live(r', p)| == |Live(r, p)| - 1;
    } else {
      assert Live(r', p) == Live(r, p);
    }
  }

  lemma StepConsistent(r: Registry, op: Op)
    requires Consistent(r)
    ensures Consistent(Apply(r, op))
  {
    forall p ensures Counted(Apply(r, op), p) {
      assert Counted(r, p);
      match op
      case Register(q) => RegisterCounts(r, q, p);
      case Deregister(id) => DeregisterCounts(r, id, p);
    }
  }

  lemma {:induction false} AlwaysConsistent(ops: seq<Op>)
    ensures Consistent(Run(ops))
  {
    if ops != [] {
      AlwaysConsistent(ops[..|ops| - 1]);
      StepConsistent(Run(ops[..|ops| - 1]), ops[|ops| - 1]);
    } else {
      forall p ensures Counted(Run(ops), p) { assert Live(Run(ops), p) == {}; }
    }
  }

  /** However often and wherever later an id is deregistered again, nothing changes. */
  lemma {:induction false} DeregisteredForGood(r: Registry, id: Id, ops: seq<Op>)
    requires id < r.nextID && id !in r.streams
    ensures var s := RunFrom(r, ops); id !in s.streams && id < s.nextID && Apply(s, Deregister(id)) == s
  {
    if ops != [] { DeregisteredForGood(r, id, ops[..|ops| - 1]); }
  }

  ghost function RunFrom(r: Registry, ops: seq<Op>): (s: Registry)
  {
    if ops == [] then r else Apply(RunFrom(r, ops[..|ops| - 1]), ops[|ops| - 1])
  }

  // ------------------------------------------------------------------ which streams are live

  /** How many of the first `n` operations register a stream. */
  ghost function Registered(ops: seq<Op>, n: nat): (k: nat)
    requires n <= |ops|
  {
    if n == 0 then 0 else Registered(ops, n - 1) + if ops[n - 1].Register? then 1 else 0
  }

  lemma {:induction false} RegisteredPrefix(ops: seq<Op>, m: nat, n: nat)
    requires n <= m <= |ops|
    ensures Registered(ops[..m], n) == Registered(ops, n)
  {
    if n > 0 { RegisteredPrefix(ops, m, n - 1); }
  }

  lemma {:induction false} RegisteredGrows(ops: seq<Op>, m: nat, n: nat)
    requires m < n <= |ops| && ops[m].Register?
    ensures Registered(ops, m) < Registered(ops, n)
    decreases n
  {
    if m < n - 1 { RegisteredGrows(ops, m, n - 1); }
  }

  /** Operation `i` registers a stream of `p` under `id`, its number among the registrations,
      and none after it deregisters that. */
  ghost predicate LiveSince(ops: seq<Op>, i: nat, id: Id, p: Pid)
    requires i < |ops|
  {
    ops[i] == Register(p) && Registered(ops, i) == id && forall j :: i < j < |ops| ==> ops[j] != Deregister(id)
  }

  ghost predicate IsLive(ops: seq<Op>, id: Id, p: Pid) { exists i :: 0 <= i < |ops| && LiveSince(ops, i, id, p) }

  lemma {:induction false} NextIsCount(ops: seq<Op>)
    ensures Run(ops).nextID == Registered(ops, |ops|)
  {
    if ops != [] {
      var n := |ops| - 1;
      NextIsCount(ops[..n]);
      RegisteredPrefix(ops, n, n);
    }
  }

  lemma LiveBefore(ops: seq<Op>, id: Id, p: Pid)
    requires ops != []
    ensures var n := |ops| - 1;
            IsLive(ops, id, p) <==>
              || (ops[n] == Register(p) && Registered(ops, n) == id)
              || (ops[n] != Deregister(id) && IsLive(ops[..n], id, p))
  {
    var n := |ops| - 1;
    var rest := ops[..n];
    if IsLive(rest, id, p) && ops[n] != Deregister(id) {
      var i :| 0 <= i < n && LiveSince(rest, i, id, p);
      RegisteredPrefix(ops, n, i);
      forall j | i < j < |ops| ensures ops[j] != Deregister(id) { if j < n { assert rest[j] == ops[j]; } }
      assert LiveSince(ops, i, id, p);
    }
    if ops[n] == Register(p) && Registered(ops, n) == id { assert LiveSince(ops, n, id, p); }
    if IsLive(ops, id, p) {
      var i :| 0 <= i < |ops| && LiveSince(ops, i, id, p);
      if i < n {
        RegisteredPrefix(ops, n, i);
        assert LiveSince(rest, i, id, p);
      }
    }
  }

  /** The live streams are exactly those registered and not deregistered since, each under
      its number among the registrations. */
  lemma {:induction false} LiveExactly(ops: seq<Op>, id: Id, p: Pid)
    ensures id in Run(ops).streams && Run(ops).streams[id] == p <==> IsLive(ops, id, p)
  {
    if ops != [] {
      var n := |ops| - 1;
      LiveExactly(ops[..n], id, p);
      LiveBefore(ops, id, p);
      NextIsCount(ops[..n]);
      RegisteredPrefix(ops, n, n);
      if Registered(ops, n) == id { OldIdsBelow(ops[..n], id, p); }
    }
  }

  lemma OldIdsBelow(ops: seq<Op>, id: Id, p: Pid)
    requires id == Registered(ops, |ops|)
    ensures !IsLive(ops, id, p)
  {
    if IsLive(ops, id, p) {
      var i :| 0 <= i < |ops| && LiveSince(ops, i, id, p);
      RegisteredGrows(ops, i, |ops|);
    }
  }
}
