/** Runs of a state machine: states with an action between each and the next. */
module Runs {

  ghost predicate Steps<S, A>(next: (S, A, S) -> bool, ss: seq<S>, acts: seq<A>)
  {
    |ss| == |acts| + 1 && forall i {:trigger acts[i]} :: 0 <= i < |acts| ==> next(ss[i], acts[i], ss[i + 1])
  }

  /** One step more at the end. */
  lemma Append<S, A>(next: (S, A, S) -> bool, ss: seq<S>, acts: seq<A>, a: A, s: S)
    requires Steps(next, ss, acts) && next(ss[|acts|], a, s)
    ensures Steps(next, ss + [s], acts + [a]) && (ss + [s])[|acts + [a]|] == s && (ss + [s])[0] == ss[0]
  {
  }

  /** One step more at the start. */
  lemma Prepend<S, A>(next: (S, A, S) -> bool, s: S, a: A, ss: seq<S>, acts: seq<A>)
    requires Steps(next, ss, acts) && next(s, a, ss[0])
    ensures Steps(next, [s] + ss, [a] + acts) && ([s] + ss)[|[a] + acts|] == ss[|acts|]
  {
    var ss', acts' := [s] + ss, [a] + acts;
    forall i | 0 <= i < |acts'| ensures next(ss'[i], acts'[i], ss'[i + 1]) {
      if i > 0 { assert next(ss[i - 1], acts[i - 1], ss[i]); }
    }
  }
}
