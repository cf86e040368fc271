/** The reconnect delays of the peering service, over whole runs. */
module PeeringDelays {
  import opened Backoff
  import opened Peering

  /** The steps at which a handler asks for its next delay, and at which it is reset. */
  ghost predicate Asks(s: State, a: Action, h: Hid)
  {
    || (a.StartFinish? && a.h == h)
    || (a.ReconnectFailed? && a.h == h && h in s.handlers && s.handlers[h].timer)
  }

  ghost predicate Resets(s: State, a: Action, h: Hid)
  {
    (a.StopFinish? && a.h == h) || (a.AddPeer? && a.h == h && a.p !in s.svc.peers)
  }

  /** How often it has asked since the last reset. */
  ghost function Asked(ss: seq<State>, acts: seq<Action>, i: nat, h: Hid): (n: nat)
    requires i <= |acts| < |ss|
  {
    if i == 0 || Resets(ss[i - 1], acts[i - 1], h) then 0
    else Asked(ss, acts, i - 1, h) + if Asks(ss[i - 1], acts[i - 1], h) then 1 else 0
  }

  /** A delay that so many calls can lead to. */
  ghost predicate After(n: nat, delay: int)
  {
    exists draws: seq<(int, int)> :: |draws| == n && LegalRun(draws) && DelayAfter(draws) == delay
  }

  lemma AfterNone()
    ensures After(0, INITIAL_DELAY)
  {
    var none: seq<(int, int)> := [];
    assert |none| == 0 && LegalRun(none) && DelayAfter(none) == INITIAL_DELAY;
  }

  lemma AfterOneMore(n: nat, delay: int, next: int)
    requires After(n, delay) && Follows(delay, next)
    ensures After(n + 1, next)
  {
    var draws: seq<(int, int)> :| |draws| == n && LegalRun(draws) && DelayAfter(draws) == delay;
    var grow, jitter :| LegalDraws(delay, grow, jitter) && next == NextDelay(delay, grow, jitter);
    var more := draws + [(grow, jitter)];
    assert more[..n] == draws && more[n] == (grow, jitter);
    assert |more| == n + 1 && LegalRun(more) && DelayAfter(more) == next;
  }

  /** A step leaves a handler's delay alone unless it asks or resets. */
  lemma DelayStep(s: State, a: Action, h: Hid)
    requires Enabled(s, a) && h in Do(s, a).handlers
    ensures var next := Do(s, a).handlers[h].delay;
            if Resets(s, a, h) then next == INITIAL_DELAY
            else h in s.handlers &&
                 if Asks(s, a, h) then Follows(s.handlers[h].delay, next) else next == s.handlers[h].delay
  {
    if NetworkStep(a) {
      NetworkKeepsHandlers(s, a);
    } else if ServiceStep(a) {
      DelayServiceStep(s, a, h);
    } else {
      DelayHandlerStep(s, a, h);
    }
  }

  lemma DelayServiceStep(s: State, a: Action, h: Hid)
    requires Enabled(s, a) && ServiceStep(a) && h in Do(s, a).handlers
    ensures var next := Do(s, a).handlers[h].delay;
            if Resets(s, a, h) then next == INITIAL_DELAY else h in s.handlers && next == s.handlers[h].delay
  {
    if !(a.AddPeer? || a.RemovePeer? || a.StopOne?) { assert Do(s, a).handlers == s.handlers; }
  }

  lemma DelayHandlerStep(s: State, a: Action, h: Hid)
    requires Enabled(s, a) && !ServiceStep(a) && !NetworkStep(a) && h in Do(s, a).handlers
    ensures h in s.handlers
    ensures var next := Do(s, a).handlers[h].delay;
            if a.StopFinish? && a.h == h then next == INITIAL_DELAY
            else if Asks(s, a, h) then Follows(s.handlers[h].delay, next)
            else next == s.handlers[h].delay
  {
    if a.StartCheck? || a.StopCheck? { DelayAtCheck(s, a, h); } else { DelayAtFinish(s, a, h); }
  }

  lemma DelayAtCheck(s: State, a: Action, h: Hid)
    requires Enabled(s, a) && (a.StartCheck? || a.StopCheck?) && h in Do(s, a).handlers
    ensures h in s.handlers && Do(s, a).handlers[h].delay == s.handlers[h].delay
  {
  }

  lemma DelayAtFinish(s: State, a: Action, h: Hid)
    requires Enabled(s, a) && (a.StartFinish? || a.StopFinish? || a.ReconnectFailed?) && h in Do(s, a).handlers
    ensures h in s.handlers
    ensures var next := Do(s, a).handlers[h].delay;
            if a.StopFinish? && a.h == h then next == INITIAL_DELAY
            else if Asks(s, a, h) then Follows(s.handlers[h].delay, next)
            else next == s.handlers[h].delay
  {
  }

  /** Over every run, a handler's delay is one that its calls since the last reset can lead
      to. */
  lemma {:induction false} DelaySinceReset(ss: seq<State>, acts: seq<Action>, i: nat, h: Hid)
    requires Run(ss, acts) && i <= |acts| && h in ss[i].handlers
    ensures After(Asked(ss, acts, i, h), ss[i].handlers[h].delay)
  {
    AfterNone();
    if i > 0 {
      var s, a := ss[i - 1], acts[i - 1];
      DelayStep(s, a, h);
      if !Resets(s, a, h) {
        DelaySinceReset(ss, acts, i - 1, h);
        if Asks(s, a, h) { AfterOneMore(Asked(ss, acts, i - 1, h), s.handlers[h].delay, ss[i].handlers[h].delay); }
      }
    }
  }

  /** So a handler that has not asked has the initial delay, the first delay is between 7.5
      and 12.5 seconds, and from the 12th on it is in the last tenth. */
  lemma DelaysSettle(ss: seq<State>, acts: seq<Action>, i: nat, h: Hid)
    requires Run(ss, acts) && i <= |acts| && h in ss[i].handlers
    ensures var n, delay := Asked(ss, acts, i, h), ss[i].handlers[h].delay;
            && (n == 0 ==> delay == 5_000_000_000)
            && (n == 1 ==> 7_500_000_000 <= delay < 12_500_000_000)
            && (n >= 12 ==> 540_000_000_000 < delay <= 600_000_000_000)
  {
    DelaySinceReset(ss, acts, i, h);
    var n, delay := Asked(ss, acts, i, h), ss[i].handlers[h].delay;
    var draws: seq<(int, int)> :| |draws| == n && LegalRun(draws) && DelayAfter(draws) == delay;
    if n == 1 { FirstDelay(draws); }
    if n >= 12 { SettlesAfterTwelve(draws); }
  }

  lemma FirstDelay(draws: seq<(int, int)>)
    requires |draws| == 1 && LegalRun(draws)
    ensures 7_500_000_000 <= DelayAfter(draws) < 12_500_000_000
  {
    assert draws[..0] == [] && DelayAfter(draws[..0]) == INITIAL_DELAY;
  }

  /** Over every run, a handler in service without a timer has asked for nothing since the
      last reset: a peer that connects is forgiven all its failures. */
  lemma {:induction false} NoTimerNothingAsked(ss: seq<State>, acts: seq<Action>, i: nat, h: Hid)
    requires Run(ss, acts) && i <= |acts| && h in ss[i].handlers && !ss[i].handlers[h].cancelled
    ensures !ss[i].handlers[h].timer ==> Asked(ss, acts, i, h) == 0
    ensures ss[i].handlers[h].mu == Starting ==> !ss[i].handlers[h].timer
  {
    if i > 0 {
      var s, a := ss[i - 1], acts[i - 1];
      TimerStep(s, a, h);
      if !Resets(s, a, h) { NoTimerNothingAsked(ss, acts, i - 1, h); }
    }
  }

  /** A handler in service, from one state to the next: it loses its timer at a reset only,
      and asks only when it has or gets one. */
  ghost predicate TimerKept(s: State, a: Action, h: Hid, x: Handler)
  {
    if Resets(s, a, h) then !x.timer && x.mu == Free
    else
      && h in s.handlers && !s.handlers[h].cancelled
      && (Asks(s, a, h) ==> x.timer)
      && (!x.timer ==> !s.handlers[h].timer)
      && (x.mu == Starting ==> !x.timer || (s.handlers[h].mu == Starting && s.handlers[h].timer))
  }

  lemma TimerStep(s: State, a: Action, h: Hid)
    requires Enabled(s, a) && h in Do(s, a).handlers && !Do(s, a).handlers[h].cancelled
    ensures TimerKept(s, a, h, Do(s, a).handlers[h])
  {
    if NetworkStep(a) {
      TimerNetwork(s, a, h);
    } else if ServiceStep(a) {
      TimerService(s, a, h);
    } else if a.StartCheck? || a.StopCheck? {
      TimerAtCheck(s, a, h);
    } else {
      TimerAtFinish(s, a, h);
    }
  }

  lemma TimerNetwork(s: State, a: Action, h: Hid)
    requires Enabled(s, a) && NetworkStep(a) && h in Do(s, a).handlers && !Do(s, a).handlers[h].cancelled
    ensures TimerKept(s, a, h, Do(s, a).handlers[h])
  {
    NetworkKeepsHandlers(s, a);
  }

  lemma TimerService(s: State, a: Action, h: Hid)
    requires Enabled(s, a) && ServiceStep(a) && h in Do(s, a).handlers && !Do(s, a).handlers[h].cancelled
    ensures TimerKept(s, a, h, Do(s, a).handlers[h])
  {
    if !(a.AddPeer? || a.RemovePeer? || a.StopOne?) { assert Do(s, a).handlers == s.handlers; }
  }

  lemma TimerAtCheck(s: State, a: Action, h: Hid)
    requires Enabled(s, a) && (a.StartCheck? || a.StopCheck?)
    requires h in Do(s, a).handlers && !Do(s, a).handlers[h].cancelled
    ensures TimerKept(s, a, h, Do(s, a).handlers[h])
  {
  }

  lemma TimerAtFinish(s: State, a: Action, h: Hid)
    requires Enabled(s, a) && (a.StartFinish? || a.StopFinish? || a.ReconnectFailed?)
    requires h in Do(s, a).handlers && !Do(s, a).handlers[h].cancelled
    ensures TimerKept(s, a, h, Do(s, a).handlers[h])
  {
  }

  /** So in every reachable state such a handler is back at the initial delay. */
  lemma BackToInitial(s: State, h: Hid)
    requires Reachable(s) && h in s.handlers && !s.handlers[h].cancelled && !s.handlers[h].timer
    ensures s.handlers[h].delay == INITIAL_DELAY
  {
    var ss, acts :| Run(ss, acts) && ss[|acts|] == s;
    NoTimerNothingAsked(ss, acts, |acts|, h);
    DelaysSettle(ss, acts, |acts|, h);
  }
}
