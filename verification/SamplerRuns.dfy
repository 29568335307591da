/** What a subscription holds after any turns of the runner, and what its first Close
    returns, told by the turns at which it was due. */
module SamplerRuns {
  import opened Wrappers
  import opened Sampler

  /** The interval after these due turns: doubled at each one by which the budget of
      samples at the interval has run out. */
  function IntervalAfter(s: SubState, m: nat, due: seq<Turn>): int {
    if due == [] then s.interval
    else
      var v := IntervalAfter(s, m, due[..|due| - 1]);
      if due[|due| - 1].tm - s.first >= v * m then 2 * v else v
  }

  /** Whether a turn is due after these: always the first one, and then each that is at
      least the interval after the last. */
  predicate IsNext(s: SubState, m: nat, due: seq<Turn>, tm: int) {
    due == [] || tm - due[|due| - 1].tm >= IntervalAfter(s, m, due)
  }

  /** The due turns of an open subscription, in order. */
  function DueTurns(s: SubState, m: nat, turns: seq<Turn>): seq<Turn> {
    if turns == [] then []
    else
      var due := DueTurns(s, m, turns[..|turns| - 1]);
      if IsNext(s, m, due, turns[|turns| - 1].tm) then due + [turns[|turns| - 1]] else due
  }

  /** The samples among the outcomes, in order. */
  function Values(due: seq<Turn>): seq<Sample> {
    if due == [] then []
    else if due[0].o.Value? then [due[0].o.sample] + Values(due[1..])
    else Values(due[1..])
  }

  /** The error of the last due turn, if that failed. */
  function LastError(due: seq<Turn>): Option<int> {
    if due != [] && due[|due| - 1].o.Failure? then Some(due[|due| - 1].o.code) else None
  }

  function LastTime(due: seq<Turn>): Option<int> {
    if due == [] then None else Some(due[|due| - 1].tm)
  }

  lemma {:induction false} ValuesMore(due: seq<Turn>, t: Turn)
    ensures Values(due + [t]) == Values(due) + if t.o.Value? then [t.o.sample] else []
  {
    if due == [] {
      assert [t][1..] == [];
    } else {
      assert (due + [t])[1..] == due[1..] + [t];
      ValuesMore(due[1..], t);
    }
  }

  predicate Fresh(s: SubState) {
    s.last.None? && s.samples == [] && s.err.None? && !s.closed
  }

  /** The subscription that these due turns lead to. */
  function StateAfter(s: SubState, m: nat, due: seq<Turn>): SubState {
    SubState(IntervalAfter(s, m, due), s.first, LastTime(due), Values(due), LastError(due), false)
  }

  /** One more turn, due or not. */
  lemma TickExact(s: SubState, m: nat, due: seq<Turn>, t: Turn)
    ensures Due(StateAfter(s, m, due), t.tm) <==> IsNext(s, m, due, t.tm)
    ensures Ticked(StateAfter(s, m, due), m, t.tm, t.o) ==
            StateAfter(s, m, if IsNext(s, m, due, t.tm) then due + [t] else due)
  {
    ValuesMore(due, t);
    assert (due + [t])[..|due|] == due;
  }

  /** After any turns the subscription holds the samples of its due turns, all and in
      order, whatever failed in between; an error exactly when the last due turn failed;
      the time of that turn, and the interval that the due turns have led to. */
  lemma {:induction false} WatchExact(s: SubState, m: nat, turns: seq<Turn>)
    requires Fresh(s)
    ensures var due := DueTurns(s, m, turns);
            Watch(s, m, turns).sub ==
            SubState(IntervalAfter(s, m, due), s.first, LastTime(due), Values(due), LastError(due), false)
    ensures Watch(s, m, turns).due == |DueTurns(s, m, turns)|
  {
    if turns == [] {
      assert Watch(s, m, turns).sub == s;
    } else {
      var n := |turns| - 1;
      WatchExact(s, m, turns[..n]);
      TickExact(s, m, DueTurns(s, m, turns[..n]), turns[n]);
    }
  }

  /** What the first Close returns after any turns: the error of the last due turn; else
      that of the final sample, if one is wanted and fails; else the filtered samples of
      all due turns, followed by the final one if it is wanted. */
  lemma FirstCloseExact(s: SubState, m: nat, turns: seq<Turn>, captureLast: bool, o: Outcome)
    requires Fresh(s)
    ensures var due := DueTurns(s, m, turns);
            var r := FirstClose(Watch(s, m, turns).sub, captureLast, o);
            && (LastError(due).Some? ==> r == Closing([], LastError(due)))
            && (LastError(due).None? && captureLast && o.Failure? ==> r == Closing([], Some(o.code)))
            && (LastError(due).None? && captureLast && o.Value? ==>
                  r == Closing(Filtered(Values(due), IntervalAfter(s, m, due)) + [o.sample], None))
            && (LastError(due).None? && !captureLast ==>
                  r == Closing(Filtered(Values(due), IntervalAfter(s, m, due)), None))
  {
    WatchExact(s, m, turns);
  }

  /** A later Close returns all samples of the due turns, and the error, if any. */
  lemma LaterCloseExact(s: SubState, m: nat, turns: seq<Turn>)
    requires Fresh(s)
    ensures var due := DueTurns(s, m, turns);
            LaterClose(Watch(s, m, turns).sub) == Closing(Values(due), LastError(due))
  {
    WatchExact(s, m, turns);
  }
}
