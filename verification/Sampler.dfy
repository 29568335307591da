/** The adaptive sampler: due subscriptions, fan-out with interval doubling, and
    the downsampling filter of Close. Times and durations are integers of one
    unit; a subscription that was never sampled has no last time. */
module Sampler {
  import opened Wrappers
  import opened Bits

  datatype Sample = Sample(ts: int, value: int)

  /** What the callback returns. */
  datatype Outcome = Value(sample: Sample) | Failure(code: int)

  /** The fields of a subscription. */
  datatype SubState = SubState(
    interval: int, first: int, last: Option<int>, samples: seq<Sample>, err: Option<int>, closed: bool)

  predicate Due(s: SubState, tm: int) {
    !s.closed && (s.last.Some? ==> tm - s.last.value >= s.interval)
  }

  function Stamped(s: SubState, tm: int): SubState {
    s.(last := Some(tm))
  }

  /** The sample or the error, then the doubling of the interval. */
  function Received(s: SubState, maxSamples: nat, tm: int, o: Outcome): SubState {
    var t := if o.Value? then s.(samples := s.samples + [o.sample], err := None) else s.(err := Some(o.code));
    if t.interval * maxSamples <= tm - t.first then t.(interval := t.interval * 2) else t
  }

  class Sub {
    var interval: int
    var first: int
    var last: Option<int>
    var samples: seq<Sample>
    var err: Option<int>
    var closed: bool

    constructor (minInterval: int, now: int)
      ensures State() == SubState(minInterval, now, None, [], None, false)
    {
      interval, first, last, samples, err, closed := minInterval, now, None, [], None, false;
    }

    function State(): SubState
      reads this
    {
      SubState(interval, first, last, samples, err, closed)
    }

    /** filterByInterval: the first sample, then each that is at least interval
        after the one kept before it. */
    method FilterByInterval() returns (out: seq<Sample>)
      ensures out == Filtered(samples, interval)
    {
      out := [];
      if |samples| == 0 {
        return;
      }
      var current := first;
      for i := 0 to |samples|
        invariant out == Filtered(samples[..i], interval)
        invariant i > 0 ==> out != [] && current == out[|out| - 1].ts
      {
        var v := samples[i];
        assert samples[..i + 1][..i] == samples[..i];
        if i == 0 || v.ts - current >= interval {
          out := out + [v];
          current := v.ts;
        }
      }
      assert samples[..|samples|] == samples;
    }
  }

  class Sampler {
    const minInterval: int
    const maxSamples: nat
    var subs: set<Sub>

    constructor (minInterval: int, maxSamples: nat)
      ensures this.minInterval == minInterval && this.maxSamples == maxSamples && subs == {}
    {
      this.minInterval := minInterval;
      this.maxSamples := maxSamples;
      subs := {};
    }

    method Record(now: int) returns (ss: Sub)
      modifies this
      ensures fresh(ss) && subs == old(subs) + {ss}
      ensures ss.State() == SubState(minInterval, now, None, [], None, false)
    {
      ss := new Sub(minInterval, now);
      subs := subs + {ss};
    }

    /** The due subscriptions, each once and stamped; the others are untouched. */
    method CollectDueSubs(tm: int) returns (active: set<Sub>)
      modifies subs
      ensures subs == old(subs)
      ensures active == set ss | ss in subs && Due(old(ss.State()), tm)
      ensures forall ss :: ss in subs ==>
                ss.State() == if ss in active then Stamped(old(ss.State()), tm) else old(ss.State())
    {
      active := {};
      var todo := subs;
      while todo != {}
        invariant todo <= subs && subs == old(subs)
        invariant active == set ss | ss in subs - todo && Due(old(ss.State()), tm)
        invariant forall ss :: ss in subs ==>
                    ss.State() == if ss in active then Stamped(old(ss.State()), tm) else old(ss.State())
      {
        var ss :| ss in todo;
        todo := todo - {ss};
        if ss.closed || (ss.last.Some? && tm - ss.last.value < ss.interval) {
          continue;
        }
        ss.last := Some(tm);
        active := active + {ss};
      }
    }

    /** Every due subscription that is still registered receives the outcome. */
    method FanOut(active: set<Sub>, o: Outcome, tm: int)
      modifies active
      ensures forall ss :: ss in active ==>
                ss.State() == if ss in subs then Received(old(ss.State()), maxSamples, tm, o) else old(ss.State())
    {
      var todo := active;
      while todo != {}
        invariant todo <= active
        invariant forall ss :: ss in active ==>
                    ss.State() == if ss in subs && ss !in todo then Received(old(ss.State()), maxSamples, tm, o)
                                  else old(ss.State())
      {
        var ss :| ss in todo;
        todo := todo - {ss};
        if ss !in subs {
          continue;
        }
        match o {
          case Failure(code) =>
            ss.err := Some(code);
          case Value(v) =>
            ss.samples := ss.samples + [v];
            ss.err := None;
        }
        var dur := tm - ss.first;
        if ss.interval * maxSamples <= dur {
          ss.interval := ss.interval * 2;
        }
      }
    }

    /** Sub.Close; o is what the callback would return now. */
    method Close(ss: Sub, captureLast: bool, o: Outcome) returns (r: Closing)
      modifies this, ss
      ensures r == if old(ss.closed) then LaterClose(old(ss.State())) else FirstClose(old(ss.State()), captureLast, o)
      ensures ss.State() == old(ss.State()).(closed := true)
      ensures subs == if old(ss.closed) then old(subs) else old(subs) - {ss}
    {
      if ss.closed {
        return Closing(ss.samples, ss.err);
      }
      ss.closed := true;
      subs := subs - {ss};
      if ss.err.Some? {
        return Closing([], ss.err);
      }
      var filtered := ss.FilterByInterval();
      if !captureLast {
        return Closing(filtered, None);
      }
      match o {
        case Failure(code) => return Closing([], Some(code));
        case Value(last) => return Closing(filtered + [last], None);
      }
    }

    /** One turn of the runner. */
    method Tick(tm: int, o: Outcome)
      modifies subs
      ensures subs == old(subs)
      ensures forall ss :: ss in subs ==> ss.State() == Ticked(old(ss.State()), maxSamples, tm, o)
    {
      var active := CollectDueSubs(tm);
      if active == {} {
        return;
      }
      FanOut(active, o, tm);
    }
  }

  /** What a call of Close returns. */
  datatype Closing = Closing(samples: seq<Sample>, err: Option<int>)

  /** The first Close, without and with a final sample. */
  function FirstClose(s: SubState, captureLast: bool, o: Outcome): Closing {
    if s.err.Some? then Closing([], s.err)
    else if !captureLast then Closing(Filtered(s.samples, s.interval), None)
    else if o.Failure? then Closing([], Some(o.code))
    else Closing(Filtered(s.samples, s.interval) + [o.sample], None)
  }

  /** Every later Close returns the fields as they are. */
  function LaterClose(s: SubState): Closing {
    Closing(s.samples, s.err)
  }

  /** One turn of the runner, seen from one registered subscription. */
  function Ticked(s: SubState, maxSamples: nat, tm: int, o: Outcome): SubState {
    if Due(s, tm) then Received(Stamped(s, tm), maxSamples, tm, o) else s
  }

  /* ---- how many samples a subscription takes ---- */

  datatype Turn = Turn(tm: int, o: Outcome)

  /** The subscription after some turns, with the number of due turns, how many of
      them at the present interval, and the number of doublings. */
  datatype History = History(sub: SubState, due: nat, level: nat, doublings: nat)

  function Watch(s: SubState, maxSamples: nat, turns: seq<Turn>): History {
    if turns == [] then History(s, 0, 0, 0)
    else
      var h := Watch(s, maxSamples, turns[..|turns| - 1]);
      var turn := turns[|turns| - 1];
      var sub := Ticked(h.sub, maxSamples, turn.tm, turn.o);
      if !Due(h.sub, turn.tm) then h.(sub := sub)
      else if sub.interval == h.sub.interval then History(sub, h.due + 1, h.level + 1, h.doublings)
      else History(sub, h.due + 1, 0, h.doublings + 1)
  }

  /** The most due turns an interval after the first one can last. */
  function Cap(maxSamples: nat): nat {
    if maxSamples <= 1 then 1 else (maxSamples + 1) / 2
  }

  /** What every history keeps: base is the interval before any doubling, v the
      present one, half the one before it. */
  predicate Bounded(base: int, m: nat, h: History) {
    var v, age := h.sub.interval, if h.sub.last.Some? then h.sub.last.value - h.sub.first else 0;
    && v == base * Pow2(h.doublings)
    && (h.due == 0 <==> h.sub.last.None?)
    && (h.doublings == 0 ==>
          h.due == h.level && (h.level > 0 ==> age >= (h.level - 1) * v && age < v * m))
    && (h.doublings > 0 ==>
          && h.due >= 1
          && 2 * age >= v * m + 2 * h.level * v
          && (h.level > 0 ==> age < v * m)
          && h.due <= m + 1 + (h.doublings - 1) * Cap(m) + h.level)
  }

  lemma MulMono(a: int, b: int, v: int)
    requires v > 0
    ensures a >= b ==> a * v >= b * v
  {
    if a >= b {
      assert (a - b) * v >= 0;
    }
  }

  lemma FirstLevel(m: nat, v: int, age: int, level: nat)
    requires v > 0 && level > 0 && age >= (level - 1) * v && age < v * m
    ensures level <= m
  {
    MulMono(level - 1, m, v);
  }

  lemma LaterLevel(m: nat, v: int, age: int, level: nat)
    requires v > 0 && (level > 0 ==> 2 * age >= v * m + 2 * level * v && age < v * m)
    ensures level + 1 <= Cap(m)
  {
    MulMono(2 * level, m, v);
  }

  lemma NextLevel(level: nat, v: int)
    ensures (level + 1) * v == level * v + v && (level - 1) * v == level * v - v
    ensures 2 * level * v == 2 * (level * v) && 2 * (level + 1) * v == 2 * (level * v) + 2 * v
  {
  }

  /** One more due turn that keeps the interval v ... */
  lemma KeepsInterval(base: int, m: nat, h: History, tm: int, sub: SubState)
    requires base > 0 && Bounded(base, m, h) && Due(h.sub, tm) && tm >= h.sub.first && h.sub.interval > 0
    requires sub.first == h.sub.first && sub.last == Some(tm) && sub.interval == h.sub.interval
    requires h.sub.interval * m > tm - h.sub.first
    ensures Bounded(base, m, History(sub, h.due + 1, h.level + 1, h.doublings))
  {
    NextLevel(h.level, h.sub.interval);
  }

  /** ... and one that doubles it. */
  lemma DoublesInterval(base: int, m: nat, h: History, tm: int, sub: SubState)
    requires base > 0 && Bounded(base, m, h) && Due(h.sub, tm) && tm >= h.sub.first && h.sub.interval > 0
    requires sub.first == h.sub.first && sub.last == Some(tm) && sub.interval == 2 * h.sub.interval
    requires h.sub.interval * m <= tm - h.sub.first
    ensures Bounded(base, m, History(sub, h.due + 1, 0, h.doublings + 1))
  {
    var v := h.sub.interval;
    DoubledInterval(base, v, m, h.doublings);
    assert 2 * 0 * sub.interval == 0;
    if h.doublings == 0 {
      if h.level > 0 {
        FirstLevel(m, v, h.sub.last.value - h.sub.first, h.level);
      }
      assert 0 * Cap(m) == 0;
    } else {
      LaterLevel(m, v, h.sub.last.value - h.sub.first, h.level);
      assert h.doublings * Cap(m) == (h.doublings - 1) * Cap(m) + Cap(m);
    }
  }

  lemma DoubledInterval(base: int, v: int, m: nat, k: nat)
    requires v == base * Pow2(k)
    ensures 2 * v == base * Pow2(k + 1) && (2 * v) * m == 2 * (v * m)
  {
    assert base * (2 * Pow2(k)) == 2 * (base * Pow2(k));
  }

  predicate Clock(first: int, turns: seq<Turn>) {
    forall k :: 0 <= k < |turns| ==> turns[k].tm >= first
  }

  lemma {:induction false} WatchBounded(s: SubState, m: nat, turns: seq<Turn>)
    requires s.interval > 0 && s.last.None? && s.samples == [] && Clock(s.first, turns)
    ensures var h := Watch(s, m, turns); Bounded(s.interval, m, h) && h.sub.first == s.first && h.sub.interval > 0
    ensures |Watch(s, m, turns).sub.samples| <= Watch(s, m, turns).due
  {
    if turns == [] {
      assert s.interval * Pow2(0) == s.interval;
    } else {
      var n := |turns| - 1;
      WatchBounded(s, m, turns[..n]);
      var h := Watch(s, m, turns[..n]);
      if Due(h.sub, turns[n].tm) {
        var sub := Ticked(h.sub, m, turns[n].tm, turns[n].o);
        if sub.interval == h.sub.interval {
          KeepsInterval(s.interval, m, h, turns[n].tm, sub);
        } else {
          DoublesInterval(s.interval, m, h, turns[n].tm, sub);
        }
      }
    }
  }

  /** The sampling bound. After k doublings the interval is 2^k times the first one;
      at least half of that times maxSamples has passed, so k is logarithmic in the
      age of the subscription; at most maxSamples due turns pass at any interval
      before one that doubles it; the first interval sees at most maxSamples + 1 due
      turns in all and each later one at most about half as many. */
  lemma SamplesAreLogarithmic(s: SubState, m: nat, turns: seq<Turn>)
    requires s.interval > 0 && s.last.None? && s.samples == [] && Clock(s.first, turns)
    ensures var h := Watch(s, m, turns); var k := h.doublings;
            && h.sub.interval == s.interval * Pow2(k)
            && (k > 0 ==> h.sub.last.Some? && h.sub.last.value - s.first >= s.interval * Pow2(k - 1) * m)
            && h.level <= m
            && |h.sub.samples| <= m + 1 + k * Cap(m)
            && |h.sub.samples| <= (m + 1) * (k + 1)
  {
    var h := Watch(s, m, turns);
    WatchBounded(s, m, turns);
    BoundedGives(s.interval, m, h);
    CapMul(m, h.doublings);
  }

  lemma BoundedGives(base: int, m: nat, h: History)
    requires base > 0 && Bounded(base, m, h) && h.sub.interval > 0
    ensures h.doublings > 0 ==> h.sub.last.Some? && h.sub.last.value - h.sub.first >= base * Pow2(h.doublings - 1) * m
    ensures h.due <= m + 1 + h.doublings * Cap(m) && h.level <= m
  {
    if h.doublings == 0 {
      if h.level > 0 {
        FirstLevel(m, h.sub.interval, h.sub.last.value - h.sub.first, h.level);
      }
    } else {
      var age := h.sub.last.value - h.sub.first;
      LaterLevel(m, h.sub.interval, age, h.level);
      OneMoreCap(m, h.doublings);
      OldEnough(base, m, h.sub.interval, age, h.level, h.doublings);
    }
  }

  lemma OneMoreCap(m: nat, k: nat)
    requires k > 0
    ensures k * Cap(m) == (k - 1) * Cap(m) + Cap(m)
  {
  }

  /** Half the present interval times the budget has passed. */
  lemma OldEnough(base: int, m: nat, v: int, age: int, level: nat, k: nat)
    requires k > 0 && v > 0 && v == base * Pow2(k) && 2 * age >= v * m + 2 * level * v
    ensures age >= base * Pow2(k - 1) * m
  {
    DoubledInterval(base, base * Pow2(k - 1), m, k - 1);
    NextLevel(level, v);
    MulMono(level, 0, v);
  }

  lemma CapMul(m: nat, k: nat)
    ensures m + 1 + k * Cap(m) <= (m + 1) * (k + 1)
  {
    assert Cap(m) <= m + 1;
    assert (m + 1) * (k + 1) == m + 1 + k * (m + 1);
    assert k * (m + 1 - Cap(m)) >= 0;
  }

  /* ---- the filter ---- */

  function Filtered(samples: seq<Sample>, interval: int): seq<Sample> {
    if samples == [] then []
    else
      var out, v := Filtered(samples[..|samples| - 1], interval), samples[|samples| - 1];
      if out == [] || v.ts - out[|out| - 1].ts >= interval then out + [v] else out
  }

  predicate FarEnough(out: seq<Sample>, k: nat, interval: int)
    requires 0 < k < |out|
  {
    out[k].ts - out[k - 1].ts >= interval
  }

  /** Each kept sample is at least interval after the one kept before. */
  predicate Spaced(out: seq<Sample>, interval: int) {
    forall k :: 0 < k < |out| ==> FarEnough(out, k, interval)
  }

  /** One more sample. */
  lemma SpacedMore(out: seq<Sample>, v: Sample, interval: int)
    ensures Spaced(out + [v], interval) <==>
            Spaced(out, interval) && (out == [] || v.ts - out[|out| - 1].ts >= interval)
  {
    var more := out + [v];
    if Spaced(more, interval) {
      forall k | 0 < k < |out| ensures FarEnough(out, k, interval) {
        assert FarEnough(more, k, interval);
      }
      if out != [] {
        assert FarEnough(more, |out|, interval);
      }
    }
    if Spaced(out, interval) && (out == [] || v.ts - out[|out| - 1].ts >= interval) {
      forall k | 0 < k < |more| ensures FarEnough(more, k, interval) {
        if k < |out| {
          assert FarEnough(out, k, interval);
        }
      }
    }
  }

  /** out is samples with some left out. */
  predicate Subsequence(out: seq<Sample>, samples: seq<Sample>) {
    out == [] ||
    (samples != [] &&
     var init := samples[..|samples| - 1];
     Subsequence(out, init) ||
     (out[|out| - 1] == samples[|samples| - 1] && Subsequence(out[..|out| - 1], init)))
  }

  predicate InOrder(samples: seq<Sample>) {
    forall i, j :: 0 <= i < j < |samples| ==> samples[i].ts <= samples[j].ts
  }

  lemma {:induction false} FilterSpaces(samples: seq<Sample>, interval: int)
    ensures Spaced(Filtered(samples, interval), interval)
  {
    if samples != [] {
      FilterSpaces(samples[..|samples| - 1], interval);
      SpacedMore(Filtered(samples[..|samples| - 1], interval), samples[|samples| - 1], interval);
    }
  }

  /** The filter returns a subsequence that starts with the first sample and whose
      neighbours are at least the interval apart. */
  lemma {:induction false} FilterSelects(samples: seq<Sample>, interval: int)
    ensures Subsequence(Filtered(samples, interval), samples)
    ensures Spaced(Filtered(samples, interval), interval)
    ensures samples != [] ==> Filtered(samples, interval) != [] && Filtered(samples, interval)[0] == samples[0]
  {
    FilterSpaces(samples, interval);
    FilterIsSubsequence(samples, interval);
    FilterKeepsFirst(samples, interval);
  }

  lemma {:induction false} FilterIsSubsequence(samples: seq<Sample>, interval: int)
    ensures Subsequence(Filtered(samples, interval), samples)
  {
    if samples != [] {
      FilterIsSubsequence(samples[..|samples| - 1], interval);
      var before, v := Filtered(samples[..|samples| - 1], interval), samples[|samples| - 1];
      assert (before + [v])[..|before|] == before;
    }
  }

  lemma {:induction false} FilterKeepsFirst(samples: seq<Sample>, interval: int)
    ensures samples != [] ==> Filtered(samples, interval) != [] && Filtered(samples, interval)[0] == samples[0]
  {
    if samples != [] {
      FilterKeepsFirst(samples[..|samples| - 1], interval);
    }
  }

  /** It keeps as much as it can: no subsequence of samples in time order whose
      neighbours are at least the interval apart is longer, and one that is as long
      does not end earlier. */
  lemma {:induction false} FilterIsLongest(samples: seq<Sample>, interval: int, out: seq<Sample>)
    requires interval >= 0 && InOrder(samples) && Subsequence(out, samples) && Spaced(out, interval)
    ensures |out| <= |Filtered(samples, interval)|
    ensures |out| == |Filtered(samples, interval)| && out != [] ==>
              out[|out| - 1].ts >= Filtered(samples, interval)[|out| - 1].ts
    decreases |samples|
  {
    if out != [] {
      var init, v := samples[..|samples| - 1], samples[|samples| - 1];
      var before := Filtered(init, interval);
      if Subsequence(out, init) {
        FilterIsLongest(init, interval, out);
      } else {
        var n := |out| - 1;
        assert out == out[..n] + [out[n]];
        SpacedMore(out[..n], out[n], interval);
        FilterIsLongest(init, interval, out[..n]);
        if before != [] {
          FilterMembers(init, interval, |before| - 1);
        }
      }
    }
  }

  lemma {:induction false} FilterMembers(samples: seq<Sample>, interval: int, k: nat)
    requires k < |Filtered(samples, interval)|
    ensures Filtered(samples, interval)[k] in samples
  {
    var init := samples[..|samples| - 1];
    if k < |Filtered(init, interval)| {
      FilterMembers(init, interval, k);
    }
  }

  /** So the result is short: its span holds at least its length less one intervals. */
  lemma {:induction false} FilterIsShort(out: seq<Sample>, interval: int)
    requires Spaced(out, interval) && out != []
    ensures (|out| - 1) * interval <= out[|out| - 1].ts - out[0].ts
  {
    var n := |out| - 1;
    if n > 0 {
      assert out == out[..n] + [out[n]];
      SpacedMore(out[..n], out[n], interval);
      FilterIsShort(out[..n], interval);
      assert n * interval == (n - 1) * interval + interval;
    }
  }

  lemma {:induction false} FilterIsNotLonger(samples: seq<Sample>, interval: int)
    ensures |Filtered(samples, interval)| <= |samples|
  {
    if samples != [] {
      FilterIsNotLonger(samples[..|samples| - 1], interval);
    }
  }

  lemma {:induction false} SpacedIsKept(samples: seq<Sample>, interval: int)
    requires Spaced(samples, interval)
    ensures Filtered(samples, interval) == samples
  {
    if samples != [] {
      var n := |samples| - 1;
      assert samples == samples[..n] + [samples[n]];
      SpacedMore(samples[..n], samples[n], interval);
      SpacedIsKept(samples[..n], interval);
    }
  }

  lemma FilterKeepsSpaced(samples: seq<Sample>, interval: int)
    ensures Filtered(samples, interval) == samples <==> Spaced(samples, interval)
    ensures |Filtered(samples, interval)| <= |samples|
  {
    FilterIsNotLonger(samples, interval);
    FilterSpaces(samples, interval);
    if Spaced(samples, interval) {
      SpacedIsKept(samples, interval);
    }
  }

  /* ---- Close ---- */

  /** Close is documented as idempotent. A second call returns the same exactly when:
      after an error, there are no samples; without a final sample, no two
      neighbouring samples are closer than the interval; with one, it repeats the
      last sample, which alone is too close to its neighbour. */
  lemma CloseRepeatsIff(s: SubState, captureLast: bool, o: Outcome)
    ensures FirstClose(s, captureLast, o) == LaterClose(s) <==>
            if s.err.Some? then s.samples == []
            else if !captureLast then Spaced(s.samples, s.interval)
            else o.Value? && OnlyLastTooClose(s.samples, s.interval) && o.sample == s.samples[|s.samples| - 1]
  {
    FilterKeepsSpaced(s.samples, s.interval);
    if o.Value? {
      RepeatsLastIff(s.samples, s.interval, o.sample);
    }
  }

  /** It does not after two samples one unit apart, with an interval of one and a
      budget of one: the second sample doubles the interval and falls through the first
      Close's filter, but a later Close returns both. */
  lemma CloseCanDiffer()
    ensures var a, b := Sample(0, 7), Sample(1, 8);
            var s := Watch(SubState(1, 0, None, [], None, false), 1, [Turn(0, Value(a)), Turn(1, Value(b))]).sub;
            FirstClose(s, false, Value(b)) == Closing([a], None) && LaterClose(s) == Closing([a, b], None)
  {
    var a, b := Sample(0, 7), Sample(1, 8);
    TwoTurns();
    TwoFiltered();
    assert FirstClose(SubState(2, 0, Some(1), [a, b], None, false), false, Value(b)) == Closing([a], None);
  }

  lemma TwoTurns()
    ensures var a, b := Sample(0, 7), Sample(1, 8);
            Watch(SubState(1, 0, None, [], None, false), 1, [Turn(0, Value(a)), Turn(1, Value(b))]).sub ==
            SubState(2, 0, Some(1), [a, b], None, false)
  {
    var a, b := Sample(0, 7), Sample(1, 8);
    var start, first := SubState(1, 0, None, [], None, false), [Turn(0, Value(a))];
    var turns := [Turn(0, Value(a)), Turn(1, Value(b))];
    assert turns[..1] == first && first[..0] == [] && [a] + [b] == [a, b];
    assert Watch(start, 1, first).sub == SubState(1, 0, Some(0), [a], None, false);
    assert Ticked(SubState(1, 0, Some(0), [a], None, false), 1, 1, Value(b)) ==
           SubState(2, 0, Some(1), [a, b], None, false);
  }

  lemma TwoFiltered()
    ensures Filtered([Sample(0, 7), Sample(1, 8)], 2) == [Sample(0, 7)]
  {
    var a, b := Sample(0, 7), Sample(1, 8);
    assert [a, b][..1] == [a] && [a][..0] == [];
    assert Filtered([a], 2) == [a];
  }

  /** The samples returned are documented as at least the interval apart. They are
      exactly when the final sample, if one is taken, is not too close to the last one
      kept. */
  lemma CloseIsSpacedIff(s: SubState, captureLast: bool, o: Outcome)
    ensures Spaced(FirstClose(s, captureLast, o).samples, s.interval) <==>
            var out := Filtered(s.samples, s.interval);
            s.err.Some? || !captureLast || o.Failure? || out == [] || o.sample.ts - out[|out| - 1].ts >= s.interval
  {
    var out := Filtered(s.samples, s.interval);
    FilterSpaces(s.samples, s.interval);
    if o.Value? {
      SpacedMore(out, o.sample, s.interval);
    }
  }

  /** They are not when the final sample is taken at the time of the last one kept. */
  lemma FinalSampleTooClose()
    ensures var a, b := Sample(0, 7), Sample(0, 8);
            var r := FirstClose(SubState(1, 0, Some(0), [a], None, false), true, Value(b));
            r == Closing([a, b], None) && !Spaced(r.samples, 1)
  {
    var a, b := Sample(0, 7), Sample(0, 8);
    assert [a][..0] == [];
    assert Filtered([a], 1) == [a] && [a] + [b] == [a, b];
    assert !FarEnough([a, b], 1, 1);
  }

  lemma RepeatsLastIff(samples: seq<Sample>, interval: int, x: Sample)
    ensures Filtered(samples, interval) + [x] == samples <==>
            OnlyLastTooClose(samples, interval) && x == samples[|samples| - 1]
  {
    if samples != [] {
      var n := |samples| - 1;
      var out := Filtered(samples, interval);
      FilterKeepsSpaced(samples[..n], interval);
      FilterSpaces(samples, interval);
      assert samples == samples[..n] + [samples[n]];
      if out + [x] == samples {
        assert out == samples[..n];
      }
    }
  }

  predicate OnlyLastTooClose(samples: seq<Sample>, interval: int) {
    var n := |samples| - 1;
    n >= 1 && Spaced(samples[..n], interval) && samples[n].ts - samples[n - 1].ts < interval
  }
}
