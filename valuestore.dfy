/** The per-item value store of the interface checks and the two
    computations that go through it: turning a counter into a per-second
    rate against the sample of the previous poll (`get_rate`), and smoothing
    a rate over several polls (`get_average`). */
module CounterStore {
  import opened Wrappers

  datatype Direction = In | Out

  /** A value store key: the sample of the counter at position `metric` of
      the metric list, or the running average of one traffic direction over
      a window of `minutes`. */
  datatype StoreKey = CounterKey(metric: nat) | AverageKey(dir: Direction, minutes: nat)

  datatype Entry = CounterSample(time: real, count: nat) | AverageSample(time: real, avg: real)

  function Get(entries: map<StoreKey, Entry>, k: StoreKey): Option<Entry>
  {
    if k in entries then Some(entries[k]) else None
  }

  /** The rate of a counter that reads `count` at `time`, against the
      previous sample: none without a sample or when no time has passed; a
      counter that went backwards is taken to have restarted from zero. */
  function RateOf(prev: Option<Entry>, time: real, count: nat): (r: Option<real>)
    ensures r.Some? <==> prev.Some? && prev.value.CounterSample? && prev.value.time < time
    ensures r.Some? ==> r.value >= 0.0
    ensures r.Some? && prev.value.count <= count ==>
      r.value * (time - prev.value.time) == (count - prev.value.count) as real
    ensures r.Some? && count < prev.value.count ==>
      r.value * (time - prev.value.time) == count as real
  {
    match prev
    case Some(CounterSample(t0, c0)) =>
      if t0 < time then
        var dt := time - t0;
        var delta := if c0 <= count then (count - c0) as real else count as real;
        assert delta / dt * dt == delta;
        Some(delta / dt)
      else None
    case _ => None
  }

  /** The smoothed value after a new sample: the sample itself when there
      is no earlier average, else the convex combination weighting the
      earlier average by `decay`: `decay * a + (1 - decay) * sample`,
      written as a step from `a` towards the sample. */
  function AverageOf(prev: Option<Entry>, sample: real, decay: real): (r: real)
    requires 0.0 <= decay <= 1.0
    ensures !(prev.Some? && prev.value.AverageSample?) ==> r == sample
    ensures prev.Some? && prev.value.AverageSample? ==>
      (prev.value.avg <= r <= sample) || (sample <= r <= prev.value.avg)
    ensures decay == 0.0 ==> r == sample
  {
    match prev
    case Some(AverageSample(_, a)) =>
      var step := (1.0 - decay) * (sample - a);
      ScaleBetween(1.0 - decay, sample - a);
      a + step
    case _ => sample
  }

  lemma ScaleBetween(d: real, x: real)
    requires 0.0 <= d <= 1.0
    ensures 0.0 <= x ==> 0.0 <= d * x <= x
    ensures x <= 0.0 ==> x <= d * x <= 0.0
    ensures d == 1.0 ==> d * x == x
  {
  }

  /** The store after recording every counter of `counts` at `time`, the
      counter at position `k` under `CounterKey(k)`. */
  function WithCounters(entries: map<StoreKey, Entry>, counts: seq<nat>, time: real): map<StoreKey, Entry>
  {
    if counts == [] then entries
    else WithCounters(entries, counts[..|counts| - 1], time)[CounterKey(|counts| - 1) := CounterSample(time, counts[|counts| - 1])]
  }

  /** The rates of all counters of `counts` against the store `entries`. */
  function RatesOf(entries: map<StoreKey, Entry>, counts: seq<nat>, time: real): (r: seq<Option<real>>)
    ensures |r| == |counts|
  {
    seq(|counts|, k requires 0 <= k < |counts| => RateOf(Get(entries, CounterKey(k)), time, counts[k]))
  }

  lemma {:induction false} WithCountersGet(entries: map<StoreKey, Entry>, counts: seq<nat>, time: real, k: StoreKey)
    ensures k.CounterKey? && k.metric < |counts| ==>
      Get(WithCounters(entries, counts, time), k) == Some(CounterSample(time, counts[k.metric]))
    ensures !(k.CounterKey? && k.metric < |counts|) ==>
      Get(WithCounters(entries, counts, time), k) == Get(entries, k)
    decreases |counts|
  {
    if counts != [] {
      var front := counts[..|counts| - 1];
      WithCountersGet(entries, front, time, k);
      if k.CounterKey? && k.metric < |front| {
        assert counts[k.metric] == front[k.metric];
      }
    }
  }

  /** Recording the counters sets every counter's sample. */
  lemma RecordsCounters(entries: map<StoreKey, Entry>, counts: seq<nat>, time: real)
    ensures forall k :: 0 <= k < |counts| ==>
      Get(WithCounters(entries, counts, time), CounterKey(k)) == Some(CounterSample(time, counts[k]))
  {
    forall k | 0 <= k < |counts|
      ensures Get(WithCounters(entries, counts, time), CounterKey(k)) == Some(CounterSample(time, counts[k]))
    {
      WithCountersGet(entries, counts, time, CounterKey(k));
    }
  }

  /** `rate` is the increase from `before` to `after` per second of
      `elapsed` time. */
  predicate PerSecond(rate: real, before: nat, after: nat, elapsed: real)
  {
    rate * elapsed == after as real - before as real
  }

  /** After a poll every counter has a sample, so a later poll gets a rate
      for each counter: its increase divided by the time between the polls. */
  lemma RatesAfterBaseline(entries: map<StoreKey, Entry>, before: seq<nat>, after: seq<nat>, t0: real, t1: real)
    requires |before| == |after| && t0 < t1
    ensures var r := RatesOf(WithCounters(entries, before, t0), after, t1);
      forall k :: 0 <= k < |r| ==>
        r[k].Some? && (before[k] <= after[k] ==> r[k].value * (t1 - t0) == (after[k] - before[k]) as real)
  {
    forall k | 0 <= k < |after|
      ensures Get(WithCounters(entries, before, t0), CounterKey(k)) == Some(CounterSample(t0, before[k]))
    {
      WithCountersGet(entries, before, t0, CounterKey(k));
    }
  }

  /** On an empty store no counter has a rate yet. */
  lemma NoRatesWithoutBaseline(counts: seq<nat>, time: real)
    ensures forall k :: 0 <= k < |counts| ==> RatesOf(map[], counts, time)[k].None?
  {
  }

  /** `value_store` as the check sees it: a dictionary it reads and
      overwrites entry by entry. */
  class ValueStore {
    var entries: map<StoreKey, Entry>

    constructor()
      ensures entries == map[]
    {
      entries := map[];
    }

    /** `get_rate`: the rate of the counter under `key`; the new sample
        always replaces the old one. */
    method GetRate(key: StoreKey, time: real, count: nat) returns (r: Option<real>)
      modifies this
      ensures r == RateOf(Get(old(entries), key), time, count)
      ensures entries == old(entries)[key := CounterSample(time, count)]
    {
      r := RateOf(Get(entries, key), time, count);
      entries := entries[key := CounterSample(time, count)];
    }

    /** `get_average`: the smoothed value under `key`, stored for the next
        poll. */
    method GetAverage(key: StoreKey, time: real, sample: real, decay: real) returns (r: real)
      requires 0.0 <= decay <= 1.0
      modifies this
      ensures r == AverageOf(Get(old(entries), key), sample, decay)
      ensures entries == old(entries)[key := AverageSample(time, r)]
    {
      r := AverageOf(Get(entries, key), sample, decay);
      entries := entries[key := AverageSample(time, r)];
    }

    /** The rates of all counters of one poll, each counter recorded even
        when an earlier one had no rate. */
    method CounterRates(counts: seq<nat>, time: real) returns (rates: seq<Option<real>>)
      modifies this
      ensures rates == RatesOf(old(entries), counts, time)
      ensures entries == WithCounters(old(entries), counts, time)
    {
      rates := [];
      var i := 0;
      while i < |counts|
        invariant 0 <= i <= |counts|
        invariant entries == WithCounters(old(entries), counts[..i], time)
        invariant rates == RatesOf(old(entries), counts[..i], time)
      {
        WithCountersGet(old(entries), counts[..i], time, CounterKey(i));
        var r := GetRate(CounterKey(i), time, counts[i]);
        assert counts[..i + 1][..i] == counts[..i];
        rates := rates + [r];
        i := i + 1;
      }
      assert counts[..i] == counts;
    }
  }
}
