/** What the single-interface check promises: no results before a
    baseline exists, rates from two polls, the metric layout and its levels,
    the threshold bands, the speed line, and how node names, group
    information and averaging change the findings. */
module InterfaceCheckFacts {
  import opened Wrappers
  import opened Text
  import opened Interfaces
  import opened CounterStore
  import opened InterfaceCheck

  /** The first call on an empty value store yields no findings
      (`IgnoreResultsError`), but records a baseline for every counter. */
  lemma FirstPollIgnored(item: string, p: CheckParams, i: Interface, group: Option<seq<NodeMembers>>,
                         time: real, decay: real)
    requires 0.0 <= decay <= 1.0
    ensures Evaluate(map[], item, p, i, group, time, decay) ==
      Evaluation(IgnoreResults, WithCounters(map[], CounterValues(i.counters), time))
  {
    var counts := CounterValues(i.counters);
    NoRatesWithoutBaseline(counts, time);
    assert RatesOf(map[], counts, time)[0].None?;
  }

  /** The metrics come in the fixed order of `MetricNames`, each the rate
      of its counter; `in` and `out` carry the traffic levels and range
      from 0 to the reference speed, `inerr` and `outerr` carry the
      `errors` levels unchanged, and the others carry neither. */
  lemma MetricLayout(rates: seq<real>, p: CheckParams, inTh: Option<Threshold>, outTh: Option<Threshold>,
                     reference: Option<real>)
    requires |rates| == |MetricNames|
    ensures var ms := Metrics(rates, p, inTh, outTh, reference);
      && (forall k :: 0 <= k < |ms| ==> ms[k].Metric? && ms[k].name == MetricNames[k] && ms[k].value == rates[k])
      && ms[InPos].levels == AsBounds(inTh) && ms[OutPos].levels == AsBounds(outTh)
      && ms[InPos].boundaries == Bounds(Some(0.0), reference) && ms[OutPos].boundaries == Bounds(Some(0.0), reference)
      && ms[InErrPos].levels == AsBounds(p.errors) && ms[OutErrPos].levels == AsBounds(p.errors)
      && ms[InErrPos].boundaries == Unbounded && ms[OutErrPos].boundaries == Unbounded
      && (forall k :: 0 <= k < |ms| && k != InPos && k != OutPos && k != InErrPos && k != OutErrPos ==>
            ms[k].levels == Unbounded && ms[k].boundaries == Unbounded)
  {
  }

  /** The findings start with the head lines, then the metrics in their
      fixed order, each the rate of its counter, then two traffic results,
      or four lines when averaging. */
  lemma FindingsLayout(item: string, p: CheckParams, i: Interface, group: Option<seq<NodeMembers>>,
                       rates: seq<real>, averages: Option<Averages>)
    requires |rates| == |MetricNames|
    ensures var f := Findings(item, p, i, group, rates, averages);
      var h := |HeadLines(item, p, i, group)|;
      && |f| == h + |MetricNames| + (if averages.Some? then 4 else 2)
      && f[..h] == HeadLines(item, p, i, group)
      && forall k :: 0 <= k < |MetricNames| ==>
           f[h + k].Metric? && f[h + k].name == MetricNames[k] && f[h + k].value == rates[k]
  {
    var reference := SpeedInfoOf(p, i).reference;
    var ms := Metrics(rates, p, TrafficLevels(p, In, reference), TrafficLevels(p, Out, reference), reference);
    MetricLayout(rates, p, TrafficLevels(p, In, reference), TrafficLevels(p, Out, reference), reference);
    var head := HeadLines(item, p, i, group);
    var f := Findings(item, p, i, group, rates, averages);
    var tail := TrafficLines(rates, TrafficLevels(p, In, reference), TrafficLevels(p, Out, reference), reference, averages);
    assert f == head + ms + tail;
    ThreeParts(head, ms, tail);
  }

  /** Evaluation once every counter has a rate. */
  lemma EvaluateWithRates(entries: map<StoreKey, Entry>, item: string, p: CheckParams, i: Interface,
                          group: Option<seq<NodeMembers>>, time: real, decay: real)
    requires 0.0 <= decay <= 1.0
    requires AllKnown(RatesOf(entries, CounterValues(i.counters), time))
    ensures var rs := Known(RatesOf(entries, CounterValues(i.counters), time));
      var stored := WithCounters(entries, CounterValues(i.counters), time);
      Evaluate(entries, item, p, i, group, time, decay) ==
        Evaluation(Outputs(Findings(item, p, i, group, rs, AveragesOf(p, stored, rs, decay))),
                   WithAverages(stored, AveragesOf(p, stored, rs, decay), time))
  {
  }

  /** Findings made from rates that are counter increases per second carry
      those increases in their metric block. */
  lemma FindingsCarryRates(item: string, p: CheckParams, i: Interface, group: Option<seq<NodeMembers>>,
                           rates: seq<real>, av: Option<Averages>, before: seq<nat>, after: seq<nat>, elapsed: real)
    requires |rates| == |before| == |after| == |MetricNames|
    requires forall k :: 0 <= k < |rates| ==> PerSecond(rates[k], before[k], after[k], elapsed)
    ensures var f := Findings(item, p, i, group, rates, av);
      var h := |HeadLines(item, p, i, group)|;
      f[..h] == HeadLines(item, p, i, group) && RatesBetween(f, h, before, after, elapsed)
  {
    FindingsLayout(item, p, i, group, rates, av);
    MetricBlockRates(Findings(item, p, i, group, rates, av), |HeadLines(item, p, i, group)|, rates, before, after, elapsed);
  }

  lemma MetricBlockRates(f: seq<Output>, h: nat, rates: seq<real>, before: seq<nat>, after: seq<nat>, elapsed: real)
    requires |rates| == |before| == |after| == |MetricNames|
    requires |f| > h + |MetricNames|
    requires forall k :: 0 <= k < |MetricNames| ==>
      f[h + k].Metric? && f[h + k].name == MetricNames[k] && f[h + k].value == rates[k]
    requires forall k :: 0 <= k < |rates| ==> PerSecond(rates[k], before[k], after[k], elapsed)
    ensures RatesBetween(f, h, before, after, elapsed)
  {
  }

  /** The rates of a poll after a baseline poll, all known. */
  lemma KnownRatesAfterBaseline(entries: map<StoreKey, Entry>, before: seq<nat>, after: seq<nat>, t0: real, t1: real)
    requires |before| == |after| && t0 < t1
    requires forall k :: 0 <= k < |after| ==> before[k] <= after[k]
    ensures var rates := RatesOf(WithCounters(entries, before, t0), after, t1);
      && AllKnown(rates)
      && forall k :: 0 <= k < |after| ==> PerSecond(Known(rates)[k], before[k], after[k], t1 - t0)
  {
    RatesAfterBaseline(entries, before, after, t0, t1);
  }

  /** The second call, after a first one at an earlier time, yields a
      metric per counter whose value is the counter's increase divided by
      the time between the calls. */
  lemma SecondPollRates(entries: map<StoreKey, Entry>, item: string, p: CheckParams, before: Interface, after: Interface,
                        group: Option<seq<NodeMembers>>, t0: real, t1: real, decay: real)
    requires 0.0 <= decay <= 1.0 && t0 < t1
    requires forall k :: 0 <= k < |MetricNames| ==> CounterValues(before.counters)[k] <= CounterValues(after.counters)[k]
    ensures var o := Evaluate(WithCounters(entries, CounterValues(before.counters), t0), item, p, after, group, t1, decay).outcome;
      var h := |HeadLines(item, p, after, group)|;
      && o.Outputs? && o.outputs[..h] == HeadLines(item, p, after, group)
      && RatesBetween(o.outputs, h, CounterValues(before.counters), CounterValues(after.counters), t1 - t0)
  {
    var c0, c1 := CounterValues(before.counters), CounterValues(after.counters);
    KnownRatesAfterBaseline(entries, c0, c1, t0, t1);
    EvaluateCarriesRates(WithCounters(entries, c0, t0), item, p, after, group, t1, decay, c0, t1 - t0);
  }

  /** A call in which every counter has a rate, and the rates are the
      increases from `before` per second of `elapsed` time, yields those
      rates as its metric block. */
  lemma EvaluateCarriesRates(entries: map<StoreKey, Entry>, item: string, p: CheckParams, i: Interface,
                             group: Option<seq<NodeMembers>>, time: real, decay: real, before: seq<nat>, elapsed: real)
    requires 0.0 <= decay <= 1.0 && |before| == |MetricNames|
    requires AllKnown(RatesOf(entries, CounterValues(i.counters), time))
    requires forall k :: 0 <= k < |MetricNames| ==>
      PerSecond(Known(RatesOf(entries, CounterValues(i.counters), time))[k], before[k], CounterValues(i.counters)[k], elapsed)
    ensures var o := Evaluate(entries, item, p, i, group, time, decay).outcome;
      var h := |HeadLines(item, p, i, group)|;
      && o.Outputs? && o.outputs[..h] == HeadLines(item, p, i, group)
      && RatesBetween(o.outputs, h, before, CounterValues(i.counters), elapsed)
  {
    var counts := CounterValues(i.counters);
    var rs := Known(RatesOf(entries, counts, time));
    EvaluateWithRates(entries, item, p, i, group, time, decay);
    var stored := WithCounters(entries, counts, time);
    FindingsCarryRates(item, p, i, group, rs, AveragesOf(p, stored, rs, decay), before, counts, elapsed);
  }

  /** The reference speed in byte/s is an eighth of the known speed, or of
      the assumed speed when the speed is unknown. */
  lemma ReferenceSpeed(p: CheckParams, i: Interface)
    ensures i.speed > 0 ==> SpeedInfoOf(p, i).reference == Some(i.speed as real / 8.0)
    ensures i.speed == 0 && p.speed.Some? && p.speed.value > 0 ==>
      SpeedInfoOf(p, i).reference == Some(p.speed.value as real / 8.0)
    ensures i.speed == 0 && p.speed.None? && p.discoveredSpeed.Some? && p.discoveredSpeed.value > 0 ==>
      SpeedInfoOf(p, i).reference == Some(p.discoveredSpeed.value as real / 8.0)
    ensures i.speed == 0 && p.speed.OrElse(p.discoveredSpeed).GetOr(0) == 0 ==> SpeedInfoOf(p, i).reference.None?
  {
  }

  /** Percentage levels become byte/s levels: the last rule applying to a
      direction, given in percent, is taken of the reference speed, whether
      that speed is known, configured or discovered. */
  lemma PercentLevels(p: CheckParams, i: Interface, d: Direction, r: TrafficRule, x: real)
    requires SpeedInfoOf(p, i).reference == Some(x)
    requires LastApplying(p.traffic, d) == Some(r) && r.kind == Perc
    ensures TrafficLevels(p, d, SpeedInfoOf(p, i).reference) == Some(Threshold(PercentOf(r.warn, x), PercentOf(r.crit, x)))
  {
  }

  /** Absolute levels are used as they are, with or without a reference
      speed. */
  lemma AbsoluteLevels(p: CheckParams, d: Direction, r: TrafficRule, reference: Option<real>)
    requires LastApplying(p.traffic, d) == Some(r) && r.kind == Abs
    ensures TrafficLevels(p, d, reference) == Some(Threshold(r.warn, r.crit))
  {
  }

  /** Without a reference speed, percentage levels do not apply, and with
      no rule for a direction there are no levels for it. */
  lemma NoLevels(p: CheckParams, i: Interface, d: Direction)
    requires SpeedInfoOf(p, i).reference.None? || LastApplying(p.traffic, d).None?
    requires LastApplying(p.traffic, d).Some? ==> LastApplying(p.traffic, d).value.kind == Perc
    ensures TrafficLevels(p, d, SpeedInfoOf(p, i).reference).None?
  {
  }

  /** An interface that reports no speed, checked with a configured speed
      of 100 MBit/s and levels of 5% and 20% in both directions: the speed
      line says it assumes 100 MBit/s, `in` and `out` range up to
      12.5 MB/s, the levels are 625 kB/s and 2.5 MB/s, and 800 kB/s in and
      3.2 MB/s out are WARN (6.4%) and CRIT (25.6%). */
  lemma AssumedSpeedLevels(p: CheckParams, i: Interface)
    requires i.speed == 0 && p.speed == Some(100000000)
    requires p.traffic == [TrafficRule(BothDirections, Perc, 5.0, 20.0)]
    ensures SpeedInfoOf(p, i) == SpeedInfo([Result(OK, AssumedSpeed(100000000))], Some(12500000.0))
    ensures TrafficLevels(p, In, Some(12500000.0)) == Some(Threshold(625000.0, 2500000.0))
    ensures TrafficLevels(p, Out, Some(12500000.0)) == Some(Threshold(625000.0, 2500000.0))
    ensures Classify(800000.0, Some(Threshold(625000.0, 2500000.0))) == WARN
    ensures Classify(3200000.0, Some(Threshold(625000.0, 2500000.0))) == CRIT
    ensures Percent(800000.0, Some(12500000.0)) == Some(6.4)
    ensures Percent(3200000.0, Some(12500000.0)) == Some(25.6)
  {
    assert LastApplying(p.traffic, In) == Some(TrafficRule(BothDirections, Perc, 5.0, 20.0));
    assert LastApplying(p.traffic, Out) == Some(TrafficRule(BothDirections, Perc, 5.0, 20.0));
  }

  /** The speed line: a known speed is OK unless a configured speed
      differs from it, which is a WARN naming the expected speed; an
      unknown speed is assumed to be the configured or else the discovered
      speed. */
  lemma SpeedLine(p: CheckParams, i: Interface)
    ensures |SpeedInfoOf(p, i).lines| == 1 && SpeedInfoOf(p, i).lines[0].Result?
    ensures i.speed > 0 ==>
      (SpeedInfoOf(p, i).lines[0].state == WARN <==> p.speed.Some? && p.speed.value != i.speed)
    ensures i.speed > 0 ==>
      (SpeedInfoOf(p, i).lines[0].summary.KnownSpeed? && SpeedInfoOf(p, i).lines[0].summary.bits == i.speed)
    ensures i.speed > 0 && p.speed.Some? && p.speed.value != i.speed ==>
      SpeedInfoOf(p, i).lines[0].summary.expected == p.speed
    ensures i.speed == 0 && p.speed.Some? && p.speed.value > 0 ==>
      SpeedInfoOf(p, i).lines == [Result(OK, AssumedSpeed(p.speed.value))]
    ensures i.speed == 0 && p.speed.None? && p.discoveredSpeed.Some? && p.discoveredSpeed.value > 0 ==>
      SpeedInfoOf(p, i).lines == [Result(OK, AssumedSpeed(p.discoveredSpeed.value))]
    ensures SpeedInfoOf(p, i).lines[0].state != CRIT
  {
  }

  function Rank(s: State): nat
  {
    match s
    case OK => 0
    case WARN => 1
    case CRIT => 2
  }

  /** The threshold bands: OK below warn, WARN from warn up to crit, CRIT
      from crit on. */
  lemma ClassifyBands(v: real, w: real, c: real)
    requires w <= c
    ensures Classify(v, Some(Threshold(w, c))) == OK <==> v < w
    ensures Classify(v, Some(Threshold(w, c))) == WARN <==> w <= v < c
    ensures Classify(v, Some(Threshold(w, c))) == CRIT <==> c <= v
  {
  }

  /** More traffic never gives a better state. */
  lemma ClassifyMonotone(v1: real, v2: real, th: Option<Threshold>)
    requires v1 <= v2
    ensures Rank(Classify(v1, th)) <= Rank(Classify(v2, th))
  {
  }

  /** An In or Out result shows its levels exactly when it is not OK. */
  lemma TrafficResultShowsLevels(d: Direction, avg: Option<nat>, v: real, th: Option<Threshold>, reference: Option<real>)
    ensures var r := TrafficResult(d, avg, v, th, reference);
      r.summary.Traffic? && r.summary.bytesPerSecond == v && r.summary.dir == d &&
      (r.summary.shownLevels.Some? <==> r.state != OK) &&
      (r.state != OK ==> r.summary.shownLevels == th)
  {
  }

  /** The percentage of the reference speed. */
  lemma PercentOfReference(v: real, reference: real)
    requires reference > 0.0
    ensures Percent(v, Some(reference)).Some?
    ensures Percent(v, Some(reference)).value * reference == v * 100.0
  {
  }

  // ---------------------------------------------------------------------
  // Node names, group information and averaging

  lemma {:induction false} ReplaceInStatus(shown: string, n: string, name: string)
    requires ' ' !in shown
    ensures "[" + shown + "] " + ("on " + n + ": ") + "(" + name + ")" ==
      ReplaceFirst("[" + shown + "] " + "" + "(" + name + ")", ' ', " on " + n + ": ")
  {
    var prefix := "[" + shown + "]";
    var rest := "(" + name + ")";
    assert ' ' !in prefix by {
      forall k | 0 <= k < |prefix| ensures prefix[k] != ' ' {
        if 0 < k < |prefix| - 1 { assert prefix[k] == shown[k - 1]; }
      }
    }
    assert "[" + shown + "] " + "" + "(" + name + ")" == prefix + [' '] + rest;
    ReplaceFirstAfterPrefix(prefix, ' ', " on " + n + ": ", rest);
    assert "[" + shown + "] " + ("on " + n + ": ") + "(" + name + ")" == prefix + " on " + n + ": " + rest;
  }

  /** A node name goes into the status line in place of its first space,
      as `on <node>: `. */
  lemma NodeInStatusText(item: string, i: Interface, n: string)
    requires ' ' !in StatusLabel(item, i)
    ensures StatusText(item, i.(node := Some(n))) == ReplaceFirst(StatusText(item, i.(node := None)), ' ', " on " + n + ": ")
  {
    var shown := StatusLabel(item, i);
    assert StatusLabel(item, i.(node := Some(n))) == shown;
    assert StatusLabel(item, i.(node := None)) == shown;
    ReplaceInStatus(shown, n, OperStatusName(i.operStatus));
  }

  /** Checking the interface as seen on a cluster node changes only the
      first result, which names the node. */
  lemma NodeChangesOnlyStatus(entries: map<StoreKey, Entry>, item: string, p: CheckParams, i: Interface, n: string,
                              time: real, decay: real)
    requires 0.0 <= decay <= 1.0
    requires i.node.None? && ' ' !in StatusLabel(item, i)
    ensures var plain := Evaluate(entries, item, p, i, None, time, decay);
      var onNode := Evaluate(entries, item, p, i.(node := Some(n)), None, time, decay);
      && onNode.entries == plain.entries
      && (onNode.outcome.IgnoreResults? <==> plain.outcome.IgnoreResults?)
      && (plain.outcome.Outputs? ==>
            && |plain.outcome.outputs| > 0 && plain.outcome.outputs[0].Result?
            && plain.outcome.outputs[0].summary.Plain?
            && onNode.outcome.outputs ==
               [Result(plain.outcome.outputs[0].state,
                       Plain(ReplaceFirst(plain.outcome.outputs[0].summary.text, ' ', " on " + n + ": ")))]
               + plain.outcome.outputs[1..])
  {
    var j := i.(node := Some(n));
    assert i == i.(node := None);
    NodeInStatusText(item, i, n);
    var counts := CounterValues(i.counters);
    assert CounterValues(j.counters) == counts;
    var rates := RatesOf(entries, counts, time);
    if AllKnown(rates) {
      var rs := Known(rates);
      var stored := WithCounters(entries, counts, time);
      var av := AveragesOf(p, stored, rs, decay);
      EvaluateWithRates(entries, item, p, i, None, time, decay);
      EvaluateWithRates(entries, item, p, j, None, time, decay);
      FindingsFirstLine(item, p, i, j, rs, av);
    }
  }

  /** Two interfaces that differ at most in their status line give the
      same findings after it. */
  lemma FindingsFirstLine(item: string, p: CheckParams, i: Interface, j: Interface, rates: seq<real>, av: Option<Averages>)
    requires |rates| == |MetricNames|
    requires j == i.(node := j.node)
    ensures var f := Findings(item, p, i, None, rates, av);
      var g := Findings(item, p, j, None, rates, av);
      && |f| > 0 && f[0] == Result(StatusState(p, i), Plain(StatusText(item, i)))
      && g == [Result(StatusState(p, i), Plain(StatusText(item, j)))] + f[1..]
  {
    assert StatusState(p, j) == StatusState(p, i);
    assert SpeedInfoOf(p, j) == SpeedInfoOf(p, i);
    assert MacLines(j) == MacLines(i);
    var reference := SpeedInfoOf(p, i).reference;
    var inTh := TrafficLevels(p, In, reference);
    var outTh := TrafficLevels(p, Out, reference);
    var mac, speed := MacLines(i), SpeedInfoOf(p, i).lines;
    var ms, tl := Metrics(rates, p, inTh, outTh, reference), TrafficLines(rates, inTh, outTh, reference, av);
    var status := [Result(StatusState(p, i), Plain(StatusText(item, i)))];
    var status' := [Result(StatusState(p, i), Plain(StatusText(item, j)))];
    assert Findings(item, p, i, None, rates, av) == status + mac + speed + ms + tl;
    assert Findings(item, p, j, None, rates, av) == status' + mac + speed + ms + tl;
    FiveParts(status, mac, speed, ms, tl);
    FiveParts(status', mac, speed, ms, tl);
  }

  /** With group information the status line gives way to the group
      status and the member listing; everything after it stays. */
  lemma GroupInfoReplacesStatus(entries: map<StoreKey, Entry>, item: string, p: CheckParams, i: Interface,
                                nms: seq<NodeMembers>, time: real, decay: real)
    requires 0.0 <= decay <= 1.0
    ensures var plain := Evaluate(entries, item, p, i, None, time, decay);
      var grouped := Evaluate(entries, item, p, i, Some(nms), time, decay);
      && grouped.entries == plain.entries
      && (grouped.outcome.IgnoreResults? <==> plain.outcome.IgnoreResults?)
      && (plain.outcome.Outputs? ==>
            && |plain.outcome.outputs| > 0
            && grouped.outcome.outputs ==
               [Result(plain.outcome.outputs[0].state, Plain("Group Status (" + OperStatusName(i.operStatus) + ")")),
                Result(OK, Plain("Members: " + MembersText(nms)))]
               + plain.outcome.outputs[1..])
  {
    var counts := CounterValues(i.counters);
    var rates := RatesOf(entries, counts, time);
    if AllKnown(rates) {
      var rs := Known(rates);
      var stored := WithCounters(entries, counts, time);
      var av := AveragesOf(p, stored, rs, decay);
      EvaluateWithRates(entries, item, p, i, None, time, decay);
      EvaluateWithRates(entries, item, p, i, Some(nms), time, decay);
      GroupedFindings(item, p, i, nms, rs, av);
    }
  }

  lemma GroupedFindings(item: string, p: CheckParams, i: Interface, nms: seq<NodeMembers>,
                        rates: seq<real>, av: Option<Averages>)
    requires |rates| == |MetricNames|
    ensures var f := Findings(item, p, i, None, rates, av);
      && |f| > 0 && f[0].Result?
      && Findings(item, p, i, Some(nms), rates, av) ==
         [Result(f[0].state, Plain("Group Status (" + OperStatusName(i.operStatus) + ")")),
          Result(OK, Plain("Members: " + MembersText(nms)))]
         + f[1..]
  {
    var reference := SpeedInfoOf(p, i).reference;
    var inTh := TrafficLevels(p, In, reference);
    var outTh := TrafficLevels(p, Out, reference);
    var mac, speed := MacLines(i), SpeedInfoOf(p, i).lines;
    var ms, tl := Metrics(rates, p, inTh, outTh, reference), TrafficLines(rates, inTh, outTh, reference, av);
    var status := [Result(StatusState(p, i), Plain(StatusText(item, i)))];
    var groupLines := [Result(StatusState(p, i), Plain("Group Status (" + OperStatusName(i.operStatus) + ")")),
                       Result(OK, Plain("Members: " + MembersText(nms)))];
    assert Findings(item, p, i, None, rates, av) == status + mac + speed + ms + tl;
    assert Findings(item, p, i, Some(nms), rates, av) == groupLines + mac + speed + ms + tl;
    FiveParts(status, mac, speed, ms, tl);
    FiveParts(groupLines, mac, speed, ms, tl);
  }

  /** With group information the findings open with the group's state,
      which the interface's status earns, and the member listing. */
  lemma GroupHead(entries: map<StoreKey, Entry>, item: string, p: CheckParams, i: Interface,
                  nms: seq<NodeMembers>, time: real, decay: real)
    requires 0.0 <= decay <= 1.0
    ensures var o := Evaluate(entries, item, p, i, Some(nms), time, decay).outcome;
      o.Outputs? ==>
        && |o.outputs| >= 2
        && o.outputs[0] == Result(StatusState(p, i), Plain("Group Status (" + OperStatusName(i.operStatus) + ")"))
        && o.outputs[1] == Result(OK, Plain("Members: " + MembersText(nms)))
  {
    var counts := CounterValues(i.counters);
    var rates := RatesOf(entries, counts, time);
    if AllKnown(rates) {
      var rs := Known(rates);
      var av := AveragesOf(p, WithCounters(entries, counts, time), rs, decay);
      EvaluateWithRates(entries, item, p, i, Some(nms), time, decay);
      GroupHeadLines(item, p, i, nms, rs, av);
    }
  }

  lemma GroupHeadLines(item: string, p: CheckParams, i: Interface, nms: seq<NodeMembers>,
                       rates: seq<real>, av: Option<Averages>)
    requires |rates| == |MetricNames|
    ensures var f := Findings(item, p, i, Some(nms), rates, av);
      && |f| >= 2
      && f[0] == Result(StatusState(p, i), Plain("Group Status (" + OperStatusName(i.operStatus) + ")"))
      && f[1] == Result(OK, Plain("Members: " + MembersText(nms)))
  {
    FindingsLayout(item, p, i, Some(nms), rates, av);
    var head := HeadLines(item, p, i, Some(nms));
    assert head[0] == StatusLines(item, p, i, Some(nms))[0];
    assert head[1] == StatusLines(item, p, i, Some(nms))[1];
  }

  /** The first averaged call replaces the In and Out results by an
      averaged metric and result per direction, equal to the instantaneous
      rate and with the same levels and boundaries as `in` and `out`. */
  lemma AveragingReplacesTrafficLines(entries: map<StoreKey, Entry>, item: string, p: CheckParams, i: Interface,
                                      group: Option<seq<NodeMembers>>, time: real, decay: real, m: nat)
    requires 0.0 <= decay <= 1.0 && p.average.None?
    requires AverageKey(In, m) !in entries && AverageKey(Out, m) !in entries
    ensures var plain := Evaluate(entries, item, p, i, group, time, decay).outcome;
      var averaged := Evaluate(entries, item, p.(average := Some(m)), i, group, time, decay).outcome;
      var h := |HeadLines(item, p, i, group)|;
      && (averaged.IgnoreResults? <==> plain.IgnoreResults?)
      && (plain.Outputs? ==>
            var o := plain.outputs;
            && |o| == h + |MetricNames| + 2
            && o[|o| - 2].Result? && o[|o| - 2].summary.Traffic?
            && o[|o| - 1].Result? && o[|o| - 1].summary.Traffic?
            && averaged.outputs == o[..|o| - 2] + [
                 Metric("in_avg_" + NatToString(m), o[h + InPos].value, o[h + InPos].levels, o[h + InPos].boundaries),
                 Result(o[|o| - 2].state, o[|o| - 2].summary.(averageMinutes := Some(m))),
                 Metric("out_avg_" + NatToString(m), o[h + OutPos].value, o[h + OutPos].levels, o[h + OutPos].boundaries),
                 Result(o[|o| - 1].state, o[|o| - 1].summary.(averageMinutes := Some(m)))])
  {
    var q := p.(average := Some(m));
    var counts := CounterValues(i.counters);
    var rates := RatesOf(entries, counts, time);
    if AllKnown(rates) {
      var stored := WithCounters(entries, counts, time);
      WithCountersGet(entries, counts, time, AverageKey(In, m));
      WithCountersGet(entries, counts, time, AverageKey(Out, m));
      var rs := Known(rates);
      var av := AveragesOf(q, stored, rs, decay);
      assert av == Some(Averages(m, rs[InPos], rs[OutPos]));
      assert AveragesOf(p, stored, rs, decay) == None;
      EvaluateWithRates(entries, item, p, i, group, time, decay);
      EvaluateWithRates(entries, item, q, i, group, time, decay);
      AveragedFindings(item, p, i, group, rs, m);
    }
  }

  lemma AveragedFindings(item: string, p: CheckParams, i: Interface, group: Option<seq<NodeMembers>>,
                         rates: seq<real>, m: nat)
    requires |rates| == |MetricNames|
    ensures var o := Findings(item, p, i, group, rates, None);
      var h := |HeadLines(item, p, i, group)|;
      && |o| == h + |MetricNames| + 2
      && o[|o| - 2].Result? && o[|o| - 2].summary.Traffic?
      && o[|o| - 1].Result? && o[|o| - 1].summary.Traffic?
      && Findings(item, p.(average := Some(m)), i, group, rates, Some(Averages(m, rates[InPos], rates[OutPos]))) ==
         o[..|o| - 2] + [
           Metric("in_avg_" + NatToString(m), o[h + InPos].value, o[h + InPos].levels, o[h + InPos].boundaries),
           Result(o[|o| - 2].state, o[|o| - 2].summary.(averageMinutes := Some(m))),
           Metric("out_avg_" + NatToString(m), o[h + OutPos].value, o[h + OutPos].levels, o[h + OutPos].boundaries),
           Result(o[|o| - 1].state, o[|o| - 1].summary.(averageMinutes := Some(m)))]
  {
    var q := p.(average := Some(m));
    AveragingKeepsRest(item, p, i, group, rates, m);
    var reference := SpeedInfoOf(p, i).reference;
    var inTh := TrafficLevels(p, In, reference);
    var outTh := TrafficLevels(p, Out, reference);
    var head := HeadLines(item, p, i, group);
    var ms := Metrics(rates, p, inTh, outTh, reference);
    MetricLayout(rates, p, inTh, outTh, reference);
    var o := Findings(item, p, i, group, rates, None);
    var tail := TrafficLines(rates, inTh, outTh, reference, None);
    assert o == head + ms + tail;
    TwoLineTail(head, ms, tail);
  }

  /** Configuring averaging changes neither the lines before the traffic
      results nor the levels. */
  lemma AveragingKeepsRest(item: string, p: CheckParams, i: Interface, group: Option<seq<NodeMembers>>,
                           rates: seq<real>, m: nat)
    requires |rates| == |MetricNames|
    ensures var q := p.(average := Some(m));
      var reference := SpeedInfoOf(p, i).reference;
      && HeadLines(item, q, i, group) == HeadLines(item, p, i, group)
      && SpeedInfoOf(q, i) == SpeedInfoOf(p, i)
      && TrafficLevels(q, In, reference) == TrafficLevels(p, In, reference)
      && TrafficLevels(q, Out, reference) == TrafficLevels(p, Out, reference)
      && Metrics(rates, q, TrafficLevels(p, In, reference), TrafficLevels(p, Out, reference), reference) ==
         Metrics(rates, p, TrafficLevels(p, In, reference), TrafficLevels(p, Out, reference), reference)
  {
    var q := p.(average := Some(m));
    assert SpeedInfoOf(q, i) == SpeedInfoOf(p, i);
  }

  /** Where the parts of findings that end in two lines lie. */
  lemma TwoLineTail(head: seq<Output>, ms: seq<Output>, tail: seq<Output>)
    requires |tail| == 2
    ensures var o := head + ms + tail;
      && |o| == |head| + |ms| + 2 && o[..|o| - 2] == head + ms
      && o[|o| - 2] == tail[0] && o[|o| - 1] == tail[1]
      && forall k :: 0 <= k < |ms| ==> o[|head| + k] == ms[k]
  {
    var o := head + ms + tail;
    assert o[..|o| - 2] == head + ms;
  }

  /** Two polls of one interface on a fresh value store, as a caller runs
      them: the first yields no findings, the second a metric per counter
      whose value is the counter's increase per second. */
  method TwoPolls(item: string, p: CheckParams, first: Interface, second: Interface, t0: real, t1: real)
    returns (o0: Outcome, o1: Outcome)
    requires t0 < t1
    requires forall k :: 0 <= k < |MetricNames| ==> CounterValues(first.counters)[k] <= CounterValues(second.counters)[k]
    ensures o0 == IgnoreResults
    ensures o1.Outputs?
    ensures RatesBetween(o1.outputs, |HeadLines(item, p, second, None)|,
                         CounterValues(first.counters), CounterValues(second.counters), t1 - t0)
  {
    var store := new ValueStore();
    FirstPollIgnored(item, p, first, None, t0, 0.0);
    o0 := CheckSingleInterface(store, item, p, first, None, t0, 0.0);
    SecondPollRates(map[], item, p, first, second, None, t0, t1, 0.0);
    o1 := CheckSingleInterface(store, item, p, second, None, t1, 0.0);
  }
}
