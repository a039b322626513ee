/** `check_single_interface`: the findings for one interface (or one
    aggregated group interface) in a fixed order — the status line or the
    two group lines, the MAC line, the speed line, one metric per counter
    rate, then the In and Out traffic results, or their averaged form. */
module InterfaceCheck {
  import opened Wrappers
  import opened Text
  import opened Interfaces
  import opened InterfaceDiscovery
  import opened CounterStore

  datatype State = OK | WARN | CRIT

  /** Upper warn and crit levels in byte/s. */
  datatype Threshold = Threshold(warn: real, crit: real)

  /** A pair of optional numbers: the levels or the boundaries of a metric;
      `None` stands for Python's `None`. */
  datatype Bounds = Bounds(lower: Option<real>, upper: Option<real>)

  const Unbounded := Bounds(None, None)

  /** The meaning of a result's summary. Numbers stay numbers: rendering
      them as text ("800 kB/s", "6.4%") is not modelled. */
  datatype Summary =
    | Plain(text: string)
    | KnownSpeed(bits: nat, expected: Option<nat>)
    | AssumedSpeed(bits: nat)
    | SpeedUnknown
    | Traffic(dir: Direction, averageMinutes: Option<nat>, bytesPerSecond: real,
              shownLevels: Option<Threshold>, percent: Option<real>)

  datatype Output =
    | Result(state: State, summary: Summary)
    | Metric(name: string, value: real, levels: Bounds, boundaries: Bounds)

  /** What a check call yields: `IgnoreResultsError` while some counter has
      no baseline yet, else the results and metrics. */
  datatype Outcome = IgnoreResults | Outputs(outputs: seq<Output>)

  datatype TrafficDirection = BothDirections | InOnly | OutOnly
  datatype LevelKind = Perc | Abs

  /** One entry of the `traffic` parameter: upper levels, in percent of the
      reference speed or absolute byte/s, for one or both directions. */
  datatype TrafficRule = TrafficRule(direction: TrafficDirection, kind: LevelKind, warn: real, crit: real)

  /** The check parameters of an interface service. */
  datatype CheckParams = CheckParams(
    errors: Option<Threshold>, speed: Option<nat>, traffic: seq<TrafficRule>,
    state: Option<seq<string>>, discoveredState: Option<seq<string>>, discoveredSpeed: Option<nat>,
    average: Option<nat>, aggregate: Option<Aggregate>)

  /** The members of a group as the check reports them, per cluster node
      (`None` when the members do not come from a cluster). */
  datatype MemberInfo = MemberInfo(name: string, stateName: string)
  datatype NodeMembers = NodeMembers(node: Option<string>, members: seq<MemberInfo>)

  // ---------------------------------------------------------------------
  // Metrics in their fixed order

  const MetricNames: seq<string> := [
    "in", "inmcast", "inbcast", "inucast", "innucast", "indisc", "inerr",
    "out", "outmcast", "outbcast", "outucast", "outnucast", "outdisc", "outerr", "outqlen"]

  const InPos := 0
  const InErrPos := 6
  const OutPos := 7
  const OutErrPos := 13

  /** The counter behind each metric; the non-unicast counters are the sum
      of the multicast and broadcast counters. */
  function CounterValues(c: Counters): (vs: seq<nat>)
    ensures |vs| == |MetricNames|
    ensures vs[InPos] == c.inOctets && vs[OutPos] == c.outOctets
    ensures vs[4] == vs[1] + vs[2] && vs[11] == vs[8] + vs[9]
  {
    [c.inOctets, c.inMcast, c.inBcast, c.inUcast, c.inMcast + c.inBcast, c.inDiscards, c.inErrors,
     c.outOctets, c.outMcast, c.outBcast, c.outUcast, c.outMcast + c.outBcast, c.outDiscards, c.outErrors,
     c.outQLen]
  }

  // ---------------------------------------------------------------------
  // Status, group and MAC lines

  /** The states the interface is expected in: the configured `state`,
      else the state recorded at discovery; `None` accepts every state. */
  function TargetStates(p: CheckParams): Option<seq<string>>
  {
    p.state.OrElse(p.discoveredState)
  }

  /** The status is OK exactly when the interface is in one of the
      configured states, or, without a configuration, in one of the states
      recorded at discovery; it is never WARN. */
  function StatusState(p: CheckParams, i: Interface): (s: State)
    ensures s != WARN
    ensures p.state.Some? ==> (s == OK <==> i.operStatus in p.state.value)
    ensures p.state.None? && p.discoveredState.Some? ==> (s == OK <==> i.operStatus in p.discoveredState.value)
    ensures p.state.None? && p.discoveredState.None? ==> s == OK
  {
    var target := TargetStates(p);
    if target.None? || i.operStatus in target.value then OK else CRIT
  }

  /** Python's `item.lstrip("0")`. */
  function Unpadded(item: string): string
  {
    item[LeadingCount(item, '0')..]
  }

  /** The bracketed label of the status line: an item naming the index
      shows the alias (or the description, without an alias); an item
      naming the alias or the description shows the index. */
  function StatusLabel(item: string, i: Interface): string
  {
    if Unpadded(item) == i.index then (if i.alias != "" then i.alias else i.descr)
    else i.index
  }

  function NodePart(i: Interface): string
  {
    match i.node
    case Some(n) => "on " + n + ": "
    case None => ""
  }

  function StatusText(item: string, i: Interface): string
  {
    "[" + StatusLabel(item, i) + "] " + NodePart(i) + "(" + OperStatusName(i.operStatus) + ")"
  }

  function MemberText(m: MemberInfo): string
  {
    m.name + " (" + m.stateName + ")"
  }

  function MemberTexts(ms: seq<MemberInfo>): (r: seq<string>)
    ensures |r| == |ms| && forall k :: 0 <= k < |r| ==> r[k] == MemberText(ms[k])
  {
    if ms == [] then [] else [MemberText(ms[0])] + MemberTexts(ms[1..])
  }

  function NodeListing(nm: NodeMembers): string
  {
    "[" + Join(MemberTexts(nm.members), ", ")
    + (match nm.node case Some(n) => " on node " + n case None => "") + "]"
  }

  function NodeListings(nms: seq<NodeMembers>): (r: seq<string>)
    ensures |r| == |nms| && forall k :: 0 <= k < |r| ==> r[k] == NodeListing(nms[k])
  {
    if nms == [] then [] else [NodeListing(nms[0])] + NodeListings(nms[1..])
  }

  /** The member listing: one bracketed list per node, separated by spaces. */
  function MembersText(nms: seq<NodeMembers>): string
  {
    Join(NodeListings(nms), " ")
  }

  /** The first result, or, for a group, the group status and the member
      listing; both carry the state the interface's status earns. */
  function StatusLines(item: string, p: CheckParams, i: Interface, group: Option<seq<NodeMembers>>): (r: seq<Output>)
    ensures |r| == (if group.Some? then 2 else 1)
    ensures r[0].Result? && r[0].state == StatusState(p, i)
    ensures group.Some? ==> r[1] == Result(OK, Plain("Members: " + MembersText(group.value)))
  {
    var st := StatusState(p, i);
    match group
    case None => [Result(st, Plain(StatusText(item, i)))]
    case Some(nms) =>
      [Result(st, Plain("Group Status (" + OperStatusName(i.operStatus) + ")")),
       Result(OK, Plain("Members: " + MembersText(nms)))]
  }

  function MacLines(i: Interface): seq<Output>
  {
    if i.physAddress == "" then [] else [Result(OK, Plain("MAC: " + i.physAddress))]
  }

  // ---------------------------------------------------------------------
  // Speed and levels

  /** The speed line and the reference speed in byte/s that percentage
      levels and boundaries refer to. */
  datatype SpeedInfo = SpeedInfo(lines: seq<Output>, reference: Option<real>)

  /** A known speed is reported, with a warning when the configured speed
      differs; an unknown speed falls back to the configured, else the
      discovered, speed as an assumption. */
  function SpeedInfoOf(p: CheckParams, i: Interface): (s: SpeedInfo)
    ensures s.reference.Some? ==> s.reference.value > 0.0
  {
    if i.speed > 0 then
      if p.speed.Some? && p.speed.value != i.speed then
        SpeedInfo([Result(WARN, KnownSpeed(i.speed, p.speed))], Some(i.speed as real / 8.0))
      else SpeedInfo([Result(OK, KnownSpeed(i.speed, None))], Some(i.speed as real / 8.0))
    else
      var assumed := p.speed.OrElse(p.discoveredSpeed);
      if assumed.Some? && assumed.value > 0 then
        SpeedInfo([Result(OK, AssumedSpeed(assumed.value))], Some(assumed.value as real / 8.0))
      else SpeedInfo([Result(OK, SpeedUnknown)], None)
  }

  predicate Applies(r: TrafficRule, d: Direction)
  {
    r.direction == BothDirections || (d == In && r.direction == InOnly) || (d == Out && r.direction == OutOnly)
  }

  /** The last traffic rule for direction `d`: later entries override. */
  function LastApplying(rules: seq<TrafficRule>, d: Direction): (r: Option<TrafficRule>)
    ensures r.Some? ==> r.value in rules && Applies(r.value, d)
    ensures r.None? ==> forall k :: 0 <= k < |rules| ==> !Applies(rules[k], d)
  {
    if rules == [] then None
    else if Applies(rules[|rules| - 1], d) then Some(rules[|rules| - 1])
    else LastApplying(rules[..|rules| - 1], d)
  }

  /** `pct` percent of `base`. */
  function PercentOf(pct: real, base: real): (r: real)
    ensures r * 100.0 == pct * base
  {
    pct / 100.0 * base
  }

  /** Percentage levels are taken of the reference speed; without one they
      do not apply. */
  function Resolve(r: TrafficRule, reference: Option<real>): Option<Threshold>
  {
    match r.kind
    case Abs => Some(Threshold(r.warn, r.crit))
    case Perc =>
      if reference.Some? then Some(Threshold(PercentOf(r.warn, reference.value), PercentOf(r.crit, reference.value)))
      else None
  }

  function TrafficLevels(p: CheckParams, d: Direction, reference: Option<real>): Option<Threshold>
  {
    match LastApplying(p.traffic, d)
    case Some(r) => Resolve(r, reference)
    case None => None
  }

  function AsBounds(th: Option<Threshold>): Bounds
  {
    match th
    case Some(t) => Bounds(Some(t.warn), Some(t.crit))
    case None => Unbounded
  }

  /** Traffic levels on `in` and `out`, the `errors` levels on `inerr`
      and `outerr`, none on the others. */
  function MetricLevels(k: nat, p: CheckParams, inTh: Option<Threshold>, outTh: Option<Threshold>): Bounds
  {
    if k == InPos then AsBounds(inTh)
    else if k == OutPos then AsBounds(outTh)
    else if k == InErrPos || k == OutErrPos then AsBounds(p.errors)
    else Unbounded
  }

  /** `in` and `out` range from 0 to the reference speed. */
  function MetricBoundaries(k: nat, reference: Option<real>): Bounds
  {
    if k == InPos || k == OutPos then Bounds(Some(0.0), reference) else Unbounded
  }

  function Metrics(rates: seq<real>, p: CheckParams, inTh: Option<Threshold>, outTh: Option<Threshold>,
                   reference: Option<real>): (ms: seq<Output>)
    requires |rates| == |MetricNames|
    ensures |ms| == |MetricNames|
    ensures forall k :: 0 <= k < |ms| ==> ms[k].Metric? && ms[k].name == MetricNames[k] && ms[k].value == rates[k]
  {
    seq(|rates|, k requires 0 <= k < |rates| =>
      Metric(MetricNames[k], rates[k], MetricLevels(k, p, inTh, outTh), MetricBoundaries(k, reference)))
  }

  /** `check_levels` with upper levels. */
  function Classify(v: real, th: Option<Threshold>): State
  {
    match th
    case None => OK
    case Some(t) => if v >= t.crit then CRIT else if v >= t.warn then WARN else OK
  }

  function Percent(v: real, reference: Option<real>): Option<real>
  {
    if reference.Some? && reference.value > 0.0 then Some(v / reference.value * 100.0) else None
  }

  /** An In or Out result: its state from the levels, which the summary
      shows only when they are exceeded, and the share of the reference
      speed. */
  function TrafficResult(d: Direction, avg: Option<nat>, v: real, th: Option<Threshold>, reference: Option<real>): Output
  {
    var st := Classify(v, th);
    Result(st, Traffic(d, avg, v, if st != OK then th else None, Percent(v, reference)))
  }

  // ---------------------------------------------------------------------
  // The whole check

  predicate AllKnown(rates: seq<Option<real>>)
  {
    forall k :: 0 <= k < |rates| ==> rates[k].Some?
  }

  function Known(rates: seq<Option<real>>): (r: seq<real>)
    requires AllKnown(rates)
    ensures |r| == |rates| && forall k :: 0 <= k < |r| ==> r[k] == rates[k].value
  {
    seq(|rates|, k requires 0 <= k < |rates| => rates[k].value)
  }

  /** Everything before the metrics. */
  function HeadLines(item: string, p: CheckParams, i: Interface, group: Option<seq<NodeMembers>>): seq<Output>
  {
    StatusLines(item, p, i, group) + MacLines(i) + SpeedInfoOf(p, i).lines
  }

  /** The averaged In and Out rates over a window of `minutes`. */
  datatype Averages = Averages(minutes: nat, inAvg: real, outAvg: real)

  /** The In and Out results, or, when averaging, an averaged metric and
      result per direction in their place. */
  function TrafficLines(rates: seq<real>, inTh: Option<Threshold>, outTh: Option<Threshold>,
                        reference: Option<real>, averages: Option<Averages>): (r: seq<Output>)
    requires |rates| == |MetricNames|
    ensures averages.None? ==>
      && |r| == 2
      && r[0].Result? && r[0].state == Classify(rates[InPos], inTh) && r[0].summary.Traffic? && r[0].summary.dir == In
      && r[1].Result? && r[1].state == Classify(rates[OutPos], outTh) && r[1].summary.Traffic? && r[1].summary.dir == Out
    ensures averages.Some? ==>
      && |r| == 4
      && r[0].Metric? && r[0].value == averages.value.inAvg
      && r[1].Result? && r[1].state == Classify(averages.value.inAvg, inTh) && r[1].summary.Traffic? && r[1].summary.dir == In
      && r[2].Metric? && r[2].value == averages.value.outAvg
      && r[3].Result? && r[3].state == Classify(averages.value.outAvg, outTh)
      && r[3].summary.Traffic? && r[3].summary.dir == Out
  {
    match averages
    case None =>
      [TrafficResult(In, None, rates[InPos], inTh, reference), TrafficResult(Out, None, rates[OutPos], outTh, reference)]
    case Some(a) =>
      var suffix := NatToString(a.minutes);
      [Metric("in_avg_" + suffix, a.inAvg, AsBounds(inTh), MetricBoundaries(InPos, reference)),
       TrafficResult(In, Some(a.minutes), a.inAvg, inTh, reference),
       Metric("out_avg_" + suffix, a.outAvg, AsBounds(outTh), MetricBoundaries(OutPos, reference)),
       TrafficResult(Out, Some(a.minutes), a.outAvg, outTh, reference)]
  }

  /** The findings of a call in which every counter has a rate. */
  function Findings(item: string, p: CheckParams, i: Interface, group: Option<seq<NodeMembers>>,
                    rates: seq<real>, averages: Option<Averages>): (f: seq<Output>)
    requires |rates| == |MetricNames|
    ensures |f| == |HeadLines(item, p, i, group)| + |MetricNames| + (if averages.Some? then 4 else 2)
    ensures f[0].Result? && f[0].state == StatusState(p, i)
    ensures f[|f| - 1].Result? && f[|f| - 1].summary.Traffic? && f[|f| - 1].summary.dir == Out
  {
    var reference := SpeedInfoOf(p, i).reference;
    var inTh := TrafficLevels(p, In, reference);
    var outTh := TrafficLevels(p, Out, reference);
    HeadLines(item, p, i, group) + Metrics(rates, p, inTh, outTh, reference)
    + TrafficLines(rates, inTh, outTh, reference, averages)
  }

  /** A metric block whose values are the increases of the counters per
      second of elapsed time. */
  predicate RatesBetween(o: seq<Output>, h: nat, before: seq<nat>, after: seq<nat>, elapsed: real)
    requires |before| == |after| == |MetricNames|
  {
    && |o| > h + |MetricNames|
    && forall k :: 0 <= k < |MetricNames| ==> MetricRate(o[h + k], MetricNames[k], before[k], after[k], elapsed)
  }

  /** A metric named `name` whose value is the increase from `before` to
      `after` per second of `elapsed` time. */
  predicate MetricRate(o: Output, name: string, before: nat, after: nat, elapsed: real)
  {
    o.Metric? && o.name == name && PerSecond(o.value, before, after, elapsed)
  }

  /** The averages of the In and Out rates when `average` is configured,
      against the averages in the store. */
  function AveragesOf(p: CheckParams, entries: map<StoreKey, Entry>, rates: seq<real>, decay: real): Option<Averages>
    requires |rates| == |MetricNames| && 0.0 <= decay <= 1.0
  {
    match p.average
    case None => None
    case Some(m) =>
      Some(Averages(m, AverageOf(Get(entries, AverageKey(In, m)), rates[InPos], decay),
                       AverageOf(Get(entries, AverageKey(Out, m)), rates[OutPos], decay)))
  }

  function WithAverages(entries: map<StoreKey, Entry>, averages: Option<Averages>, time: real): map<StoreKey, Entry>
  {
    match averages
    case None => entries
    case Some(a) =>
      entries[AverageKey(In, a.minutes) := AverageSample(time, a.inAvg)][AverageKey(Out, a.minutes) := AverageSample(time, a.outAvg)]
  }

  datatype Evaluation = Evaluation(outcome: Outcome, entries: map<StoreKey, Entry>)

  /** The outcome of one check call on the store `entries` at `time`, and
      the store it leaves: every counter is recorded; without a rate for
      each of them there are no findings and no averaging. `decay` is the
      weight averaging gives the earlier average. */
  function Evaluate(entries: map<StoreKey, Entry>, item: string, p: CheckParams, i: Interface,
                    group: Option<seq<NodeMembers>>, time: real, decay: real): (r: Evaluation)
    requires 0.0 <= decay <= 1.0
    ensures r.outcome.IgnoreResults? <==> !AllKnown(RatesOf(entries, CounterValues(i.counters), time))
    ensures forall k :: 0 <= k < |MetricNames| ==>
      Get(r.entries, CounterKey(k)) == Some(CounterSample(time, CounterValues(i.counters)[k]))
  {
    var counts := CounterValues(i.counters);
    RecordsCounters(entries, counts, time);
    var rates := RatesOf(entries, counts, time);
    var stored := WithCounters(entries, counts, time);
    if !AllKnown(rates) then Evaluation(IgnoreResults, stored)
    else
      var rs := Known(rates);
      var averages := AveragesOf(p, stored, rs, decay);
      Evaluation(Outputs(Findings(item, p, i, group, rs, averages)), WithAverages(stored, averages, time))
  }

  /** A call changes no average but those of the configured window, and
      those only when it has findings. */
  lemma EvaluateKeepsOtherAverages(entries: map<StoreKey, Entry>, item: string, p: CheckParams, i: Interface,
                                   group: Option<seq<NodeMembers>>, time: real, decay: real, d: Direction, m: nat)
    requires 0.0 <= decay <= 1.0
    requires p.average != Some(m) || !AllKnown(RatesOf(entries, CounterValues(i.counters), time))
    ensures Get(Evaluate(entries, item, p, i, group, time, decay).entries, AverageKey(d, m)) == Get(entries, AverageKey(d, m))
  {
    WithCountersGet(entries, CounterValues(i.counters), time, AverageKey(d, m));
  }

  /** `check_single_interface` against the value store `store`. */
  method CheckSingleInterface(store: ValueStore, item: string, p: CheckParams, i: Interface,
                              group: Option<seq<NodeMembers>>, time: real, decay: real)
    returns (o: Outcome)
    requires 0.0 <= decay <= 1.0
    modifies store
    ensures Evaluation(o, store.entries) == Evaluate(old(store.entries), item, p, i, group, time, decay)
  {
    var counts := CounterValues(i.counters);
    var rates := store.CounterRates(counts, time);
    if !AllKnown(rates) {
      return IgnoreResults;
    }
    var rs := Known(rates);
    var averages: Option<Averages> := None;
    match p.average {
      case None =>
      case Some(m) =>
        var ai := store.GetAverage(AverageKey(In, m), time, rs[InPos], decay);
        var ao := store.GetAverage(AverageKey(Out, m), time, rs[OutPos], decay);
        averages := Some(Averages(m, ai, ao));
    }
    o := Outputs(Findings(item, p, i, group, rs, averages));
  }
}
