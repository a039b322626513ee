/** The aggregation behind a group service: which interfaces of the current
    poll are members, the counters summed over them, the speed of the
    members that are up, the group's operational state and the member
    listing, flat or per cluster node. */
module InterfaceGroups {
  import opened Wrappers
  import opened Interfaces
  import opened InterfaceDiscovery
  import opened InterfaceCheck

  /** Membership is decided afresh at every check: a rule-defined group
      takes the interfaces its inclusion condition accepts and none of its
      exclusion conditions accepts; an agent-declared group takes the
      interfaces the agent tags with the group's name. */
  predicate Selected(agg: Aggregate, item: string, i: Interface)
  {
    match agg
    case RuleAggregate(_, inclusion, exclusions) =>
      Matches(inclusion, i) && forall k :: 0 <= k < |exclusions| ==> !Matches(exclusions[k], i)
    case AgentAggregate(_) => i.group == Some(item)
  }

  /** The members among `ifaces`, in the order they are encountered. */
  function SelectMembers(agg: Aggregate, item: string, ifaces: seq<Interface>): (r: seq<Interface>)
    ensures forall k :: 0 <= k < |r| ==> Selected(agg, item, r[k]) && r[k] in ifaces
    ensures forall i :: i in ifaces && Selected(agg, item, i) ==> i in r
  {
    if ifaces == [] then []
    else
      var front := ifaces[..|ifaces| - 1];
      var last := ifaces[|ifaces| - 1];
      assert ifaces == front + [last];
      SelectMembers(agg, item, front) + (if Selected(agg, item, last) then [last] else [])
  }

  /** One more polled interface adds itself to the members, or nothing. */
  lemma SelectStep(agg: Aggregate, item: string, ifaces: seq<Interface>, i: nat)
    requires i < |ifaces|
    ensures SelectMembers(agg, item, ifaces[..i + 1]) ==
      SelectMembers(agg, item, ifaces[..i]) + (if Selected(agg, item, ifaces[i]) then [ifaces[i]] else [])
  {
    assert ifaces[..i + 1][..i] == ifaces[..i];
  }

  /** Selection keeps the order of the poll: the members of a concatenation
      are the members of each part, one after the other. */
  lemma {:induction false} SelectAppend(agg: Aggregate, item: string, a: seq<Interface>, b: seq<Interface>)
    ensures SelectMembers(agg, item, a + b) == SelectMembers(agg, item, a) + SelectMembers(agg, item, b)
    decreases |b|
  {
    if b == [] {
      assert a + b == a;
    } else {
      var front := b[..|b| - 1];
      assert (a + b)[..|a + b| - 1] == a + front;
      SelectAppend(agg, item, a, front);
    }
  }

  // ---------------------------------------------------------------------
  // Counters and speed

  const ZeroCounters := Counters(0, 0, 0, 0, 0, 0, 0, 0, 0, 0, 0, 0, 0)

  function AddCounters(a: Counters, b: Counters): Counters
  {
    Counters(
      a.inOctets + b.inOctets, a.inUcast + b.inUcast, a.inMcast + b.inMcast, a.inBcast + b.inBcast,
      a.inDiscards + b.inDiscards, a.inErrors + b.inErrors,
      a.outOctets + b.outOctets, a.outUcast + b.outUcast, a.outMcast + b.outMcast, a.outBcast + b.outBcast,
      a.outDiscards + b.outDiscards, a.outErrors + b.outErrors, a.outQLen + b.outQLen)
  }

  /** The counters of `n` interfaces that all report `c`. */
  function ScaleCounters(c: Counters, n: nat): Counters
  {
    if n == 0 then ZeroCounters else AddCounters(ScaleCounters(c, n - 1), c)
  }

  /** `n` copies of `x` added up. */
  function Times(n: nat, x: nat): nat
  {
    if n == 0 then 0 else Times(n - 1, x) + x
  }

  lemma {:induction false} TimesIsProduct(n: nat, x: nat)
    ensures Times(n, x) == n * x
  {
    if n > 0 {
      TimesIsProduct(n - 1, x);
      MulStep(n - 1, x);
    }
  }

  lemma {:induction false} ScaleTimes(c: Counters, n: nat)
    ensures ScaleCounters(c, n) == Counters(
      Times(n, c.inOctets), Times(n, c.inUcast), Times(n, c.inMcast), Times(n, c.inBcast),
      Times(n, c.inDiscards), Times(n, c.inErrors), Times(n, c.outOctets), Times(n, c.outUcast),
      Times(n, c.outMcast), Times(n, c.outBcast), Times(n, c.outDiscards), Times(n, c.outErrors),
      Times(n, c.outQLen))
  {
    if n > 0 {
      ScaleTimes(c, n - 1);
    }
  }

  /** ... that is, every counter multiplied by `n`. */
  lemma ScaleMultiplies(c: Counters, n: nat)
    ensures ScaleCounters(c, n) == Counters(
      n * c.inOctets, n * c.inUcast, n * c.inMcast, n * c.inBcast, n * c.inDiscards, n * c.inErrors,
      n * c.outOctets, n * c.outUcast, n * c.outMcast, n * c.outBcast, n * c.outDiscards, n * c.outErrors,
      n * c.outQLen)
  {
    ScaleTimes(c, n);
    TimesIsProduct(n, c.inOctets); TimesIsProduct(n, c.inUcast); TimesIsProduct(n, c.inMcast);
    TimesIsProduct(n, c.inBcast); TimesIsProduct(n, c.inDiscards); TimesIsProduct(n, c.inErrors);
    TimesIsProduct(n, c.outOctets); TimesIsProduct(n, c.outUcast); TimesIsProduct(n, c.outMcast);
    TimesIsProduct(n, c.outBcast); TimesIsProduct(n, c.outDiscards); TimesIsProduct(n, c.outErrors);
    TimesIsProduct(n, c.outQLen);
  }

  /** Every metric of summed counters is the sum of the metrics. */
  lemma AddCountersValues(a: Counters, b: Counters)
    ensures forall k :: 0 <= k < |MetricNames| ==>
      CounterValues(AddCounters(a, b))[k] == CounterValues(a)[k] + CounterValues(b)[k]
  {
  }

  /** The counters of the group: every raw counter summed over the members. */
  function TotalCounters(ms: seq<Interface>): (c: Counters)
    ensures ms == [] ==> c == ZeroCounters
    ensures |ms| == 1 ==> c == ms[0].counters
  {
    if ms == [] then ZeroCounters
    else AddCounters(TotalCounters(ms[..|ms| - 1]), ms[|ms| - 1].counters)
  }

  lemma AddZero(a: Counters)
    ensures AddCounters(a, ZeroCounters) == a
  {
  }

  lemma AddAssociative(a: Counters, b: Counters, c: Counters)
    ensures AddCounters(AddCounters(a, b), c) == AddCounters(a, AddCounters(b, c))
  {
  }

  lemma {:induction false} TotalAppend(a: seq<Interface>, b: seq<Interface>)
    ensures TotalCounters(a + b) == AddCounters(TotalCounters(a), TotalCounters(b))
    decreases |b|
  {
    if b == [] {
      assert a + b == a;
      AddZero(TotalCounters(a));
    } else {
      var front := b[..|b| - 1];
      var last := b[|b| - 1];
      assert (a + b)[..|a + b| - 1] == a + front;
      assert TotalCounters(a + b) == AddCounters(TotalCounters(a + front), last.counters);
      assert TotalCounters(b) == AddCounters(TotalCounters(front), last.counters);
      TotalAppend(a, front);
      AddAssociative(TotalCounters(a), TotalCounters(front), last.counters);
    }
  }

  predicate IsUp(i: Interface)
  {
    i.operStatus == OperUp
  }

  /** The speed of the group: the speeds of the members that are up. */
  function UpSpeed(ms: seq<Interface>): (s: nat)
    ensures ms == [] ==> s == 0
  {
    if ms == [] then 0
    else UpSpeed(ms[..|ms| - 1]) + (if IsUp(ms[|ms| - 1]) then ms[|ms| - 1].speed else 0)
  }

  lemma {:induction false} UpSpeedAppend(a: seq<Interface>, b: seq<Interface>)
    ensures UpSpeed(a + b) == UpSpeed(a) + UpSpeed(b)
    decreases |b|
  {
    if b == [] {
      assert a + b == a;
    } else {
      var front := b[..|b| - 1];
      assert (a + b)[..|a + b| - 1] == a + front;
      UpSpeedAppend(a, front);
    }
  }

  /** A member that is not up adds nothing to the group's speed, whatever
      speed it reports. */
  lemma {:induction false} UpSpeedSkipsDown(a: seq<Interface>, d: Interface, b: seq<Interface>)
    requires !IsUp(d)
    ensures UpSpeed(a + [d] + b) == UpSpeed(a + b)
  {
    UpSpeedAppend(a + [d], b);
    UpSpeedAppend(a, b);
    assert (a + [d])[..|a + [d]| - 1] == a;
  }

  function CountUp(ms: seq<Interface>): (n: nat)
    ensures n <= |ms|
  {
    if ms == [] then 0 else CountUp(ms[..|ms| - 1]) + (if IsUp(ms[|ms| - 1]) then 1 else 0)
  }

  lemma {:induction false} CountUpAll(ms: seq<Interface>)
    ensures CountUp(ms) == |ms| <==> forall k :: 0 <= k < |ms| ==> IsUp(ms[k])
    ensures CountUp(ms) == 0 <==> forall k :: 0 <= k < |ms| ==> !IsUp(ms[k])
  {
    if ms != [] {
      var front := ms[..|ms| - 1];
      CountUpAll(front);
      assert forall k :: 0 <= k < |front| ==> front[k] == ms[k];
    }
  }

  /** The group's operational state: up ("1") when it has members and all
      are up, down ("2") when none is up, degraded ("8") otherwise. */
  function GroupOperStatus(ms: seq<Interface>): (r: string)
    ensures r == OperUp || r == OperDown || r == OperDegraded
    ensures ms == [] ==> r == OperDown
  {
    var up := CountUp(ms);
    if ms != [] && up == |ms| then OperUp else if up == 0 then OperDown else OperDegraded
  }

  lemma GroupStatusMeaning(ms: seq<Interface>)
    ensures GroupOperStatus(ms) == OperUp <==> ms != [] && forall k :: 0 <= k < |ms| ==> IsUp(ms[k])
    ensures GroupOperStatus(ms) == OperDown <==> forall k :: 0 <= k < |ms| ==> !IsUp(ms[k])
    ensures GroupOperStatus(ms) == OperDegraded <==>
      (exists k :: 0 <= k < |ms| && IsUp(ms[k])) && (exists k :: 0 <= k < |ms| && !IsUp(ms[k]))
  {
    CountUpAll(ms);
  }

  // ---------------------------------------------------------------------
  // The member listing

  /** A member is named as its appearance says: by index, or by description
      or alias, the index standing in for an empty one. */
  function MemberName(i: Interface, app: Appearance): string
  {
    ItemName(i, SingleDiscovery(true, app, false), 0)
  }

  function Info(i: Interface, app: Appearance): MemberInfo
  {
    MemberInfo(MemberName(i, app), OperStatusName(i.operStatus))
  }

  function Infos(ms: seq<Interface>, app: Appearance): (r: seq<MemberInfo>)
    ensures |r| == |ms|
  {
    if ms == [] then [] else Infos(ms[..|ms| - 1], app) + [Info(ms[|ms| - 1], app)]
  }

  /** Files member `m` under `node`: appended to that node's list, or in a
      new list after the others when the node has none yet. */
  function AddMember(gs: seq<NodeMembers>, node: Option<string>, m: MemberInfo): (r: seq<NodeMembers>)
    ensures |r| == |gs| || |r| == |gs| + 1
    ensures r != []
    ensures (forall k :: 0 <= k < |gs| ==> gs[k].members != []) ==> forall k :: 0 <= k < |r| ==> r[k].members != []
  {
    if gs == [] then [NodeMembers(node, [m])]
    else if gs[0].node == node then [gs[0].(members := gs[0].members + [m])] + gs[1..]
    else [gs[0]] + AddMember(gs[1..], node, m)
  }

  /** The members grouped by the node they come from, the nodes in the
      order they first appear. */
  function NodeGroups(ms: seq<Interface>, app: Appearance): (r: seq<NodeMembers>)
    ensures |r| <= |ms| && (ms != [] ==> r != [])
    ensures forall k :: 0 <= k < |r| ==> r[k].members != []
  {
    if ms == [] then []
    else AddMember(NodeGroups(ms[..|ms| - 1], app), ms[|ms| - 1].node, Info(ms[|ms| - 1], app))
  }

  /** One more member adds its counters, its speed and count when up, and
      its entry in its node's listing. */
  lemma MemberSnoc(ms: seq<Interface>, x: Interface, app: Appearance)
    ensures TotalCounters(ms + [x]) == AddCounters(TotalCounters(ms), x.counters)
    ensures UpSpeed(ms + [x]) == UpSpeed(ms) + (if IsUp(x) then x.speed else 0)
    ensures CountUp(ms + [x]) == CountUp(ms) + (if IsUp(x) then 1 else 0)
    ensures NodeGroups(ms + [x], app) == AddMember(NodeGroups(ms, app), x.node, Info(x, app))
  {
    assert (ms + [x])[..|ms|] == ms;
  }

  predicate NoGroupFor(gs: seq<NodeMembers>, node: Option<string>)
  {
    forall k :: 0 <= k < |gs| ==> gs[k].node != node
  }

  lemma {:induction false} AddMemberNew(gs: seq<NodeMembers>, node: Option<string>, m: MemberInfo)
    requires NoGroupFor(gs, node)
    ensures AddMember(gs, node, m) == gs + [NodeMembers(node, [m])]
  {
    if gs != [] {
      AddMemberNew(gs[1..], node, m);
    }
  }

  lemma {:induction false} AddMemberToLast(gs: seq<NodeMembers>, node: Option<string>, l: seq<MemberInfo>, m: MemberInfo)
    requires NoGroupFor(gs, node)
    ensures AddMember(gs + [NodeMembers(node, l)], node, m) == gs + [NodeMembers(node, l + [m])]
  {
    if gs != [] {
      assert (gs + [NodeMembers(node, l)])[1..] == gs[1..] + [NodeMembers(node, l)];
      AddMemberToLast(gs[1..], node, l, m);
    }
  }

  lemma {:induction false} AddMemberKeepsOthers(gs: seq<NodeMembers>, node: Option<string>, m: MemberInfo, other: Option<string>)
    requires other != node && NoGroupFor(gs, other)
    ensures NoGroupFor(AddMember(gs, node, m), other)
  {
    if gs != [] && gs[0].node != node {
      AddMemberKeepsOthers(gs[1..], node, m, other);
    }
  }

  /** A node no member comes from has no list. */
  lemma {:induction false} NodeGroupsOnlyOwnNodes(ms: seq<Interface>, app: Appearance, node: Option<string>)
    requires forall k :: 0 <= k < |ms| ==> ms[k].node != node
    ensures NoGroupFor(NodeGroups(ms, app), node)
  {
    if ms != [] {
      NodeGroupsOnlyOwnNodes(ms[..|ms| - 1], app, node);
      AddMemberKeepsOthers(NodeGroups(ms[..|ms| - 1], app), ms[|ms| - 1].node, Info(ms[|ms| - 1], app), node);
    }
  }

  /** Members of a node not seen before form one new list, after the lists
      of the earlier nodes. */
  lemma {:induction false} NodeGroupsNewNode(a: seq<Interface>, b: seq<Interface>, app: Appearance, node: Option<string>)
    requires b != []
    requires forall k :: 0 <= k < |b| ==> b[k].node == node
    requires forall k :: 0 <= k < |a| ==> a[k].node != node
    ensures NodeGroups(a + b, app) == NodeGroups(a, app) + [NodeMembers(node, Infos(b, app))]
    decreases |b|
  {
    NodeGroupsOnlyOwnNodes(a, app, node);
    var front := b[..|b| - 1];
    var last := b[|b| - 1];
    assert (a + b)[..|a + b| - 1] == a + front;
    if front == [] {
      assert a + front == a;
      assert b == [last];
      assert Infos(b, app) == [Info(last, app)] by {
        assert b[..0] == [];
      }
      AddMemberNew(NodeGroups(a, app), node, Info(last, app));
    } else {
      NodeGroupsNewNode(a, front, app, node);
      AddMemberToLast(NodeGroups(a, app), node, Infos(front, app), Info(last, app));
    }
  }

  /** Members that do not come from a cluster are listed in one flat list. */
  lemma NodeGroupsFlat(ms: seq<Interface>, app: Appearance)
    requires ms != [] && forall k :: 0 <= k < |ms| ==> ms[k].node.None?
    ensures NodeGroups(ms, app) == [NodeMembers(None, Infos(ms, app))]
  {
    NodeGroupsNewNode([], ms, app, None);
    assert [] + ms == ms;
  }

  // ---------------------------------------------------------------------
  // The same interfaces reported by several cluster nodes

  function OnNode(ms: seq<Interface>, n: string): (r: seq<Interface>)
    ensures |r| == |ms| && forall k :: 0 <= k < |r| ==> r[k] == ms[k].(node := Some(n))
  {
    seq(|ms|, k requires 0 <= k < |ms| => ms[k].(node := Some(n)))
  }

  /** The poll of a cluster whose nodes `ns` each report the interfaces
      `ms`, node after node. */
  function OnNodes(ms: seq<Interface>, ns: seq<string>): seq<Interface>
  {
    if ns == [] then [] else OnNodes(ms, ns[..|ns| - 1]) + OnNode(ms, ns[|ns| - 1])
  }

  lemma {:induction false} SelectOnNode(agg: Aggregate, item: string, ms: seq<Interface>, n: string)
    ensures SelectMembers(agg, item, OnNode(ms, n)) == OnNode(SelectMembers(agg, item, ms), n)
    decreases |ms|
  {
    if ms != [] {
      var front, last := ms[..|ms| - 1], ms[|ms| - 1];
      var on := OnNode(ms, n);
      assert on[..|on| - 1] == OnNode(front, n) && on[|on| - 1] == last.(node := Some(n));
      SelectOnNode(agg, item, front, n);
      var tail := if Selected(agg, item, last) then [last] else [];
      assert Selected(agg, item, last.(node := Some(n))) == Selected(agg, item, last);
      assert SelectMembers(agg, item, ms) == SelectMembers(agg, item, front) + tail;
      OnNodeAppend(SelectMembers(agg, item, front), tail, n);
    }
  }

  lemma OnNodeAppend(a: seq<Interface>, b: seq<Interface>, n: string)
    ensures OnNode(a + b, n) == OnNode(a, n) + OnNode(b, n)
  {
    assert forall k :: 0 <= k < |a + b| ==> (a + b)[k] == if k < |a| then a[k] else b[k - |a|];
  }

  lemma {:induction false} SelectOnNodes(agg: Aggregate, item: string, ms: seq<Interface>, ns: seq<string>)
    ensures SelectMembers(agg, item, OnNodes(ms, ns)) == OnNodes(SelectMembers(agg, item, ms), ns)
    decreases |ns|
  {
    if ns != [] {
      var front := ns[..|ns| - 1];
      SelectAppend(agg, item, OnNodes(ms, front), OnNode(ms, ns[|ns| - 1]));
      SelectOnNode(agg, item, ms, ns[|ns| - 1]);
      SelectOnNodes(agg, item, ms, front);
    }
  }

  lemma {:induction false} NodeFieldIgnored(ms: seq<Interface>, n: string, app: Appearance)
    ensures TotalCounters(OnNode(ms, n)) == TotalCounters(ms)
    ensures UpSpeed(OnNode(ms, n)) == UpSpeed(ms)
    ensures CountUp(OnNode(ms, n)) == CountUp(ms)
    ensures Infos(OnNode(ms, n), app) == Infos(ms, app)
    decreases |ms|
  {
    if ms != [] {
      var front := ms[..|ms| - 1];
      assert OnNode(ms, n)[..|ms| - 1] == OnNode(front, n);
      NodeFieldIgnored(front, n, app);
    }
  }

  lemma {:induction false} CountUpAppend(a: seq<Interface>, b: seq<Interface>)
    ensures CountUp(a + b) == CountUp(a) + CountUp(b)
    decreases |b|
  {
    if b == [] {
      assert a + b == a;
    } else {
      var front := b[..|b| - 1];
      assert (a + b)[..|a + b| - 1] == a + front;
      CountUpAppend(a, front);
    }
  }

  /** Over `|ns|` nodes reporting the same interfaces, the group's counters
      are `|ns|` times those of one node. */
  lemma {:induction false} TotalOnNodes(ms: seq<Interface>, ns: seq<string>)
    ensures TotalCounters(OnNodes(ms, ns)) == ScaleCounters(TotalCounters(ms), |ns|)
    decreases |ns|
  {
    if ns != [] {
      var front := ns[..|ns| - 1];
      var n := ns[|ns| - 1];
      TotalOnNodes(ms, front);
      assert OnNodes(ms, ns) == OnNodes(ms, front) + OnNode(ms, n);
      TotalAppend(OnNodes(ms, front), OnNode(ms, n));
      NodeFieldIgnored(ms, n, ByIndex);
      var t := TotalCounters(ms);
      assert TotalCounters(OnNodes(ms, ns)) == AddCounters(ScaleCounters(t, |front|), t);
      assert TotalCounters(OnNodes(ms, ns)) == ScaleCounters(t, |ns|);
    }
  }

  /** ... and so is the speed of their up members. */
  lemma {:induction false} UpSpeedOnNodes(ms: seq<Interface>, ns: seq<string>)
    ensures UpSpeed(OnNodes(ms, ns)) == |ns| * UpSpeed(ms)
    decreases |ns|
  {
    if ns != [] {
      var front := ns[..|ns| - 1];
      var n := ns[|ns| - 1];
      UpSpeedOnNodes(ms, front);
      UpSpeedAppend(OnNodes(ms, front), OnNode(ms, n));
      NodeFieldIgnored(ms, n, ByIndex);
      MulStep(|front|, UpSpeed(ms));
    }
  }

  lemma {:induction false} CountsOnNodes(ms: seq<Interface>, ns: seq<string>)
    ensures CountUp(OnNodes(ms, ns)) == |ns| * CountUp(ms)
    ensures |OnNodes(ms, ns)| == |ns| * |ms|
    decreases |ns|
  {
    if ns != [] {
      var front := ns[..|ns| - 1];
      var n := ns[|ns| - 1];
      CountsOnNodes(ms, front);
      CountUpAppend(OnNodes(ms, front), OnNode(ms, n));
      NodeFieldIgnored(ms, n, ByIndex);
      MulStep(|front|, CountUp(ms));
      MulStep(|front|, |ms|);
    }
  }

  lemma MulStep(n: nat, x: nat)
    ensures (n + 1) * x == n * x + x
  {
  }

  lemma MulCancel(n: nat, x: nat, y: nat)
    requires n > 0
    ensures n * x == n * y <==> x == y
  {
    if x < y {
      assert n * y == n * x + n * (y - x);
    } else if y < x {
      assert n * x == n * y + n * (x - y);
    }
  }

  /** ... while the group's state is that of one node. */
  lemma GroupStatusOnNodes(ms: seq<Interface>, ns: seq<string>)
    requires ns != []
    ensures GroupOperStatus(OnNodes(ms, ns)) == GroupOperStatus(ms)
  {
    CountsOnNodes(ms, ns);
    MulCancel(|ns|, CountUp(ms), |ms|);
    MulCancel(|ns|, CountUp(ms), 0);
    MulCancel(|ns|, |ms|, 0);
  }

  predicate Distinct(ns: seq<string>)
  {
    forall j, k :: 0 <= j < k < |ns| ==> ns[j] != ns[k]
  }

  /** One list per node of `ns`, each holding `infos`. */
  function PerNode(ns: seq<string>, infos: seq<MemberInfo>): (r: seq<NodeMembers>)
    ensures |r| == |ns| && forall j :: 0 <= j < |ns| ==> r[j] == NodeMembers(Some(ns[j]), infos)
  {
    if ns == [] then [] else PerNode(ns[..|ns| - 1], infos) + [NodeMembers(Some(ns[|ns| - 1]), infos)]
  }

  /** Over distinct nodes each reporting the members `ms`, the listing has
      one list per node, in the nodes' order, each naming all of `ms`. */
  lemma {:induction false} NodeGroupsOnNodes(ms: seq<Interface>, ns: seq<string>, app: Appearance)
    requires ms != [] && Distinct(ns)
    ensures NodeGroups(OnNodes(ms, ns), app) == PerNode(ns, Infos(ms, app))
    decreases |ns|
  {
    if ns != [] {
      var front := ns[..|ns| - 1];
      var n := ns[|ns| - 1];
      assert forall j :: 0 <= j < |front| ==> front[j] == ns[j];
      assert n !in front;
      NodeGroupsOnNodes(ms, front, app);
      OnNodesNodes(ms, front, n);
      NodeFieldIgnored(ms, n, app);
      NodeGroupsNewNode(OnNodes(ms, front), OnNode(ms, n), app, Some(n));
    }
  }

  lemma {:induction false} OnNodesNodes(ms: seq<Interface>, ns: seq<string>, n: string)
    requires n !in ns
    ensures forall k :: 0 <= k < |OnNodes(ms, ns)| ==> OnNodes(ms, ns)[k].node != Some(n)
    decreases |ns|
  {
    if ns != [] {
      var front := ns[..|ns| - 1];
      assert n !in front by {
        forall j | 0 <= j < |front| ensures front[j] != n {
          assert front[j] == ns[j];
        }
      }
      OnNodesNodes(ms, front, n);
    }
  }
}
