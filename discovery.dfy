/** Discovery of network-interface services (`discover_interfaces`): an
    ordered list of rule layers is applied to the interfaces of a host and
    yields the single-interface services followed by the group services. */
module InterfaceDiscovery {
  import opened Wrappers
  import opened Text
  import opened Interfaces

  /** How an item or a group member is named. */
  datatype Appearance = ByIndex | ByDescr | ByAlias

  /** `discovery_single`: whether matched interfaces become services of
      their own, and how their items are named. */
  datatype SingleDiscovery = SingleDiscovery(enabled: bool, appearance: Appearance, padPortnumbers: bool)

  datatype GroupSpec = GroupSpec(name: string, memberAppearance: Appearance)

  /** `grouping`: `(True, specs)` declares groups; `(False, [])` makes the
      layer's matching conditions an exclusion for groups of later layers. */
  datatype Grouping = Grouping(enabled: bool, groups: seq<GroupSpec>)

  /** One discovery layer. A layer without `discovery_single` leaves the
      single-service decision to later layers; one without `grouping`
      neither declares groups nor excludes from them. */
  datatype Layer = Layer(matching: MatchingConditions, single: Option<SingleDiscovery>, grouping: Option<Grouping>)

  /** The `aggregate` parameter of a group service: rule-defined groups
      record the conditions to re-evaluate at check time, groups declared by
      the agent only the member naming. */
  datatype Aggregate =
    | RuleAggregate(memberAppearance: Appearance, inclusion: ConditionSet, exclusions: seq<ConditionSet>)
    | AgentAggregate(memberAppearance: Appearance)

  datatype ServiceParams =
    | SingleParams(discoveredState: seq<string>, discoveredSpeed: nat)
    | GroupParams(aggregate: Aggregate, discoveredState: seq<string>, discoveredSpeed: nat)

  datatype Service = Service(item: string, params: ServiceParams)

  const DefaultPortTypes: seq<string> :=
    ["6", "32", "62", "117", "127", "128", "129", "180", "181", "182", "205", "229"]

  /** `DISCOVERY_DEFAULT_PARAMETERS`: Ethernet-like interfaces that are up
      become services named by their zero-padded index. */
  const DefaultLayer := Layer(
    MatchingConditions(false, ConditionSet([], [], [], DefaultPortTypes, [OperUp])),
    Some(SingleDiscovery(true, ByIndex, true)),
    None)

  /** Old-style discovery parameters, without `matching_conditions`. */
  datatype LegacyParams = LegacyParams(
    padPortnumbers: bool, itemAppearance: Appearance, matchDesc: seq<string>,
    portStates: seq<string>, portTypes: seq<string>, matchAlias: seq<string>)

  /** The layer that old-style parameters stand for: their conditions become
      the matching conditions and they switch single discovery on. */
  function FromLegacy(p: LegacyParams): (l: Layer)
    ensures l.grouping.None? && l.single == Some(SingleDiscovery(true, p.itemAppearance, p.padPortnumbers))
    ensures forall i :: MatchesRule(l.matching, i) <==>
      && (p.matchDesc == [] || MatchesPatterns(p.matchDesc, i.descr))
      && (p.matchAlias == [] || MatchesPatterns(p.matchAlias, i.alias))
      && (p.portTypes == [] || i.ifType in p.portTypes)
      && (p.portStates == [] || i.operStatus in p.portStates)
  {
    Layer(
      MatchingConditions(false, ConditionSet([], p.matchAlias, p.matchDesc, p.portTypes, p.portStates)),
      Some(SingleDiscovery(true, p.itemAppearance, p.padPortnumbers)),
      None)
  }

  // ---------------------------------------------------------------------
  // Single services

  predicate GovernsSingle(l: Layer, i: Interface)
  {
    l.single.Some? && MatchesRule(l.matching, i)
  }

  /** The position of the layer that decides whether `i` becomes a single
      service: the first layer that has a `discovery_single` setting and
      whose matching conditions accept `i`. */
  function GoverningLayer(layers: seq<Layer>, i: Interface): (r: Option<nat>)
    ensures r.Some? ==> r.value < |layers| && GovernsSingle(layers[r.value], i)
    ensures r.Some? ==> forall j :: 0 <= j < r.value ==> !GovernsSingle(layers[j], i)
    ensures r.None? ==> forall j :: 0 <= j < |layers| ==> !GovernsSingle(layers[j], i)
  {
    if layers == [] then None
    else if GovernsSingle(layers[0], i) then Some(0)
    else match GoverningLayer(layers[1..], i)
      case Some(k) => Some(k + 1)
      case None => None
  }

  /** The width that `pad_portnumbers` pads indices to: the longest index of
      the host. */
  function PadWidth(ifaces: seq<Interface>): (w: nat)
    ensures forall k :: 0 <= k < |ifaces| ==> |ifaces[k].index| <= w
    ensures ifaces == [] ==> w == 0
    ensures ifaces != [] ==> exists k :: 0 <= k < |ifaces| && w == |ifaces[k].index|
  {
    if ifaces == [] then 0
    else var rest := PadWidth(ifaces[1..]);
      if |ifaces[0].index| > rest then |ifaces[0].index| else rest
  }

  function IndexItem(i: Interface, pad: bool, width: nat): string
  {
    if pad then PadLeft(i.index, width, '0') else i.index
  }

  /** The item of a single service: the (optionally padded) index, or the
      description or alias, falling back to the index when that is empty. */
  function ItemName(i: Interface, sd: SingleDiscovery, width: nat): (r: string)
    ensures r == IndexItem(i, sd.padPortnumbers, width) || r == i.descr || r == i.alias
    ensures r == "" ==> i.index == ""
    ensures sd.appearance == ByIndex ==> r == IndexItem(i, sd.padPortnumbers, width)
    ensures sd.appearance == ByDescr ==> r == (if i.descr != "" then i.descr else IndexItem(i, sd.padPortnumbers, width))
    ensures sd.appearance == ByAlias ==> r == (if i.alias != "" then i.alias else IndexItem(i, sd.padPortnumbers, width))
  {
    match sd.appearance
    case ByIndex => IndexItem(i, sd.padPortnumbers, width)
    case ByDescr => if i.descr != "" then i.descr else IndexItem(i, sd.padPortnumbers, width)
    case ByAlias => if i.alias != "" then i.alias else IndexItem(i, sd.padPortnumbers, width)
  }

  /** The single service of `i`, if its governing layer switches single
      discovery on; it records the operational state and the raw speed
      (0 when unknown). */
  function SingleServiceOf(layers: seq<Layer>, i: Interface, width: nat): Option<Service>
  {
    match GoverningLayer(layers, i)
    case Some(k) =>
      var sd := layers[k].single.value;
      if sd.enabled then Some(Service(ItemName(i, sd, width), SingleParams([i.operStatus], i.speed)))
      else None
    case None => None
  }

  function SingleServices(layers: seq<Layer>, ifaces: seq<Interface>, width: nat): (r: seq<Service>)
    ensures forall k :: 0 <= k < |r| ==> r[k].params.SingleParams?
    ensures |r| <= |ifaces|
  {
    if ifaces == [] then []
    else
      (match SingleServiceOf(layers, ifaces[0], width)
       case Some(s) => [s]
       case None => [])
      + SingleServices(layers, ifaces[1..], width)
  }

  function Unmatched(m: MatchingConditions, ifaces: seq<Interface>): (r: seq<Interface>)
    ensures forall k :: 0 <= k < |r| ==> !MatchesRule(m, r[k])
    ensures m.matchAll ==> r == []
  {
    if ifaces == [] then []
    else (if MatchesRule(m, ifaces[0]) then [] else [ifaces[0]]) + Unmatched(m, ifaces[1..])
  }

  lemma GoverningBehindLayer(l: Layer, rest: seq<Layer>, i: Interface, width: nat)
    requires !GovernsSingle(l, i)
    ensures SingleServiceOf([l] + rest, i, width) == SingleServiceOf(rest, i, width)
  {
    assert ([l] + rest)[1..] == rest;
    match GoverningLayer(rest, i)
    case Some(k) => assert GoverningLayer([l] + rest, i) == Some(k + 1);
    case None => assert GoverningLayer([l] + rest, i) == None;
  }

  /** A leading layer that switches single discovery off removes exactly
      the interfaces it matches and leaves the others to the later layers. */
  lemma {:induction false} DisabledLayerRemovesMatched(
    l: Layer, rest: seq<Layer>, ifaces: seq<Interface>, width: nat)
    requires l.single.Some? && !l.single.value.enabled
    ensures SingleServices([l] + rest, ifaces, width) == SingleServices(rest, Unmatched(l.matching, ifaces), width)
  {
    if ifaces != [] {
      var i := ifaces[0];
      DisabledLayerRemovesMatched(l, rest, ifaces[1..], width);
      if MatchesRule(l.matching, i) {
        assert GoverningLayer([l] + rest, i) == Some(0);
        assert SingleServiceOf([l] + rest, i, width) == None;
        assert Unmatched(l.matching, ifaces) == Unmatched(l.matching, ifaces[1..]);
      } else {
        GoverningBehindLayer(l, rest, i, width);
        assert Unmatched(l.matching, ifaces) == [i] + Unmatched(l.matching, ifaces[1..]);
      }
    }
  }

  /** A leading match-all layer with single discovery off yields no single
      service at all. */
  lemma MatchAllDisabledYieldsNoSingles(l: Layer, rest: seq<Layer>, ifaces: seq<Interface>, width: nat)
    requires l.single.Some? && !l.single.value.enabled && l.matching.matchAll
    ensures SingleServices([l] + rest, ifaces, width) == []
  {
    DisabledLayerRemovesMatched(l, rest, ifaces, width);
  }

  // ---------------------------------------------------------------------
  // Rule-defined groups

  /** A group definition as discovery records it. */
  datatype GroupConfig = GroupConfig(
    name: string, memberAppearance: Appearance, inclusion: ConditionSet, exclusions: seq<ConditionSet>)

  predicate Declares(l: Layer, g: string)
  {
    l.grouping.Some? && l.grouping.value.enabled &&
    exists s :: s in l.grouping.value.groups && s.name == g
  }

  predicate IsExclusionLayer(l: Layer)
  {
    l.grouping.Some? && !l.grouping.value.enabled
  }

  function ExclusionOf(l: Layer): seq<ConditionSet>
  {
    if IsExclusionLayer(l) then [Effective(l.matching)] else []
  }

  /** The first spec of `specs` named `g`. */
  function FirstSpec(specs: seq<GroupSpec>, g: string): (s: GroupSpec)
    requires exists s :: s in specs && s.name == g
    ensures s in specs && s.name == g
  {
    if specs[0].name == g then specs[0] else FirstSpec(specs[1..], g)
  }

  /** The reference definition of the group named `g`: the earliest layer
      declaring `g` fixes its member naming and its inclusion condition, and
      the matching conditions of the grouping-off layers before it become its
      exclusion conditions. `excl` holds those of layers already passed. */
  function ConfigFor(layers: seq<Layer>, g: string, excl: seq<ConditionSet>): (r: Option<GroupConfig>)
    ensures r.Some? <==> exists k :: 0 <= k < |layers| && Declares(layers[k], g)
    ensures r.Some? ==> r.value.name == g
  {
    if layers == [] then None
    else if Declares(layers[0], g) then
      Some(GroupConfig(g, FirstSpec(layers[0].grouping.value.groups, g).memberAppearance,
                       Effective(layers[0].matching), excl))
    else ConfigFor(layers[1..], g, excl + ExclusionOf(layers[0]))
  }

  function Names(cfgs: seq<GroupConfig>): seq<string>
  {
    if cfgs == [] then [] else [cfgs[0].name] + Names(cfgs[1..])
  }

  /** The first configuration named `g`. */
  function Lookup(cfgs: seq<GroupConfig>, g: string): Option<GroupConfig>
  {
    if cfgs == [] then None
    else if cfgs[0].name == g then Some(cfgs[0])
    else Lookup(cfgs[1..], g)
  }

  function AddSpecs(acc: seq<GroupConfig>, specs: seq<GroupSpec>, incl: ConditionSet, excl: seq<ConditionSet>)
    : seq<GroupConfig>
    decreases specs
  {
    if specs == [] then acc
    else
      var next := if Lookup(acc, specs[0].name).Some? then acc
                  else acc + [GroupConfig(specs[0].name, specs[0].memberAppearance, incl, excl)];
      AddSpecs(next, specs[1..], incl, excl)
  }

  function AddLayer(acc: seq<GroupConfig>, l: Layer, excl: seq<ConditionSet>): seq<GroupConfig>
  {
    if l.grouping.Some? && l.grouping.value.enabled
    then AddSpecs(acc, l.grouping.value.groups, Effective(l.matching), excl)
    else acc
  }

  /** The layers in order, collecting group definitions (a name already
      defined keeps its first definition) and exclusion conditions. */
  function CollectGroups(layers: seq<Layer>, excl: seq<ConditionSet>, acc: seq<GroupConfig>): seq<GroupConfig>
  {
    if layers == [] then acc
    else CollectGroups(layers[1..], excl + ExclusionOf(layers[0]), AddLayer(acc, layers[0], excl))
  }

  function RuleGroups(layers: seq<Layer>): seq<GroupConfig>
  {
    CollectGroups(layers, [], [])
  }

  lemma {:induction false} LookupAppend(acc: seq<GroupConfig>, c: GroupConfig, g: string)
    ensures Lookup(acc + [c], g) ==
      if Lookup(acc, g).Some? then Lookup(acc, g) else if c.name == g then Some(c) else None
  {
    if acc != [] {
      assert (acc + [c])[1..] == acc[1..] + [c];
      LookupAppend(acc[1..], c, g);
    }
  }

  lemma {:induction false} LookupAddSpecs(
    acc: seq<GroupConfig>, specs: seq<GroupSpec>, incl: ConditionSet, excl: seq<ConditionSet>, g: string)
    ensures Lookup(AddSpecs(acc, specs, incl, excl), g) ==
      if Lookup(acc, g).Some? then Lookup(acc, g)
      else if exists s :: s in specs && s.name == g then
        Some(GroupConfig(g, FirstSpec(specs, g).memberAppearance, incl, excl))
      else None
    decreases specs
  {
    if specs != [] {
      var s0 := specs[0];
      var next := if Lookup(acc, s0.name).Some? then acc
                  else acc + [GroupConfig(s0.name, s0.memberAppearance, incl, excl)];
      if Lookup(acc, s0.name).None? {
        LookupAppend(acc, GroupConfig(s0.name, s0.memberAppearance, incl, excl), g);
      }
      LookupAddSpecs(next, specs[1..], incl, excl, g);
      if exists s :: s in specs[1..] && s.name == g {
        var s :| s in specs[1..] && s.name == g;
        assert s in specs;
      }
      if s0.name != g && (exists s :: s in specs && s.name == g) {
        var s :| s in specs && s.name == g;
        assert s in specs[1..];
      }
    }
  }

  lemma LookupAddLayer(acc: seq<GroupConfig>, l: Layer, excl: seq<ConditionSet>, g: string)
    ensures Lookup(AddLayer(acc, l, excl), g) ==
      if Lookup(acc, g).Some? then Lookup(acc, g)
      else if Declares(l, g) then
        Some(GroupConfig(g, FirstSpec(l.grouping.value.groups, g).memberAppearance, Effective(l.matching), excl))
      else None
  {
    if l.grouping.Some? && l.grouping.value.enabled {
      LookupAddSpecs(acc, l.grouping.value.groups, Effective(l.matching), excl, g);
    }
  }

  lemma {:induction false} LookupCollect(layers: seq<Layer>, excl: seq<ConditionSet>, acc: seq<GroupConfig>, g: string)
    ensures Lookup(CollectGroups(layers, excl, acc), g) ==
      if Lookup(acc, g).Some? then Lookup(acc, g) else ConfigFor(layers, g, excl)
  {
    if layers != [] {
      LookupAddLayer(acc, layers[0], excl, g);
      LookupCollect(layers[1..], excl + ExclusionOf(layers[0]), AddLayer(acc, layers[0], excl), g);
    }
  }

  /** The collected group definitions agree with the reference definition
      name by name: the earliest declaring layer wins, and earlier
      grouping-off layers become exclusion conditions. */
  lemma RuleGroupsAreFirstDeclarations(layers: seq<Layer>, g: string)
    ensures Lookup(RuleGroups(layers), g) == ConfigFor(layers, g, [])
  {
    LookupCollect(layers, [], [], g);
  }

  lemma {:induction false} LookupNamed(cfgs: seq<GroupConfig>, g: string)
    ensures Lookup(cfgs, g).Some? <==> g in Names(cfgs)
    ensures Lookup(cfgs, g).Some? ==> Lookup(cfgs, g).value.name == g && Lookup(cfgs, g).value in cfgs
  {
    if cfgs != [] {
      LookupNamed(cfgs[1..], g);
    }
  }

  // ---------------------------------------------------------------------
  // Group services

  predicate InGroup(cfg: GroupConfig, i: Interface)
  {
    Matches(cfg.inclusion, i) && forall k :: 0 <= k < |cfg.exclusions| ==> !Matches(cfg.exclusions[k], i)
  }

  function RuleMembers(cfg: GroupConfig, ifaces: seq<Interface>): (r: seq<Interface>)
    ensures forall k :: 0 <= k < |r| ==> InGroup(cfg, r[k]) && r[k] in ifaces
    ensures forall i :: i in ifaces && InGroup(cfg, i) ==> i in r
  {
    if ifaces == [] then []
    else (if InGroup(cfg, ifaces[0]) then [ifaces[0]] else []) + RuleMembers(cfg, ifaces[1..])
  }

  function TaggedMembers(ifaces: seq<Interface>, g: string): (r: seq<Interface>)
    ensures forall k :: 0 <= k < |r| ==> r[k].group == Some(g) && r[k] in ifaces
    ensures forall i :: i in ifaces && i.group == Some(g) ==> i in r
  {
    if ifaces == [] then []
    else (if ifaces[0].group == Some(g) then [ifaces[0]] else []) + TaggedMembers(ifaces[1..], g)
  }

  function SumSpeeds(ifaces: seq<Interface>): nat
  {
    if ifaces == [] then 0 else ifaces[0].speed + SumSpeeds(ifaces[1..])
  }

  /** A discovered group records the state "up" and the sum of its members'
      speeds, an unknown speed counting as 0. */
  function GroupService(name: string, agg: Aggregate, members: seq<Interface>): Service
  {
    Service(name, GroupParams(agg, [OperUp], SumSpeeds(members)))
  }

  function RuleGroupServices(cfgs: seq<GroupConfig>, ifaces: seq<Interface>): (r: seq<Service>)
    ensures forall k :: 0 <= k < |r| ==> r[k].params.GroupParams? && r[k].params.aggregate.RuleAggregate?
  {
    if cfgs == [] then []
    else
      var c := cfgs[0];
      var members := RuleMembers(c, ifaces);
      (if members == [] then []
       else [GroupService(c.name, RuleAggregate(c.memberAppearance, c.inclusion, c.exclusions), members)])
      + RuleGroupServices(cfgs[1..], ifaces)
  }

  /** The group names the agent tags interfaces with, in order of first
      appearance, leaving out those a rule defines. */
  function AgentGroupNames(ifaces: seq<Interface>, ruleNames: seq<string>, seen: seq<string>): (r: seq<string>)
    ensures forall k :: 0 <= k < |r| ==> r[k] !in ruleNames && r[k] !in seen
    ensures forall k :: 0 <= k < |r| ==> exists i :: i in ifaces && i.group == Some(r[k])
  {
    if ifaces == [] then []
    else match ifaces[0].group
      case Some(g) =>
        if g in ruleNames || g in seen then AgentGroupNames(ifaces[1..], ruleNames, seen)
        else [g] + AgentGroupNames(ifaces[1..], ruleNames, seen + [g])
      case None => AgentGroupNames(ifaces[1..], ruleNames, seen)
  }

  function AgentGroupServices(names: seq<string>, ifaces: seq<Interface>): (r: seq<Service>)
    ensures |r| == |names|
    ensures forall k :: 0 <= k < |r| ==>
      (r[k].item == names[k] && r[k].params.GroupParams? && r[k].params.aggregate == AgentAggregate(ByIndex))
  {
    if names == [] then []
    else [GroupService(names[0], AgentAggregate(ByIndex), TaggedMembers(ifaces, names[0]))]
         + AgentGroupServices(names[1..], ifaces)
  }

  /** The group services: those of rule-defined groups and those of
      agent-declared groups, sorted by group name. */
  function GroupServices(layers: seq<Layer>, ifaces: seq<Interface>): (r: seq<Service>)
    ensures forall k :: 0 <= k < |r| ==> r[k].params.GroupParams?
  {
    var cfgs := RuleGroups(layers);
    var unsorted := RuleGroupServices(cfgs, ifaces) + AgentGroupServices(AgentGroupNames(ifaces, Names(cfgs), []), ifaces);
    SortByNamePermutes(unsorted);
    GroupsPermuted(unsorted, SortByName(unsorted));
    SortByName(unsorted)
  }

  lemma GroupsPermuted(a: seq<Service>, b: seq<Service>)
    requires multiset(a) == multiset(b)
    requires forall k :: 0 <= k < |a| ==> a[k].params.GroupParams?
    ensures forall k :: 0 <= k < |b| ==> b[k].params.GroupParams?
  {
    forall k | 0 <= k < |b| ensures b[k].params.GroupParams? {
      assert b[k] in multiset(b);
      var m :| 0 <= m < |a| && a[m] == b[k];
    }
  }

  /** `discover_interfaces`: all single services, in the order of the
      interfaces, followed by all group services, in the order of their
      names; of several services with the same item only the first is
      kept. */
  function Discover(layers: seq<Layer>, ifaces: seq<Interface>): (r: seq<Service>)
    ensures forall j, k :: 0 <= j < k < |r| ==> r[j].item != r[k].item
  {
    Deduplicated(Candidates(layers, ifaces), [])
  }

  /** Every service discovery considers, before duplicates are dropped. */
  function Candidates(layers: seq<Layer>, ifaces: seq<Interface>): seq<Service>
  {
    SingleServices(layers, ifaces, PadWidth(ifaces)) + GroupServices(layers, ifaces)
  }

  // ---------------------------------------------------------------------
  // Group-name order

  predicate ByName(ss: seq<Service>)
  {
    forall j, k :: 0 <= j < k < |ss| ==> TextLe(ss[j].item, ss[k].item)
  }

  predicate NoneBelow(x: string, ss: seq<Service>)
  {
    forall k :: 0 <= k < |ss| ==> TextLe(x, ss[k].item)
  }

  function InsertByName(s: Service, ss: seq<Service>): seq<Service>
  {
    if ss == [] then [s]
    else if TextLe(s.item, ss[0].item) then [s] + ss
    else [ss[0]] + InsertByName(s, ss[1..])
  }

  /** Python's `sorted` by item. */
  function SortByName(ss: seq<Service>): seq<Service>
  {
    if ss == [] then [] else InsertByName(ss[0], SortByName(ss[1..]))
  }

  lemma {:induction false} InsertByNamePermutes(s: Service, ss: seq<Service>)
    ensures multiset(InsertByName(s, ss)) == multiset(ss) + multiset{s}
  {
    if ss != [] && !TextLe(s.item, ss[0].item) {
      InsertByNamePermutes(s, ss[1..]);
      assert ss == [ss[0]] + ss[1..];
    }
  }

  lemma {:induction false} SortByNamePermutes(ss: seq<Service>)
    ensures multiset(SortByName(ss)) == multiset(ss)
  {
    if ss != [] {
      SortByNamePermutes(ss[1..]);
      InsertByNamePermutes(ss[0], SortByName(ss[1..]));
      assert ss == [ss[0]] + ss[1..];
    }
  }

  lemma {:induction false} InsertKeepsNoneBelow(x: string, s: Service, ss: seq<Service>)
    requires NoneBelow(x, ss) && TextLe(x, s.item)
    ensures NoneBelow(x, InsertByName(s, ss))
  {
    if ss != [] && !TextLe(s.item, ss[0].item) {
      InsertKeepsNoneBelow(x, s, ss[1..]);
    }
  }

  lemma Consed(h: Service, t: seq<Service>)
    requires NoneBelow(h.item, t) && ByName(t)
    ensures ByName([h] + t)
  {
    forall j, k | 0 <= j < k < |[h] + t| ensures TextLe(([h] + t)[j].item, ([h] + t)[k].item) {
      assert ([h] + t)[k] == t[k - 1];
      if j > 0 {
        assert ([h] + t)[j] == t[j - 1];
      }
    }
  }

  lemma {:induction false} InsertByNameSorted(s: Service, ss: seq<Service>)
    requires ByName(ss)
    ensures ByName(InsertByName(s, ss))
  {
    if ss == [] {
    } else if TextLe(s.item, ss[0].item) {
      forall k | 0 <= k < |ss| ensures TextLe(s.item, ss[k].item) {
        if k > 0 {
          TextLeTransitive(s.item, ss[0].item, ss[k].item);
        }
      }
      Consed(s, ss);
    } else {
      var t := ss[1..];
      InsertByNameSorted(s, t);
      TextLeTotal(s.item, ss[0].item);
      assert NoneBelow(ss[0].item, t) by {
        forall k | 0 <= k < |t| ensures TextLe(ss[0].item, t[k].item) {
          assert t[k] == ss[k + 1];
        }
      }
      InsertKeepsNoneBelow(ss[0].item, s, t);
      Consed(ss[0], InsertByName(s, t));
    }
  }

  /** Sorting orders by name. */
  lemma {:induction false} SortByNameSorted(ss: seq<Service>)
    ensures ByName(SortByName(ss))
  {
    if ss != [] {
      SortByNameSorted(ss[1..]);
      InsertByNameSorted(ss[0], SortByName(ss[1..]));
    }
  }

  // ---------------------------------------------------------------------
  // Dropping repeated items

  function Items(ss: seq<Service>): (r: seq<string>)
    ensures |r| == |ss| && forall k :: 0 <= k < |ss| ==> r[k] == ss[k].item
  {
    seq(|ss|, k requires 0 <= k < |ss| => ss[k].item)
  }

  /** The services of `ss` in order, each dropped whose item is in `seen`
      or was taken before. */
  function Deduplicated(ss: seq<Service>, seen: seq<string>): (r: seq<Service>)
    ensures forall k :: 0 <= k < |r| ==> r[k] in ss && r[k].item !in seen
    ensures forall j, k :: 0 <= j < k < |r| ==> r[j].item != r[k].item
  {
    if ss == [] then []
    else if ss[0].item in seen then Deduplicated(ss[1..], seen)
    else [ss[0]] + Deduplicated(ss[1..], seen + [ss[0].item])
  }

  /** The first service of `ss` with item `x`. */
  function FirstWithItem(ss: seq<Service>, x: string): (r: Option<Service>)
    ensures r.Some? ==> r.value in ss && r.value.item == x
    ensures r.None? ==> x !in Items(ss)
  {
    if ss == [] then None
    else if ss[0].item == x then Some(ss[0])
    else FirstWithItem(ss[1..], x)
  }

  /** Of the services with the same item, the first one is kept. */
  lemma {:induction false} DeduplicatedKeepsFirst(ss: seq<Service>, seen: seq<string>)
    ensures forall k :: 0 <= k < |Deduplicated(ss, seen)| ==>
      FirstWithItem(ss, Deduplicated(ss, seen)[k].item) == Some(Deduplicated(ss, seen)[k])
  {
    if ss != [] {
      var r := Deduplicated(ss, seen);
      if ss[0].item in seen {
        DeduplicatedKeepsFirst(ss[1..], seen);
        assert r == Deduplicated(ss[1..], seen);
        forall k | 0 <= k < |r| ensures FirstWithItem(ss, r[k].item) == Some(r[k]) {
          assert r[k].item !in seen;
          SkipFirst(ss, r[k].item);
        }
      } else {
        var rest := Deduplicated(ss[1..], seen + [ss[0].item]);
        DeduplicatedKeepsFirst(ss[1..], seen + [ss[0].item]);
        assert r == [ss[0]] + rest;
        forall k | 0 < k < |r| ensures FirstWithItem(ss, r[k].item) == Some(r[k]) {
          assert r[k] == rest[k - 1];
          assert rest[k - 1].item !in seen + [ss[0].item];
          SkipFirst(ss, rest[k - 1].item);
        }
      }
    }
  }

  lemma SkipFirst(ss: seq<Service>, x: string)
    requires ss != [] && ss[0].item != x
    ensures FirstWithItem(ss, x) == FirstWithItem(ss[1..], x)
  {
  }

  /** Every item not in `seen` is kept. */
  lemma {:induction false} DeduplicatedKeepsItems(ss: seq<Service>, seen: seq<string>)
    ensures forall x :: x in Items(Deduplicated(ss, seen)) <==> x in Items(ss) && x !in seen
  {
    if ss != [] {
      var r := Deduplicated(ss, seen);
      ItemsCons(ss);
      if ss[0].item in seen {
        DeduplicatedKeepsItems(ss[1..], seen);
      } else {
        var rest := Deduplicated(ss[1..], seen + [ss[0].item]);
        DeduplicatedKeepsItems(ss[1..], seen + [ss[0].item]);
        assert r == [ss[0]] + rest;
        ItemsCons(r);
        assert r[1..] == rest;
      }
    }
  }

  lemma ItemsCons(ss: seq<Service>)
    requires ss != []
    ensures Items(ss) == [ss[0].item] + Items(ss[1..])
  {
  }

  predicate SinglesFirst(ss: seq<Service>)
  {
    forall j, k :: 0 <= j < k < |ss| && ss[j].params.GroupParams? ==> ss[k].params.GroupParams?
  }

  predicate GroupsByName(ss: seq<Service>)
  {
    forall j, k :: 0 <= j < k < |ss| && ss[j].params.GroupParams? && ss[k].params.GroupParams? ==>
      TextLe(ss[j].item, ss[k].item)
  }

  /** Dropping services keeps the order of the others. */
  lemma {:induction false} DeduplicatedKeepsOrder(ss: seq<Service>, seen: seq<string>)
    requires SinglesFirst(ss) && GroupsByName(ss)
    ensures SinglesFirst(Deduplicated(ss, seen)) && GroupsByName(Deduplicated(ss, seen))
  {
    if ss != [] {
      var t := ss[1..];
      assert SinglesFirst(t) && GroupsByName(t) by {
        assert forall k :: 0 <= k < |t| ==> t[k] == ss[k + 1];
      }
      if ss[0].item in seen {
        DeduplicatedKeepsOrder(t, seen);
      } else {
        var rest := Deduplicated(t, seen + [ss[0].item]);
        DeduplicatedKeepsOrder(t, seen + [ss[0].item]);
        var r := [ss[0]] + rest;
        forall k | 0 <= k < |rest| ensures
          (ss[0].params.GroupParams? ==> rest[k].params.GroupParams?) &&
          (ss[0].params.GroupParams? && rest[k].params.GroupParams? ==> TextLe(ss[0].item, rest[k].item))
        {
          var m :| 0 <= m < |t| && t[m] == rest[k];
          assert ss[m + 1] == rest[k];
        }
        assert SinglesFirst(r) && GroupsByName(r) by {
          forall k | 0 < k < |r| ensures r[k] == rest[k - 1] { }
        }
      }
    }
  }
  /** Single services followed by name-ordered group services are in
      discovery order. */
  lemma SinglesThenGroups(s: seq<Service>, g: seq<Service>)
    requires forall k :: 0 <= k < |s| ==> s[k].params.SingleParams?
    requires forall k :: 0 <= k < |g| ==> g[k].params.GroupParams?
    requires ByName(g)
    ensures SinglesFirst(s + g) && GroupsByName(s + g)
  {
    var c := s + g;
    forall j, k | 0 <= j < k < |c| && c[j].params.GroupParams?
      ensures c[k].params.GroupParams? && (c[k].params.GroupParams? ==> TextLe(c[j].item, c[k].item))
    {
      assert j >= |s|;
      assert c[j] == g[j - |s|] && c[k] == g[k - |s|];
    }
  }

  /** Discovery lists every single service before every group service,
      and the group services in the order of their names. */
  lemma SinglesBeforeGroups(layers: seq<Layer>, ifaces: seq<Interface>)
    ensures SinglesFirst(Discover(layers, ifaces)) && GroupsByName(Discover(layers, ifaces))
  {
    var s := SingleServices(layers, ifaces, PadWidth(ifaces));
    var cfgs := RuleGroups(layers);
    var unsorted := RuleGroupServices(cfgs, ifaces) + AgentGroupServices(AgentGroupNames(ifaces, Names(cfgs), []), ifaces);
    var g := GroupServices(layers, ifaces);
    assert g == SortByName(unsorted);
    SortByNameSorted(unsorted);
    SinglesThenGroups(s, g);
    assert s + g == Candidates(layers, ifaces);
    DeduplicatedKeepsOrder(s + g, []);
  }

  /** Of the services with the same item, discovery keeps the first one in
      that order, and every item some service has is kept. */
  lemma FirstOccurrenceWins(layers: seq<Layer>, ifaces: seq<Interface>)
    ensures var c := Candidates(layers, ifaces);
      var r := Discover(layers, ifaces);
      && (forall k :: 0 <= k < |r| ==> FirstWithItem(c, r[k].item) == Some(r[k]))
      && (forall x :: x in Items(r) <==> x in Items(c))
  {
    var c := Candidates(layers, ifaces);
    assert Discover(layers, ifaces) == Deduplicated(c, []);
    DeduplicatedKeepsFirst(c, []);
    DeduplicatedKeepsItems(c, []);
  }

  lemma {:induction false} RuleGroupServiceShape(cfgs: seq<GroupConfig>, ifaces: seq<Interface>, k: nat)
    requires k < |RuleGroupServices(cfgs, ifaces)|
    ensures var s := RuleGroupServices(cfgs, ifaces)[k];
      exists c :: c in cfgs && s.item == c.name && RuleMembers(c, ifaces) != [] &&
        s.params == GroupParams(RuleAggregate(c.memberAppearance, c.inclusion, c.exclusions),
                                [OperUp], SumSpeeds(RuleMembers(c, ifaces)))
  {
    var c := cfgs[0];
    var head := if RuleMembers(c, ifaces) == [] then [] else
      [GroupService(c.name, RuleAggregate(c.memberAppearance, c.inclusion, c.exclusions), RuleMembers(c, ifaces))];
    if k < |head| {
      assert RuleGroupServices(cfgs, ifaces)[k] == head[0];
    } else {
      assert RuleGroupServices(cfgs, ifaces)[k] == RuleGroupServices(cfgs[1..], ifaces)[k - |head|];
      RuleGroupServiceShape(cfgs[1..], ifaces, k - |head|);
    }
  }

  /** Every rule-defined group service has at least one member, records the
      group definition's naming and conditions, and sums its members'
      speeds; so a group whose conditions match no interface yields no
      service. */
  lemma RuleGroupServicesHaveMembers(layers: seq<Layer>, ifaces: seq<Interface>, k: nat)
    requires k < |RuleGroupServices(RuleGroups(layers), ifaces)|
    ensures var s := RuleGroupServices(RuleGroups(layers), ifaces)[k];
      exists c :: c in RuleGroups(layers) && s.item == c.name && RuleMembers(c, ifaces) != [] &&
        s.params.discoveredSpeed == SumSpeeds(RuleMembers(c, ifaces)) &&
        s.params.aggregate == RuleAggregate(c.memberAppearance, c.inclusion, c.exclusions)
  {
    RuleGroupServiceShape(RuleGroups(layers), ifaces, k);
  }

  /** Rule-based grouping takes precedence over the agent's group tag: no
      agent-declared group shares its name with a rule-defined group. */
  lemma RulesTakePrecedenceOverAgent(layers: seq<Layer>, ifaces: seq<Interface>, g: string)
    requires Lookup(RuleGroups(layers), g).Some?
    ensures g !in AgentGroupNames(ifaces, Names(RuleGroups(layers)), [])
  {
    LookupNamed(RuleGroups(layers), g);
  }
}
