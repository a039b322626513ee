/** `check_multiple_interfaces`: the check of one service against the
    whole poll. A group service aggregates its members into one interface
    and checks that; any other service checks the first interface its item
    names, which on a cluster is the one of the first node reporting it. */
module MultipleInterfaces {
  import opened Wrappers
  import opened Text
  import opened Interfaces
  import opened InterfaceDiscovery
  import opened CounterStore
  import opened InterfaceCheck
  import opened InterfaceCheckFacts
  import opened InterfaceGroups

  /** The interface that stands for a group: named by the item, of type
      ethernet ("6"), with the up members' speed, the group's state and the
      summed counters, without a MAC address and not tied to a node. */
  function GroupInterface(item: string, ms: seq<Interface>): (g: Interface)
    ensures ItemMatches(item, g) && g.node.None? && g.physAddress == ""
  {
    Interface(item, item, "6", UpSpeed(ms), GroupOperStatus(ms), TotalCounters(ms), item, "", None, None)
  }

  /** An item names an interface by its index (leading zeros of a padded
      item aside), its description or its alias. */
  predicate ItemMatches(item: string, i: Interface)
  {
    Unpadded(item) == i.index || item == i.descr || item == i.alias
  }

  /** The item discovery names an interface by is one the check finds it
      by: a zero-padded index loses its padding again, as long as the index
      itself does not start with a zero. */
  lemma DiscoveredItemMatches(i: Interface, sd: SingleDiscovery, width: nat)
    requires i.index == "" || i.index[0] != '0'
    ensures ItemMatches(ItemName(i, sd, width), i)
  {
    LeadingPad(i.index, width, '0');
    if i.index != "" {
      assert LeadingCount(i.index, '0') == 0;
    }
    var idx := IndexItem(i, sd.padPortnumbers, width);
    assert Unpadded(idx) == i.index;
  }

  function FirstMatching(item: string, ifaces: seq<Interface>): (r: Option<nat>)
    ensures r.Some? ==>
      && r.value < |ifaces| && ItemMatches(item, ifaces[r.value])
      && forall k :: 0 <= k < r.value ==> !ItemMatches(item, ifaces[k])
    ensures r.None? ==> forall k :: 0 <= k < |ifaces| ==> !ItemMatches(item, ifaces[k])
  {
    if ifaces == [] then None
    else if ItemMatches(item, ifaces[0]) then Some(0)
    else match FirstMatching(item, ifaces[1..])
      case Some(k) => Some(k + 1)
      case None => None
  }

  /** One call of the check for `item` on the poll `ifaces`. Without an
      interface the item names there are no findings and the store is
      left alone. */
  function EvaluateMultiple(entries: map<StoreKey, Entry>, item: string, p: CheckParams, ifaces: seq<Interface>,
                            time: real, decay: real): (e: Evaluation)
    requires 0.0 <= decay <= 1.0
    ensures e.outcome == Outputs([]) <==> p.aggregate.None? && FirstMatching(item, ifaces).None?
    ensures e.outcome == Outputs([]) ==> e.entries == entries
  {
    match p.aggregate
    case Some(agg) =>
      var ms := SelectMembers(agg, item, ifaces);
      Evaluate(entries, item, p, GroupInterface(item, ms), Some(NodeGroups(ms, agg.memberAppearance)), time, decay)
    case None =>
      match FirstMatching(item, ifaces)
      case Some(k) => Evaluate(entries, item, p, ifaces[k], None, time, decay)
      case None => Evaluation(Outputs([]), entries)
  }

  /** `check_multiple_interfaces` against the value store `store`: one pass
      over the poll accumulates the group, or finds the named interface. */
  method CheckMultipleInterfaces(store: ValueStore, item: string, p: CheckParams, ifaces: seq<Interface>,
                                 time: real, decay: real)
    returns (o: Outcome)
    requires 0.0 <= decay <= 1.0
    modifies store
    ensures Evaluation(o, store.entries) == EvaluateMultiple(old(store.entries), item, p, ifaces, time, decay)
  {
    match p.aggregate {
      case Some(agg) =>
        var count, total, upSpeed, upCount, groups := AccumulateGroup(agg, item, ifaces);
        var status := if count > 0 && upCount == count then OperUp else if upCount == 0 then OperDown else OperDegraded;
        var group := Interface(item, item, "6", upSpeed, status, total, item, "", None, None);
        assert group == GroupInterface(item, SelectMembers(agg, item, ifaces));
        o := CheckSingleInterface(store, item, p, group, Some(groups), time, decay);
      case None =>
        var i := 0;
        while i < |ifaces| && !ItemMatches(item, ifaces[i])
          invariant 0 <= i <= |ifaces|
          invariant forall k :: 0 <= k < i ==> !ItemMatches(item, ifaces[k])
        {
          i := i + 1;
        }
        if i == |ifaces| {
          o := Outputs([]);
        } else {
          assert FirstMatching(item, ifaces) == Some(i);
          o := CheckSingleInterface(store, item, p, ifaces[i], None, time, decay);
        }
    }
  }

  /** The pass over the poll that accumulates a group: the number of its
      members, their summed counters, the speed and number of those that
      are up, and the member listing per node. */
  method AccumulateGroup(agg: Aggregate, item: string, ifaces: seq<Interface>)
    returns (count: nat, total: Counters, upSpeed: nat, upCount: nat, groups: seq<NodeMembers>)
    ensures var ms := SelectMembers(agg, item, ifaces);
      && count == |ms| && total == TotalCounters(ms) && upSpeed == UpSpeed(ms) && upCount == CountUp(ms)
      && groups == NodeGroups(ms, agg.memberAppearance)
  {
    ghost var members: seq<Interface> := [];
    count, total, upSpeed, upCount, groups := 0, ZeroCounters, 0, 0, [];
    var i := 0;
    while i < |ifaces|
      invariant 0 <= i <= |ifaces|
      invariant members == SelectMembers(agg, item, ifaces[..i])
      invariant count == |members|
      invariant total == TotalCounters(members)
      invariant upSpeed == UpSpeed(members)
      invariant upCount == CountUp(members)
      invariant groups == NodeGroups(members, agg.memberAppearance)
    {
      var iface := ifaces[i];
      SelectStep(agg, item, ifaces, i);
      if Selected(agg, item, iface) {
        MemberSnoc(members, iface, agg.memberAppearance);
        total := AddCounters(total, iface.counters);
        if iface.operStatus == OperUp {
          upSpeed := upSpeed + iface.speed;
          upCount := upCount + 1;
        }
        groups := AddMember(groups, iface.node, Info(iface, agg.memberAppearance));
        members := members + [iface];
        count := count + 1;
      }
      i := i + 1;
    }
    assert ifaces[..i] == ifaces;
  }

  // ---------------------------------------------------------------------
  // What the check of several interfaces promises

  lemma FirstMatchingAppend(item: string, a: seq<Interface>, b: seq<Interface>)
    requires FirstMatching(item, a).Some?
    ensures FirstMatching(item, a + b) == FirstMatching(item, a)
  {
    var k := FirstMatching(item, a).value;
    var r := FirstMatching(item, a + b);
    assert (a + b)[k] == a[k];
    assert forall j :: 0 <= j < k ==> (a + b)[j] == a[j];
  }

  /** When an earlier part of the poll already names the item, later
      parts (further cluster nodes reporting the same item) change nothing. */
  lemma EarlierNodeWins(entries: map<StoreKey, Entry>, item: string, p: CheckParams, a: seq<Interface>,
                        b: seq<Interface>, time: real, decay: real)
    requires 0.0 <= decay <= 1.0 && p.aggregate.None?
    requires FirstMatching(item, a).Some?
    ensures EvaluateMultiple(entries, item, p, a + b, time, decay) == EvaluateMultiple(entries, item, p, a, time, decay)
  {
    FirstMatchingAppend(item, a, b);
    assert (a + b)[FirstMatching(item, a).value] == a[FirstMatching(item, a).value];
  }

  lemma {:induction false} FirstMatchingOnNode(item: string, ifaces: seq<Interface>, n: string)
    ensures FirstMatching(item, OnNode(ifaces, n)) == FirstMatching(item, ifaces)
    decreases |ifaces|
  {
    if ifaces != [] {
      assert OnNode(ifaces, n)[1..] == OnNode(ifaces[1..], n);
      FirstMatchingOnNode(item, ifaces[1..], n);
    }
  }

  /** The same item reported by two cluster nodes is checked as the
      interface of the first node, annotated with that node's name. */
  lemma SameItemOnTwoNodes(entries: map<StoreKey, Entry>, item: string, p: CheckParams, ifaces: seq<Interface>,
                           n1: string, n2: string, time: real, decay: real)
    requires 0.0 <= decay <= 1.0 && p.aggregate.None?
    requires FirstMatching(item, ifaces).Some?
    ensures var k := FirstMatching(item, ifaces).value;
      EvaluateMultiple(entries, item, p, OnNode(ifaces, n1) + OnNode(ifaces, n2), time, decay) ==
      Evaluate(entries, item, p, ifaces[k].(node := Some(n1)), None, time, decay)
  {
    FirstMatchingOnNode(item, ifaces, n1);
    EarlierNodeWins(entries, item, p, OnNode(ifaces, n1), OnNode(ifaces, n2), time, decay);
  }

  /** A group check starts with the group's state and the member listing;
      the state line is OK exactly when the group's operational state is
      one of the expected states (or none are configured). */
  lemma GroupCheckHead(entries: map<StoreKey, Entry>, item: string, p: CheckParams, agg: Aggregate,
                       ifaces: seq<Interface>, time: real, decay: real)
    requires 0.0 <= decay <= 1.0 && p.aggregate == Some(agg)
    ensures var ms := SelectMembers(agg, item, ifaces);
      var e := EvaluateMultiple(entries, item, p, ifaces, time, decay);
      e.outcome.Outputs? ==>
        && |e.outcome.outputs| >= 2
        && e.outcome.outputs[0] ==
           Result(StatusState(p, GroupInterface(item, ms)), Plain("Group Status (" + OperStatusName(GroupOperStatus(ms)) + ")"))
        && e.outcome.outputs[1] == Result(OK, Plain("Members: " + MembersText(NodeGroups(ms, agg.memberAppearance))))
        && (StatusState(p, GroupInterface(item, ms)) == OK <==>
              TargetStates(p).None? || GroupOperStatus(ms) in TargetStates(p).value)
  {
    var ms := SelectMembers(agg, item, ifaces);
    var g := GroupInterface(item, ms);
    assert EvaluateMultiple(entries, item, p, ifaces, time, decay) ==
      Evaluate(entries, item, p, g, Some(NodeGroups(ms, agg.memberAppearance)), time, decay);
    GroupHead(entries, item, p, g, NodeGroups(ms, agg.memberAppearance), time, decay);
    assert g.operStatus == GroupOperStatus(ms);
  }

  /** A group over distinct cluster nodes that each report the same
      interfaces: the group interface carries `|ns|` times the counters and
      the up speed of one node's members and the state of one node's
      members, and the listing has one list per node. */
  lemma GroupOverNodes(agg: Aggregate, item: string, ifaces: seq<Interface>, ns: seq<string>)
    requires ns != [] && Distinct(ns)
    ensures var one := SelectMembers(agg, item, ifaces);
      var all := SelectMembers(agg, item, OnNodes(ifaces, ns));
      var speed: nat := |ns| * UpSpeed(one);
      && GroupInterface(item, all) ==
         GroupInterface(item, one).(speed := speed, counters := ScaleCounters(TotalCounters(one), |ns|))
      && (one != [] ==> NodeGroups(all, agg.memberAppearance) == PerNode(ns, Infos(one, agg.memberAppearance)))
  {
    var one := SelectMembers(agg, item, ifaces);
    SelectOnNodes(agg, item, ifaces, ns);
    TotalOnNodes(one, ns);
    UpSpeedOnNodes(one, ns);
    GroupStatusOnNodes(one, ns);
    if one != [] {
      NodeGroupsOnNodes(one, ns, agg.memberAppearance);
    }
  }

  /** An exclusion condition on indices removes exactly those interfaces
      from a group that includes everything. */
  lemma ExcludedIndices(app: Appearance, item: string, xs: seq<string>, i: Interface)
    requires xs != []
    ensures Selected(RuleAggregate(app, NoConditions, [NoConditions.(matchIndex := xs)]), item, i) <==> i.index !in xs
  {
    var c := NoConditions.(matchIndex := xs);
    assert Matches(c, i) <==> i.index in xs;
    assert [c][0] == c;
  }
}
