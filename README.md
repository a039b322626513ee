# Checkmk interface checks, inventory paths and contact sync — a Dafny model

This project models three pieces of Checkmk:

- **Network-interface discovery and checking.** The agent-based `interfaces` utility turns an agent's interface table into services. `discover_interfaces` decides which interfaces become single services, which rule- or agent-defined groups exist, and with which discovered speed and member appearance. `check_single_interface` turns two polls of the counters into per-second rates using a value store that persists between calls. It also emits the fixed metric list, the speed line and the traffic results with their levels. `check_multiple_interfaces` checks one item against the whole poll: either the first interface the item names, or a group aggregated from its members, which can span cluster nodes. The Python module itself is not part of this model. Its behaviour is rebuilt from its unit tests, which state the expected services and results exactly.
- **Inventory helpers of the GUI** (`cmk/gui/inventory.py`):
  - the path parser `parse_tree_path`, shown to invert a renderer of paths;
  - `parent_path`;
  - `sort_children`;
  - the permission resolution `_get_permitted_inventory_paths`;
  - the per-request tree cache of `_load_inventory_tree`;
  - the history assembly of `get_history`.
- **Contact synchronisation** to remote sites (`_update_contacts_dict`). Its implementation is not part of this model; the rule is rebuilt from the parametrised cases of its test.

Modules, one per file:

- `Wrappers` and `Text` (string helpers: split, join, strip, decimal numbers).
- `Interfaces`: interface records, MAC rendering, matching conditions.
- `InterfaceDiscovery`.
- `CounterStore`: the value store, a class over a map.
- `InterfaceCheck` and `InterfaceCheckFacts`: the single check and what it promises.
- `InterfaceGroups`: member selection and aggregation.
- `MultipleInterfaces`.
- `Inventory`.
- `InventoryHistory`.
- `ContactsSync`.

Code that changes state step by step is written as methods with loops, proved equal to a specification function:

- the value store's methods;
- the checks;
- the path parser's loops;
- the permission loop;
- the history loop;
- the tree cache.

Pure code is functions and lemmas.

Reading files, the clock, `os.stat` and the livestatus/user database are all parameters of the model:

- The current poll time is a `time` argument.
- The averaging weight is a `decay` argument.
- A tree loader is a function argument.
- A file's modification time is an integer.
- The user's contact groups are a sequence.
- The contact-group settings are a map.

Where the tests and a design description of Checkmk's interfaces module disagree, the model follows the tests:

- The tests list **15** metrics per interface, not 16.
- A group's discovered speed is the sum of the known member speeds; unknown speeds count as 0.
- A group's discovered state is always `['1']`.

Two discovery rules come from that design description, because no test has enough groups or repeated items to show them. The model follows that description for both:

- Of several candidate services with the same item, only the first is discovered.
- Group services follow the single services and are ordered by item name, compared character by character as Python compares strings.

## Model

| member | source | states |
|---|---|---|
| Interfaces.FinalizeFaithful | tests/unit/cmk/base/plugins/agent_based/utils/test_interfaces.py:26-55 | finalising a raw interface keeps index, description, type, state, counters, alias, group and node; a decimal speed string becomes that number and an empty one 0; the MAC bytes are rendered so that parsing them back gives the raw bytes |
| Interfaces.Finalize | tests/unit/cmk/base/plugins/agent_based/utils/test_interfaces.py:26-55 | an empty speed text becomes 0; the rendered MAC address parses back to the raw bytes |
| Interfaces.MacRoundTrip | tests/unit/cmk/base/plugins/agent_based/utils/test_interfaces.py:26-55 | parsing a rendered MAC address yields the original bytes |
| Interfaces.HexPieces | tests/unit/cmk/base/plugins/agent_based/utils/test_interfaces.py:26-55 | one two-digit hex piece per byte, in order |
| Interfaces.ByteHex | tests/unit/cmk/base/plugins/agent_based/utils/test_interfaces.py:26-55 | a byte renders as two characters without a colon |
| Interfaces.ParsePiecesOfHex | tests/unit/cmk/base/plugins/agent_based/utils/test_interfaces.py:26-55 | parsing the hex pieces of any byte string gives the bytes back |
| Interfaces.Effective | tests/unit/cmk/base/plugins/agent_based/utils/test_interfaces.py:207-304 | a rule's matching conditions are equivalent to one condition set; match-all is the empty condition set |
| InterfaceDiscovery.FromLegacy | tests/unit/cmk/base/plugins/agent_based/utils/test_interfaces.py:134-171 | legacy parameters become a single-discovery layer without grouping whose matching is the conjunction of description, alias, port-type and port-state filters, each empty filter accepting everything |
| InterfaceDiscovery.GoverningLayer | tests/unit/cmk/base/plugins/agent_based/utils/test_interfaces.py:94-131 | the governing layer is the first one with single-discovery settings that matches the interface; no earlier layer governs it and none at all when the result is None |
| InterfaceDiscovery.PadWidth | tests/unit/cmk/base/plugins/agent_based/utils/test_interfaces.py:82-92 | the padding width is the length of the longest interface index, 0 without interfaces |
| InterfaceDiscovery.ItemName | tests/unit/cmk/base/plugins/agent_based/utils/test_interfaces.py:82-131 | by index the item is the (possibly padded) index; by description or alias it is that text, falling back to the index when it is empty; it is empty only for an empty index |
| InterfaceDiscovery.SingleServices | tests/unit/cmk/base/plugins/agent_based/utils/test_interfaces.py:82-131 | single discovery yields only single-interface services, at most one per interface |
| InterfaceDiscovery.Unmatched | tests/unit/cmk/base/plugins/agent_based/utils/test_interfaces.py:101-131 | interfaces a layer does not match; none when the layer matches all |
| InterfaceDiscovery.GoverningBehindLayer | tests/unit/cmk/base/plugins/agent_based/utils/test_interfaces.py:101-118 | a leading layer that does not govern an interface changes nothing about its single service |
| InterfaceDiscovery.DisabledLayerRemovesMatched | tests/unit/cmk/base/plugins/agent_based/utils/test_interfaces.py:101-118 | a leading layer turning single discovery off removes exactly the interfaces it matches, the rest being discovered by the later layers |
| InterfaceDiscovery.MatchAllDisabledYieldsNoSingles | tests/unit/cmk/base/plugins/agent_based/utils/test_interfaces.py:120-131 | a leading match-all layer with single discovery off yields no single service |
| InterfaceDiscovery.FirstSpec | tests/unit/cmk/base/plugins/agent_based/utils/test_interfaces.py:207-256 | the first group specification of a name is one of the layer's and carries that name |
| InterfaceDiscovery.LookupAppend | tests/unit/cmk/base/plugins/agent_based/utils/test_interfaces.py:207-256 | looking up a group after appending keeps an earlier entry of that name |
| InterfaceDiscovery.LookupAddSpecs | tests/unit/cmk/base/plugins/agent_based/utils/test_interfaces.py:207-256 | a layer's group specifications add a name only when it is not yet known, with the first specification's member appearance |
| InterfaceDiscovery.LookupAddLayer | tests/unit/cmk/base/plugins/agent_based/utils/test_interfaces.py:207-304 | a layer adds the groups it declares, with its own conditions as inclusion and the earlier layers' as exclusions |
| InterfaceDiscovery.LookupCollect | tests/unit/cmk/base/plugins/agent_based/utils/test_interfaces.py:207-304 | walking all layers finds each group name at its earliest declaring layer |
| InterfaceDiscovery.ConfigFor | tests/unit/cmk/base/plugins/agent_based/utils/test_interfaces.py:207-304 | a group configuration exists exactly when some layer declares the name, and it carries that name |
| InterfaceDiscovery.RuleGroupsAreFirstDeclarations | tests/unit/cmk/base/plugins/agent_based/utils/test_interfaces.py:207-304 | every rule group has the member appearance and inclusion of its earliest declaring layer and the preceding layers' conditions as exclusions |
| InterfaceDiscovery.LookupNamed | tests/unit/cmk/base/plugins/agent_based/utils/test_interfaces.py:173-205 | a group name is found exactly when it is among the collected names, and the entry found carries it |
| InterfaceDiscovery.RuleMembers | tests/unit/cmk/base/plugins/agent_based/utils/test_interfaces.py:173-304 | a rule group's members are exactly the polled interfaces in its inclusion and outside its exclusions |
| InterfaceDiscovery.TaggedMembers | tests/unit/cmk/base/plugins/agent_based/utils/test_interfaces.py:331-351 | an agent group's members are exactly the interfaces tagged with its name |
| InterfaceDiscovery.RuleGroupServices | tests/unit/cmk/base/plugins/agent_based/utils/test_interfaces.py:173-205 | rule groups become group services with rule aggregation |
| InterfaceDiscovery.AgentGroupNames | tests/unit/cmk/base/plugins/agent_based/utils/test_interfaces.py:331-387 | agent group names are tags some interface carries, not already defined by a rule and not repeated |
| InterfaceDiscovery.AgentGroupServices | tests/unit/cmk/base/plugins/agent_based/utils/test_interfaces.py:331-351 | one group service per agent group name, aggregated by agent tag with member appearance by index |
| InterfaceDiscovery.GroupServices | tests/unit/cmk/base/plugins/agent_based/utils/test_interfaces.py:173-387 | group discovery yields only group services |
| InterfaceDiscovery.SortByNameSorted | tests/unit/cmk/base/plugins/agent_based/utils/test_interfaces.py:173-387 | the group services are ordered by item name |
| InterfaceDiscovery.SortByNamePermutes | tests/unit/cmk/base/plugins/agent_based/utils/test_interfaces.py:173-387 | ordering by name is a permutation |
| InterfaceDiscovery.InsertByNameSorted | tests/unit/cmk/base/plugins/agent_based/utils/test_interfaces.py:173-387 | inserting into a name-ordered list keeps it ordered |
| InterfaceDiscovery.InsertByNamePermutes | tests/unit/cmk/base/plugins/agent_based/utils/test_interfaces.py:173-387 | inserting adds exactly the new service |
| InterfaceDiscovery.Deduplicated | tests/unit/cmk/base/plugins/agent_based/utils/test_interfaces.py:94-387 | each kept service is a candidate whose item was not seen before; the kept items are pairwise distinct |
| InterfaceDiscovery.DeduplicatedKeepsFirst | tests/unit/cmk/base/plugins/agent_based/utils/test_interfaces.py:94-387 | each kept service is the first candidate with its item |
| InterfaceDiscovery.DeduplicatedKeepsItems | tests/unit/cmk/base/plugins/agent_based/utils/test_interfaces.py:94-387 | an item is kept exactly when some candidate has it and it was not seen before |
| InterfaceDiscovery.DeduplicatedKeepsOrder | tests/unit/cmk/base/plugins/agent_based/utils/test_interfaces.py:94-387 | dropping repeated items keeps single services before group services and group services ordered by name |
| InterfaceDiscovery.Discover | tests/unit/cmk/base/plugins/agent_based/utils/test_interfaces.py:94-387 | the discovered services have pairwise distinct items |
| InterfaceDiscovery.SinglesThenGroups | tests/unit/cmk/base/plugins/agent_based/utils/test_interfaces.py:94-387 | single services followed by name-ordered group services put every single service first and the groups in name order |
| InterfaceDiscovery.SinglesBeforeGroups | tests/unit/cmk/base/plugins/agent_based/utils/test_interfaces.py:94-387 | the discovered services are all single services first, then the group services ordered by item name |
| InterfaceDiscovery.FirstOccurrenceWins | tests/unit/cmk/base/plugins/agent_based/utils/test_interfaces.py:94-387 | every discovered service is the first candidate with its item; exactly the candidates' items are discovered |
| InterfaceDiscovery.RuleGroupServiceShape | tests/unit/cmk/base/plugins/agent_based/utils/test_interfaces.py:173-205 | every rule group service comes from a group with members, named by the group, with target state up and the sum of member speeds |
| InterfaceDiscovery.RuleGroupServicesHaveMembers | tests/unit/cmk/base/plugins/agent_based/utils/test_interfaces.py:306-329 | a rule group whose conditions match no interface yields no service; every service's discovered speed is its members' summed speed |
| InterfaceDiscovery.RulesTakePrecedenceOverAgent | tests/unit/cmk/base/plugins/agent_based/utils/test_interfaces.py:353-387 | a name defined by a rule is never also an agent group |
| CounterStore.RateOf | tests/unit/cmk/base/plugins/agent_based/utils/test_interfaces.py:459-474 | a rate exists exactly when an earlier counter sample exists; it is non-negative and times the elapsed time equals the counter increase |
| CounterStore.AverageOf | tests/unit/cmk/base/plugins/agent_based/utils/test_interfaces.py:477-521 | the first averaged sample is the sample itself; later ones lie between the previous average and the sample |
| CounterStore.RatesOf | tests/unit/cmk/base/plugins/agent_based/utils/test_interfaces.py:459-474 | one rate per counter |
| CounterStore.WithCountersGet | tests/unit/cmk/base/plugins/agent_based/utils/test_interfaces.py:459-474 | storing a poll's counters replaces exactly those counters' entries |
| CounterStore.RatesAfterBaseline | tests/unit/cmk/base/plugins/agent_based/utils/test_interfaces.py:459-474 | after a first poll, a later poll has every rate, each the counter delta over the elapsed time |
| CounterStore.NoRatesWithoutBaseline | tests/unit/cmk/base/plugins/agent_based/utils/test_interfaces.py:19-23 | an empty store gives no rate at all |
| CounterStore.ValueStore.constructor | tests/unit/cmk/base/plugins/agent_based/utils/test_interfaces.py:19-23 | the store starts empty |
| CounterStore.ValueStore.GetRate | tests/unit/cmk/base/plugins/agent_based/utils/test_interfaces.py:459-474 | returns the rate since the stored sample and stores the new one, nothing else |
| CounterStore.ValueStore.GetAverage | tests/unit/cmk/base/plugins/agent_based/utils/test_interfaces.py:477-521 | returns the new average and stores it, nothing else |
| CounterStore.ValueStore.CounterRates | tests/unit/cmk/base/plugins/agent_based/utils/test_interfaces.py:459-474 | returns the rates of all counters and stores the new counters |
| InterfaceCheck.StatusState | tests/unit/cmk/base/plugins/agent_based/utils/test_interfaces.py:390-456 | never WARN; OK exactly when the operational status is among the configured target states, else among the discovered ones; OK when neither is set |
| InterfaceCheck.StatusLines | tests/unit/cmk/base/plugins/agent_based/utils/test_interfaces.py:67-77 | one status result with that state, and for a group one more OK result listing the members |
| InterfaceCheck.TrafficLines | tests/unit/cmk/base/plugins/agent_based/utils/test_interfaces.py:390-521 | without averaging one result per direction, in then out, each classified by its rate against its levels; with averaging per direction an average metric followed by the result classified by the average |
| InterfaceCheck.Findings | tests/unit/cmk/base/plugins/agent_based/utils/test_interfaces.py:390-456 | the head lines, one entry per metric and two or four traffic lines; the first is the status result, the last the outgoing traffic result |
| InterfaceCheck.CounterValues | tests/unit/cmk/base/plugins/agent_based/utils/test_interfaces.py:400-448 | one value per metric; in and out octets in their positions; non-unicast is multicast plus broadcast in both directions |
| InterfaceCheck.MemberTexts | tests/unit/cmk/base/plugins/agent_based/utils/test_interfaces.py:577-622 | one text per group member, in order |
| InterfaceCheck.NodeListings | tests/unit/cmk/base/plugins/agent_based/utils/test_interfaces.py:577-622 | one listing per node, in order |
| InterfaceCheck.SpeedInfoOf | tests/unit/cmk/base/plugins/agent_based/utils/test_interfaces.py:433-452 | a reference bandwidth, when there is one, is positive |
| InterfaceCheck.LastApplying | tests/unit/cmk/base/plugins/agent_based/utils/test_interfaces.py:390-456 | the traffic rule used is one that applies to the direction; none when no rule applies |
| InterfaceCheck.PercentOf | tests/unit/cmk/base/plugins/agent_based/utils/test_interfaces.py:396-448 | a percentage level times 100 equals the percentage times the base |
| InterfaceCheck.Metrics | tests/unit/cmk/base/plugins/agent_based/utils/test_interfaces.py:400-448 | one metric per metric name, in the fixed order, each carrying that name and the rate at its position |
| InterfaceCheck.Known | tests/unit/cmk/base/plugins/agent_based/utils/test_interfaces.py:459-474 | known rates are the rates' values, in order |
| InterfaceCheck.CheckSingleInterface | tests/unit/cmk/base/plugins/agent_based/utils/test_interfaces.py:458-475 | the check's outcome and the new store are those of the specification `Evaluate` on the old store |
| InterfaceCheck.Evaluate | tests/unit/cmk/base/plugins/agent_based/utils/test_interfaces.py:458-521 | results are ignored exactly when some rate is unknown; every counter's new sample is stored with the poll time |
| InterfaceCheck.EvaluateKeepsOtherAverages | tests/unit/cmk/base/plugins/agent_based/utils/test_interfaces.py:477-521 | a call stores no average other than the configured one, and none when a rate is unknown |
| InterfaceCheckFacts.FirstPollIgnored | tests/unit/cmk/base/plugins/agent_based/utils/test_interfaces.py:459-474 | on an empty store the check ignores results and stores the counters |
| InterfaceCheckFacts.MetricLayout | tests/unit/cmk/base/plugins/agent_based/utils/test_interfaces.py:400-448 | the metrics appear in the fixed order with their rates; traffic levels and boundaries (0, reference) on in and out only; error levels on the two error metrics; no levels elsewhere |
| InterfaceCheckFacts.FindingsLayout | tests/unit/cmk/base/plugins/agent_based/utils/test_interfaces.py:390-456 | the findings are the head lines, then the metrics in order, then two traffic results, or four with averaging |
| InterfaceCheckFacts.FindingsCarryRates | tests/unit/cmk/base/plugins/agent_based/utils/test_interfaces.py:400-448 | every metric value is the counter delta over the elapsed time |
| InterfaceCheckFacts.KnownRatesAfterBaseline | tests/unit/cmk/base/plugins/agent_based/utils/test_interfaces.py:459-474 | after a baseline every rate is known and times the elapsed time equals the delta |
| InterfaceCheckFacts.SecondPollRates | tests/unit/cmk/base/plugins/agent_based/utils/test_interfaces.py:459-474 | the check after a baseline poll yields outputs whose metrics are the per-second deltas |
| InterfaceCheckFacts.EvaluateCarriesRates | tests/unit/cmk/base/plugins/agent_based/utils/test_interfaces.py:459-474 | a call in which every rate is known as a per-second increase yields those increases as its metric block after the unchanged head lines |
| InterfaceCheckFacts.ReferenceSpeed | tests/unit/cmk/base/plugins/agent_based/utils/test_interfaces.py:396-448 | the reference bandwidth is actual speed/8, else configured speed/8, else discovered speed/8, else none |
| InterfaceCheckFacts.PercentLevels | tests/unit/cmk/base/plugins/agent_based/utils/test_interfaces.py:396-448 | with a reference bandwidth, a percentage rule applying to the direction gives warn and crit at those percentages of the reference |
| InterfaceCheckFacts.AbsoluteLevels | tests/unit/cmk/base/plugins/agent_based/utils/test_interfaces.py:390-456 | an absolute rule applying to the direction gives its own warn and crit, whatever the reference |
| InterfaceCheckFacts.NoLevels | tests/unit/cmk/base/plugins/agent_based/utils/test_interfaces.py:390-456 | no levels when no rule applies to the direction, or when a percentage rule applies and no reference bandwidth is known |
| InterfaceCheckFacts.AssumedSpeedLevels | tests/unit/cmk/base/plugins/agent_based/utils/test_interfaces.py:419-452 | an interface of unknown speed configured for 100 MBit/s: the speed line assumes that speed, the reference is 12.5 MB/s, the levels 625 kB/s and 2.5 MB/s, 800 kB/s in is WARN at 6.4 % and 3.2 MB/s out CRIT at 25.6 % |
| InterfaceCheckFacts.SpeedLine | tests/unit/cmk/base/plugins/agent_based/utils/test_interfaces.py:433 | one speed line; with a known speed it is WARN exactly when a configured speed differs, naming it; with an unknown speed it assumes the configured, else the discovered speed; never CRIT |
| InterfaceCheckFacts.ClassifyBands | tests/unit/cmk/base/plugins/agent_based/utils/test_interfaces.py:433-452 | OK below warn, WARN from warn below crit, CRIT from crit |
| InterfaceCheckFacts.ClassifyMonotone | tests/unit/cmk/base/plugins/agent_based/utils/test_interfaces.py:433-452 | a larger value never has a lower state |
| InterfaceCheckFacts.TrafficResultShowsLevels | tests/unit/cmk/base/plugins/agent_based/utils/test_interfaces.py:433-452 | a traffic result shows its rate and direction, and shows the levels exactly when it is not OK |
| InterfaceCheckFacts.PercentOfReference | tests/unit/cmk/base/plugins/agent_based/utils/test_interfaces.py:433-452 | the percentage shown times the reference is the rate times 100 |
| InterfaceCheckFacts.ReplaceInStatus | tests/unit/cmk/base/plugins/agent_based/utils/test_interfaces.py:58-65 | inserting a node at the first space of a status text gives the node-annotated text |
| InterfaceCheckFacts.NodeInStatusText | tests/unit/cmk/base/plugins/agent_based/utils/test_interfaces.py:58-65 | a node's status text is the plain one with " on node: " at the first space |
| InterfaceCheckFacts.NodeChangesOnlyStatus | tests/unit/cmk/base/plugins/agent_based/utils/test_interfaces.py:557-575 | a node name changes only the first result's text, and the store not at all |
| InterfaceCheckFacts.FindingsFirstLine | tests/unit/cmk/base/plugins/agent_based/utils/test_interfaces.py:557-575 | the first finding is the status line; a different node changes only that line |
| InterfaceCheckFacts.GroupInfoReplacesStatus | tests/unit/cmk/base/plugins/agent_based/utils/test_interfaces.py:67-77 | group information replaces the status line by the group status and the member listing and changes nothing else |
| InterfaceCheckFacts.GroupedFindings | tests/unit/cmk/base/plugins/agent_based/utils/test_interfaces.py:524-555 | grouped findings are the group status and members lines followed by the plain findings after their first line |
| InterfaceCheckFacts.GroupHead | tests/unit/cmk/base/plugins/agent_based/utils/test_interfaces.py:642-695 | a group check starts with the group status line and the OK member listing |
| InterfaceCheckFacts.GroupHeadLines | tests/unit/cmk/base/plugins/agent_based/utils/test_interfaces.py:642-695 | grouped findings start with the group status and member listing |
| InterfaceCheckFacts.AveragingReplacesTrafficLines | tests/unit/cmk/base/plugins/agent_based/utils/test_interfaces.py:477-521 | with averaging and no earlier average, the two traffic results become an average metric and an averaged result per direction, with the instantaneous rates |
| InterfaceCheckFacts.AveragedFindings | tests/unit/cmk/base/plugins/agent_based/utils/test_interfaces.py:477-521 | averaged findings differ from plain ones only in the final traffic lines |
| InterfaceCheckFacts.AveragingKeepsRest | tests/unit/cmk/base/plugins/agent_based/utils/test_interfaces.py:477-521 | configuring averaging changes neither the head lines, the speed, the levels nor the metric block |
| InterfaceCheckFacts.TwoPolls | tests/unit/cmk/base/plugins/agent_based/utils/test_interfaces.py:458-475 | two polls on a fresh store: the first ignores results, the second reports the deltas over the elapsed time |
| InterfaceGroups.SelectMembers | tests/unit/cmk/base/plugins/agent_based/utils/test_interfaces.py:697-755 | the members are exactly the polled interfaces the aggregation selects |
| InterfaceGroups.TotalCounters | tests/unit/cmk/base/plugins/agent_based/utils/test_interfaces.py:642-695 | no members give zero counters; one member gives its own counters |
| InterfaceGroups.UpSpeed | tests/unit/cmk/base/plugins/agent_based/utils/test_interfaces.py:642-695 | no members give speed 0 |
| InterfaceGroups.GroupOperStatus | tests/unit/cmk/base/plugins/agent_based/utils/test_interfaces.py:642-755 | the group status is up, down or degraded; down without members |
| InterfaceGroups.NodeGroups | tests/unit/cmk/base/plugins/agent_based/utils/test_interfaces.py:577-622 | at most one list per member, at least one when there are members, and no list empty |
| InterfaceGroups.SelectStep | tests/unit/cmk/base/plugins/agent_based/utils/test_interfaces.py:697-755 | the members among one more interface are the earlier members, followed by that interface when it is selected |
| InterfaceGroups.MemberSnoc | tests/unit/cmk/base/plugins/agent_based/utils/test_interfaces.py:697-755 | one more member adds its counters, its speed and 1 to the up count when it is up, and its entry to its node's listing |
| InterfaceGroups.SelectAppend | tests/unit/cmk/base/plugins/agent_based/utils/test_interfaces.py:697-755 | selection distributes over concatenated polls |
| InterfaceGroups.ScaleMultiplies | tests/unit/cmk/base/plugins/agent_based/utils/test_interfaces.py:860-916 | scaling counters by n multiplies every counter by n |
| InterfaceGroups.AddCountersValues | tests/unit/cmk/base/plugins/agent_based/utils/test_interfaces.py:642-695 | summing counters sums every metric value |
| InterfaceGroups.AddZero | tests/unit/cmk/base/plugins/agent_based/utils/test_interfaces.py:642-695 | zero counters are neutral |
| InterfaceGroups.AddAssociative | tests/unit/cmk/base/plugins/agent_based/utils/test_interfaces.py:642-695 | summing counters is associative |
| InterfaceGroups.TotalAppend | tests/unit/cmk/base/plugins/agent_based/utils/test_interfaces.py:642-695 | the total of concatenated members is the sum of the totals |
| InterfaceGroups.UpSpeedAppend | tests/unit/cmk/base/plugins/agent_based/utils/test_interfaces.py:671-674 | the group speed of concatenated members is the sum of both |
| InterfaceGroups.UpSpeedSkipsDown | tests/unit/cmk/base/plugins/agent_based/utils/test_interfaces.py:697-733 | a member that is not up adds nothing to the group speed |
| InterfaceGroups.CountUp | tests/unit/cmk/base/plugins/agent_based/utils/test_interfaces.py:642-755 | no more up members than members |
| InterfaceGroups.CountUpAll | tests/unit/cmk/base/plugins/agent_based/utils/test_interfaces.py:642-755 | all members are up exactly when the up count is the member count; none exactly when it is 0 |
| InterfaceGroups.GroupStatusMeaning | tests/unit/cmk/base/plugins/agent_based/utils/test_interfaces.py:642-755 | the group is up exactly when it has members and all are up, down exactly when none is up, degraded exactly when some are and some are not |
| InterfaceGroups.Infos | tests/unit/cmk/base/plugins/agent_based/utils/test_interfaces.py:577-622 | one member entry per member |
| InterfaceGroups.AddMember | tests/unit/cmk/base/plugins/agent_based/utils/test_interfaces.py:577-622 | adding a member adds at most one node list |
| InterfaceGroups.AddMemberNew | tests/unit/cmk/base/plugins/agent_based/utils/test_interfaces.py:577-622 | a member of a new node opens a new list at the end |
| InterfaceGroups.AddMemberToLast | tests/unit/cmk/base/plugins/agent_based/utils/test_interfaces.py:577-622 | a member of the last node joins that node's list |
| InterfaceGroups.AddMemberKeepsOthers | tests/unit/cmk/base/plugins/agent_based/utils/test_interfaces.py:577-622 | adding a member for one node creates no list for another |
| InterfaceGroups.NodeGroupsOnlyOwnNodes | tests/unit/cmk/base/plugins/agent_based/utils/test_interfaces.py:577-622 | only nodes that report members get a list |
| InterfaceGroups.NodeGroupsNewNode | tests/unit/cmk/base/plugins/agent_based/utils/test_interfaces.py:577-622 | the members of a further node form one more list, in order |
| InterfaceGroups.NodeGroupsFlat | tests/unit/cmk/base/plugins/agent_based/utils/test_interfaces.py:524-555 | members without nodes form one flat listing |
| InterfaceGroups.OnNode | tests/unit/cmk/base/plugins/agent_based/utils/test_interfaces.py:577-622 | reporting a poll on a node tags every interface with it and nothing else |
| InterfaceGroups.SelectOnNode | tests/unit/cmk/base/plugins/agent_based/utils/test_interfaces.py:860-916 | selection does not depend on the node |
| InterfaceGroups.SelectOnNodes | tests/unit/cmk/base/plugins/agent_based/utils/test_interfaces.py:860-916 | selecting over several nodes' polls is the node-wise copy of one selection |
| InterfaceGroups.NodeFieldIgnored | tests/unit/cmk/base/plugins/agent_based/utils/test_interfaces.py:860-916 | totals, speed, up count and member entries do not depend on the node |
| InterfaceGroups.CountUpAppend | tests/unit/cmk/base/plugins/agent_based/utils/test_interfaces.py:860-916 | up counts add over concatenation |
| InterfaceGroups.TotalOnNodes | tests/unit/cmk/base/plugins/agent_based/utils/test_interfaces.py:860-916 | counters over n nodes reporting the same members are n times one node's |
| InterfaceGroups.UpSpeedOnNodes | tests/unit/cmk/base/plugins/agent_based/utils/test_interfaces.py:860-916 | the speed over n nodes is n times one node's |
| InterfaceGroups.CountsOnNodes | tests/unit/cmk/base/plugins/agent_based/utils/test_interfaces.py:860-916 | up count and member count over n nodes are n times one node's |
| InterfaceGroups.MulCancel | tests/unit/cmk/base/plugins/agent_based/utils/test_interfaces.py:860-916 | multiplying by the positive node count preserves and reflects equality |
| InterfaceGroups.GroupStatusOnNodes | tests/unit/cmk/base/plugins/agent_based/utils/test_interfaces.py:860-916 | the status over several nodes is that of one node's members |
| InterfaceGroups.PerNode | tests/unit/cmk/base/plugins/agent_based/utils/test_interfaces.py:860-916 | one list per node, each with the same member entries |
| InterfaceGroups.NodeGroupsOnNodes | tests/unit/cmk/base/plugins/agent_based/utils/test_interfaces.py:860-916 | over distinct nodes the listing has one list per node, in node order |
| InterfaceGroups.OnNodesNodes | tests/unit/cmk/base/plugins/agent_based/utils/test_interfaces.py:860-916 | polls of other nodes never carry a node outside them |
| MultipleInterfaces.FirstMatching | tests/unit/cmk/base/plugins/agent_based/utils/test_interfaces.py:624-640 | the interface checked is the first named by the item through its index, description or alias; none when no interface is named |
| MultipleInterfaces.DiscoveredItemMatches | tests/unit/cmk/base/plugins/agent_based/utils/test_interfaces.py:624-640 | the item discovery gives an interface whose index has no leading zero names that interface |
| MultipleInterfaces.GroupInterface | tests/unit/cmk/base/plugins/agent_based/utils/test_interfaces.py:642-695 | the aggregated interface is named by the item, carries no node and no MAC address |
| MultipleInterfaces.EvaluateMultiple | tests/unit/cmk/base/plugins/agent_based/utils/test_interfaces.py:624-916 | no output exactly when the item is no group service and names no interface, and then the store is unchanged |
| MultipleInterfaces.CheckMultipleInterfaces | tests/unit/cmk/base/plugins/agent_based/utils/test_interfaces.py:624-916 | the outcome and the new store are those of the specification on the old store: the aggregated group for a group service, else the first named interface, else no results and the store unchanged |
| MultipleInterfaces.AccumulateGroup | tests/unit/cmk/base/plugins/agent_based/utils/test_interfaces.py:697-755 | the pass over the poll yields the number of members, their summed counters, the speed and number of the up ones and the per-node listing, all of exactly the selected interfaces |
| MultipleInterfaces.FirstMatchingAppend | tests/unit/cmk/base/plugins/agent_based/utils/test_interfaces.py:838-858 | a match in the first part is unaffected by what follows |
| MultipleInterfaces.EarlierNodeWins | tests/unit/cmk/base/plugins/agent_based/utils/test_interfaces.py:838-858 | later nodes reporting the same item change nothing |
| MultipleInterfaces.FirstMatchingOnNode | tests/unit/cmk/base/plugins/agent_based/utils/test_interfaces.py:818-836 | the node does not affect which interface an item names |
| MultipleInterfaces.SameItemOnTwoNodes | tests/unit/cmk/base/plugins/agent_based/utils/test_interfaces.py:838-858 | the same item on two nodes is checked as the first node's interface |
| MultipleInterfaces.GroupCheckHead | tests/unit/cmk/base/plugins/agent_based/utils/test_interfaces.py:642-695 | a group check starts with the group status line, OK exactly when the status is among the target states, and the member listing |
| MultipleInterfaces.GroupOverNodes | tests/unit/cmk/base/plugins/agent_based/utils/test_interfaces.py:860-916 | a group over n distinct nodes has n times one node's counters and speed, one node's status and one listing per node |
| MultipleInterfaces.ExcludedIndices | tests/unit/cmk/base/plugins/agent_based/utils/test_interfaces.py:697-755 | excluding indices from a match-all group removes exactly those interfaces |
| Inventory.ConvertPart | cmk/gui/inventory.py:86-94 | a piece becomes an index exactly when it reads as an integer, else it stays the name |
| Inventory.ComponentPieces | cmk/gui/inventory.py:80-84 | a component without a colon is one piece; no piece contains a colon |
| Inventory.PieceElements | cmk/gui/inventory.py:85-94 | empty pieces are dropped; every element is a non-empty name or an index |
| Inventory.PathElements | cmk/gui/inventory.py:79-94 | every parsed element is a non-empty name or an index |
| Inventory.ParseTreePath | cmk/gui/inventory.py:61-95 | the parser's loops compute exactly the specification of a tree path: last character selects list key, no key or popped leaf key; components split at colons, empty pieces dropped, integers converted |
| Inventory.TreePath | cmk/gui/inventory.py:61-95 | every element is a non-empty name or an index; a trailing colon exactly gives the list key, a trailing dot exactly no key |
| Inventory.AppendPieces | cmk/gui/inventory.py:80-94 | the inner loop appends the elements of one component's pieces |
| Inventory.NatStrings | cmk/gui/inventory.py:61-95 | one decimal string per index |
| Inventory.SegmentTexts | cmk/gui/inventory.py:61-95 | one text per path segment |
| Inventory.Indices | cmk/gui/inventory.py:61-95 | one index element per number |
| Inventory.NatStringHasNoSeparator | cmk/gui/inventory.py:80-84 | decimal numbers contain no separator |
| Inventory.SegmentPieces | cmk/gui/inventory.py:80-84 | a rendered segment has no dot and splits at colons into its name and indices |
| Inventory.NoSeparatorInJoin | cmk/gui/inventory.py:69-77 | joining separator-free parts with another separator stays free of it |
| Inventory.IndexPieces | cmk/gui/inventory.py:85-94 | a name followed by decimal pieces parses as the name followed by those indices |
| Inventory.SegmentElements | cmk/gui/inventory.py:79-94 | parsing rendered segments gives their elements |
| Inventory.JoinedSegments | cmk/gui/inventory.py:69-77 | dot-joined non-empty dot-free parts neither start nor end with a dot and split back into the parts |
| Inventory.ComponentsOfLeaf | cmk/gui/inventory.py:75-77 | a path not ending in a separator pops its last component as the key |
| Inventory.ComponentsOfMarked | cmk/gui/inventory.py:69-74 | a trailing colon gives the list key, a trailing dot no key, and the components before it |
| Inventory.TreePathRoundTrip | cmk/gui/inventory.py:61-95 | parsing a rendered path gives back its elements and its key |
| Inventory.RenderInjective | cmk/gui/inventory.py:61-95 | two renderings alike mean the same elements and key |
| Inventory.RFind | cmk/gui/inventory.py:200 | `rfind`: -1 or the last position holding the character |
| Inventory.Trimmed | cmk/gui/inventory.py:197-198 | the path with at most its last character dropped |
| Inventory.ParentPath | cmk/gui/inventory.py:193-202 | no parent exactly for the root "."; else the parent is the prefix of the trimmed path ending at its last separator, or empty |
| Inventory.RFindAppend | cmk/gui/inventory.py:200 | text without the character does not move its last position |
| Inventory.ParentAfterSeparator | cmk/gui/inventory.py:193-202 | a trimmed path that is a prefix ending in a separator plus separator-free text has that prefix as parent |
| Inventory.NatStringsSnoc | cmk/gui/inventory.py:61-95 | the strings of an extended index list extend the strings |
| Inventory.ParentOfLeaf | cmk/gui/inventory.py:193-202 | the parent of a leaf path is the node path that holds it |
| Inventory.RenderSnoc | cmk/gui/inventory.py:61-95 | rendering a further segment appends it and the separator |
| Inventory.ParentOfChild | cmk/gui/inventory.py:193-202 | the parent of a child node path is the node path that holds it |
| Inventory.EntryText | cmk/gui/inventory.py:80-84 | a further index appends a colon and the number to the segment |
| Inventory.EntryParentText | cmk/gui/inventory.py:193-202 | a numbered entry's path without its trailing dot is the list path followed by the number |
| Inventory.ParentOfEntry | cmk/gui/inventory.py:193-202 | the parent of a numbered entry is the list path of its table |
| Inventory.OfKind | cmk/gui/inventory.py:98-106 | the children of one kind, exactly those of the input |
| Inventory.SortChildren | cmk/gui/inventory.py:98-106 | no children give an empty list; else as many children, ordered attributes, numerations, containers |
| Inventory.OfKindCount | cmk/gui/inventory.py:98-106 | every child is of exactly one kind |
| Inventory.OfKindMultiset | cmk/gui/inventory.py:98-106 | the kinds' children together are the children |
| Inventory.OfKindAppend | cmk/gui/inventory.py:98-106 | filtering by kind distributes over concatenation |
| Inventory.OfKindOfKind | cmk/gui/inventory.py:98-106 | filtering by kind twice keeps the first or nothing |
| Inventory.SortChildrenPermutes | cmk/gui/inventory.py:98-106 | sorting is a permutation |
| Inventory.SortChildrenStable | cmk/gui/inventory.py:98-106 | sorting keeps the order of children of the same kind |
| Inventory.EntryPath | cmk/gui/inventory.py:287-292 | one element per dot-component, each converted to an integer when it reads as one |
| Inventory.Permits | cmk/gui/inventory.py:287-293 | one permitted path per configured entry, with its parsed path and attributes |
| Inventory.GetPermittedInventoryPaths | cmk/gui/inventory.py:262-298 | the loop with its forbid flag and early returns computes the permitted paths: all for no groups or any group without setting or with allow-all, else the entries of all groups in order |
| Inventory.PermittedPaths | cmk/gui/inventory.py:262-298 | nothing is restricted for a user without groups; a restricted list only when no group sees everything, and then what the groups grant |
| Inventory.AppendPermits | cmk/gui/inventory.py:287-293 | the loop over one group's entries appends each entry's parsed path with its attributes, in order |
| Inventory.NoneSeesAllMeans | cmk/gui/inventory.py:272-281 | checking the groups one at a time finds none that sees everything exactly when no group does |
| Inventory.PermittedPathsMeans | cmk/gui/inventory.py:262-298 | the whole tree exactly for a user without groups or with a group that sees everything, otherwise what the groups grant |
| Inventory.ParseEntryPath | cmk/gui/inventory.py:287-292 | the inner loop parses one entry's path |
| Inventory.GrantedAppend | cmk/gui/inventory.py:272-298 | the entries of concatenated group lists are concatenated |
| Inventory.AllowAllWins | cmk/gui/inventory.py:275-281 | one group that may see everything lets the user see everything |
| Inventory.ForbidAllSeesNothing | cmk/gui/inventory.py:283-297 | only forbid-all groups give the empty list |
| Inventory.GrantedForbidden | cmk/gui/inventory.py:283-285 | forbid-all groups contribute no entry |
| Inventory.ForbiddenGroupChangesNothing | cmk/gui/inventory.py:283-298 | adding a forbid-all group changes nothing |
| Inventory.PermittedUnion | cmk/gui/inventory.py:272-298 | the paths of two group lists together are both lists' paths in order |
| Inventory.EntryPathRoundTrip | cmk/gui/inventory.py:287-292 | parsing the dotted text of names and numbers gives them back |
| Inventory.PartTextConverts | cmk/gui/inventory.py:287-292 | the text of a plain name or of a number converts back into that part |
| Inventory.PartTexts | cmk/gui/inventory.py:287-292 | one text per path element |
| Inventory.InventoryTreeCache.constructor | cmk/gui/inventory.py:222-225 | the cache starts empty |
| Inventory.InventoryTreeCache.Load | cmk/gui/inventory.py:218-235 | an empty host name gives nothing; a cached host its cached tree; an uncached host with '/' nothing; else the loaded tree, which is cached; the cache never holds a name with '/' |
| InventoryHistory.Archived | cmk/gui/inventory.py:168-180 | at most one archived tree per directory entry |
| InventoryHistory.Insert | cmk/gui/inventory.py:182-185 | insertion adds exactly the new snapshot |
| InventoryHistory.SortByTime | cmk/gui/inventory.py:182-185 | sorting keeps the snapshots |
| InventoryHistory.InsertSorted | cmk/gui/inventory.py:182-185 | inserting into a sorted history keeps it sorted |
| InventoryHistory.SortByTimeSorted | cmk/gui/inventory.py:182-185 | the history is sorted by timestamp |
| InventoryHistory.AtTimeAppend | cmk/gui/inventory.py:182-185 | the snapshots of one timestamp distribute over concatenation |
| InventoryHistory.InsertAtTime | cmk/gui/inventory.py:182-185 | insertion puts a snapshot after those of its timestamp |
| InventoryHistory.SortByTimeStable | cmk/gui/inventory.py:182-185 | snapshots of the same timestamp keep their order, as Python's stable sort does |
| InventoryHistory.Pairs | cmk/gui/inventory.py:182-187 | one comparison per snapshot |
| InventoryHistory.Reverse | cmk/gui/inventory.py:190 | the comparisons in reverse order |
| InventoryHistory.History | cmk/gui/inventory.py:151-190 | nothing exactly for a host name with '/'; an empty history when the current tree cannot be read; else one comparison per collected tree |
| InventoryHistory.GetHistory | cmk/gui/inventory.py:151-190 | the loops compute the specification `History` |
| InventoryHistory.CollectArchived | cmk/gui/inventory.py:168-180 | the archive loop keeps the entries named by an integer whose tree loads, in directory order |
| InventoryHistory.PairHistory | cmk/gui/inventory.py:182-187 | the loop carrying the previous tree computes the comparisons, the first against the empty tree |
| InventoryHistory.Newer | cmk/gui/inventory.py:182-190 | the newer tree of each comparison with its timestamp |
| InventoryHistory.ReversedPairsChain | cmk/gui/inventory.py:182-190 | each comparison's previous tree is the next one's current tree and the oldest compares against the empty tree |
| InventoryHistory.DescendingTimes | cmk/gui/inventory.py:182-190 | the timestamps descend |
| InventoryHistory.ReversedPairsNewer | cmk/gui/inventory.py:182-190 | the newer trees, reversed back, are the sorted snapshots |
| InventoryHistory.HistoryChain | cmk/gui/inventory.py:151-190 | one comparison per collected tree, newest first with descending timestamps, chained previous to current, the oldest against the empty tree, a permutation of the collected trees stable per timestamp |
| InventoryHistory.ReverseMultiset | cmk/gui/inventory.py:190 | reversing is a permutation |
| InventoryHistory.HistoryStartsWithCurrent | cmk/gui/inventory.py:156-190 | when the current tree is newer than every archived one, the history starts with it |
| ContactsSync.UpdateContacts | tests/unit/cmk/gui/watolib/test_config_sync.py:402-415 | the result holds exactly the central site's users |
| ContactsSync.MergedContact | tests/unit/cmk/gui/watolib/test_config_sync.py:402-483 | customer and settings come from the central site; notification rules from the central site or, for a customer user known remotely, from the remote site |
| ContactsSync.MasterSettingsKept | tests/unit/cmk/gui/watolib/test_config_sync.py:402-483 | every user keeps the central site's customer and other settings |
| ContactsSync.GlobalUserFromMaster | tests/unit/cmk/gui/watolib/test_config_sync.py:441-480 | a global user is the central site's record |
| ContactsSync.CustomerUserRules | tests/unit/cmk/gui/watolib/test_config_sync.py:441-480 | a customer user takes the remote site's notification rules when it has them |
| ContactsSync.NewSite | tests/unit/cmk/gui/watolib/test_config_sync.py:416-440 | an empty remote site gets the central contacts unchanged |
| ContactsSync.UpdateIdempotent | tests/unit/cmk/gui/watolib/test_config_sync.py:402-483 | synchronising twice equals synchronising once |
| ContactsSync.SameSite | tests/unit/cmk/gui/watolib/test_config_sync.py:402-483 | a site synchronised with itself is unchanged |
| ContactsSync.SourceCases | tests/unit/cmk/gui/watolib/test_config_sync.py:402-483 | the three parametrised cases hold |

## Left out

- Number and text formatting of summaries ("800 kB/s", "6.4%", "10 MBit/s"): float formatting. Summaries are structured values (rate, direction, levels, speed) instead of strings.
- The averaging weight formula (an exponential decay over the averaging window): float math. The weight is a parameter `decay` in [0, 1]. Only its consequences are modelled: the first average equals the rate, and later ones lie between the old average and the sample.
- CounterStore.RateOf: counter wrap-around and reset policy are not pinned down by the tests. A decreasing counter is taken as a reset from zero.
- Results for error rates: the tests show none, so the model emits none; the `errors` levels appear only on the `inerr` and `outerr` metrics.
- Metric count: the tests list 15 metrics (in, inmcast, inbcast, inucast, innucast, indisc, inerr, out, outmcast, outbcast, outucast, outnucast, outdisc, outerr, outqlen); the model follows them, not the 16 that the design description states.
- Interfaces.MatchesPatterns: description and alias patterns are matched as literal prefixes of the text, which is what `re.match` does for a pattern of plain characters; regular-expression syntax such as `.`, `*`, `|`, `^` or groups is not interpreted, so a pattern like `eth.*` accepts only texts starting with those four characters.
- In-place mutation of interface records in the tests (setting `group`, `node`): modelled as building the changed record by value.
- Python `int()` accepts surrounding whitespace and underscores between digits; `Text.ParseInt` accepts an optional sign and decimal digits only.
- Inventory.ParentPath: requires a non-empty path; Python raises `IndexError` on "" and the model does not represent the exception.
- Tree loading (`StructuredDataTree.load_from`), filtering by permitted paths (`_filter_tree`), `os.stat`, `os.listdir` and `os.path.exists`: the loaders are function parameters, the modification time an integer, a tree that cannot be read the `Unreadable` case, and a missing archive directory an empty name list.
- The HTML request cache object of `_load_inventory_tree` is modelled as a class owning a map; sharing it between requests is not modelled.
- `load_delta_tree`, `get_inventory_data`, the status-tree merge and the tree comparison methods: foreign code of `StructuredDataTree`, not part of this model.
- The livestatus queries, the HTTP API pages and the output writers of `cmk/gui/inventory.py`: I/O.
- ContactsSync.UpdateContacts: the implementation is not part of this model. The rule that a user without a customer is global and that only a customer user's notification rules come from the remote site is rebuilt from the three test cases.
- Snapshot generation, packing and replication in the config-sync tests: file I/O.
- Discovery's group discovered state is always `['1']` in the tests and is modelled so; the union of member states that the design description gives is not modelled.
