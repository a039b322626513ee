/** The interface record and the rule matcher of the network-interface
    checks: a raw agent row (`PreInterface`), its finalised form
    (`finalize_interface`), operational-state names, MAC rendering and the
    matching conditions that discovery layers and group definitions use. */
module Interfaces {
  import opened Wrappers
  import opened Text

  type Byte = x: int | 0 <= x < 256

  /** The thirteen raw counters of one interface row, as the agent delivers
      them (octets, unicast, multicast, broadcast, discards and errors in each
      direction, and the output queue length). */
  datatype Counters = Counters(
    inOctets: nat, inUcast: nat, inMcast: nat, inBcast: nat, inDiscards: nat, inErrors: nat,
    outOctets: nat, outUcast: nat, outMcast: nat, outBcast: nat, outDiscards: nat, outErrors: nat,
    outQLen: nat)

  /** One interface row before finalisation: the speed still as text
      (empty when the agent does not know it) and the MAC as raw bytes. The
      agent may tag the row with a group name; on a cluster the row carries
      the name of the node it came from. */
  datatype PreInterface = PreInterface(
    index: string, descr: string, ifType: string, speed: string, operStatus: string,
    counters: Counters, alias: string, physAddress: seq<Byte>,
    group: Option<string>, node: Option<string>)

  /** A finalised interface: the speed in bit/s (0 means unknown) and the MAC
      rendered as colon-separated upper-case hex. */
  datatype Interface = Interface(
    index: string, descr: string, ifType: string, speed: nat, operStatus: string,
    counters: Counters, alias: string, physAddress: string,
    group: Option<string>, node: Option<string>)

  const OperUp := "1"
  const OperDown := "2"
  const OperDegraded := "8"

  /** The display name of an operational-state code; unknown codes are shown
      as themselves. */
  function OperStatusName(code: string): string
  {
    if code == "1" then "up"
    else if code == "2" then "down"
    else if code == "3" then "testing"
    else if code == "4" then "unknown"
    else if code == "5" then "dormant"
    else if code == "6" then "not present"
    else if code == "7" then "lower layer down"
    else if code == "8" then "degraded"
    else code
  }

  function HexDigit(d: nat): (c: char)
    requires d < 16
  {
    if d < 10 then DigitChar(d) else (('A' as int) + d - 10) as char
  }

  function HexValue(c: char): Option<nat>
  {
    if IsDigit(c) then Some(DigitValue(c))
    else if 'A' <= c <= 'F' then Some((c as int) - ('A' as int) + 10)
    else None
  }

  function ByteHex(b: Byte): (s: string)
    ensures |s| == 2 && ':' !in s
  {
    [HexDigit(b / 16), HexDigit(b % 16)]
  }

  function ParseByteHex(s: string): Option<Byte>
  {
    if |s| != 2 then None
    else match (HexValue(s[0]), HexValue(s[1]))
      case (Some(hi), Some(lo)) => if hi * 16 + lo < 256 then Some(hi * 16 + lo) else None
      case _ => None
  }

  function HexPieces(bytes: seq<Byte>): (parts: seq<string>)
    ensures |parts| == |bytes|
    ensures forall k :: 0 <= k < |parts| ==> parts[k] == ByteHex(bytes[k])
  {
    if bytes == [] then [] else [ByteHex(bytes[0])] + HexPieces(bytes[1..])
  }

  /** The MAC address as `0A:00:27:00:00:00`; no bytes give the empty
      string. */
  function RenderMac(bytes: seq<Byte>): string
  {
    Join(HexPieces(bytes), ":")
  }

  function ParsePieces(parts: seq<string>): Option<seq<Byte>>
  {
    if parts == [] then Some([])
    else match (ParseByteHex(parts[0]), ParsePieces(parts[1..]))
      case (Some(b), Some(rest)) => Some([b] + rest)
      case _ => None
  }

  /** Reads a rendered MAC address back into its bytes. */
  function ParseMac(s: string): Option<seq<Byte>>
  {
    if s == "" then Some([]) else ParsePieces(Split(s, ':'))
  }

  lemma {:induction false} ParsePiecesOfHex(bytes: seq<Byte>)
    ensures ParsePieces(HexPieces(bytes)) == Some(bytes)
  {
    if bytes != [] {
      var b := bytes[0];
      assert HexValue(HexDigit(b / 16)) == Some(b / 16);
      assert HexValue(HexDigit(b % 16)) == Some(b % 16);
      assert ParseByteHex(ByteHex(b)) == Some(b);
      assert HexPieces(bytes)[1..] == HexPieces(bytes[1..]);
      ParsePiecesOfHex(bytes[1..]);
      assert [b] + bytes[1..] == bytes;
    }
  }

  /** The rendered MAC address loses nothing: it reads back as the bytes it
      was made from. */
  lemma MacRoundTrip(bytes: seq<Byte>)
    ensures ParseMac(RenderMac(bytes)) == Some(bytes)
  {
    if bytes != [] {
      var parts := HexPieces(bytes);
      SplitJoin(parts, ':');
      assert |parts[0]| == 2;
      assert |Join(parts, ":")| > 0 by {
        if |parts| > 1 { assert Join(parts, ":") == parts[0] + ":" + Join(parts[1..], ":"); }
      }
      ParsePiecesOfHex(bytes);
    }
  }

  /** `finalize_interface`: resolves the speed text to bit/s (empty or
      unreadable text is 0, "unknown") and renders the MAC address. */
  function Finalize(pre: PreInterface): (i: Interface)
    ensures pre.speed == "" ==> i.speed == 0
    ensures ParseMac(i.physAddress) == Some(pre.physAddress)
  {
    MacRoundTrip(pre.physAddress);
    Interface(
      pre.index, pre.descr, pre.ifType, ParseNat(pre.speed).GetOr(0), pre.operStatus,
      pre.counters, pre.alias, RenderMac(pre.physAddress), pre.group, pre.node)
  }

  /** What finalisation promises: every field is carried over, a speed
      written as decimal text becomes that number, an empty speed becomes 0,
      and the rendered MAC reads back as the raw bytes. */
  lemma FinalizeFaithful(pre: PreInterface, n: nat)
    ensures var i := Finalize(pre);
      && i.index == pre.index && i.descr == pre.descr && i.ifType == pre.ifType
      && i.operStatus == pre.operStatus && i.counters == pre.counters && i.alias == pre.alias
      && i.group == pre.group && i.node == pre.node
      && (pre.speed == NatToString(n) ==> i.speed == n)
      && (pre.speed == "" ==> i.speed == 0)
      && ParseMac(i.physAddress) == Some(pre.physAddress)
  {
    ParseNatToString(n);
    MacRoundTrip(pre.physAddress);
  }

  // ---------------------------------------------------------------------
  // Matching conditions

  /** A condition set of a discovery rule or a group definition. Every list
      that is not empty must accept the interface; an empty list does not
      constrain it. */
  datatype ConditionSet = ConditionSet(
    matchIndex: seq<string>, matchAlias: seq<string>, matchDesc: seq<string>,
    portTypes: seq<string>, portStates: seq<string>)

  const NoConditions := ConditionSet([], [], [], [], [])

  /** A description or alias pattern accepts the text it is a prefix of, as
      a regular expression made of plain characters does under `re.match`. */
  predicate MatchesPatterns(patterns: seq<string>, text: string)
  {
    exists k :: 0 <= k < |patterns| && patterns[k] <= text
  }

  predicate Matches(c: ConditionSet, i: Interface)
  {
    && (c.matchIndex == [] || i.index in c.matchIndex)
    && (c.matchAlias == [] || MatchesPatterns(c.matchAlias, i.alias))
    && (c.matchDesc == [] || MatchesPatterns(c.matchDesc, i.descr))
    && (c.portTypes == [] || i.ifType in c.portTypes)
    && (c.portStates == [] || i.operStatus in c.portStates)
  }

  /** The `matching_conditions` of a discovery layer: `(True, {})` matches
      every interface, `(False, conditions)` those the conditions accept. */
  datatype MatchingConditions = MatchingConditions(matchAll: bool, conditions: ConditionSet)

  predicate MatchesRule(m: MatchingConditions, i: Interface)
  {
    m.matchAll || Matches(m.conditions, i)
  }

  /** The condition set recorded for a layer's matching conditions in a
      group definition: it accepts exactly the interfaces the layer matches. */
  function Effective(m: MatchingConditions): (c: ConditionSet)
    ensures forall i :: Matches(c, i) <==> MatchesRule(m, i)
    ensures m.matchAll ==> c == NoConditions
  {
    if m.matchAll then NoConditions else m.conditions
  }
}
