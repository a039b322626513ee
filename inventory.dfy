/** The HW/SW inventory helpers of the GUI: the textual inventory paths
    (`parse_tree_path`, `parent_path`), the order of a node's children
    (`sort_children`), the paths a user may see (`_get_permitted_inventory_paths`),
    the per-request tree cache (`_load_inventory_tree`) and the history of a
    host's trees (`get_history`). Trees themselves are opaque values of a
    type parameter `T`. */
module Inventory {
  import opened Wrappers
  import opened Text

  // ---------------------------------------------------------------------
  // Inventory paths

  /** One step of a parsed path: a child by name, or an entry of a
      numeration by its position. */
  datatype PathPart = Name(name: string) | Index(n: int)

  /** What a path points at below its node: a leaf attribute by name, the
      node itself (a path ending in `.`), or the table of a numeration (a
      path ending in `:`). */
  datatype AttributesKey = Key(name: string) | NoKey | ListKey

  /** A piece becomes an index when Python's `int` accepts it. */
  function ConvertPart(piece: string): (r: PathPart)
    ensures r.Index? <==> ParseInt(piece).Some?
    ensures r.Name? ==> r.name == piece
  {
    match ParseInt(piece)
    case Some(n) => Index(n)
    case None => Name(piece)
  }

  /** A name that parsing produces: not empty, without separators and not a
      number. */
  predicate PlainName(name: string)
  {
    name != "" && '.' !in name && ':' !in name && ParseInt(name).None?
  }

  predicate WellFormedPart(p: PathPart)
  {
    p.Name? ==> p.name != "" && ParseInt(p.name).None?
  }

  /** The pieces of one dot-separated component: a component holding a
      colon is a nested numeration and splits at every colon. */
  function ComponentPieces(component: string): (r: seq<string>)
    ensures ':' !in component ==> r == [component]
    ensures forall k :: 0 <= k < |r| ==> ':' !in r[k]
  {
    if ':' in component then Split(component, ':') else [component]
  }

  /** The pieces converted one by one, empty pieces skipped. */
  function PieceElements(pieces: seq<string>): (r: seq<PathPart>)
    ensures |r| <= |pieces|
    ensures forall k :: 0 <= k < |r| ==> WellFormedPart(r[k])
  {
    if pieces == [] then []
    else
      var front := PieceElements(pieces[..|pieces| - 1]);
      var last := pieces[|pieces| - 1];
      if last == "" then front else front + [ConvertPart(last)]
  }

  function PathElements(path: seq<string>): (r: seq<PathPart>)
    ensures forall k :: 0 <= k < |r| ==> WellFormedPart(r[k])
  {
    if path == [] then []
    else PathElements(path[..|path| - 1]) + PieceElements(ComponentPieces(path[|path| - 1]))
  }

  /** The dot-separated components of a path and what it points at: a
      trailing `:` or `.` is dropped and gives the key, otherwise the last
      component is the attribute's name. Outer dots are stripped. */
  function Components(treePath: string): (r: (seq<string>, AttributesKey))
  {
    if |treePath| > 0 && treePath[|treePath| - 1] == ':' then
      (Split(Strip(treePath[..|treePath| - 1], '.'), '.'), ListKey)
    else if |treePath| > 0 && treePath[|treePath| - 1] == '.' then
      (Split(Strip(treePath[..|treePath| - 1], '.'), '.'), NoKey)
    else
      var path := Split(Strip(treePath, '.'), '.');
      (path[..|path| - 1], Key(path[|path| - 1]))
  }

  /** What `parse_tree_path` returns for `treePath`. */
  function TreePath(treePath: string): (r: (seq<PathPart>, AttributesKey))
    ensures forall k :: 0 <= k < |r.0| ==> WellFormedPart(r.0[k])
    ensures r.1 == ListKey <==> treePath != "" && treePath[|treePath| - 1] == ':'
    ensures r.1 == NoKey <==> treePath != "" && treePath[|treePath| - 1] == '.'
  {
    var c := Components(treePath);
    (PathElements(c.0), c.1)
  }

  /** `parse_tree_path`: the loop over the components, each handled by
      `AppendPieces`. */
  method ParseTreePath(treePath: string) returns (parsed: seq<PathPart>, key: AttributesKey)
    ensures (parsed, key) == TreePath(treePath)
    ensures forall k :: 0 <= k < |parsed| ==> WellFormedPart(parsed[k])
  {
    var path: seq<string>;
    path, key := Components(treePath).0, Components(treePath).1;
    parsed := [];
    var i := 0;
    while i < |path|
      invariant 0 <= i <= |path|
      invariant parsed == PathElements(path[..i])
    {
      parsed := AppendPieces(parsed, path[i]);
      assert path[..i + 1][..i] == path[..i];
      i := i + 1;
    }
    assert path[..i] == path;
  }

  /** The inner loop of `parse_tree_path`: the pieces of one component
      appended to the path parsed so far. */
  method AppendPieces(parsed: seq<PathPart>, part: string) returns (r: seq<PathPart>)
    ensures r == parsed + PieceElements(ComponentPieces(part))
  {
    var pieces := if ':' in part then Split(part, ':') else [part];
    r := parsed;
    var j := 0;
    while j < |pieces|
      invariant 0 <= j <= |pieces|
      invariant r == parsed + PieceElements(pieces[..j])
    {
      assert pieces[..j + 1][..j] == pieces[..j];
      if pieces[j] != "" {
        r := r + [ConvertPart(pieces[j])];
      }
      j := j + 1;
    }
    assert pieces[..j] == pieces;
  }

  // ---------------------------------------------------------------------
  // Writing paths, to state what parsing recovers

  /** A named child followed by the positions of nested numeration entries:
      `packages:17` is `Segment("packages", [17])`. */
  datatype Segment = Segment(name: string, indices: seq<nat>)

  function NatStrings(ns: seq<nat>): (r: seq<string>)
    ensures |r| == |ns|
    ensures forall k :: 0 <= k < |r| ==> r[k] == NatToString(ns[k])
  {
    if ns == [] then [] else NatStrings(ns[..|ns| - 1]) + [NatToString(ns[|ns| - 1])]
  }

  function SegmentText(g: Segment): string
  {
    Join([g.name] + NatStrings(g.indices), ":")
  }

  function SegmentTexts(gs: seq<Segment>): (r: seq<string>)
    ensures |r| == |gs|
    ensures forall k :: 0 <= k < |r| ==> r[k] == SegmentText(gs[k])
  {
    if gs == [] then [] else SegmentTexts(gs[..|gs| - 1]) + [SegmentText(gs[|gs| - 1])]
  }

  function Indices(ns: seq<nat>): (r: seq<PathPart>)
    ensures |r| == |ns|
  {
    if ns == [] then [] else Indices(ns[..|ns| - 1]) + [Index(ns[|ns| - 1])]
  }

  /** The parsed path a sequence of segments denotes. */
  function Elements(gs: seq<Segment>): seq<PathPart>
  {
    if gs == [] then []
    else
      var g := gs[|gs| - 1];
      Elements(gs[..|gs| - 1]) + [Name(g.name)] + Indices(g.indices)
  }

  /** The textual path of the segments `gs` with the key `key`, as the
      GUI writes them: `.hardware.cpu.model`, `.hardware.cpu.`,
      `.software.packages:`, the root `.`. */
  function RenderTreePath(gs: seq<Segment>, key: AttributesKey): string
  {
    match key
    case Key(k) => "." + Join(SegmentTexts(gs) + [k], ".")
    case NoKey => if gs == [] then "." else "." + Join(SegmentTexts(gs), ".") + "."
    case ListKey => "." + Join(SegmentTexts(gs), ".") + ":"
  }

  predicate PlainSegments(gs: seq<Segment>)
  {
    forall k :: 0 <= k < |gs| ==> PlainName(gs[k].name)
  }

  /** An attribute name without separators. */
  predicate PlainKey(key: AttributesKey)
  {
    key.Key? ==> key.name != "" && '.' !in key.name && ':' !in key.name
  }

  lemma NatStringHasNoSeparator(n: nat, c: char)
    requires !IsDigit(c)
    ensures c !in NatToString(n)
  {
  }

  /** A segment's text has no dot, and splits at its colons into its name
      and the decimal indices. */
  lemma SegmentPieces(g: Segment)
    requires PlainName(g.name)
    ensures '.' !in SegmentText(g)
    ensures |SegmentText(g)| > 0
    ensures ComponentPieces(SegmentText(g)) == [g.name] + NatStrings(g.indices)
  {
    var parts := [g.name] + NatStrings(g.indices);
    forall k | 0 <= k < |parts|
      ensures ':' !in parts[k] && '.' !in parts[k]
    {
      if k > 0 {
        NatStringHasNoSeparator(g.indices[k - 1], ':');
        NatStringHasNoSeparator(g.indices[k - 1], '.');
      }
    }
    JoinSplit(SegmentText(g), ':');
    SplitJoin(parts, ':');
    JoinFirst(parts, ":");
    assert ":" == [':'];
    NoSeparatorInJoin(parts, ":", '.');
  }

  lemma {:induction false} NoSeparatorInJoin(parts: seq<string>, sep: string, c: char)
    requires c !in sep
    requires forall k :: 0 <= k < |parts| ==> c !in parts[k]
    ensures c !in Join(parts, sep)
  {
    if |parts| > 1 {
      NoSeparatorInJoin(parts[1..], sep, c);
    }
  }

  lemma {:induction false} IndexPieces(name: string, ns: seq<nat>)
    requires PlainName(name)
    ensures PieceElements([name] + NatStrings(ns)) == [Name(name)] + Indices(ns)
    decreases |ns|
  {
    if ns == [] {
      assert [name] + NatStrings(ns) == [name];
      assert PieceElements([name]) == PieceElements([]) + [ConvertPart(name)];
    } else {
      var front := ns[..|ns| - 1];
      var n := ns[|ns| - 1];
      IndexPieces(name, front);
      assert ([name] + NatStrings(ns))[..|ns|] == [name] + NatStrings(front);
      ParseNatToString(n);
    }
  }

  lemma {:induction false} SegmentElements(gs: seq<Segment>)
    requires PlainSegments(gs)
    ensures PathElements(SegmentTexts(gs)) == Elements(gs)
    decreases |gs|
  {
    if gs != [] {
      var front := gs[..|gs| - 1];
      var g := gs[|gs| - 1];
      var texts := SegmentTexts(gs);
      SegmentElements(front);
      SegmentPieces(g);
      IndexPieces(g.name, g.indices);
      assert texts[..|gs| - 1] == SegmentTexts(front);
      assert texts[|gs| - 1] == SegmentText(g);
      assert PathElements(texts) == PathElements(SegmentTexts(front)) + PieceElements(ComponentPieces(SegmentText(g)));
      assert PieceElements(ComponentPieces(SegmentText(g))) == [Name(g.name)] + Indices(g.indices);
      AppendAssociative(Elements(front), [Name(g.name)], Indices(g.indices));
    }
  }

  /** The dot-join of segment texts (and possibly a key) neither starts nor
      ends with a dot, and splits back at its dots. */
  lemma JoinedSegments(parts: seq<string>)
    requires |parts| > 0
    requires forall k :: 0 <= k < |parts| ==> parts[k] != "" && '.' !in parts[k]
    ensures var j := Join(parts, ".");
      && |j| > 0 && j[0] != '.' && j[|j| - 1] != '.'
      && j[|j| - 1] == parts[|parts| - 1][|parts[|parts| - 1]| - 1]
      && Split(j, '.') == parts
  {
    JoinFirst(parts, ".");
    JoinLast(parts, ".");
    assert "." == ['.'];
    SplitJoin(parts, '.');
    var l := parts[|parts| - 1];
    assert l[|l| - 1] in l;
  }

  predicate DotFreeParts(parts: seq<string>)
  {
    forall k :: 0 <= k < |parts| ==> parts[k] != "" && '.' !in parts[k]
  }

  lemma ComponentsOfLeaf(texts: seq<string>, k: string)
    requires DotFreeParts(texts) && PlainKey(Key(k))
    ensures Components("." + Join(texts + [k], ".")) == (texts, Key(k))
  {
    var parts := texts + [k];
    assert parts[|parts| - 1] == k;
    JoinedSegments(parts);
    var j := Join(parts, ".");
    var t := "." + j;
    assert t[|t| - 1] == j[|j| - 1];
    assert k[|k| - 1] in k;
    StripLeading(j, '.');
    assert Split(Strip(t, '.'), '.') == parts;
    assert parts[..|parts| - 1] == texts;
  }

  lemma ComponentsOfMarked(texts: seq<string>, marker: char)
    requires texts != [] && DotFreeParts(texts) && marker in ".:"
    ensures Components("." + Join(texts, ".") + [marker]) == (texts, if marker == ':' then ListKey else NoKey)
  {
    JoinedSegments(texts);
    var j := Join(texts, ".");
    var t := "." + j + [marker];
    assert t[..|t| - 1] == "." + j;
    StripLeading(j, '.');
  }

  /** `parse_tree_path` recovers the segments and the key of every path
      the GUI writes for plain names. */
  lemma TreePathRoundTrip(gs: seq<Segment>, key: AttributesKey)
    requires PlainSegments(gs) && PlainKey(key)
    ensures TreePath(RenderTreePath(gs, key)) == (Elements(gs), key)
  {
    SegmentElements(gs);
    var texts := SegmentTexts(gs);
    forall k | 0 <= k < |gs|
      ensures texts[k] != "" && '.' !in texts[k]
    {
      SegmentPieces(gs[k]);
    }
    var t := RenderTreePath(gs, key);
    if key.Key? {
      ComponentsOfLeaf(texts, key.name);
    } else if gs == [] {
      assert t[..|t| - 1] == (if key.NoKey? then "" else ".");
      assert LeadingCount(".", '.') == 1;
      assert Strip(".", '.') == "";
      assert Components(t) == ([""], key);
      assert ComponentPieces("") == [""];
      assert PieceElements([""]) == [];
      assert [""][..0] == [];
      assert PathElements([""]) == [];
    } else {
      ComponentsOfMarked(texts, if key.NoKey? then '.' else ':');
    }
  }

  /** Parsing is determined by the text: two paths that parse differently
      are different texts. */
  lemma RenderInjective(gs1: seq<Segment>, k1: AttributesKey, gs2: seq<Segment>, k2: AttributesKey)
    requires PlainSegments(gs1) && PlainKey(k1) && PlainSegments(gs2) && PlainKey(k2)
    requires RenderTreePath(gs1, k1) == RenderTreePath(gs2, k2)
    ensures Elements(gs1) == Elements(gs2) && k1 == k2
  {
    TreePathRoundTrip(gs1, k1);
    TreePathRoundTrip(gs2, k2);
  }

  // ---------------------------------------------------------------------
  // Parent paths

  /** The position of the last `c` in `s`, or -1 (Python's `rfind`). */
  function RFind(s: string, c: char): (r: int)
    ensures -1 <= r < |s|
    ensures r >= 0 ==> s[r] == c
    ensures forall i :: r < i < |s| ==> s[i] != c
  {
    if s == [] then -1
    else if s[|s| - 1] == c then |s| - 1
    else RFind(s[..|s| - 1], c)
  }

  /** A path without its trailing type marker. */
  function Trimmed(invPath: string): (r: string)
    requires invPath != ""
    ensures r == invPath || r == invPath[..|invPath| - 1]
  {
    if invPath[|invPath| - 1] in ".:" then invPath[..|invPath| - 1] else invPath
  }

  /** `parent_path`: none for the root, else the path up to and including
      the last separator once the trailing marker is dropped. */
  function ParentPath(invPath: string): (r: Option<string>)
    requires invPath != ""
    ensures r.None? <==> invPath == "."
    ensures r.Some? ==>
      var t := Trimmed(invPath);
      && |r.value| <= |t| && r.value == t[..|r.value|]
      && (r.value == "" || r.value[|r.value| - 1] in ".:")
      && forall i :: |r.value| <= i < |t| ==> t[i] !in ".:"
  {
    if invPath == "." then None
    else
      var t := Trimmed(invPath);
      var colon := RFind(t, ':');
      var dot := RFind(t, '.');
      var last := if colon < dot then dot else colon;
      Some(t[..last + 1])
  }

  lemma {:induction false} RFindAppend(a: string, b: string, c: char)
    requires c !in b
    ensures RFind(a + b, c) == RFind(a, c)
    decreases |b|
  {
    if b != [] {
      assert (a + b)[..|a + b| - 1] == a + b[..|b| - 1];
      assert b[|b| - 1] in b;
      assert (a + b)[|a + b| - 1] == b[|b| - 1];
      RFindAppend(a, b[..|b| - 1], c);
      assert RFind(a + b, c) == RFind((a + b)[..|a + b| - 1], c);
    } else {
      assert a + b == a;
    }
  }

  /** The part of a path after its last separator, when that part has no
      separator itself, is what `parent_path` removes. */
  lemma ParentAfterSeparator(prefix: string, rest: string, invPath: string)
    requires |prefix| > 0 && prefix[|prefix| - 1] in ".:"
    requires '.' !in rest && ':' !in rest
    requires invPath != "." && invPath != "" && Trimmed(invPath) == prefix + rest
    ensures ParentPath(invPath) == Some(prefix)
  {
    RFindAppend(prefix, rest, ':');
    RFindAppend(prefix, rest, '.');
    assert (prefix + rest)[..|prefix|] == prefix;
  }

  lemma {:induction false} NatStringsSnoc(ns: seq<nat>, n: nat)
    ensures NatStrings(ns + [n]) == NatStrings(ns) + [NatToString(n)]
  {
    assert (ns + [n])[..|ns|] == ns;
  }

  /** The parent of a leaf attribute's path is the path of its node. */
  lemma ParentOfLeaf(gs: seq<Segment>, k: string)
    requires PlainSegments(gs) && PlainKey(Key(k))
    ensures ParentPath(RenderTreePath(gs, Key(k))) == Some(RenderTreePath(gs, NoKey))
  {
    var texts := SegmentTexts(gs);
    var t := RenderTreePath(gs, Key(k));
    JoinSnoc(texts, k, ".");
    assert k[|k| - 1] in k;
    assert t[|t| - 1] == k[|k| - 1];
    var prefix := RenderTreePath(gs, NoKey);
    assert t == prefix + k;
    ParentAfterSeparator(prefix, k, t);
  }

  /** A path one segment longer is the node's path followed by the
      segment's text and the marker. */
  lemma RenderSnoc(gs: seq<Segment>, g: Segment)
    ensures RenderTreePath(gs + [g], NoKey) == RenderTreePath(gs, NoKey) + SegmentText(g) + "."
    ensures RenderTreePath(gs + [g], ListKey) == RenderTreePath(gs, NoKey) + SegmentText(g) + ":"
  {
    var texts := SegmentTexts(gs);
    var t := SegmentText(g);
    assert SegmentTexts(gs + [g]) == texts + [t] by {
      assert (gs + [g])[..|gs|] == gs;
    }
    JoinSnoc(texts, t, ".");
    if gs != [] {
      var j := Join(texts, ".");
      assert Join(texts + [t], ".") == j + "." + t;
      AppendAssociative(".", j + ".", t);
      AppendAssociative(".", j, ".");
      assert "." + (j + "." + t) == "." + j + "." + t;
    }
  }

  /** The parent of a child node's path is the path of the node above it. */
  lemma ParentOfChild(gs: seq<Segment>, name: string)
    requires PlainName(name)
    ensures ParentPath(RenderTreePath(gs + [Segment(name, [])], NoKey)) == Some(RenderTreePath(gs, NoKey))
  {
    var g := Segment(name, []);
    RenderSnoc(gs, g);
    assert [g.name] + NatStrings(g.indices) == [name];
    var t := RenderTreePath(gs + [g], NoKey);
    var prefix := RenderTreePath(gs, NoKey);
    assert t[..|t| - 1] == prefix + name;
    ParentAfterSeparator(prefix, name, t);
  }

  lemma EntryText(name: string, indices: seq<nat>, n: nat)
    ensures SegmentText(Segment(name, indices + [n])) == SegmentText(Segment(name, indices)) + ":" + NatToString(n)
  {
    NatStringsSnoc(indices, n);
    assert [name] + NatStrings(indices + [n]) == ([name] + NatStrings(indices)) + [NatToString(n)];
    JoinSnoc([name] + NatStrings(indices), NatToString(n), ":");
  }

  lemma EntryParentText(gs: seq<Segment>, name: string, indices: seq<nat>, n: nat)
    ensures var t := RenderTreePath(gs + [Segment(name, indices + [n])], NoKey);
      t != "" && t[..|t| - 1] == RenderTreePath(gs + [Segment(name, indices)], ListKey) + NatToString(n)
  {
    var t := RenderTreePath(gs + [Segment(name, indices + [n])], NoKey);
    var prefix := RenderTreePath(gs, NoKey);
    var s1 := SegmentText(Segment(name, indices));
    var d := NatToString(n);
    RenderSnoc(gs, Segment(name, indices + [n]));
    RenderSnoc(gs, Segment(name, indices));
    EntryText(name, indices, n);
    var sg := SegmentText(Segment(name, indices + [n]));
    assert t == prefix + (s1 + ":" + d) + ['.'];
    DropLastRegrouped(prefix, s1, ":", d, '.');
  }

  /** The parent of a numeration entry's path is the path of its table. */
  lemma ParentOfEntry(gs: seq<Segment>, name: string, indices: seq<nat>, n: nat)
    ensures ParentPath(RenderTreePath(gs + [Segment(name, indices + [n])], NoKey)) ==
      Some(RenderTreePath(gs + [Segment(name, indices)], ListKey))
  {
    var t := RenderTreePath(gs + [Segment(name, indices + [n])], NoKey);
    var up := RenderTreePath(gs + [Segment(name, indices)], ListKey);
    EntryParentText(gs, name, indices, n);
    RenderSnoc(gs, Segment(name, indices));
    NatStringHasNoSeparator(n, ':');
    NatStringHasNoSeparator(n, '.');
    assert t[|t| - 1] == '.' by {
      RenderSnoc(gs, Segment(name, indices + [n]));
    }
    ParentAfterSeparator(up, NatToString(n), t);
  }

  // ---------------------------------------------------------------------
  // The order of a node's children

  datatype NodeKind = AttributesNode | NumerationNode | ContainerNode

  /** A child of a structured-data node: what kind of node it is, and the
      node itself. */
  datatype Child<T> = Child(kind: NodeKind, node: T)

  function KindRank(k: NodeKind): nat
  {
    match k
    case AttributesNode => 1
    case NumerationNode => 2
    case ContainerNode => 3
  }

  /** The children of kind `k`, in their order. */
  function OfKind<T>(cs: seq<Child<T>>, k: NodeKind): (r: seq<Child<T>>)
    ensures |r| <= |cs|
    ensures forall i :: 0 <= i < |r| ==> r[i].kind == k
    ensures forall i :: 0 <= i < |cs| && cs[i].kind == k ==> cs[i] in r
    ensures forall c :: c in r ==> c in cs
  {
    if cs == [] then []
    else
      var front := OfKind(cs[..|cs| - 1], k);
      var last := cs[|cs| - 1];
      if last.kind == k then front + [last] else front
  }

  /** `sort_children`: no children give none; otherwise the attributes come
      first, then the numerations, then the containers, each group in its
      original order (Python's sort is stable). */
  function SortChildren<T>(children: Option<seq<Child<T>>>): (r: seq<Child<T>>)
    ensures children.None? ==> r == []
    ensures children.Some? ==> |r| == |children.value|
    ensures forall i, j :: 0 <= i < j < |r| ==> KindRank(r[i].kind) <= KindRank(r[j].kind)
  {
    match children
    case None => []
    case Some(cs) =>
      if cs == [] then []
      else
        OfKindCount(cs);
        OfKind(cs, AttributesNode) + OfKind(cs, NumerationNode) + OfKind(cs, ContainerNode)
  }

  lemma {:induction false} OfKindCount<T>(cs: seq<Child<T>>)
    ensures |OfKind(cs, AttributesNode)| + |OfKind(cs, NumerationNode)| + |OfKind(cs, ContainerNode)| == |cs|
  {
    if cs != [] {
      OfKindCount(cs[..|cs| - 1]);
    }
  }

  lemma {:induction false} OfKindMultiset<T>(cs: seq<Child<T>>)
    ensures multiset(OfKind(cs, AttributesNode)) + multiset(OfKind(cs, NumerationNode)) + multiset(OfKind(cs, ContainerNode))
            == multiset(cs)
  {
    if cs != [] {
      var front := cs[..|cs| - 1];
      var last := cs[|cs| - 1];
      OfKindMultiset(front);
      assert cs == front + [last];
      assert multiset(cs) == multiset(front) + multiset{last};
      var a, n, c := OfKind(front, AttributesNode), OfKind(front, NumerationNode), OfKind(front, ContainerNode);
      match last.kind {
        case AttributesNode => assert multiset(a + [last]) == multiset(a) + multiset{last};
        case NumerationNode => assert multiset(n + [last]) == multiset(n) + multiset{last};
        case ContainerNode => assert multiset(c + [last]) == multiset(c) + multiset{last};
      }
    }
  }

  lemma {:induction false} OfKindAppend<T>(a: seq<Child<T>>, b: seq<Child<T>>, k: NodeKind)
    ensures OfKind(a + b, k) == OfKind(a, k) + OfKind(b, k)
    decreases |b|
  {
    if b == [] {
      assert a + b == a;
    } else {
      assert (a + b)[..|a + b| - 1] == a + b[..|b| - 1];
      OfKindAppend(a, b[..|b| - 1], k);
    }
  }

  lemma {:induction false} OfKindOfKind<T>(cs: seq<Child<T>>, k: NodeKind, k2: NodeKind)
    ensures OfKind(OfKind(cs, k), k2) == if k == k2 then OfKind(cs, k) else []
  {
    if cs != [] {
      var front := cs[..|cs| - 1];
      OfKindOfKind(front, k, k2);
      var last := cs[|cs| - 1];
      if last.kind == k {
        OfKindAppend(OfKind(front, k), [last], k2);
        assert OfKind([last], k2) == OfKind([], k2) + (if last.kind == k2 then [last] else []);
      }
    }
  }

  /** The sorted children are the children, each as often as before. */
  lemma SortChildrenPermutes<T>(cs: seq<Child<T>>)
    ensures multiset(SortChildren(Some(cs))) == multiset(cs)
  {
    OfKindMultiset(cs);
  }

  /** Children of the same kind keep their order. */
  lemma SortChildrenStable<T>(cs: seq<Child<T>>, k: NodeKind)
    ensures OfKind(SortChildren(Some(cs)), k) == OfKind(cs, k)
  {
    if cs != [] {
      var a := OfKind(cs, AttributesNode);
      var n := OfKind(cs, NumerationNode);
      var c := OfKind(cs, ContainerNode);
      OfKindAppend(a + n, c, k);
      OfKindAppend(a, n, k);
      OfKindOfKind(cs, AttributesNode, k);
      OfKindOfKind(cs, NumerationNode, k);
      OfKindOfKind(cs, ContainerNode, k);
    }
  }

  // ---------------------------------------------------------------------
  // The paths a user may see

  /** One configured path of a contact group: a dotted path and the
      attributes shown below it (absent: all of them). */
  datatype PathEntry = PathEntry(path: string, attributes: Option<seq<string>>)

  /** The `inventory_paths` setting of a contact group. */
  datatype GroupPaths = AllowAll | ForbidAll | Paths(entries: seq<PathEntry>)

  datatype Permitted = Permitted(path: seq<PathPart>, attributes: Option<seq<string>>)

  /** A configured path, split at every dot; a piece `int` accepts becomes
      an index, every other piece (the empty one too) a name. */
  function EntryPath(path: string): (r: seq<PathPart>)
    ensures |r| == |Split(path, '.')|
    ensures forall k :: 0 <= k < |r| ==> r[k] == ConvertPart(Split(path, '.')[k])
  {
    var pieces := Split(path, '.');
    seq(|pieces|, k requires 0 <= k < |pieces| => ConvertPart(pieces[k]))
  }

  function Permits(entries: seq<PathEntry>): (r: seq<Permitted>)
    ensures |r| == |entries|
    ensures forall k :: 0 <= k < |r| ==> r[k] == Permitted(EntryPath(entries[k].path), entries[k].attributes)
  {
    if entries == [] then []
    else Permits(entries[..|entries| - 1]) + [Permitted(EntryPath(entries[|entries| - 1].path), entries[|entries| - 1].attributes)]
  }

  /** The setting of `group`; a group that is not configured, or has no
      setting, is `None`. */
  function Setting(contactGroups: map<string, Option<GroupPaths>>, group: string): Option<GroupPaths>
  {
    if group in contactGroups then contactGroups[group] else None
  }

  /** A group that sees the whole tree: no setting (the old
      configuration) or `allow_all`. */
  predicate SeesAll(contactGroups: map<string, Option<GroupPaths>>, group: string)
  {
    Setting(contactGroups, group) == None || Setting(contactGroups, group) == Some(AllowAll)
  }

  /** The paths the groups `groups` grant, in order; a group that forbids
      everything grants nothing. */
  function Granted(contactGroups: map<string, Option<GroupPaths>>, groups: seq<string>): seq<Permitted>
  {
    if groups == [] then []
    else Granted(contactGroups, groups[..|groups| - 1]) + GroupGrant(contactGroups, groups[|groups| - 1])
  }

  /** The paths one group grants. */
  function GroupGrant(contactGroups: map<string, Option<GroupPaths>>, group: string): seq<Permitted>
  {
    match Setting(contactGroups, group)
    case Some(Paths(entries)) => Permits(entries)
    case _ => []
  }

  /** No group of `groups` sees the whole tree. */
  predicate NoneSeesAll(contactGroups: map<string, Option<GroupPaths>>, groups: seq<string>)
  {
    groups == [] || (NoneSeesAll(contactGroups, groups[..|groups| - 1]) && !SeesAll(contactGroups, groups[|groups| - 1]))
  }

  lemma {:induction false} NoneSeesAllMeans(contactGroups: map<string, Option<GroupPaths>>, groups: seq<string>)
    ensures NoneSeesAll(contactGroups, groups) <==> forall k :: 0 <= k < |groups| ==> !SeesAll(contactGroups, groups[k])
    decreases |groups|
  {
    if groups != [] {
      var front := groups[..|groups| - 1];
      NoneSeesAllMeans(contactGroups, front);
      assert forall k :: 0 <= k < |front| ==> front[k] == groups[k];
    }
  }

  /** What `_get_permitted_inventory_paths` returns for a user in the
      contact groups `userGroups`: `None` (the whole tree) for a user
      without groups or with a group that sees everything, else the paths
      all groups grant. */
  function PermittedPaths(contactGroups: map<string, Option<GroupPaths>>, userGroups: seq<string>): (r: Option<seq<Permitted>>)
    ensures userGroups == [] ==> r.None?
    ensures r.Some? ==>
      && r.value == Granted(contactGroups, userGroups)
      && forall k :: 0 <= k < |userGroups| ==> !SeesAll(contactGroups, userGroups[k])
  {
    NoneSeesAllMeans(contactGroups, userGroups);
    if userGroups == [] || !NoneSeesAll(contactGroups, userGroups) then None
    else Some(Granted(contactGroups, userGroups))
  }

  /** The whole tree is what a user sees who has no groups or has a group
      that sees everything; any other user sees what the groups grant. */
  lemma PermittedPathsMeans(contactGroups: map<string, Option<GroupPaths>>, userGroups: seq<string>)
    ensures PermittedPaths(contactGroups, userGroups).None? <==>
      userGroups == [] || exists k :: 0 <= k < |userGroups| && SeesAll(contactGroups, userGroups[k])
    ensures PermittedPaths(contactGroups, userGroups).Some? ==>
      PermittedPaths(contactGroups, userGroups).value == Granted(contactGroups, userGroups)
  {
    NoneSeesAllMeans(contactGroups, userGroups);
  }

  /** `_get_permitted_inventory_paths`: the loop over the user's groups
      with its early returns and the `forbid_whole_tree` flag. The flag
      never changes the result: with nothing permitted both ways end in an
      empty list. */
  method GetPermittedInventoryPaths(contactGroups: map<string, Option<GroupPaths>>, userGroups: seq<string>)
    returns (r: Option<seq<Permitted>>)
    ensures r == PermittedPaths(contactGroups, userGroups)
  {
    if userGroups == [] {
      return None;
    }
    var forbidWholeTree := false;
    var permitted: seq<Permitted> := [];
    var i := 0;
    while i < |userGroups|
      invariant 0 <= i <= |userGroups|
      invariant NoneSeesAll(contactGroups, userGroups[..i])
      invariant permitted == Granted(contactGroups, userGroups[..i])
    {
      var group := userGroups[i];
      assert userGroups[..i + 1][..i] == userGroups[..i] && userGroups[..i + 1][i] == group;
      assert Granted(contactGroups, userGroups[..i + 1]) ==
        Granted(contactGroups, userGroups[..i]) + GroupGrant(contactGroups, group);
      var paths := Setting(contactGroups, group);
      if paths.None? {
        assert SeesAll(contactGroups, userGroups[i]);
        NoneSeesAllMeans(contactGroups, userGroups);
        return None;
      }
      if paths.value.AllowAll? {
        assert SeesAll(contactGroups, userGroups[i]);
        NoneSeesAllMeans(contactGroups, userGroups);
        return None;
      }
      if paths.value.ForbidAll? {
        forbidWholeTree := true;
      } else {
        permitted := AppendPermits(permitted, paths.value.entries);
      }
      i := i + 1;
    }
    assert userGroups[..i] == userGroups;
    if forbidWholeTree && permitted == [] {
      return Some([]);
    }
    return Some(permitted);
  }

  /** The loop over one group's configured entries. */
  method AppendPermits(permitted: seq<Permitted>, entries: seq<PathEntry>) returns (r: seq<Permitted>)
    ensures r == permitted + Permits(entries)
  {
    r := permitted;
    var j := 0;
    while j < |entries|
      invariant 0 <= j <= |entries|
      invariant r == permitted + Permits(entries[..j])
    {
      assert entries[..j + 1][..j] == entries[..j];
      var parsed := ParseEntryPath(entries[j].path);
      r := r + [Permitted(parsed, entries[j].attributes)];
      j := j + 1;
    }
    assert entries[..j] == entries;
  }

  /** The innermost loop of `_get_permitted_inventory_paths`: one
      configured path, piece by piece. */
  method ParseEntryPath(path: string) returns (parsed: seq<PathPart>)
    ensures parsed == EntryPath(path)
  {
    var pieces := Split(path, '.');
    parsed := [];
    var n := 0;
    while n < |pieces|
      invariant 0 <= n <= |pieces|
      invariant parsed == EntryPath(path)[..n]
    {
      parsed := parsed + [ConvertPart(pieces[n])];
      n := n + 1;
    }
    assert EntryPath(path)[..n] == EntryPath(path);
  }

  lemma {:induction false} GrantedAppend(contactGroups: map<string, Option<GroupPaths>>, a: seq<string>, b: seq<string>)
    ensures Granted(contactGroups, a + b) == Granted(contactGroups, a) + Granted(contactGroups, b)
    decreases |b|
  {
    if b == [] {
      assert a + b == a;
    } else {
      var front := b[..|b| - 1];
      var g := b[|b| - 1];
      assert (a + b)[..|a + b| - 1] == a + front;
      assert (a + b)[|a + b| - 1] == g;
      GrantedAppend(contactGroups, a, front);
      var x, y, z := Granted(contactGroups, a), Granted(contactGroups, front), GroupGrant(contactGroups, g);
      assert Granted(contactGroups, a + b) == (x + y) + z;
      assert Granted(contactGroups, b) == y + z;
      AppendAssociative(x, y, z);
    }
  }

  /** One group that sees everything lets the user see the whole tree,
      whatever the other groups say. */
  lemma AllowAllWins(contactGroups: map<string, Option<GroupPaths>>, a: seq<string>, g: string, b: seq<string>)
    requires SeesAll(contactGroups, g)
    ensures PermittedPaths(contactGroups, a + [g] + b) == None
  {
    assert (a + [g] + b)[|a|] == g;
    PermittedPathsMeans(contactGroups, a + [g] + b);
  }

  /** A user whose groups all forbid the tree sees nothing of it. */
  lemma ForbidAllSeesNothing(contactGroups: map<string, Option<GroupPaths>>, userGroups: seq<string>)
    requires userGroups != []
    requires forall k :: 0 <= k < |userGroups| ==> Setting(contactGroups, userGroups[k]) == Some(ForbidAll)
    ensures PermittedPaths(contactGroups, userGroups) == Some([])
  {
    GrantedForbidden(contactGroups, userGroups);
    NoneSeesAllMeans(contactGroups, userGroups);
  }

  lemma {:induction false} GrantedForbidden(contactGroups: map<string, Option<GroupPaths>>, groups: seq<string>)
    requires forall k :: 0 <= k < |groups| ==> Setting(contactGroups, groups[k]) == Some(ForbidAll)
    ensures Granted(contactGroups, groups) == []
  {
    if groups != [] {
      GrantedForbidden(contactGroups, groups[..|groups| - 1]);
    }
  }

  /** Adding a group that forbids the tree to a user who is already
      restricted changes nothing: forbidding adds no path and removes
      none. */
  lemma ForbiddenGroupChangesNothing(contactGroups: map<string, Option<GroupPaths>>, userGroups: seq<string>, g: string)
    requires userGroups != [] && Setting(contactGroups, g) == Some(ForbidAll)
    ensures PermittedPaths(contactGroups, userGroups + [g]) == PermittedPaths(contactGroups, userGroups)
  {
    var more := userGroups + [g];
    assert more[..|more| - 1] == userGroups && more[|more| - 1] == g;
    assert NoneSeesAll(contactGroups, more) == NoneSeesAll(contactGroups, userGroups);
    var granted := Granted(contactGroups, userGroups);
    assert GroupGrant(contactGroups, g) == [];
    assert Granted(contactGroups, more) == granted + [];
    assert granted + [] == granted;
  }

  /** A restricted user sees what the groups grant, group after group. */
  lemma PermittedUnion(contactGroups: map<string, Option<GroupPaths>>, a: seq<string>, b: seq<string>)
    requires a != [] && b != []
    requires PermittedPaths(contactGroups, a).Some? && PermittedPaths(contactGroups, b).Some?
    ensures PermittedPaths(contactGroups, a + b) ==
      Some(PermittedPaths(contactGroups, a).value + PermittedPaths(contactGroups, b).value)
  {
    GrantedAppend(contactGroups, a, b);
    NoneSeesAllMeans(contactGroups, a);
    NoneSeesAllMeans(contactGroups, b);
    NoneSeesAllMeans(contactGroups, a + b);
    forall k | 0 <= k < |a + b|
      ensures !SeesAll(contactGroups, (a + b)[k])
    {
      if k < |a| {
        assert (a + b)[k] == a[k];
      } else {
        assert (a + b)[k] == b[k - |a|];
      }
    }
  }

  /** Configured paths of plain names, and numeration indices, parse back
      into their parts. */
  lemma EntryPathRoundTrip(parts: seq<PathPart>)
    requires parts != []
    requires forall k :: 0 <= k < |parts| ==> PlainPart(parts[k])
    ensures EntryPath(Join(PartTexts(parts), ".")) == parts
  {
    var texts := PartTexts(parts);
    PartTextsUndotted(parts);
    SplitJoin(texts, '.');
    assert [ '.' ] == ".";
    var path := Join(texts, ".");
    assert Split(path, '.') == texts;
    PartsFromTexts(parts, texts, EntryPath(path));
  }

  lemma PartsFromTexts(parts: seq<PathPart>, texts: seq<string>, r: seq<PathPart>)
    requires forall k :: 0 <= k < |parts| ==> PlainPart(parts[k])
    requires |texts| == |parts| && forall k :: 0 <= k < |parts| ==> texts[k] == PartText(parts[k])
    requires |r| == |texts| && forall k :: 0 <= k < |texts| ==> r[k] == ConvertPart(texts[k])
    ensures r == parts
  {
    forall k | 0 <= k < |parts|
      ensures r[k] == parts[k]
    {
      PartTextConverts(parts[k]);
    }
  }

  lemma PartTextsUndotted(parts: seq<PathPart>)
    requires forall k :: 0 <= k < |parts| ==> PlainPart(parts[k])
    ensures forall k :: 0 <= k < |parts| ==> '.' !in PartTexts(parts)[k]
  {
    forall k | 0 <= k < |parts|
      ensures '.' !in PartTexts(parts)[k]
    {
      if parts[k].Index? {
        NatStringHasNoSeparator(parts[k].n, '.');
      }
    }
  }

  /** A plain part converts back from its text. */
  lemma PartTextConverts(p: PathPart)
    requires PlainPart(p)
    ensures ConvertPart(PartText(p)) == p
  {
    if p.Index? {
      ParseNatToString(p.n);
    }
  }

  predicate PlainPart(p: PathPart)
  {
    match p
    case Name(name) => '.' !in name && ParseInt(name).None?
    case Index(n) => n >= 0
  }

  function PartText(p: PathPart): string
    requires PlainPart(p)
  {
    match p
    case Name(name) => name
    case Index(n) => NatToString(n)
  }

  function PartTexts(parts: seq<PathPart>): (r: seq<string>)
    requires forall k :: 0 <= k < |parts| ==> PlainPart(parts[k])
    ensures |r| == |parts|
    ensures forall k :: 0 <= k < |r| ==> r[k] == PartText(parts[k])
  {
    if parts == [] then [] else PartTexts(parts[..|parts| - 1]) + [PartText(parts[|parts| - 1])]
  }

  // ---------------------------------------------------------------------
  // The per-request tree cache

  /** The trees loaded during one request, by host name. A host name with
      a `/` is never looked up on disk and so never cached. */
  class InventoryTreeCache<T> {
    var cache: map<string, T>

    ghost predicate Valid()
      reads this
    {
      forall h :: h in cache ==> h != "" && '/' !in h
    }

    constructor()
      ensures cache == map[] && Valid()
    {
      cache := map[];
    }

    /** `_load_inventory_tree`: nothing for an empty host name; the
        cached tree when there is one; nothing for a name with a `/`;
        otherwise the tree read from the host's file (`load`), which is
        then cached. */
    method Load(hostname: string, load: string -> T) returns (r: Option<T>)
      requires Valid()
      modifies this
      ensures Valid()
      ensures hostname == "" ==> r == None && cache == old(cache)
      ensures hostname != "" && hostname in old(cache) ==> r == Some(old(cache)[hostname]) && cache == old(cache)
      ensures hostname !in old(cache) && '/' in hostname ==> r == None && cache == old(cache)
      ensures hostname != "" && hostname !in old(cache) && '/' !in hostname ==>
        r == Some(load(hostname)) && cache == old(cache)[hostname := load(hostname)]
      ensures '/' in hostname ==> r == None
    {
      if hostname == "" {
        return None;
      }
      if hostname in cache {
        return Some(cache[hostname]);
      }
      if '/' in hostname {
        return None;
      }
      var tree := load(hostname);
      cache := cache[hostname := tree];
      return Some(tree);
    }
  }
}
