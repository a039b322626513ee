/** `get_history`: the trees a host had over time, each paired with the
    one before it, newest first. Trees are opaque values of a type
    parameter `T`; reading them is a parameter. */
module InventoryHistory {
  import opened Wrappers
  import opened Text

  /** The host's current tree: none, the tree with the modification time
      of its file, or an error while reading either. */
  datatype CurrentTree<T> = NoTree | Tree(tree: T, mtime: int) | Unreadable

  datatype Snapshot<T> = Snapshot(time: int, tree: T)

  /** One step of the history: the time of the newer tree, the tree before
      it and the newer tree. */
  datatype Comparison<T> = Comparison(time: int, previous: T, current: T)

  /** The archived trees: every file whose name `int` accepts, read from
      the file named by that number (`load` gives `None` where reading
      fails); unreadable ones are skipped. */
  function Archived<T>(names: seq<string>, load: int -> Option<T>): (r: seq<Snapshot<T>>)
    ensures |r| <= |names|
  {
    if names == [] then []
    else
      var front := Archived(names[..|names| - 1], load);
      match ParseInt(names[|names| - 1])
      case None => front
      case Some(t) =>
        match load(t)
        case None => front
        case Some(tree) => front + [Snapshot(t, tree)]
  }

  function Collected<T>(current: CurrentTree<T>, names: seq<string>, load: int -> Option<T>): seq<Snapshot<T>>
  {
    (if current.Tree? then [Snapshot(current.mtime, current.tree)] else []) + Archived(names, load)
  }

  predicate SortedByTime<T>(s: seq<Snapshot<T>>)
  {
    forall i, j :: 0 <= i < j < |s| ==> s[i].time <= s[j].time
  }

  /** `x` put after every element not later than it. */
  function Insert<T>(s: seq<Snapshot<T>>, x: Snapshot<T>): (r: seq<Snapshot<T>>)
    ensures |r| == |s| + 1
    ensures multiset(r) == multiset(s) + multiset{x}
  {
    if s == [] || s[|s| - 1].time <= x.time then s + [x]
    else
      var front := s[..|s| - 1];
      assert s == front + [s[|s| - 1]];
      Insert(front, x) + [s[|s| - 1]]
  }

  /** Python's stable `sorted` by time, as an insertion sort. */
  function SortByTime<T>(s: seq<Snapshot<T>>): (r: seq<Snapshot<T>>)
    ensures |r| == |s|
    ensures multiset(r) == multiset(s)
  {
    if s == [] then []
    else
      var front := s[..|s| - 1];
      assert s == front + [s[|s| - 1]];
      Insert(SortByTime(front), s[|s| - 1])
  }

  lemma {:induction false} InsertSorted<T>(s: seq<Snapshot<T>>, x: Snapshot<T>)
    requires SortedByTime(s)
    ensures SortedByTime(Insert(s, x))
    ensures forall i :: 0 <= i < |Insert(s, x)| ==> Insert(s, x)[i] == x || Insert(s, x)[i] in s
    decreases |s|
  {
    if !(s == [] || s[|s| - 1].time <= x.time) {
      var front := s[..|s| - 1];
      InsertSorted(front, x);
      var r := Insert(front, x);
      forall i | 0 <= i < |r|
        ensures r[i].time <= s[|s| - 1].time
      {
        if r[i] != x {
          var k :| 0 <= k < |front| && front[k] == r[i];
        }
      }
    }
  }

  lemma {:induction false} SortByTimeSorted<T>(s: seq<Snapshot<T>>)
    ensures SortedByTime(SortByTime(s))
  {
    if s != [] {
      SortByTimeSorted(s[..|s| - 1]);
      InsertSorted(SortByTime(s[..|s| - 1]), s[|s| - 1]);
    }
  }

  /** The trees of one time, in their order. */
  function AtTime<T>(s: seq<Snapshot<T>>, t: int): seq<Snapshot<T>>
  {
    if s == [] then []
    else AtTime(s[..|s| - 1], t) + if s[|s| - 1].time == t then [s[|s| - 1]] else []
  }

  lemma {:induction false} AtTimeAppend<T>(a: seq<Snapshot<T>>, b: seq<Snapshot<T>>, t: int)
    ensures AtTime(a + b, t) == AtTime(a, t) + AtTime(b, t)
    decreases |b|
  {
    if b == [] {
      assert a + b == a;
    } else {
      assert (a + b)[..|a + b| - 1] == a + b[..|b| - 1];
      AtTimeAppend(a, b[..|b| - 1], t);
    }
  }

  lemma {:induction false} InsertAtTime<T>(s: seq<Snapshot<T>>, x: Snapshot<T>, t: int)
    ensures AtTime(Insert(s, x), t) == AtTime(s, t) + if x.time == t then [x] else []
    decreases |s|
  {
    if s == [] || s[|s| - 1].time <= x.time {
      AtTimeAppend(s, [x], t);
      assert AtTime([x], t) == AtTime([], t) + if x.time == t then [x] else [];
    } else {
      var front := s[..|s| - 1];
      var last := s[|s| - 1];
      InsertAtTime(front, x, t);
      AtTimeAppend(Insert(front, x), [last], t);
      assert AtTime([last], t) == AtTime([], t) + if last.time == t then [last] else [];
    }
  }

  /** Sorting keeps trees of equal time in their order. */
  lemma {:induction false} SortByTimeStable<T>(s: seq<Snapshot<T>>, t: int)
    ensures AtTime(SortByTime(s), t) == AtTime(s, t)
  {
    if s != [] {
      var front := s[..|s| - 1];
      SortByTimeStable(front, t);
      InsertAtTime(SortByTime(front), s[|s| - 1], t);
    }
  }

  /** Each tree of the sorted history paired with the one before it, the
      oldest with the empty tree. */
  function Pairs<T>(s: seq<Snapshot<T>>, empty: T): (r: seq<Comparison<T>>)
    ensures |r| == |s|
  {
    seq(|s|, k requires 0 <= k < |s| => Comparison(s[k].time, if k == 0 then empty else s[k - 1].tree, s[k].tree))
  }

  function Reverse<T>(s: seq<T>): (r: seq<T>)
    ensures |r| == |s|
    ensures forall k {:trigger r[k]} :: 0 <= k < |s| ==> r[k] == s[|s| - 1 - k]
  {
    seq(|s|, k requires 0 <= k < |s| => s[|s| - 1 - k])
  }

  /** What `get_history` returns: nothing for a host name with a `/`, an
      empty history when the current tree cannot be read, else the
      comparisons newest first. */
  function History<T>(hostname: string, current: CurrentTree<T>, names: seq<string>, load: int -> Option<T>,
                      empty: T): (r: Option<seq<Comparison<T>>>)
    ensures r.None? <==> '/' in hostname
    ensures '/' !in hostname && current.Unreadable? ==> r == Some([])
    ensures r.Some? && !current.Unreadable? ==> |r.value| == |Collected(current, names, load)|
  {
    if '/' in hostname then None
    else if current.Unreadable? then Some([])
    else Some(Reverse(Pairs(SortByTime(Collected(current, names, load)), empty)))
  }

  /** `get_history`: the current tree, then the archive directory's
      entries (`names`, empty when there is no such directory), then one
      pass over the sorted trees carrying the previous tree. */
  method GetHistory<T>(hostname: string, current: CurrentTree<T>, names: seq<string>, load: int -> Option<T>,
                       empty: T) returns (r: Option<seq<Comparison<T>>>)
    ensures r == History(hostname, current, names, load, empty)
  {
    if '/' in hostname {
      return None;
    }
    var history: seq<Snapshot<T>> := [];
    match current {
      case Unreadable => return Some([]);
      case NoTree =>
      case Tree(tree, mtime) => history := [Snapshot(mtime, tree)];
    }
    var archived := CollectArchived(names, load);
    history := history + archived;
    var comparable := PairHistory(SortByTime(history), empty);
    return Some(Reverse(comparable));
  }

  /** The loop over the archive directory of `get_history`. */
  method CollectArchived<T>(names: seq<string>, load: int -> Option<T>) returns (history: seq<Snapshot<T>>)
    ensures history == Archived(names, load)
  {
    history := [];
    var i := 0;
    while i < |names|
      invariant 0 <= i <= |names|
      invariant history == Archived(names[..i], load)
    {
      assert names[..i + 1][..i] == names[..i];
      var timestamp := ParseInt(names[i]);
      if timestamp.Some? {
        var tree := load(timestamp.value);
        if tree.Some? {
          history := history + [Snapshot(timestamp.value, tree.value)];
        }
      }
      i := i + 1;
    }
    assert names[..i] == names;
  }

  /** The loop of `get_history` that pairs each tree with the one before
      it, carrying the previous tree. */
  method PairHistory<T>(sorted: seq<Snapshot<T>>, empty: T) returns (comparable: seq<Comparison<T>>)
    ensures comparable == Pairs(sorted, empty)
  {
    comparable := [];
    var previous := empty;
    var k := 0;
    while k < |sorted|
      invariant 0 <= k <= |sorted|
      invariant comparable == Pairs(sorted, empty)[..k]
      invariant previous == if k == 0 then empty else sorted[k - 1].tree
    {
      comparable := comparable + [Comparison(sorted[k].time, previous, sorted[k].tree)];
      previous := sorted[k].tree;
      k := k + 1;
    }
  }

  /** The newer trees of a history, as snapshots. */
  function Newer<T>(r: seq<Comparison<T>>): (s: seq<Snapshot<T>>)
    ensures |s| == |r|
    ensures forall k :: 0 <= k < |r| ==> s[k] == Snapshot(r[k].time, r[k].current)
  {
    seq(|r|, k requires 0 <= k < |r| => Snapshot(r[k].time, r[k].current))
  }

  /** The reversed pairing is a chain, newest first: each step starts
      from the tree the next step ends with, the oldest from the empty
      tree. */
  lemma ReversedPairsChain<T>(s: seq<Snapshot<T>>, empty: T)
    ensures var r := Reverse(Pairs(s, empty));
      && (forall k :: 0 <= k < |r| - 1 ==> r[k].previous == r[k + 1].current)
      && (|r| > 0 ==> r[|r| - 1].previous == empty)
  {
    var p := Pairs(s, empty);
    var r := Reverse(p);
    var n := |s|;
    forall k | 0 <= k < n - 1
      ensures r[k].previous == r[k + 1].current
    {
      assert r[k] == p[n - 1 - k];
      assert r[k + 1] == p[n - 2 - k];
    }
    if n > 0 {
      assert r[n - 1] == p[0];
    }
  }

  /** Times descend along a sequence whose reversal is sorted. */
  lemma DescendingTimes<T>(r: seq<Comparison<T>>)
    requires SortedByTime(Reverse(Newer(r)))
    ensures forall k :: 0 <= k < |r| - 1 ==> r[k].time >= r[k + 1].time
  {
    var v := Reverse(Newer(r));
    var n := |r|;
    forall k | 0 <= k < n - 1
      ensures r[k].time >= r[k + 1].time
    {
      assert v[n - 1 - k] == Newer(r)[k];
      assert v[n - 2 - k] == Newer(r)[k + 1];
    }
  }

  /** The newer trees of the reversed pairing are the sequence reversed. */
  lemma ReversedPairsNewer<T>(s: seq<Snapshot<T>>, empty: T)
    ensures Reverse(Newer(Reverse(Pairs(s, empty)))) == s
  {
    var v := Reverse(Newer(Reverse(Pairs(s, empty))));
    forall k | 0 <= k < |s|
      ensures v[k] == s[k]
    {
      ReversedPairsNewerAt(s, empty, k);
    }
  }

  lemma ReversedPairsNewerAt<T>(s: seq<Snapshot<T>>, empty: T, k: nat)
    requires k < |s|
    ensures |Reverse(Newer(Reverse(Pairs(s, empty))))| == |s|
    ensures Reverse(Newer(Reverse(Pairs(s, empty))))[k] == s[k]
  {
    var p := Pairs(s, empty);
    var r := Reverse(p);
    var q := Newer(r);
    var j := |s| - 1 - k;
    assert Reverse(q)[k] == Snapshot(r[j].time, r[j].current);
    assert r[j] == p[k] == Comparison(s[k].time, p[k].previous, s[k].tree);
  }

  /** The history is a chain, newest first: each step's older tree is the
      next step's newer one, the oldest step starts from the empty tree,
      and every collected tree appears exactly once as a newer tree, trees
      of the same time in the order they were collected. */
  lemma HistoryChain<T>(hostname: string, current: CurrentTree<T>, names: seq<string>, load: int -> Option<T>,
                        empty: T, t: int)
    requires '/' !in hostname && !current.Unreadable?
    ensures var r := History(hostname, current, names, load, empty).value;
      var c := Collected(current, names, load);
      && |r| == |c|
      && (forall k :: 0 <= k < |r| - 1 ==> r[k].previous == r[k + 1].current && r[k].time >= r[k + 1].time)
      && (|r| > 0 ==> r[|r| - 1].previous == empty)
      && Reverse(Newer(r)) == SortByTime(c)
      && multiset(Newer(r)) == multiset(c)
      && AtTime(Reverse(Newer(r)), t) == AtTime(c, t)
  {
    var c := Collected(current, names, load);
    var sorted := SortByTime(c);
    SortByTimeSorted(c);
    SortByTimeStable(c, t);
    ReversedPairsChain(sorted, empty);
    ReversedPairsNewer(sorted, empty);
    var r := History(hostname, current, names, load, empty).value;
    DescendingTimes(r);
    assert r == Reverse(Pairs(sorted, empty));
    assert Reverse(Newer(r)) == sorted;
    ReverseMultiset(Newer(r));
  }

  lemma {:induction false} ReverseMultiset<T>(s: seq<T>)
    ensures multiset(Reverse(s)) == multiset(s)
  {
    if s != [] {
      var rest := s[1..];
      ReverseMultiset(rest);
      assert Reverse(s) == Reverse(rest) + [s[0]];
      assert s == [s[0]] + rest;
    }
  }

  /** With a current tree newer than every archived one, the history
      starts with the current tree. */
  lemma HistoryStartsWithCurrent<T>(hostname: string, tree: T, mtime: int, names: seq<string>,
                                    load: int -> Option<T>, empty: T)
    requires '/' !in hostname
    requires forall k :: 0 <= k < |Archived(names, load)| ==> Archived(names, load)[k].time < mtime
    ensures var r := History(hostname, Tree(tree, mtime), names, load, empty).value;
      |r| > 0 && r[0].current == tree && r[0].time == mtime
  {
    var c := Collected(Tree(tree, mtime), names, load);
    var x := Snapshot(mtime, tree);
    var sorted := SortByTime(c);
    SortByTimeSorted(c);
    assert x in multiset(c);
    var last := sorted[|sorted| - 1];
    assert last in multiset(c);
    assert last in c;
  }
}
