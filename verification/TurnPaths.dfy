/** The dispatcher's worker table: unique ids, interleaved so that neighbours use different paths. */
module TurnPaths {
  import opened Sums

  /** A registered worker. Paths are numbered in the order of their names. */
  datatype Entry = Entry(id: nat, incarnation: nat, path: nat)

  predicate Before(a: Entry, b: Entry)
  {
    a.path < b.path || (a.path == b.path && a.id <= b.id)
  }

  ghost predicate IsSorted(s: seq<Entry>)
  {
    forall i, j :: 0 <= i < j < |s| ==> Before(s[i], s[j])
  }

  function Insert(s: seq<Entry>, e: Entry): seq<Entry>
  {
    if s == [] || Before(e, s[0]) then [e] + s else [s[0]] + Insert(s[1..], e)
  }

  lemma {:induction false} InsertBag(s: seq<Entry>, e: Entry)
    ensures multiset(Insert(s, e)) == multiset(s) + multiset{e}
  {
    if s != [] && !Before(e, s[0]) {
      InsertBag(s[1..], e);
      assert s == [s[0]] + s[1..];
    }
  }

  lemma {:induction false} InsertSorted(s: seq<Entry>, e: Entry)
    requires IsSorted(s)
    ensures IsSorted(Insert(s, e))
    ensures forall x :: x in Insert(s, e) ==> x in s || x == e
  {
    if s != [] && !Before(e, s[0]) {
      var rest := Insert(s[1..], e);
      InsertSorted(s[1..], e);
      assert forall x :: x in rest ==> Before(s[0], x);
    }
  }

  /** The library sort by path and then id. */
  function Sort(s: seq<Entry>): seq<Entry>
  {
    if s == [] then [] else Insert(Sort(s[1..]), s[0])
  }

  lemma {:induction false} SortSorts(s: seq<Entry>)
    ensures IsSorted(Sort(s)) && multiset(Sort(s)) == multiset(s)
  {
    if s != [] {
      SortSorts(s[1..]);
      InsertSorted(Sort(s[1..]), s[0]);
      InsertBag(Sort(s[1..]), s[0]);
      assert s == [s[0]] + s[1..];
    }
  }

  /** The entries of one path, in order. */
  function OfPath(s: seq<Entry>, path: nat): seq<Entry>
  {
    if s == [] then []
    else OfPath(s[..|s| - 1], path) + if s[|s| - 1].path == path then [s[|s| - 1]] else []
  }

  lemma OfPathAppend(s: seq<Entry>, e: Entry, path: nat)
    ensures OfPath(s + [e], path) == OfPath(s, path) + if e.path == path then [e] else []
  {
  }

  /** How many entries of its own path come before position i. */
  function Rank(s: seq<Entry>, i: nat): nat
    requires i < |s|
  {
    |OfPath(s[..i], s[i].path)|
  }

  predicate RankBefore(rank: nat, path: nat, rank': nat, path': nat)
  {
    rank < rank' || (rank == rank' && path < path')
  }

  /** Ordered by rank within the path and then by path. */
  ghost predicate Interleaved(s: seq<Entry>)
  {
    forall i, j :: 0 <= i < j < |s| ==> RankBefore(Rank(s, i), s[i].path, Rank(s, j), s[j].path)
  }

  /** Every path has exactly the entries of `s`, in its order. */
  ghost predicate SamePaths(r: seq<Entry>, s: seq<Entry>)
  {
    forall path :: OfPath(r, path) == OfPath(s, path)
  }

  // ----- Grouping a sorted sequence

  /** One group for each path of `s`, in path order. */
  ghost predicate GroupsOf(groups: seq<seq<Entry>>, s: seq<Entry>)
  {
    && (forall j :: 0 <= j < |groups| ==> groups[j] != [] && groups[j] == OfPath(s, groups[j][0].path))
    && (forall j, k :: 0 <= j < k < |groups| ==> groups[j][0].path < groups[k][0].path)
    && Covers(groups, s)
  }

  /** Every entry's path has its group. */
  ghost predicate Covers(groups: seq<seq<Entry>>, s: seq<Entry>)
    requires forall j :: 0 <= j < |groups| ==> groups[j] != []
  {
    forall i :: 0 <= i < |s| ==> HasGroup(groups, s[i].path)
  }

  ghost predicate HasGroup(groups: seq<seq<Entry>>, path: nat)
    requires forall j :: 0 <= j < |groups| ==> groups[j] != []
  {
    exists j :: 0 <= j < |groups| && groups[j][0].path == path
  }

  lemma {:induction false} OfPathMembers(s: seq<Entry>, path: nat)
    ensures forall e :: e in OfPath(s, path) ==> e in s && e.path == path
    ensures (forall e :: e in s ==> e.path != path) ==> OfPath(s, path) == []
  {
    if s != [] {
      OfPathMembers(s[..|s| - 1], path);
    }
  }

  /** Adding the next entry of a sorted sequence to its groups. */
  function AddToGroups(groups: seq<seq<Entry>>, e: Entry): seq<seq<Entry>>
  {
    if |groups| > 0 && groups[|groups| - 1] != [] && groups[|groups| - 1][0].path == e.path
    then groups[..|groups| - 1] + [groups[|groups| - 1] + [e]]
    else groups + [[e]]
  }

  /** A new entry's path is at least that of every group. */
  lemma PathsBelow(groups: seq<seq<Entry>>, s: seq<Entry>, e: Entry, j: nat)
    requires GroupsOf(groups, s) && IsSorted(s + [e]) && j < |groups|
    ensures groups[j][0].path <= e.path
  {
    var all := s + [e];
    OfPathMembers(s, groups[j][0].path);
    assert groups[j][0] in s;
    var i :| 0 <= i < |s| && s[i] == groups[j][0];
    assert Before(all[i], all[|s|]);
  }

  /** The entry continues the last group. */
  lemma SameGroup(groups: seq<seq<Entry>>, s: seq<Entry>, e: Entry)
    requires GroupsOf(groups, s) && |groups| > 0 && groups[|groups| - 1][0].path == e.path
    ensures GroupsOf(AddToGroups(groups, e), s + [e])
  {
    var all: seq<Entry> := s + [e];
    var grown: seq<seq<Entry>> := AddToGroups(groups, e);
    forall j | 0 <= j < |grown|
      ensures grown[j] != [] && grown[j][0].path == groups[j][0].path && grown[j] == OfPath(all, grown[j][0].path)
    {
      OfPathAppend(s, e, groups[j][0].path);
    }
    forall i | 0 <= i < |all|
      ensures HasGroup(grown, all[i].path)
    {
      var j := |groups| - 1;
      if i < |s| {
        assert HasGroup(groups, s[i].path);
        j :| 0 <= j < |groups| && groups[j][0].path == s[i].path;
      }
      assert grown[j][0].path == all[i].path;
    }
    assert Covers(grown, all);
  }

  /** The entry opens a new group: no entry before it has its path. */
  lemma NewPath(groups: seq<seq<Entry>>, s: seq<Entry>, e: Entry)
    requires GroupsOf(groups, s) && forall j :: 0 <= j < |groups| ==> groups[j][0].path < e.path
    ensures OfPath(s, e.path) == []
  {
    forall x | x in s
      ensures x.path != e.path
    {
      var i :| 0 <= i < |s| && s[i] == x;
      assert HasGroup(groups, s[i].path);
    }
    OfPathMembers(s, e.path);
  }

  lemma AllCovered(groups: seq<seq<Entry>>, s: seq<Entry>, e: Entry)
    requires (forall j :: 0 <= j < |groups| ==> groups[j] != []) && Covers(groups, s)
    ensures Covers(groups + [[e]], s + [e])
  {
    var all: seq<Entry> := s + [e];
    var grown: seq<seq<Entry>> := groups + [[e]];
    assert forall j :: 0 <= j < |groups| ==> grown[j] == groups[j];
    assert grown[|groups|] == [e];
    forall i | 0 <= i < |all|
      ensures HasGroup(grown, all[i].path)
    {
      var j := |groups|;
      if i < |s| {
        assert HasGroup(groups, s[i].path);
        j :| 0 <= j < |groups| && groups[j][0].path == s[i].path;
      }
      assert grown[j][0].path == all[i].path;
    }
    assert Covers(grown, all);
  }

  lemma NewGroup(groups: seq<seq<Entry>>, s: seq<Entry>, e: Entry)
    requires GroupsOf(groups, s) && forall j :: 0 <= j < |groups| ==> groups[j][0].path < e.path
    ensures GroupsOf(groups + [[e]], s + [e])
  {
    var all: seq<Entry> := s + [e];
    var grown: seq<seq<Entry>> := groups + [[e]];
    NewPath(groups, s, e);
    AllCovered(groups, s, e);
    forall j | 0 <= j < |grown|
      ensures grown[j] != [] && grown[j] == OfPath(all, grown[j][0].path)
    {
      OfPathAppend(s, e, grown[j][0].path);
      assert j < |groups| ==> grown[j] == groups[j];
    }
    hide Covers;
  }

  lemma GroupsGrow(groups: seq<seq<Entry>>, s: seq<Entry>, e: Entry)
    requires GroupsOf(groups, s) && IsSorted(s + [e])
    ensures GroupsOf(AddToGroups(groups, e), s + [e])
  {
    var last := |groups| - 1;
    if |groups| > 0 && groups[last][0].path == e.path {
      SameGroup(groups, s, e);
    } else {
      forall j | 0 <= j < |groups|
        ensures groups[j][0].path < e.path
      {
        PathsBelow(groups, s, e, last);
      }
      NewGroup(groups, s, e);
    }
  }

  // ----- Dealing the groups out in rounds

  /** How many entries of group j have been dealt when round `offset` has reached group k. */
  function Dealt(groups: seq<seq<Entry>>, offset: nat, k: nat, j: nat): (n: nat)
    requires j < |groups|
    ensures n <= |groups[j]|
  {
    var rounds := if j < k then offset + 1 else offset;
    if rounds < |groups[j]| then rounds else |groups[j]|
  }

  /** What has been dealt when round `offset` has reached group k: of each path the first entries of
      its group, and altogether nothing at or after (offset, path of group k). */
  ghost predicate DealtSoFar(r: seq<Entry>, groups: seq<seq<Entry>>, offset: nat, k: nat)
  {
    && DealtHeads(r, groups, offset, k)
    && (forall e :: e in r ==> exists j :: 0 <= j < |groups| && groups[j][0].path == e.path)
    && Interleaved(r)
    && (forall i :: 0 <= i < |r| ==>
          Rank(r, i) < offset || (Rank(r, i) == offset && forall j :: k <= j < |groups| ==> r[i].path < groups[j][0].path))
  }

  /** Of each path the first entries of its group have been dealt. */
  ghost predicate DealtHeads(r: seq<Entry>, groups: seq<seq<Entry>>, offset: nat, k: nat)
  {
    forall j :: 0 <= j < |groups| ==>
      groups[j] != [] && OfPath(r, groups[j][0].path) == groups[j][..Dealt(groups, offset, k, j)]
  }

  lemma RankAppend(r: seq<Entry>, e: Entry)
    ensures forall i :: 0 <= i < |r| ==> Rank(r + [e], i) == Rank(r, i)
    ensures Rank(r + [e], |r|) == |OfPath(r, e.path)|
  {
    var all := r + [e];
    assert forall i :: 0 <= i < |r| ==> all[..i] == r[..i];
    assert all[..|r|] == r;
  }

  ghost predicate Grouped(groups: seq<seq<Entry>>)
  {
    && (forall j :: 0 <= j < |groups| ==> groups[j] != [])
    && (forall i, j :: 0 <= i < j < |groups| ==> groups[i][0].path < groups[j][0].path)
    && (forall j, i :: 0 <= j < |groups| && 0 <= i < |groups[j]| ==> groups[j][i].path == groups[j][0].path)
  }

  lemma DealtPaths(r: seq<Entry>, groups: seq<seq<Entry>>, offset: nat, k: nat)
    requires k < |groups| && offset < |groups[k]| && DealtHeads(r, groups, offset, k) && Grouped(groups)
    ensures DealtHeads(r + [groups[k][offset]], groups, offset, k + 1)
  {
  }

  lemma DealtRanks(r: seq<Entry>, groups: seq<seq<Entry>>, offset: nat, k: nat)
    requires k < |groups| && offset < |groups[k]| && DealtSoFar(r, groups, offset, k) && Grouped(groups)
    ensures var r' := r + [groups[k][offset]];
            && Interleaved(r')
            && forall i :: 0 <= i < |r'| ==>
                 Rank(r', i) < offset
                 || (Rank(r', i) == offset && forall j :: k + 1 <= j < |groups| ==> r'[i].path < groups[j][0].path)
  {
    var e, r' := groups[k][offset], r + [groups[k][offset]];
    RankAppend(r, e);
    assert e.path == groups[k][0].path;
    assert OfPath(r, e.path) == groups[k][..Dealt(groups, offset, k, k)];
    assert Rank(r', |r|) == offset;
    forall i, j | 0 <= i < j < |r'|
      ensures RankBefore(Rank(r', i), r'[i].path, Rank(r', j), r'[j].path)
    {
      if j < |r| {
        assert RankBefore(Rank(r, i), r[i].path, Rank(r, j), r[j].path);
      }
    }
  }

  /** Group k has an entry for this round. */
  lemma DealOne(r: seq<Entry>, groups: seq<seq<Entry>>, offset: nat, k: nat)
    requires k < |groups| && offset < |groups[k]| && DealtSoFar(r, groups, offset, k) && Grouped(groups)
    ensures DealtSoFar(r + [groups[k][offset]], groups, offset, k + 1)
  {
    var e := groups[k][offset];
    DealtPaths(r, groups, offset, k);
    DealtRanks(r, groups, offset, k);
    hide Interleaved, DealtHeads, Rank;
    forall x | x in r + [e]
      ensures exists j :: 0 <= j < |groups| && groups[j][0].path == x.path
    {
      if x == e {
        assert groups[k][0].path == x.path;
      }
    }
  }

  /** Group k is used up. */
  lemma SkipOne(r: seq<Entry>, groups: seq<seq<Entry>>, offset: nat, k: nat)
    requires k < |groups| && offset >= |groups[k]| && DealtSoFar(r, groups, offset, k)
    ensures DealtSoFar(r, groups, offset, k + 1)
  {
    hide Interleaved, Rank, OfPath;
    assert forall j :: 0 <= j < |groups| ==> Dealt(groups, offset, k + 1, j) == Dealt(groups, offset, k, j);
  }

  lemma NextRound(r: seq<Entry>, groups: seq<seq<Entry>>, offset: nat)
    requires DealtSoFar(r, groups, offset, |groups|)
    ensures DealtSoFar(r, groups, offset + 1, 0)
  {
  }

  /** When a round deals nothing every group is used up. */
  lemma AllDealt(r: seq<Entry>, groups: seq<seq<Entry>>, s: seq<Entry>, offset: nat)
    requires GroupsOf(groups, s) && DealtSoFar(r, groups, offset, 0)
    requires forall j :: 0 <= j < |groups| ==> |groups[j]| <= offset
    ensures SamePaths(r, s) && Interleaved(r)
  {
    forall path
      ensures OfPath(r, path) == OfPath(s, path)
    {
      if j :| 0 <= j < |groups| && groups[j][0].path == path {
        assert OfPath(r, path) == groups[j][..|groups[j]|] == groups[j];
      } else {
        OfPathMembers(r, path);
        OfPathMembers(s, path);
      }
    }
  }

  lemma GroupsGrouped(groups: seq<seq<Entry>>, s: seq<Entry>)
    requires GroupsOf(groups, s)
    ensures Grouped(groups)
  {
    forall j, i | 0 <= j < |groups| && 0 <= i < |groups[j]|
      ensures groups[j][i].path == groups[j][0].path
    {
      OfPathMembers(s, groups[j][0].path);
      assert groups[j][i] in OfPath(s, groups[j][0].path);
    }
  }

  lemma NothingDealt(groups: seq<seq<Entry>>)
    requires Grouped(groups)
    ensures DealtSoFar([], groups, 0, 0)
  {
  }

  method GroupByPath(sorted: seq<Entry>) returns (groups: seq<seq<Entry>>)
    requires IsSorted(sorted)
    ensures GroupsOf(groups, sorted)
  {
    groups := [];
    for i := 0 to |sorted|
      invariant GroupsOf(groups, sorted[..i])
    {
      assert sorted[..i + 1] == sorted[..i] + [sorted[i]];
      GroupsGrow(groups, sorted[..i], sorted[i]);
      groups := AddToGroups(groups, sorted[i]);
    }
    assert sorted[..|sorted|] == sorted;
  }

  /** One round: every group that still has an entry deals one. */
  method DealRound(groups: seq<seq<Entry>>, offset: nat, dealt: seq<Entry>) returns (r: seq<Entry>, added: bool)
    requires Grouped(groups) && DealtSoFar(dealt, groups, offset, 0)
    ensures DealtSoFar(r, groups, offset, |groups|)
    ensures added <==> exists j :: 0 <= j < |groups| && offset < |groups[j]|
  {
    hide Grouped, DealtSoFar;
    r, added := dealt, false;
    for k := 0 to |groups|
      invariant DealtSoFar(r, groups, offset, k)
      invariant added <==> exists j :: 0 <= j < k && offset < |groups[j]|
    {
      if offset < |groups[k]| {
        DealOne(r, groups, offset, k);
        r := r + [groups[k][offset]];
        added := true;
      } else {
        SkipOne(r, groups, offset, k);
      }
    }
  }

  /** In every path the ids rise. */
  ghost predicate IdsRise(s: seq<Entry>)
  {
    forall path, i, j :: 0 <= i < j < |OfPath(s, path)| ==> OfPath(s, path)[i].id <= OfPath(s, path)[j].id
  }

  lemma {:induction false} SortedIdsRise(s: seq<Entry>, path: nat)
    requires IsSorted(s)
    ensures forall i, j :: 0 <= i < j < |OfPath(s, path)| ==> OfPath(s, path)[i].id <= OfPath(s, path)[j].id
  {
    if s != [] {
      var front, last := s[..|s| - 1], s[|s| - 1];
      SortedIdsRise(front, path);
      OfPathMembers(front, path);
      var mine := OfPath(front, path);
      forall i | 0 <= i < |mine|
        ensures last.path == path ==> mine[i].id <= last.id
      {
        assert mine[i] in front;
        var k :| 0 <= k < |front| && front[k] == mine[i];
        assert Before(s[k], s[|s| - 1]);
      }
    }
  }

  lemma SortedSamePaths(r: seq<Entry>, s: seq<Entry>)
    requires SamePaths(r, s) && IsSorted(s)
    ensures IdsRise(r)
  {
    forall path
      ensures forall i, j :: 0 <= i < j < |OfPath(r, path)| ==> OfPath(r, path)[i].id <= OfPath(r, path)[j].id
    {
      SortedIdsRise(s, path);
      assert OfPath(r, path) == OfPath(s, path);
    }
  }

  /** Sorts, groups by path and deals the groups out in rounds. */
  method InterleaveTurnPaths(workers: seq<Entry>) returns (r: seq<Entry>)
    ensures Interleaved(r) && IdsRise(r) && SamePaths(r, Sort(workers))
  {
    hide IdsRise, GroupsOf, Grouped, DealtSoFar, Interleaved, SamePaths, Longest, Sort;
    var sorted := Sort(workers);
    SortSorts(workers);
    var groups := GroupByPath(sorted);
    GroupsGrouped(groups, sorted);
    NothingDealt(groups);
    r := [];
    var offset := 0;
    while true
      invariant DealtSoFar(r, groups, offset, 0)
      decreases Longest(groups) - offset
    {
      var added;
      r, added := DealRound(groups, offset, r);
      NextRound(r, groups, offset);
      if !added {
        AllDealt(r, groups, sorted, offset + 1);
        SortedSamePaths(r, sorted);
        return;
      }
      ghost var j :| 0 <= j < |groups| && offset < |groups[j]|;
      LongestBounds(groups, j);
      offset := offset + 1;
    }
  }

  ghost function Longest(groups: seq<seq<Entry>>): nat
  {
    if groups == [] then 0
    else
      var n, m := |groups[|groups| - 1]|, Longest(groups[..|groups| - 1]);
      if n < m then m else n
  }

  lemma {:induction false} LongestBounds(groups: seq<seq<Entry>>, j: nat)
    requires j < |groups|
    ensures |groups[j]| <= Longest(groups)
  {
    if j < |groups| - 1 {
      LongestBounds(groups[..|groups| - 1], j);
    }
  }

  // ----- What the interleaving means

  lemma {:induction false} OfPathCounts(s: seq<Entry>, e: Entry)
    ensures multiset(OfPath(s, e.path))[e] == multiset(s)[e]
  {
    if s != [] {
      var front, last := s[..|s| - 1], s[|s| - 1];
      OfPathCounts(front, e);
      assert s == front + [last];
    }
  }

  /** It is a permutation. */
  lemma SamePathsPermute(r: seq<Entry>, s: seq<Entry>)
    requires SamePaths(r, s)
    ensures multiset(r) == multiset(s)
  {
    forall e: Entry
      ensures multiset(r)[e] == multiset(s)[e]
    {
      OfPathCounts(r, e);
      OfPathCounts(s, e);
    }
  }

  lemma {:induction false} FindRank(s: seq<Entry>, path: nat, rank: nat) returns (i: nat)
    requires rank < |OfPath(s, path)|
    ensures i < |s| && s[i].path == path && Rank(s, i) == rank
  {
    var front := s[..|s| - 1];
    if rank < |OfPath(front, path)| {
      i := FindRank(front, path, rank);
      assert front[..i] == s[..i];
    } else {
      i := |s| - 1;
    }
  }

  /** In every prefix two paths' counts differ by at most one, unless the smaller is used up. */
  lemma PrefixesBalanced(s: seq<Entry>, n: nat, p: nat, q: nat)
    requires Interleaved(s) && n <= |s|
    requires |OfPath(s[..n], q)| < |OfPath(s, q)|
    ensures |OfPath(s[..n], p)| <= |OfPath(s[..n], q)| + 1
  {
    var few := |OfPath(s[..n], q)|;
    if |OfPath(s[..n], p)| > few + 1 {
      var i := FindRank(s[..n], p, few + 1);
      assert s[..n][..i] == s[..i];
      var j := FindRank(s, q, few);
      if j < n {
        RanksBelowCount(s, n, j);
      }
      assert false;
    }
  }

  lemma {:induction false} OfPathPrefix(s: seq<Entry>, m: nat, path: nat)
    requires m <= |s|
    ensures |OfPath(s[..m], path)| <= |OfPath(s, path)|
  {
    if m < |s| {
      OfPathPrefix(s[..|s| - 1], m, path);
      assert s[..|s| - 1][..m] == s[..m];
    } else {
      assert s[..m] == s;
    }
  }

  lemma RanksBelowCount(s: seq<Entry>, n: nat, j: nat)
    requires j < n <= |s|
    ensures Rank(s, j) < |OfPath(s[..n], s[j].path)|
  {
    OfPathAppend(s[..j], s[j], s[j].path);
    assert s[..j + 1] == s[..j] + [s[j]];
    OfPathPrefix(s[..n], j + 1, s[j].path);
    assert s[..n][..j + 1] == s[..j + 1];
  }

  // ----- The worker table

  ghost predicate UniqueIds(s: seq<Entry>)
  {
    forall i, j :: 0 <= i < j < |s| ==> s[i].id != s[j].id
  }

  function Retain(s: seq<Entry>, keep: Entry -> bool): (r: seq<Entry>)
    ensures forall e :: e in r <==> e in s && keep(e)
  {
    if s == [] then []
    else
      assert s == s[..|s| - 1] + [s[|s| - 1]];
      Retain(s[..|s| - 1], keep) + if keep(s[|s| - 1]) then [s[|s| - 1]] else []
  }

  lemma {:induction false} RetainUnique(s: seq<Entry>, keep: Entry -> bool)
    requires UniqueIds(s)
    ensures UniqueIds(Retain(s, keep))
  {
    if s != [] {
      var front, last := s[..|s| - 1], s[|s| - 1];
      RetainUnique(front, keep);
      forall e | e in Retain(front, keep)
        ensures e.id != last.id
      {
        var i :| 0 <= i < |front| && front[i] == e;
      }
    }
  }

  lemma PermutedIds(r: seq<Entry>, s: seq<Entry>)
    requires multiset(r) == multiset(s) && UniqueIds(s)
    ensures UniqueIds(r) && forall e :: e in r <==> e in s
  {
    assert forall e :: e in r <==> e in multiset(r);
    assert forall e :: e in s <==> e in multiset(s);
    forall i, j | 0 <= i < j < |r|
      ensures r[i].id != r[j].id
    {
      if r[i].id == r[j].id {
        assert r[i] in r && r[j] in r;
        var a :| 0 <= a < |s| && s[a] == r[i];
        var b :| 0 <= b < |s| && s[b] == r[j];
        assert r[i] == r[j];
        CountedTwice(r, i, j);
        OnceInMultiset(s, a);
        assert false;
      }
    }
  }

  lemma OnceInMultiset(s: seq<Entry>, a: nat)
    requires UniqueIds(s) && a < |s|
    ensures multiset(s)[s[a]] == 1
  {
    assert s == s[..a] + [s[a]] + s[a + 1..];
    assert s[a] !in s[..a] && s[a] !in s[a + 1..];
    assert s[a] !in multiset(s[..a]) && s[a] !in multiset(s[a + 1..]);
  }

  method Reinterleave(updated: seq<Entry>) returns (r: seq<Entry>)
    requires UniqueIds(updated)
    ensures UniqueIds(r) && Interleaved(r) && IdsRise(r) && forall e :: e in r <==> e in updated
  {
    r := InterleaveTurnPaths(updated);
    SamePathsPermute(r, Sort(updated));
    SortSorts(updated);
    PermutedIds(r, updated);
  }

  class WorkerTable {
    var workers: seq<Entry>

    ghost predicate Valid()
      reads this
    {
      UniqueIds(workers) && Interleaved(workers) && IdsRise(workers)
    }

    constructor ()
      ensures Valid() && workers == []
    {
      workers := [];
    }

    /** Replaces whatever had the id. */
    method Register(entry: Entry)
      requires Valid()
      modifies this
      ensures Valid()
      ensures forall e :: e in workers <==> e == entry || (e in old(workers) && e.id != entry.id)
    {
      var kept := Retain(workers, (e: Entry) => e.id != entry.id);
      RetainUnique(workers, (e: Entry) => e.id != entry.id);
      assert forall i :: 0 <= i < |kept| ==> kept[i] in kept;
      workers := Reinterleave(kept + [entry]);
    }

    /** Removes only that incarnation: a stale one never removes its replacement. */
    method Unregister(id: nat, incarnation: nat)
      requires Valid()
      modifies this
      ensures Valid()
      ensures forall e :: e in workers <==> e in old(workers) && !(e.id == id && e.incarnation == incarnation)
    {
      var updated := Retain(workers, (e: Entry) => e.id != id || e.incarnation != incarnation);
      RetainUnique(workers, (e: Entry) => e.id != id || e.incarnation != incarnation);
      workers := Reinterleave(updated);
    }
  }
}
