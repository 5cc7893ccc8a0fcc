// The result sets of the backend's list queries: each table's rows, joined
// and counted as the SELECT does, every row once, in the ORDER BY order.
module Listing {
  import opened Seqs
  import opened Sorting
  import opened Records

  /** The ids of the voters keep selects. */
  ghost function Selected(voters: map<int, Voter>, keep: (int, Voter) -> bool): set<int> {
    set id | id in voters && keep(id, voters[id])
  }

  /** The selected ids, each once. */
  method SelectedIds(voters: map<int, Voter>, keep: (int, Voter) -> bool) returns (kept: seq<int>)
    ensures NoDups(kept)
    ensures forall id :: id in kept <==> id in voters && keep(id, voters[id])
    ensures |kept| == |Selected(voters, keep)|
  {
    var ids := SetToSeq(voters.Keys);
    var wanted := (id: int) => id in voters && keep(id, voters[id]);
    kept := Filter(ids, wanted);
    FilterNoDups(ids, wanted);
    NoDupsCard(kept);
    assert (set x | x in kept) == Selected(voters, keep);
  }

  /** The voters selected by keep, joined with their village and party, each
      once, in table order. */
  method JoinedViews(voters: map<int, Voter>, villages: map<int, Village>, parties: map<int, Party>,
                     keep: (int, Voter) -> bool) returns (views: seq<VoterView>)
    ensures forall i :: 0 <= i < |views| ==>
      && views[i].id in voters && keep(views[i].id, voters[views[i].id])
      && views[i] == ViewOf(views[i].id, voters[views[i].id], villages, parties)
    ensures forall id :: id in voters && keep(id, voters[id]) ==> ViewOf(id, voters[id], villages, parties) in views
    ensures NoDups(views)
    ensures |views| == |Selected(voters, keep)|
  {
    var kept := SelectedIds(voters, keep);
    views := seq(|kept|, i requires 0 <= i < |kept| => ViewOf(kept[i], voters[kept[i]], villages, parties));
    forall id | id in voters && keep(id, voters[id])
      ensures ViewOf(id, voters[id], villages, parties) in views
    {
      var i :| 0 <= i < |kept| && kept[i] == id;
      assert views[i] == ViewOf(id, voters[id], villages, parties);
    }
    forall a, b | 0 <= a < b < |views|
      ensures views[a] != views[b]
    {
      assert views[a].id == kept[a] && views[b].id == kept[b];
    }
  }

  /** The same rows ordered by name. */
  method SortedViews(voters: map<int, Voter>, villages: map<int, Village>, parties: map<int, Party>,
                     keep: (int, Voter) -> bool) returns (views: seq<VoterView>)
    ensures Sorted(views, VoterViewLe)
    ensures forall i :: 0 <= i < |views| ==>
      && views[i].id in voters && keep(views[i].id, voters[views[i].id])
      && views[i] == ViewOf(views[i].id, voters[views[i].id], villages, parties)
    ensures forall id :: id in voters && keep(id, voters[id]) ==> ViewOf(id, voters[id], villages, parties) in views
    ensures forall i, j :: 0 <= i < j < |views| ==> views[i].id != views[j].id
    ensures |views| == |Selected(voters, keep)|
  {
    var unsorted := JoinedViews(voters, villages, parties, keep);
    OrdersArePreorders();
    views := SortedCopy(unsorted, VoterViewLe);
    PermutationMembers(views, unsorted);
    PermutationNoDups(views, unsorted);
    forall i | 0 <= i < |views|
      ensures views[i].id in voters && keep(views[i].id, voters[views[i].id])
      ensures views[i] == ViewOf(views[i].id, voters[views[i].id], villages, parties)
    {
      assert views[i] in unsorted;
      var k :| 0 <= k < |unsorted| && unsorted[k] == views[i];
    }
  }

  /** LIMIT limit OFFSET offset over an ordered result: the rows from
      position offset on, at most limit of them. */
  function Window<T>(s: seq<T>, offset: nat, limit: nat): (w: seq<T>)
    ensures |w| == PageLength(|s|, offset, limit)
    ensures forall i :: 0 <= i < |w| ==> offset + i < |s| && w[i] == s[offset + i]
  {
    var lo := if offset < |s| then offset else |s|;
    var hi := if offset + limit < |s| then offset + limit else |s|;
    s[lo..hi]
  }

  /** A window of a sorted result is sorted. */
  lemma WindowSorted<T>(s: seq<T>, offset: nat, limit: nat, le: (T, T) -> bool)
    requires Sorted(s, le)
    ensures Sorted(Window(s, offset, limit), le)
  {
    var lo := if offset < |s| then offset else |s|;
    var hi := if offset + limit < |s| then offset + limit else |s|;
    SortedSlice(s, le, lo, hi);
  }

  /** getAllVillages: one row per village with its voter count and votes
      cast, ordered by name. */
  method VillageRows(voters: map<int, Voter>, villages: map<int, Village>) returns (rows: seq<VillageRow>)
    ensures Sorted(rows, VillageRowLe)
    ensures forall i :: 0 <= i < |rows| ==>
      rows[i].id in villages && rows[i] == VillageRowOf(rows[i].id, villages[rows[i].id], voters)
    ensures forall id :: id in villages ==> VillageRowOf(id, villages[id], voters) in rows
    ensures forall i, j :: 0 <= i < j < |rows| ==> rows[i].id != rows[j].id
    ensures |rows| == |villages|
  {
    var ids := SetToSeq(villages.Keys);
    NoDupsCard(ids);
    assert (set x | x in ids) == villages.Keys;
    var unsorted := seq(|ids|, i requires 0 <= i < |ids| => VillageRowOf(ids[i], villages[ids[i]], voters));
    assert NoDups(unsorted) by {
      forall a, b | 0 <= a < b < |unsorted| ensures unsorted[a] != unsorted[b] {
        assert unsorted[a].id == ids[a] && unsorted[b].id == ids[b];
      }
    }
    OrdersArePreorders();
    rows := SortedCopy(unsorted, VillageRowLe);
    PermutationMembers(rows, unsorted);
    PermutationNoDups(rows, unsorted);
    forall i | 0 <= i < |rows|
      ensures rows[i].id in villages && rows[i] == VillageRowOf(rows[i].id, villages[rows[i].id], voters)
    {
      assert rows[i] in unsorted;
      var k :| 0 <= k < |unsorted| && unsorted[k] == rows[i];
    }
    forall id | id in villages
      ensures VillageRowOf(id, villages[id], voters) in rows
    {
      var k :| 0 <= k < |ids| && ids[k] == id;
      assert unsorted[k] == VillageRowOf(id, villages[id], voters);
    }
  }

  /** getAllParties: one row per party with its vote count, ordered by name. */
  method PartyRows(voters: map<int, Voter>, parties: map<int, Party>) returns (rows: seq<PartyRow>)
    ensures Sorted(rows, PartyRowLe)
    ensures forall i :: 0 <= i < |rows| ==>
      rows[i].id in parties && rows[i] == PartyRowOf(rows[i].id, parties[rows[i].id], voters)
    ensures forall id :: id in parties ==> PartyRowOf(id, parties[id], voters) in rows
    ensures forall i, j :: 0 <= i < j < |rows| ==> rows[i].id != rows[j].id
    ensures |rows| == |parties|
  {
    var ids := SetToSeq(parties.Keys);
    NoDupsCard(ids);
    assert (set x | x in ids) == parties.Keys;
    var unsorted := seq(|ids|, i requires 0 <= i < |ids| => PartyRowOf(ids[i], parties[ids[i]], voters));
    assert NoDups(unsorted) by {
      forall a, b | 0 <= a < b < |unsorted| ensures unsorted[a] != unsorted[b] {
        assert unsorted[a].id == ids[a] && unsorted[b].id == ids[b];
      }
    }
    OrdersArePreorders();
    rows := SortedCopy(unsorted, PartyRowLe);
    PermutationMembers(rows, unsorted);
    PermutationNoDups(rows, unsorted);
    forall i | 0 <= i < |rows|
      ensures rows[i].id in parties && rows[i] == PartyRowOf(rows[i].id, parties[rows[i].id], voters)
    {
      assert rows[i] in unsorted;
      var k :| 0 <= k < |unsorted| && unsorted[k] == rows[i];
    }
    forall id | id in parties
      ensures PartyRowOf(id, parties[id], voters) in rows
    {
      var k :| 0 <= k < |ids| && ids[k] == id;
      assert unsorted[k] == PartyRowOf(id, parties[id], voters);
    }
  }

  /** The number of recent votes the statistics show. */
  const RecentLimit := 10

  /** The recent-votes join before ORDER BY and LIMIT: one row per log row
      whose voter, party and village exist. */
  function RecentRows(logs: seq<VoteLog>, voters: map<int, Voter>, parties: map<int, Party>,
                      villages: map<int, Village>): (rows: seq<RecentVote>)
    ensures |rows| == |JoinedLogs(logs, voters, parties, villages)|
    ensures forall i :: 0 <= i < |rows| ==>
      rows[i] == RecentOf(JoinedLogs(logs, voters, parties, villages)[i], voters, parties, villages)
  {
    var joined := JoinedLogs(logs, voters, parties, villages);
    seq(|joined|, i requires 0 <= i < |joined| => RecentOf(joined[i], voters, parties, villages))
  }

  /** ORDER BY voted_at DESC LIMIT 10: the newest joined rows, newest first;
      every row left out is no newer than every row shown. */
  method RecentVotes(logs: seq<VoteLog>, voters: map<int, Voter>, parties: map<int, Party>,
                     villages: map<int, Village>) returns (recent: seq<RecentVote>)
    ensures var all := RecentRows(logs, voters, parties, villages);
      |recent| == if |all| < RecentLimit then |all| else RecentLimit
    ensures Sorted(recent, NewerFirst)
    ensures multiset(recent) <= multiset(RecentRows(logs, voters, parties, villages))
    ensures forall x :: x in RecentRows(logs, voters, parties, villages) ==>
      x in recent || forall i :: 0 <= i < |recent| ==> NewerFirst(recent[i], x)
  {
    OrdersArePreorders();
    recent := SortedTop(RecentRows(logs, voters, parties, villages), NewerFirst, RecentLimit);
  }
}
