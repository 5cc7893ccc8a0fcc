// The voting page's list logic (frontend/src/pages/Voting.jsx): which voters
// are offered a ballot, and the list of village names for the filter.
module VotingPage {
  import opened Text
  import opened Seqs

  /** The fields of a voter row the page reads. */
  datatype VoterRow = VoterRow(id: int, name: string, icNumber: string, villageName: string, hasVoted: bool)

  predicate Unvoted(v: VoterRow) {
    !v.hasVoted
  }

  /** The search box: the lower-cased term in the lower-cased name or village
      name, or the term as typed in the identity number. */
  predicate SearchHit(v: VoterRow, searchTerm: string) {
    || Contains(Lower(v.name), Lower(searchTerm))
    || Contains(v.icNumber, searchTerm)
    || Contains(Lower(v.villageName), Lower(searchTerm))
  }

  /** A voter the page offers a ballot to: not yet voted, matching the search
      term when one is typed and in the selected village when one is chosen. */
  predicate Offered(v: VoterRow, searchTerm: string, selectedVillage: string) {
    && !v.hasVoted
    && (searchTerm == "" || SearchHit(v, searchTerm))
    && (selectedVillage == "" || v.villageName == selectedVillage)
  }

  /** One optional stage of the filter chain: when the stage is active only
      the elements satisfying keep stay, otherwise everything stays. */
  function Narrow(s: seq<VoterRow>, keep: VoterRow -> bool, active: bool): (r: seq<VoterRow>)
    ensures Subseq(r, s)
    ensures !active ==> r == s
    ensures forall v :: v in r <==> v in s && (!active || keep(v))
    ensures forall v :: multiset(r)[v] == if !active || keep(v) then multiset(s)[v] else 0
  {
    if active then
      FilterSubseq(s, keep);
      FilterIn(s, keep);
      FilterMultiset(s, keep);
      Filter(s, keep)
    else
      SubseqRefl(s);
      s
  }

  /** filterVoters: the unvoted voters, narrowed by the search term and by
      the selected village when those are set, in the order received, with
      every copy of a kept row kept. */
  function FilterVoters(voters: seq<VoterRow>, searchTerm: string, selectedVillage: string): (r: seq<VoterRow>)
    ensures Subseq(r, voters)
    ensures searchTerm == "" && selectedVillage == "" ==> r == Filter(voters, Unvoted)
    ensures forall v :: v in r <==> v in voters && Offered(v, searchTerm, selectedVillage)
    ensures forall v ::
      multiset(r)[v] == (if Offered(v, searchTerm, selectedVillage) then multiset(voters)[v] else 0)
  {
    var unvoted := Filter(voters, Unvoted);
    FilterIn(voters, Unvoted);
    FilterMultiset(voters, Unvoted);
    FilterSubseq(voters, Unvoted);
    var searched := Narrow(unvoted, (v: VoterRow) => SearchHit(v, searchTerm), searchTerm != "");
    var r := Narrow(searched, (v: VoterRow) => v.villageName == selectedVillage, selectedVillage != "");
    SubseqTrans(searched, unvoted, voters);
    SubseqTrans(r, searched, voters);
    ChainCounts(voters, unvoted, searched, r, searchTerm, selectedVillage);
    r
  }

  /** The three stages of filterVoters together keep exactly the copies of
      the offered voters. */
  lemma ChainCounts(voters: seq<VoterRow>, unvoted: seq<VoterRow>, searched: seq<VoterRow>, r: seq<VoterRow>,
                    searchTerm: string, selectedVillage: string)
    requires forall v :: multiset(unvoted)[v] == if !v.hasVoted then multiset(voters)[v] else 0
    requires forall v ::
      multiset(searched)[v] == if searchTerm == "" || SearchHit(v, searchTerm) then multiset(unvoted)[v] else 0
    requires forall v ::
      multiset(r)[v] == if selectedVillage == "" || v.villageName == selectedVillage then multiset(searched)[v] else 0
    ensures forall v :: multiset(r)[v] == (if Offered(v, searchTerm, selectedVillage) then multiset(voters)[v] else 0)
    ensures forall v :: v in r <==> v in voters && Offered(v, searchTerm, selectedVillage)
  {
    forall v
      ensures multiset(r)[v] == (if Offered(v, searchTerm, selectedVillage) then multiset(voters)[v] else 0)
      ensures v in r <==> v in voters && Offered(v, searchTerm, selectedVillage)
    {
      assert v in r <==> v in multiset(r);
      assert v in voters <==> v in multiset(voters);
    }
  }

  /** [...new Set(voters.map(v => v.village_name))]. */
  function UniqueVillages(voters: seq<VoterRow>): (names: seq<string>)
    ensures NoDups(names)
    ensures forall i :: 0 <= i < |voters| ==> voters[i].villageName in names
    ensures forall i :: 0 <= i < |names| ==> exists j :: 0 <= j < |voters| && voters[j].villageName == names[i]
  {
    var all := seq(|voters|, i requires 0 <= i < |voters| => voters[i].villageName);
    DistinctNoDups(all);
    assert forall i :: 0 <= i < |voters| ==> all[i] == voters[i].villageName;
    Distinct(all)
  }

  /** The village list keeps the order in which each name first appears. */
  lemma UniqueVillagesOrder(voters: seq<VoterRow>)
    ensures var all := seq(|voters|, i requires 0 <= i < |voters| => voters[i].villageName);
      && Subseq(UniqueVillages(voters), all)
      && forall i, j :: 0 <= i < j < |UniqueVillages(voters)| ==>
           FirstIndex(all, UniqueVillages(voters)[i]) < FirstIndex(all, UniqueVillages(voters)[j])
  {
    var all := seq(|voters|, i requires 0 <= i < |voters| => voters[i].villageName);
    DistinctSubseq(all);
    DistinctFirstOccurrenceOrder(all);
  }
}
