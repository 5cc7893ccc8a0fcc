// The backend's request handlers over the election database
// (backend/controllers/votersController.js, villagesController.js and
// partiesController.js). The tables are maps from id to row, the uploaded
// logo files a set of paths; each handler is a method that runs the same
// guards in the same order as the controller and returns the response.
module Store {
  import opened Text
  import opened Seqs
  import opened Sorting
  import opened Records
  import opened Listing
  import Helpers

  /** A getAllVoters response body. */
  datatype VoterPage = VoterPage(voters: seq<VoterView>, page: int, limit: int, total: nat, pages: Option<nat>)

  /** A getVotingStats response body, apart from the per-party and per-village
      views, whose contents the database computes. */
  datatype VotingStats = VotingStats(overall: OverallStats, recentVotes: seq<RecentVote>)

  /** The page query parameter, 1 when absent. */
  function PageParam(page: Option<int>): int {
    if page.Some? then page.value else 1
  }

  /** The limit query parameter, 50 when absent. */
  function LimitParam(limit: Option<int>): int {
    if limit.Some? then limit.value else 50
  }

  /** The voters table: ids below the counter, unique identity numbers under
      the collation, ballot fields set exactly for voters who voted, and the
      vote log in step with the ballots. */
  ghost predicate VotersValid(voters: map<int, Voter>, next: int, logs: seq<VoteLog>) {
    && 0 < next
    && (forall id :: id in voters ==> 0 < id < next)
    && (forall a, b :: a in voters && b in voters && a != b ==> !SameText(voters[a].ic, voters[b].ic))
    && (forall id :: id in voters ==> BallotFields(voters[id]))
    && LogConsistent(voters, logs)
  }

  /** The villages table: ids below the counter and unique names. */
  ghost predicate VillagesValid(villages: map<int, Village>, next: int) {
    && 0 < next
    && (forall id :: id in villages ==> 0 < id < next)
    && (forall a, b :: a in villages && b in villages && a != b ==> !SameText(villages[a].name, villages[b].name))
  }

  /** The getAllVoters query before LIMIT/OFFSET: the joined row of every
      voter the WHERE clause selects, each once, ordered by name. */
  ghost predicate MatchList(all: seq<VoterView>, voters: map<int, Voter>, villages: map<int, Village>,
                            parties: map<int, Party>, search: string, village: string) {
    && Sorted(all, VoterViewLe)
    && (forall i :: 0 <= i < |all| ==>
         && all[i].id in voters
         && VoterMatches(voters[all[i].id], villages, search, village)
         && all[i] == ViewOf(all[i].id, voters[all[i].id], villages, parties))
    && (forall id :: id in voters && VoterMatches(voters[id], villages, search, village) ==>
         ViewOf(id, voters[id], villages, parties) in all)
    && (forall i, j :: 0 <= i < j < |all| ==> all[i].id != all[j].id)
  }

  /** The parties table: ids below the counter and unique names. */
  ghost predicate PartiesValid(parties: map<int, Party>, next: int) {
    && 0 < next
    && (forall id :: id in parties ==> 0 < id < next)
    && (forall a, b :: a in parties && b in parties && a != b ==> !SameText(parties[a].name, parties[b].name))
  }

  /** A voter who has not voted has no row in a consistent log. */
  lemma {:induction false} UnvotedNotLogged(voters: map<int, Voter>, logs: seq<VoteLog>, id: int)
    requires LogConsistent(voters, logs) && id in voters && !voters[id].hasVoted
    ensures forall i :: 0 <= i < |logs| ==> logs[i].voterId != id
  {
    forall i | 0 <= i < |logs|
      ensures logs[i].voterId != id
    {
      assert LogMatchesVoter(voters, logs[i]);
    }
  }

  /** Inserting an unvoted voter whose identity number is free, at the
      counter's id, keeps the voters table valid. */
  lemma InsertUnvoted(voters: map<int, Voter>, next: int, logs: seq<VoteLog>, v: Voter)
    requires VotersValid(voters, next, logs)
    requires !v.hasVoted && v.partyVotedId.None? && v.votedAt.None? && !IcTaken(voters, v.ic)
    ensures next !in voters && VotersValid(voters[next := v], next + 1, logs)
  {
    var after := voters[next := v];
    forall i | 0 <= i < |logs|
      ensures LogMatchesVoter(after, logs[i])
    {
      assert LogMatchesVoter(voters, logs[i]);
    }
  }

  /** Replacing an unvoted voter by another unvoted row whose identity number
      no other voter holds keeps the voters table valid. */
  lemma ReplaceUnvoted(voters: map<int, Voter>, next: int, logs: seq<VoteLog>, id: int, v: Voter)
    requires VotersValid(voters, next, logs) && id in voters && !voters[id].hasVoted
    requires !v.hasVoted && v.partyVotedId.None? && v.votedAt.None? && !IcTaken(voters - {id}, v.ic)
    ensures VotersValid(voters[id := v], next, logs)
  {
    var after := voters[id := v];
    UnvotedNotLogged(voters, logs, id);
    forall i | 0 <= i < |logs|
      ensures LogMatchesVoter(after, logs[i])
    {
      assert LogMatchesVoter(voters, logs[i]);
    }
    forall a, b | a in after && b in after && a != b
      ensures !SameText(after[a].ic, after[b].ic)
    {
      if a == id {
        assert b in voters - {id};
      } else if b == id {
        assert a in voters - {id};
      }
    }
  }

  /** Removing an unvoted voter keeps the voters table valid. */
  lemma RemoveUnvoted(voters: map<int, Voter>, next: int, logs: seq<VoteLog>, id: int)
    requires VotersValid(voters, next, logs) && id in voters && !voters[id].hasVoted
    ensures VotersValid(voters - {id}, next, logs)
  {
    var after := voters - {id};
    UnvotedNotLogged(voters, logs, id);
    forall i | 0 <= i < |logs|
      ensures LogMatchesVoter(after, logs[i])
    {
      assert LogMatchesVoter(voters, logs[i]);
    }
  }

  /** A getVillageById response body: the village row and its voters. */
  datatype VillageDetail = VillageDetail(id: int, village: Village, voters: seq<VoterView>)

  class ElectionDb {
    var voters: map<int, Voter>
    var villages: map<int, Village>
    var parties: map<int, Party>
    var voteLogs: seq<VoteLog>
    var logoFiles: set<string>
    /** The AUTO_INCREMENT counters: the id the next inserted row receives. */
    var nextVoterId: int
    var nextVillageId: int
    var nextPartyId: int

    /** The table constraints: positive ids below the counters, unique
        identity numbers, village names and party names, ballot fields set
        exactly for voted voters, and one log row per vote. */
    ghost predicate Valid()
      reads this
    {
      && VotersValid(voters, nextVoterId, voteLogs)
      && VillagesValid(villages, nextVillageId)
      && PartiesValid(parties, nextPartyId)
    }

    constructor()
      ensures Valid()
      ensures voters == map[] && villages == map[] && parties == map[] && voteLogs == [] && logoFiles == {}
      ensures nextVoterId == 1 && nextVillageId == 1 && nextPartyId == 1
    {
      voters, villages, parties := map[], map[], map[];
      voteLogs, logoFiles := [], {};
      nextVoterId, nextVillageId, nextPartyId := 1, 1, 1;
    }

    // -------------------------------------------------------------------
    // Voters

    /** addVoter: all three fields are required, the identity number must be
        exactly twelve digits and must not be held by another voter. */
    method AddVoter(name: string, ic: string, villageId: int) returns (r: Response<VoterView>)
      requires Valid()
      modifies this
      ensures Valid()
      ensures name == "" || ic == "" || villageId == 0 ==> r == BadRequest(VoterFieldsRequired)
      ensures name != "" && ic != "" && villageId != 0 && !IsDigitRun(ic, 12) ==> r == BadRequest(IcFormat)
      ensures name != "" && villageId != 0 && IsDigitRun(ic, 12) && IcTaken(old(voters), ic) ==> r == BadRequest(IcExists)
      ensures r.Ok? <==> name != "" && villageId != 0 && IsDigitRun(ic, 12) && !IcTaken(old(voters), ic)
      ensures !r.Ok? ==> unchanged(this)
      ensures r.Ok? ==>
        && old(nextVoterId) !in old(voters)
        && voters == old(voters)[old(nextVoterId) := Voter(name, ic, villageId, false, None, None)]
        && r.value == ViewOf(old(nextVoterId), voters[old(nextVoterId)], villages, parties)
      ensures VotedFrozen(old(voters), voters)
      ensures villages == old(villages) && parties == old(parties)
      ensures voteLogs == old(voteLogs) && logoFiles == old(logoFiles)
      ensures nextVillageId == old(nextVillageId) && nextPartyId == old(nextPartyId)
      ensures nextVoterId == old(nextVoterId) + if r.Ok? then 1 else 0
    {
      if name == "" || ic == "" || villageId == 0 {
        return BadRequest(VoterFieldsRequired);
      }
      if !IsDigitRun(ic, 12) {
        return BadRequest(IcFormat);
      }
      if exists id :: id in voters && SameText(voters[id].ic, ic) {
        return BadRequest(IcExists);
      }
      var id := nextVoterId;
      InsertUnvoted(voters, id, voteLogs, Voter(name, ic, villageId, false, None, None));
      voters := voters[id := Voter(name, ic, villageId, false, None, None)];
      nextVoterId := nextVoterId + 1;
      r := Ok(ViewOf(id, voters[id], villages, parties));
    }

    /** castVote: both ids are required; the stored procedure is a
        compare-and-set that records the ballot of an existing voter who has
        not voted yet and appends its log row, and refuses everything else with
        one message that does not say which case occurred. */
    method CastVote(voterId: int, partyId: int, ip: string, userAgent: string, now: int) returns (r: Response<()>)
      requires Valid()
      modifies this
      ensures Valid()
      ensures voterId == 0 || partyId == 0 ==> r == BadRequest(VoteFieldsRequired)
      ensures voterId != 0 && partyId != 0 && (voterId !in old(voters) || old(voters)[voterId].hasVoted) ==>
        r == BadRequest(VoteRefused)
      ensures r.Ok? <==> voterId != 0 && partyId != 0 && voterId in old(voters) && !old(voters)[voterId].hasVoted
      ensures !r.Ok? ==> unchanged(this)
      ensures r.Ok? ==>
        && voters == old(voters)[voterId := Ballot(old(voters)[voterId], partyId, now)]
        && voteLogs == old(voteLogs) + [VoteLog(voterId, partyId, old(voters)[voterId].villageId, now, ip, userAgent)]
      ensures VotedFrozen(old(voters), voters)
      ensures villages == old(villages) && parties == old(parties) && logoFiles == old(logoFiles)
      ensures nextVoterId == old(nextVoterId) && nextVillageId == old(nextVillageId) && nextPartyId == old(nextPartyId)
    {
      if voterId == 0 || partyId == 0 {
        return BadRequest(VoteFieldsRequired);
      }
      if voterId !in voters || voters[voterId].hasVoted {
        return BadRequest(VoteRefused);
      }
      var v := voters[voterId];
      UnvotedNotLogged(voters, voteLogs, voterId);
      assert voterId !in LogVoters(voteLogs);
      var log := VoteLog(voterId, partyId, v.villageId, now, ip, userAgent);
      voters := voters[voterId := Ballot(v, partyId, now)];
      voteLogs := voteLogs + [log];
      assert LogVoters(voteLogs) == LogVoters(old(voteLogs)) + [voterId];
      r := Ok(());
    }

    /** getVoterById. */
    method GetVoterById(id: int) returns (r: Response<VoterView>)
      ensures r.Ok? <==> id in voters
      ensures r.Ok? ==> r.value == ViewOf(id, voters[id], villages, parties)
      ensures !r.Ok? ==> r == NotFound(VoterNotFound)
    {
      if id !in voters {
        return NotFound(VoterNotFound);
      }
      r := Ok(ViewOf(id, voters[id], villages, parties));
    }

    /** updateVoter: the fields are required; an unknown voter is not found; a
        voter who has voted is locked; the identity number must not belong to
        another voter. Only name, identity number and village change; the
        number's format is not checked again. */
    method UpdateVoter(id: int, name: string, ic: string, villageId: int) returns (r: Response<VoterView>)
      requires Valid()
      modifies this
      ensures Valid()
      ensures name == "" || ic == "" || villageId == 0 ==> r == BadRequest(VoterUpdateFieldsRequired)
      ensures name != "" && ic != "" && villageId != 0 && id !in old(voters) ==> r == NotFound(VoterNotFound)
      ensures name != "" && ic != "" && villageId != 0 && id in old(voters) && old(voters)[id].hasVoted ==>
        r == BadRequest(VoterVotedNoEdit)
      ensures (name != "" && ic != "" && villageId != 0 && id in old(voters) && !old(voters)[id].hasVoted
               && IcTaken(old(voters) - {id}, ic)) ==> r == BadRequest(IcExists)
      ensures r.Ok? <==> (name != "" && ic != "" && villageId != 0 && id in old(voters) && !old(voters)[id].hasVoted
                          && !IcTaken(old(voters) - {id}, ic))
      ensures !r.Ok? ==> unchanged(this)
      ensures r.Ok? ==>
        && voters == old(voters)[id := old(voters)[id].(name := name, ic := ic, villageId := villageId)]
        && r.value == ViewOf(id, voters[id], villages, parties)
      ensures VotedFrozen(old(voters), voters)
      ensures villages == old(villages) && parties == old(parties)
      ensures voteLogs == old(voteLogs) && logoFiles == old(logoFiles)
      ensures nextVoterId == old(nextVoterId) && nextVillageId == old(nextVillageId) && nextPartyId == old(nextPartyId)
    {
      if name == "" || ic == "" || villageId == 0 {
        return BadRequest(VoterUpdateFieldsRequired);
      }
      if id !in voters {
        return NotFound(VoterNotFound);
      }
      if voters[id].hasVoted {
        return BadRequest(VoterVotedNoEdit);
      }
      if exists other :: other in voters && other != id && SameText(voters[other].ic, ic) {
        ghost var other :| other in voters && other != id && SameText(voters[other].ic, ic);
        assert other in voters - {id};
        return BadRequest(IcExists);
      }
      ReplaceUnvoted(voters, nextVoterId, voteLogs, id, voters[id].(name := name, ic := ic, villageId := villageId));
      voters := voters[id := voters[id].(name := name, ic := ic, villageId := villageId)];
      r := Ok(ViewOf(id, voters[id], villages, parties));
    }

    /** deleteVoter: an unknown voter is not found and a voter who has voted
        is kept; otherwise that voter alone is removed. */
    method DeleteVoter(id: int) returns (r: Response<()>)
      requires Valid()
      modifies this
      ensures Valid()
      ensures id !in old(voters) ==> r == NotFound(VoterNotFound)
      ensures id in old(voters) && old(voters)[id].hasVoted ==> r == BadRequest(VoterVotedNoDelete)
      ensures r.Ok? <==> id in old(voters) && !old(voters)[id].hasVoted
      ensures !r.Ok? ==> unchanged(this)
      ensures r.Ok? ==> voters == old(voters) - {id}
      ensures VotedFrozen(old(voters), voters)
      ensures villages == old(villages) && parties == old(parties)
      ensures voteLogs == old(voteLogs) && logoFiles == old(logoFiles)
      ensures nextVoterId == old(nextVoterId) && nextVillageId == old(nextVillageId) && nextPartyId == old(nextPartyId)
    {
      if id !in voters {
        return NotFound(VoterNotFound);
      }
      if voters[id].hasVoted {
        return BadRequest(VoterVotedNoDelete);
      }
      RemoveUnvoted(voters, nextVoterId, voteLogs, id);
      voters := voters - {id};
      r := Ok(());
    }

    /** getAllVoters: a negative LIMIT or OFFSET is refused by the database.
        Otherwise the rows are the matching voters ordered by name, at most
        limit of them from offset (page - 1) * limit, together with the count
        of all matches and the page count. */
    method GetAllVoters(page: Option<int>, limit: Option<int>, search: string, village: string)
      returns (r: Response<VoterPage>, ghost all: seq<VoterView>)
      ensures r.Ok? || r == ServerError(FetchVotersFailed)
      ensures r.ServerError? <==> LimitParam(limit) < 0 || Offset(PageParam(page), LimitParam(limit)) < 0
      ensures r.Ok? ==> r.value.page == PageParam(page) && r.value.limit == LimitParam(limit)
      ensures r.Ok? ==> r.value.total == MatchCount(voters, villages, search, village)
      ensures r.Ok? ==> r.value.pages == Pages(r.value.total, LimitParam(limit))
      ensures r.Ok? ==> |r.value.voters| == PageLength(r.value.total, Offset(PageParam(page), LimitParam(limit)), LimitParam(limit))
      ensures r.Ok? ==> Sorted(r.value.voters, VoterViewLe)
      ensures r.Ok? ==> forall i :: 0 <= i < |r.value.voters| ==>
        && r.value.voters[i].id in voters
        && VoterMatches(voters[r.value.voters[i].id], villages, search, village)
        && r.value.voters[i] == ViewOf(r.value.voters[i].id, voters[r.value.voters[i].id], villages, parties)
      ensures r.Ok? ==> forall i, j :: 0 <= i < j < |r.value.voters| ==> r.value.voters[i].id != r.value.voters[j].id
      ensures r.Ok? ==> MatchList(all, voters, villages, parties, search, village) && |all| == r.value.total
      ensures r.Ok? ==> r.value.voters == Window(all, Offset(PageParam(page), LimitParam(limit)), LimitParam(limit))
    {
      var p := PageParam(page);
      var l := LimitParam(limit);
      var offset := Offset(p, l);
      if l < 0 || offset < 0 {
        return ServerError(FetchVotersFailed), [];
      }
      var rows, total;
      rows, total, all := MatchingPage(search, village, offset, l);
      r := Ok(VoterPage(rows, p, l, total, Pages(total, l)));
    }

    /** The LIMIT/OFFSET window of the matching voters ordered by name. */
    method MatchingPage(search: string, village: string, offset: nat, limit: nat)
      returns (rows: seq<VoterView>, total: nat, ghost all: seq<VoterView>)
      ensures total == MatchCount(voters, villages, search, village)
      ensures MatchList(all, voters, villages, parties, search, village) && |all| == total
      ensures rows == Window(all, offset, limit)
      ensures |rows| == PageLength(total, offset, limit)
      ensures Sorted(rows, VoterViewLe)
      ensures forall i :: 0 <= i < |rows| ==>
        && rows[i].id in voters
        && VoterMatches(voters[rows[i].id], villages, search, village)
        && rows[i] == ViewOf(rows[i].id, voters[rows[i].id], villages, parties)
      ensures forall i, j :: 0 <= i < j < |rows| ==> rows[i].id != rows[j].id
    {
      var vs, vls := voters, villages;
      var keep := (id: int, v: Voter) => VoterMatches(v, vls, search, village);
      var matching := SortedViews(vs, vls, parties, keep);
      total := |matching|;
      assert Selected(vs, keep) == (set id | id in vs && VoterMatches(vs[id], vls, search, village));
      all := matching;
      rows := Window(matching, offset, limit);
      WindowSorted(matching, offset, limit, VoterViewLe);
    }

    // -------------------------------------------------------------------
    // Villages

    /** getAllVillages: every village once, with its counts, ordered by name. */
    method GetAllVillages() returns (rows: seq<VillageRow>)
      ensures Sorted(rows, VillageRowLe)
      ensures |rows| == |villages|
      ensures forall i :: 0 <= i < |rows| ==>
        && rows[i].id in villages
        && rows[i] == VillageRowOf(rows[i].id, villages[rows[i].id], voters)
        && rows[i].votesCast <= rows[i].voterCount
      ensures forall id :: id in villages ==> VillageRowOf(id, villages[id], voters) in rows
    {
      rows := VillageRows(voters, villages);
    }

    /** addVillage: a name is required (the description defaults to the
        empty text) and must not equal another village's name. */
    method AddVillage(name: string, description: Option<string>) returns (r: Response<(int, Village)>)
      requires Valid()
      modifies this
      ensures Valid()
      ensures name == "" ==> r == BadRequest(VillageNameRequired)
      ensures name != "" && VillageNameTaken(old(villages), name) ==> r == BadRequest(VillageNameExists)
      ensures r.Ok? <==> name != "" && !VillageNameTaken(old(villages), name)
      ensures !r.Ok? ==> unchanged(this)
      ensures r.Ok? ==>
        && var desc := if description.Some? then description.value else "";
        && r.value == (old(nextVillageId), Village(name, desc))
        && old(nextVillageId) !in old(villages)
        && villages == old(villages)[old(nextVillageId) := Village(name, desc)]
      ensures voters == old(voters) && parties == old(parties)
      ensures voteLogs == old(voteLogs) && logoFiles == old(logoFiles)
      ensures nextVoterId == old(nextVoterId) && nextPartyId == old(nextPartyId)
      ensures nextVillageId == old(nextVillageId) + if r.Ok? then 1 else 0
    {
      var desc := if description.Some? then description.value else "";
      if name == "" {
        return BadRequest(VillageNameRequired);
      }
      if exists id :: id in villages && SameText(villages[id].name, name) {
        return BadRequest(VillageNameExists);
      }
      var id := nextVillageId;
      villages := villages[id := Village(name, desc)];
      nextVillageId := nextVillageId + 1;
      r := Ok((id, villages[id]));
    }

    /** getVillageById: the village with its voters, exactly those whose
        village_id is the village, ordered by name. */
    method GetVillageById(id: int) returns (r: Response<VillageDetail>)
      ensures r.Ok? <==> id in villages
      ensures !r.Ok? ==> r == NotFound(VillageNotFound)
      ensures r.Ok? ==> r.value.id == id && r.value.village == villages[id]
      ensures r.Ok? ==> Sorted(r.value.voters, VoterViewLe)
      ensures r.Ok? ==> |r.value.voters| == VoterCount(voters, id)
      ensures r.Ok? ==> forall i :: 0 <= i < |r.value.voters| ==>
        && r.value.voters[i].id in voters
        && voters[r.value.voters[i].id].villageId == id
        && r.value.voters[i] == ViewOf(r.value.voters[i].id, voters[r.value.voters[i].id], villages, parties)
      ensures r.Ok? ==> forall vid :: vid in voters && voters[vid].villageId == id ==>
        ViewOf(vid, voters[vid], villages, parties) in r.value.voters
    {
      if id !in villages {
        return NotFound(VillageNotFound);
      }
      var vs := voters;
      var inVillage := (vid: int, v: Voter) => v.villageId == id;
      var rows := SortedViews(vs, villages, parties, inVillage);
      assert Selected(vs, inVillage) == (set vid | vid in vs && vs[vid].villageId == id);
      r := Ok(VillageDetail(id, villages[id], rows));
    }

    /** updateVillage: a name is required; an unknown village is not found;
        the name must not equal another village's name. Name and description
        are replaced. */
    method UpdateVillage(id: int, name: string, description: string) returns (r: Response<(int, Village)>)
      requires Valid()
      modifies this
      ensures Valid()
      ensures name == "" ==> r == BadRequest(VillageNameRequired)
      ensures name != "" && id !in old(villages) ==> r == NotFound(VillageNotFound)
      ensures name != "" && id in old(villages) && VillageNameTaken(old(villages) - {id}, name) ==>
        r == BadRequest(VillageNameExists)
      ensures r.Ok? <==> name != "" && id in old(villages) && !VillageNameTaken(old(villages) - {id}, name)
      ensures !r.Ok? ==> unchanged(this)
      ensures r.Ok? ==> villages == old(villages)[id := Village(name, description)] && r.value == (id, villages[id])
      ensures voters == old(voters) && parties == old(parties)
      ensures voteLogs == old(voteLogs) && logoFiles == old(logoFiles)
      ensures nextVoterId == old(nextVoterId) && nextVillageId == old(nextVillageId) && nextPartyId == old(nextPartyId)
    {
      if name == "" {
        return BadRequest(VillageNameRequired);
      }
      if id !in villages {
        return NotFound(VillageNotFound);
      }
      if exists other :: other in villages && other != id && SameText(villages[other].name, name) {
        ghost var other :| other in villages && other != id && SameText(villages[other].name, name);
        assert other in villages - {id};
        return BadRequest(VillageNameExists);
      }
      villages := villages[id := Village(name, description)];
      r := Ok((id, villages[id]));
    }

    /** deleteVillage: a village that voters belong to is kept, whether or
        not it exists; otherwise an unknown village is not found, and a known
        one alone is removed. No voter ever loses its village. */
    method DeleteVillage(id: int) returns (r: Response<()>)
      requires Valid()
      modifies this
      ensures Valid()
      ensures VoterCount(old(voters), id) > 0 ==> r == BadRequest(VillageHasVoters)
      ensures VoterCount(old(voters), id) == 0 && id !in old(villages) ==> r == NotFound(VillageNotFound)
      ensures r.Ok? <==> VoterCount(old(voters), id) == 0 && id in old(villages)
      ensures !r.Ok? ==> unchanged(this)
      ensures r.Ok? ==> villages == old(villages) - {id}
      ensures forall vid :: vid in voters && voters[vid].villageId in old(villages) ==> voters[vid].villageId in villages
      ensures voters == old(voters) && parties == old(parties)
      ensures voteLogs == old(voteLogs) && logoFiles == old(logoFiles)
      ensures nextVoterId == old(nextVoterId) && nextVillageId == old(nextVillageId) && nextPartyId == old(nextPartyId)
    {
      if VoterCount(voters, id) > 0 {
        return BadRequest(VillageHasVoters);
      }
      if id !in villages {
        return NotFound(VillageNotFound);
      }
      ghost var members := set x | x in voters && voters[x].villageId == id;
      assert |members| == 0;
      assert members == {};
      assert forall vid :: vid in voters ==> voters[vid].villageId != id by {
        forall vid | vid in voters ensures voters[vid].villageId != id {
          assert vid !in members;
        }
      }
      villages := villages - {id};
      r := Ok(());
    }

    // -------------------------------------------------------------------
    // Parties

    /** getAllParties: every party once, with its vote count, ordered by name. */
    method GetAllParties() returns (rows: seq<PartyRow>)
      ensures Sorted(rows, PartyRowLe)
      ensures |rows| == |parties|
      ensures forall i :: 0 <= i < |rows| ==>
        rows[i].id in parties && rows[i] == PartyRowOf(rows[i].id, parties[rows[i].id], voters)
      ensures forall id :: id in parties ==> PartyRowOf(id, parties[id], voters) in rows
    {
      rows := PartyRows(voters, parties);
    }

    /** addParty: the upload middleware has already stored the logo file. A
        name is required and the colour (by default #3B82F6) must be a hex
        colour code; those refusals leave the file in place. A name equal to
        another party's fails in the database, and that path deletes the file. */
    method AddParty(name: string, abbreviation: Option<string>, color: Option<string>,
                    description: Option<string>, upload: Option<string>) returns (r: Response<(int, Party)>)
      requires Valid()
      modifies this
      ensures Valid()
      ensures name == "" ==> r == BadRequest(PartyNameRequired)
      ensures name != "" && !Helpers.IsValidHexColor(OrDefault(color, DefaultColor)) ==> r == BadRequest(ColorInvalid)
      ensures name != "" && Helpers.IsValidHexColor(OrDefault(color, DefaultColor)) && PartyNameTaken(old(parties), name) ==>
        r == BadRequest(PartyNameExists)
      ensures r.Ok? <==>
        name != "" && Helpers.IsValidHexColor(OrDefault(color, DefaultColor)) && !PartyNameTaken(old(parties), name)
      ensures !r.Ok? ==> parties == old(parties) && nextPartyId == old(nextPartyId)
      ensures r.Ok? ==>
        && var party := Party(name, OrDefault(abbreviation, ""), OrDefault(color, DefaultColor),
                              UploadedLogo(upload), OrDefault(description, ""));
        && old(nextPartyId) !in old(parties)
        && parties == old(parties)[old(nextPartyId) := party]
        && r.value == (old(nextPartyId), party)
      ensures r == BadRequest(PartyNameExists) ==> logoFiles == old(logoFiles) + Uploaded(upload) - Uploaded(upload)
      ensures r != BadRequest(PartyNameExists) ==> logoFiles == old(logoFiles) + Uploaded(upload)
      ensures voters == old(voters) && villages == old(villages) && voteLogs == old(voteLogs)
      ensures nextVoterId == old(nextVoterId) && nextVillageId == old(nextVillageId)
      ensures nextPartyId == old(nextPartyId) + if r.Ok? then 1 else 0
    {
      logoFiles := logoFiles + Uploaded(upload);
      var abbr := OrDefault(abbreviation, "");
      var col := OrDefault(color, DefaultColor);
      var desc := OrDefault(description, "");
      var logoPath := UploadedLogo(upload);
      if name == "" {
        return BadRequest(PartyNameRequired);
      }
      if !Helpers.IsValidHexColor(col) {
        return BadRequest(ColorInvalid);
      }
      if exists id :: id in parties && SameText(parties[id].name, name) {
        logoFiles := logoFiles - Uploaded(upload);
        return BadRequest(PartyNameExists);
      }
      var id := nextPartyId;
      parties := parties[id := Party(name, abbr, col, logoPath, desc)];
      nextPartyId := nextPartyId + 1;
      r := Ok((id, parties[id]));
    }

    /** updateParty: the upload middleware stores a logo file, which the
        handler never looks at. A name is required; a non-empty colour must be
        a hex colour code; an unknown party is not found; the name must not
        equal another party's. Name, abbreviation, colour and description are
        replaced and the logo path is kept. */
    method UpdateParty(id: int, name: string, abbreviation: string, color: string, description: string,
                       upload: Option<string>) returns (r: Response<(int, Party)>)
      requires Valid()
      modifies this
      ensures Valid()
      ensures name == "" ==> r == BadRequest(PartyNameRequired)
      ensures name != "" && color != "" && !Helpers.IsValidHexColor(color) ==> r == BadRequest(ColorInvalid)
      ensures (name != "" && (color == "" || Helpers.IsValidHexColor(color)) && id !in old(parties)) ==>
        r == NotFound(PartyNotFound)
      ensures (name != "" && (color == "" || Helpers.IsValidHexColor(color)) && id in old(parties)
               && PartyNameTaken(old(parties) - {id}, name)) ==> r == BadRequest(PartyNameExists)
      ensures r.Ok? <==> (name != "" && (color == "" || Helpers.IsValidHexColor(color)) && id in old(parties)
                          && !PartyNameTaken(old(parties) - {id}, name))
      ensures !r.Ok? ==> parties == old(parties)
      ensures r.Ok? ==>
        && parties == old(parties)[id := old(parties)[id].(name := name, abbreviation := abbreviation,
                                                           color := color, description := description)]
        && r.value == (id, parties[id])
        && parties[id].logoPath == old(parties)[id].logoPath
      ensures logoFiles == old(logoFiles) + Uploaded(upload)
      ensures voters == old(voters) && villages == old(villages) && voteLogs == old(voteLogs)
      ensures nextVoterId == old(nextVoterId) && nextVillageId == old(nextVillageId) && nextPartyId == old(nextPartyId)
    {
      logoFiles := logoFiles + Uploaded(upload);
      if name == "" {
        return BadRequest(PartyNameRequired);
      }
      if color != "" && !Helpers.IsValidHexColor(color) {
        return BadRequest(ColorInvalid);
      }
      if id !in parties {
        return NotFound(PartyNotFound);
      }
      if exists other :: other in parties && other != id && SameText(parties[other].name, name) {
        ghost var other :| other in parties && other != id && SameText(parties[other].name, name);
        assert other in parties - {id};
        return BadRequest(PartyNameExists);
      }
      parties := parties[id := parties[id].(name := name, abbreviation := abbreviation,
                                            color := color, description := description)];
      r := Ok((id, parties[id]));
    }

    /** deleteParty: a party that has received votes is kept, whether or not
        it exists; otherwise an unknown party is not found, and a known one
        alone is removed. No cast ballot ever loses its party. */
    method DeleteParty(id: int) returns (r: Response<()>)
      requires Valid()
      modifies this
      ensures Valid()
      ensures VoteCount(old(voters), id) > 0 ==> r == BadRequest(PartyHasVotes)
      ensures VoteCount(old(voters), id) == 0 && id !in old(parties) ==> r == NotFound(PartyNotFound)
      ensures r.Ok? <==> VoteCount(old(voters), id) == 0 && id in old(parties)
      ensures !r.Ok? ==> unchanged(this)
      ensures r.Ok? ==> parties == old(parties) - {id}
      ensures forall vid :: (vid in voters && voters[vid].hasVoted && voters[vid].partyVotedId.Some?
                             && voters[vid].partyVotedId.value in old(parties))
                             ==> voters[vid].partyVotedId.value in parties
      ensures voters == old(voters) && villages == old(villages)
      ensures voteLogs == old(voteLogs) && logoFiles == old(logoFiles)
      ensures nextVoterId == old(nextVoterId) && nextVillageId == old(nextVillageId) && nextPartyId == old(nextPartyId)
    {
      if VoteCount(voters, id) > 0 {
        return BadRequest(PartyHasVotes);
      }
      if id !in parties {
        return NotFound(PartyNotFound);
      }
      ghost var ballots := set x | x in voters && voters[x].hasVoted && voters[x].partyVotedId == Some(id);
      assert |ballots| == 0;
      assert ballots == {};
      assert forall vid :: vid in voters && voters[vid].hasVoted ==> voters[vid].partyVotedId != Some(id) by {
        forall vid | vid in voters && voters[vid].hasVoted ensures voters[vid].partyVotedId != Some(id) {
          assert vid !in ballots;
        }
      }
      parties := parties - {id};
      r := Ok(());
    }

    /** uploadLogo: without a file the request is refused. The middleware has
        stored the file; for an unknown party it is deleted again. Otherwise
        the party's logo path becomes the new file's and the old logo file,
        when the party had one, is deleted. */
    method UploadLogo(id: int, upload: Option<string>) returns (r: Response<(int, Party)>)
      requires Valid()
      modifies this
      ensures Valid()
      ensures upload.None? ==> r == BadRequest(NoImageFile) && unchanged(this)
      ensures upload.Some? && id !in old(parties) ==>
        r == NotFound(PartyNotFound) && parties == old(parties)
        && logoFiles == old(logoFiles) + {LogoPath(upload.value)} - {LogoPath(upload.value)}
      ensures r.Ok? <==> upload.Some? && id in old(parties)
      ensures r.Ok? ==>
        && parties == old(parties)[id := old(parties)[id].(logoPath := Some(LogoPath(upload.value)))]
        && r.value == (id, parties[id])
        && logoFiles == old(logoFiles) + {LogoPath(upload.value)} - StoredLogo(old(parties)[id])
      ensures voters == old(voters) && villages == old(villages) && voteLogs == old(voteLogs)
      ensures nextVoterId == old(nextVoterId) && nextVillageId == old(nextVillageId) && nextPartyId == old(nextPartyId)
    {
      if upload.None? {
        return BadRequest(NoImageFile);
      }
      var path := LogoPath(upload.value);
      logoFiles := logoFiles + {path};
      if id !in parties {
        logoFiles := logoFiles - {path};
        return NotFound(PartyNotFound);
      }
      var current := parties[id];
      parties := parties[id := current.(logoPath := Some(path))];
      logoFiles := logoFiles - StoredLogo(current);
      r := Ok((id, parties[id]));
    }

    /** getPartyColors: one entry per party, keyed by its id. */
    method GetPartyColors() returns (colors: map<int, PartyColor>)
      ensures colors.Keys == parties.Keys
      ensures forall id :: id in colors ==> colors[id] == ColorOf(parties[id])
    {
      var ids := SetToSeq(parties.Keys);
      colors := map[];
      var i := 0;
      while i < |ids|
        invariant 0 <= i <= |ids|
        invariant colors.Keys == set k | k in ids[..i]
        invariant forall id :: id in colors ==> id in parties && colors[id] == ColorOf(parties[id])
      {
        assert ids[..i + 1] == ids[..i] + [ids[i]];
        colors := colors[ids[i] := ColorOf(parties[ids[i]])];
        i := i + 1;
      }
      assert ids[..i] == ids;
    }

    // -------------------------------------------------------------------
    // Statistics

    /** getVotingStats: the overall_stats row, or zeros when the view has no
        row, and the ten newest joined vote-log rows, newest first. */
    method GetVotingStats(overall: Option<OverallStats>) returns (stats: VotingStats)
      ensures stats.overall == if overall.Some? then overall.value else ZeroStats
      ensures var all := RecentRows(voteLogs, voters, parties, villages);
        |stats.recentVotes| == if |all| < RecentLimit then |all| else RecentLimit
      ensures Sorted(stats.recentVotes, NewerFirst)
      ensures multiset(stats.recentVotes) <= multiset(RecentRows(voteLogs, voters, parties, villages))
      ensures forall x :: x in RecentRows(voteLogs, voters, parties, villages) ==>
        x in stats.recentVotes || forall i :: 0 <= i < |stats.recentVotes| ==> NewerFirst(stats.recentVotes[i], x)
    {
      var recent := RecentVotes(voteLogs, voters, parties, villages);
      stats := VotingStats(if overall.Some? then overall.value else ZeroStats, recent);
    }
  }
}
