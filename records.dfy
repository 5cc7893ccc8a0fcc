// The election records kept by the backend (backend/controllers/*.js): the
// rows of the voters, villages, parties and vote_logs tables, the handler
// responses, and the derived quantities the controllers' queries compute
// (counts, the getAllVoters filter, pagination, the joined result rows).
module Records {
  import opened Text
  import opened Seqs
  import opened Sorting

  datatype Voter = Voter(name: string, ic: string, villageId: int, hasVoted: bool,
                         partyVotedId: Option<int>, votedAt: Option<int>)

  datatype Village = Village(name: string, description: string)

  datatype Party = Party(name: string, abbreviation: string, color: string,
                         logoPath: Option<string>, description: string)

  /** A vote_logs row: which voter voted for which party, from which village,
      when, and from which client. */
  datatype VoteLog = VoteLog(voterId: int, partyId: int, villageId: int, votedAt: int,
                             ip: string, userAgent: string)

  /** A handler's outcome: the JSON body of a success, or the status and
      error message of a failure (400, 404, 500). */
  datatype Response<T> = Ok(value: T) | BadRequest(error: string) | NotFound(error: string) | ServerError(error: string)

  const VoterFieldsRequired := "Name, IC number, and village are required"
  const VoterUpdateFieldsRequired := "Name, IC number, and village ID are required"
  const IcFormat := "IC number must be 12 digits"
  const IcExists := "IC number already exists"
  const VoteFieldsRequired := "Voter ID and Party ID are required"
  const VoteRefused := "Voter not found or has already voted"
  const VoterNotFound := "Voter not found"
  const VoterVotedNoEdit := "Cannot edit voter who has already voted"
  const VoterVotedNoDelete := "Cannot delete voter who has already voted"
  const FetchVotersFailed := "Failed to fetch voters"
  const VillageNameRequired := "Village name is required"
  const VillageNameExists := "Village name already exists"
  const VillageNotFound := "Village not found"
  const VillageHasVoters := "Cannot delete village with registered voters"
  const PartyNameRequired := "Party name is required"
  const ColorInvalid := "Color must be a valid hex color code"
  const PartyNameExists := "Party name already exists"
  const PartyNotFound := "Party not found"
  const PartyHasVotes := "Cannot delete party that has received votes"
  const NoImageFile := "No image file provided"

  /** The colour a new party gets when the request names none. */
  const DefaultColor := "#3B82F6"

  /** Where an uploaded logo is stored and served from. */
  const LogoDir := "/uploads/party-flags/"

  function LogoPath(filename: string): (p: string)
    ensures |p| == |LogoDir| + |filename| && p[|LogoDir|..] == filename
  {
    LogoDir + filename
  }

  /** A destructured request field with a default: the default replaces only
      a missing field, not an empty one. */
  function OrDefault(field: Option<string>, default: string): (s: string)
    ensures field.None? ==> s == default
    ensures field.Some? ==> s == field.value
  {
    if field.Some? then field.value else default
  }

  /** The logo_path an upload gives a new party: its served path, or null. */
  function UploadedLogo(upload: Option<string>): (p: Option<string>)
    ensures upload.None? <==> p.None?
    ensures upload.Some? ==> p == Some(LogoPath(upload.value))
  {
    if upload.Some? then Some(LogoPath(upload.value)) else None
  }

  /** The file an upload stores, if any. */
  function Uploaded(upload: Option<string>): (files: set<string>)
    ensures upload.None? ==> files == {}
    ensures upload.Some? ==> files == {LogoPath(upload.value)}
  {
    if upload.Some? then {LogoPath(upload.value)} else {}
  }

  /** The logo file a party row points to, if its logo_path is set. */
  function StoredLogo(p: Party): (files: set<string>)
    ensures p.logoPath.Some? && p.logoPath.value != "" ==> files == {p.logoPath.value}
    ensures p.logoPath.None? || p.logoPath.value == "" ==> files == {}
  {
    if p.logoPath.Some? && p.logoPath.value != "" then {p.logoPath.value} else {}
  }

  // ---------------------------------------------------------------------
  // The database's text comparisons

  /** = on text columns: the collation ignores letter case. */
  predicate SameText(a: string, b: string) {
    Lower(a) == Lower(b)
  }

  /** column LIKE '%term%': the term occurs in the column, ignoring case. */
  predicate LikeText(column: string, term: string) {
    Contains(Lower(column), Lower(term))
  }

  /** Some voter's identity number equals ic under the collation. */
  predicate IcTaken(voters: map<int, Voter>, ic: string) {
    exists id :: id in voters && SameText(voters[id].ic, ic)
  }

  predicate VillageNameTaken(villages: map<int, Village>, name: string) {
    exists id :: id in villages && SameText(villages[id].name, name)
  }

  predicate PartyNameTaken(parties: map<int, Party>, name: string) {
    exists id :: id in parties && SameText(parties[id].name, name)
  }

  // ---------------------------------------------------------------------
  // Derived counts

  /** voter_count: COUNT of the voters whose village_id is the village. */
  function VoterCount(voters: map<int, Voter>, villageId: int): nat {
    |set id | id in voters && voters[id].villageId == villageId|
  }

  /** votes_cast: COUNT of those voters with has_voted; never more than
      voter_count. */
  function VotesCast(voters: map<int, Voter>, villageId: int): (n: nat)
    ensures n <= VoterCount(voters, villageId)
  {
    var cast := set id | id in voters && voters[id].villageId == villageId && voters[id].hasVoted;
    SubsetCard(cast, set id | id in voters && voters[id].villageId == villageId);
    |cast|
  }

  /** vote_count: COUNT of the voters with has_voted whose party_voted_id is
      the party. */
  function VoteCount(voters: map<int, Voter>, partyId: int): nat {
    |set id | id in voters && voters[id].hasVoted && voters[id].partyVotedId == Some(partyId)|
  }

  /** The ids of the voters who have voted. */
  function VotedIds(voters: map<int, Voter>): set<int> {
    set id | id in voters && voters[id].hasVoted
  }

  /** A party's votes are among all votes cast. */
  lemma VoteCountAtMostVoted(voters: map<int, Voter>, partyId: int)
    ensures VoteCount(voters, partyId) <= |VotedIds(voters)|
  {
    var mine := set id | id in voters && voters[id].hasVoted && voters[id].partyVotedId == Some(partyId);
    SubsetCard(mine, VotedIds(voters));
  }

  /** The voter row after the stored procedure records a ballot. */
  function Ballot(v: Voter, partyId: int, now: int): (b: Voter)
    ensures b.hasVoted && b.partyVotedId == Some(partyId) && b.votedAt == Some(now)
    ensures b.name == v.name && b.ic == v.ic && b.villageId == v.villageId
  {
    v.(hasVoted := true, partyVotedId := Some(partyId), votedAt := Some(now))
  }

  /** Recording one ballot adds exactly one vote to the chosen party, to the
      voter's village and to the votes cast, and leaves every other count as
      it was. */
  lemma BallotCounts(voters: map<int, Voter>, id: int, partyId: int, now: int)
    requires id in voters && !voters[id].hasVoted
    ensures var after := voters[id := Ballot(voters[id], partyId, now)];
      && VotedIds(after) == VotedIds(voters) + {id} && id !in VotedIds(voters)
      && |VotedIds(after)| == |VotedIds(voters)| + 1
      && VoteCount(after, partyId) == VoteCount(voters, partyId) + 1
      && (forall p :: p != partyId ==> VoteCount(after, p) == VoteCount(voters, p))
      && (forall w :: VoterCount(after, w) == VoterCount(voters, w))
      && VotesCast(after, voters[id].villageId) == VotesCast(voters, voters[id].villageId) + 1
      && (forall w :: w != voters[id].villageId ==> VotesCast(after, w) == VotesCast(voters, w))
  {
    var after := voters[id := Ballot(voters[id], partyId, now)];
    var home := voters[id].villageId;
    assert VotedIds(after) == VotedIds(voters) + {id};
    var forParty := set x | x in voters && voters[x].hasVoted && voters[x].partyVotedId == Some(partyId);
    assert (set x | x in after && after[x].hasVoted && after[x].partyVotedId == Some(partyId)) == forParty + {id};
    forall p | p != partyId
      ensures VoteCount(after, p) == VoteCount(voters, p)
    {
      assert (set x | x in after && after[x].hasVoted && after[x].partyVotedId == Some(p))
          == (set x | x in voters && voters[x].hasVoted && voters[x].partyVotedId == Some(p));
    }
    forall w
      ensures VoterCount(after, w) == VoterCount(voters, w)
    {
      assert (set x | x in after && after[x].villageId == w) == (set x | x in voters && voters[x].villageId == w);
    }
    var castHome := set x | x in voters && voters[x].villageId == home && voters[x].hasVoted;
    assert (set x | x in after && after[x].villageId == home && after[x].hasVoted) == castHome + {id};
    forall w | w != home
      ensures VotesCast(after, w) == VotesCast(voters, w)
    {
      assert (set x | x in after && after[x].villageId == w && after[x].hasVoted)
          == (set x | x in voters && voters[x].villageId == w && voters[x].hasVoted);
    }
  }

  /** Voters who have voted are kept unchanged from before to after. */
  ghost predicate VotedFrozen(before: map<int, Voter>, after: map<int, Voter>) {
    forall id :: id in before && before[id].hasVoted ==> id in after && after[id] == before[id]
  }

  // ---------------------------------------------------------------------
  // The vote log

  function LogVoters(logs: seq<VoteLog>): (ids: seq<int>)
    ensures |ids| == |logs|
    ensures forall i :: 0 <= i < |logs| ==> ids[i] == logs[i].voterId
  {
    seq(|logs|, i requires 0 <= i < |logs| => logs[i].voterId)
  }

  /** Each voted voter has exactly one log row, and each log row records a
      voted voter's ballot as the voter row holds it. */
  predicate LogConsistent(voters: map<int, Voter>, logs: seq<VoteLog>) {
    && NoDups(LogVoters(logs))
    && (forall i :: 0 <= i < |logs| ==> LogMatchesVoter(voters, logs[i]))
    && (forall id :: id in voters && voters[id].hasVoted ==> id in LogVoters(logs))
  }

  predicate LogMatchesVoter(voters: map<int, Voter>, log: VoteLog) {
    && log.voterId in voters
    && var v := voters[log.voterId];
    && v.hasVoted && v.partyVotedId == Some(log.partyId) && v.votedAt == Some(log.votedAt)
    && v.villageId == log.villageId
  }

  /** The log holds one row per vote cast. */
  lemma VoteLogCount(voters: map<int, Voter>, logs: seq<VoteLog>)
    requires LogConsistent(voters, logs)
    ensures |logs| == |VotedIds(voters)|
  {
    var ids := LogVoters(logs);
    NoDupsCard(ids);
    assert (set x | x in ids) == VotedIds(voters) by {
      forall x | x in ids ensures x in VotedIds(voters) {
        var i :| 0 <= i < |ids| && ids[i] == x;
        assert LogMatchesVoter(voters, logs[i]);
      }
      forall x | x in VotedIds(voters) ensures x in ids {
        assert x in voters && voters[x].hasVoted;
      }
    }
  }

  // ---------------------------------------------------------------------
  // getAllVoters

  /** The WHERE clause getAllVoters builds: a search term must occur in the
      name or the identity number; a village value that is all digits selects
      by village_id, any other non-empty value by the joined village name. */
  predicate VoterMatches(v: Voter, villages: map<int, Village>, search: string, village: string) {
    && (search == "" || LikeText(v.name, search) || LikeText(v.ic, search))
    && (village == "" ||
        if AllDigits(village) then v.villageId == ParseDigits(village)
        else v.villageId in villages && SameText(villages[v.villageId].name, village))
  }

  /** The total the count query returns: it applies the same filter. */
  function MatchCount(voters: map<int, Voter>, villages: map<int, Village>, search: string, village: string): nat {
    |set id | id in voters && VoterMatches(voters[id], villages, search, village)|
  }

  /** The village parameter: "3" selects village_id 3, "alor" selects by the
      joined name under the collation, and the search term matches the name. */
  lemma VoterMatchesExamples()
    ensures var v := Voter("Ali", "900101015555", 3, false, None, None);
      var vs := map[3 := Village("Alor", "")];
      && VoterMatches(v, vs, "", "3")
      && !VoterMatches(v, vs, "", "4")
      && VoterMatches(v, vs, "", "alor")
      && !VoterMatches(v, vs, "", "Kedah")
      && VoterMatches(v, vs, "al", "")
  {
    assert ParseDigits("3") == 3 && ParseDigits("4") == 4;
    assert Lower("Alor") == Lower("alor") == "alor";
    assert Lower("Kedah") != Lower("Alor");
    assert Lower("Ali")[0..2] == Lower("al");
  }

  /** The WHERE clause only narrows: with neither a search term nor a village
      every voter matches, and adding a search term never adds a match. */
  lemma MatchCountBounds(voters: map<int, Voter>, villages: map<int, Village>, search: string, village: string)
    ensures MatchCount(voters, villages, "", "") == |voters|
    ensures MatchCount(voters, villages, search, village) <= MatchCount(voters, villages, "", village) <= |voters|
  {
    var every := set id | id in voters && VoterMatches(voters[id], villages, "", "");
    assert every == voters.Keys;
    var narrow := set id | id in voters && VoterMatches(voters[id], villages, search, village);
    var wide := set id | id in voters && VoterMatches(voters[id], villages, "", village);
    SubsetCard(narrow, wide);
    SubsetCard(wide, voters.Keys);
  }

  /** OFFSET: (page - 1) * limit. */
  function Offset(page: int, limit: int): int {
    (page - 1) * limit
  }

  /** pages: Math.ceil(total / limit); with a limit of 0 the quotient is not
      a finite number and the JSON body carries null. */
  function Pages(total: nat, limit: nat): (pages: Option<nat>)
    ensures limit == 0 <==> pages.None?
    ensures pages.Some? ==> pages.value * limit >= total
    ensures pages.Some? && pages.value > 0 ==> (pages.value - 1) * limit < total
  {
    if limit == 0 then None else Some((total + limit - 1) / limit)
  }

  /** The number of rows LIMIT limit OFFSET offset leaves of total rows. */
  function PageLength(total: nat, offset: nat, limit: nat): (n: nat)
    ensures n <= limit
    ensures n > 0 ==> offset + n <= total
    ensures offset + limit <= total ==> n == limit
    ensures offset >= total ==> n == 0
    ensures offset < total < offset + limit ==> n == total - offset
  {
    if offset >= total then 0 else if offset + limit <= total then limit else total - offset
  }

  lemma PaginationExample()
    ensures Pages(45, 20) == Some(3)
    ensures Offset(2, 20) == 20 && PageLength(45, Offset(2, 20), 20) == 20
    ensures PageLength(45, Offset(3, 20), 20) == 5
  {
  }

  // ---------------------------------------------------------------------
  // Result rows

  /** A voter row joined (LEFT JOIN) with its village's name and the name and
      colour of the party it voted for. */
  datatype VoterView = VoterView(id: int, name: string, ic: string, villageId: int, hasVoted: bool,
                                 votedAt: Option<int>, partyVotedId: Option<int>,
                                 villageName: Option<string>, partyName: Option<string>,
                                 partyColor: Option<string>)

  function ViewOf(id: int, v: Voter, villages: map<int, Village>, parties: map<int, Party>): (view: VoterView)
    ensures view.id == id && view.name == v.name && view.ic == v.ic && view.hasVoted == v.hasVoted
    ensures view.villageId == v.villageId && view.votedAt == v.votedAt && view.partyVotedId == v.partyVotedId
    ensures view.villageName.Some? <==> v.villageId in villages
    ensures v.villageId in villages ==> view.villageName == Some(villages[v.villageId].name)
    ensures view.partyName.Some? <==> v.partyVotedId.Some? && v.partyVotedId.value in parties
    ensures view.partyColor.Some? <==> v.partyVotedId.Some? && v.partyVotedId.value in parties
    ensures v.partyVotedId.Some? && v.partyVotedId.value in parties ==>
      && view.partyName == Some(parties[v.partyVotedId.value].name)
      && view.partyColor == Some(parties[v.partyVotedId.value].color)
  {
    var partyName := if v.partyVotedId.Some? && v.partyVotedId.value in parties
      then Some(parties[v.partyVotedId.value].name) else None;
    var partyColor := if v.partyVotedId.Some? && v.partyVotedId.value in parties
      then Some(parties[v.partyVotedId.value].color) else None;
    VoterView(id, v.name, v.ic, v.villageId, v.hasVoted, v.votedAt, v.partyVotedId,
              if v.villageId in villages then Some(villages[v.villageId].name) else None,
              partyName, partyColor)
  }

  /** A getAllVillages row. */
  datatype VillageRow = VillageRow(id: int, name: string, description: string, voterCount: nat, votesCast: nat)

  /** A getAllParties row. */
  datatype PartyRow = PartyRow(id: int, name: string, abbreviation: string, color: string,
                               logoPath: Option<string>, description: string, voteCount: nat)

  /** A getPartyColors entry. */
  datatype PartyColor = PartyColor(name: string, abbreviation: string, color: string, logoPath: Option<string>)

  /** A recent_votes row: a log row joined with its voter, party and village. */
  datatype RecentVote = RecentVote(voterName: string, partyName: string, partyColor: string,
                                   villageName: string, votedAt: int)

  /** The overall_stats view's row; its contents are computed by the database. */
  datatype OverallStats = OverallStats(totalVoters: int, totalVotesCast: int, remainingVoters: int,
                                       turnoutPercentage: real)

  const ZeroStats := OverallStats(0, 0, 0, 0.0)

  /** The getAllVillages row of a village: LEFT JOIN keeps villages without
      voters, whose counts are 0. */
  function VillageRowOf(id: int, v: Village, voters: map<int, Voter>): (row: VillageRow)
    ensures row.id == id && row.name == v.name && row.description == v.description
    ensures row.voterCount == VoterCount(voters, id) && row.votesCast == VotesCast(voters, id)
    ensures row.votesCast <= row.voterCount
  {
    VillageRow(id, v.name, v.description, VoterCount(voters, id), VotesCast(voters, id))
  }

  function PartyRowOf(id: int, p: Party, voters: map<int, Voter>): (row: PartyRow)
    ensures row.id == id && row.name == p.name && row.logoPath == p.logoPath
    ensures row.voteCount == VoteCount(voters, id)
  {
    PartyRow(id, p.name, p.abbreviation, p.color, p.logoPath, p.description, VoteCount(voters, id))
  }

  function ColorOf(p: Party): (c: PartyColor)
    ensures c.name == p.name && c.abbreviation == p.abbreviation && c.color == p.color && c.logoPath == p.logoPath
  {
    PartyColor(p.name, p.abbreviation, p.color, p.logoPath)
  }

  /** The inner joins of the recent-votes query keep a log row only when its
      voter, party and village all exist. */
  predicate Joinable(log: VoteLog, voters: map<int, Voter>, parties: map<int, Party>, villages: map<int, Village>) {
    log.voterId in voters && log.partyId in parties && log.villageId in villages
  }

  function JoinedLogs(logs: seq<VoteLog>, voters: map<int, Voter>, parties: map<int, Party>,
                      villages: map<int, Village>): (r: seq<VoteLog>)
    ensures forall i :: 0 <= i < |r| ==> Joinable(r[i], voters, parties, villages)
    ensures forall i :: 0 <= i < |logs| && Joinable(logs[i], voters, parties, villages) ==> logs[i] in r
    ensures |r| <= |logs|
  {
    Filter(logs, (l: VoteLog) => Joinable(l, voters, parties, villages))
  }

  function RecentOf(log: VoteLog, voters: map<int, Voter>, parties: map<int, Party>,
                    villages: map<int, Village>): (row: RecentVote)
    requires Joinable(log, voters, parties, villages)
    ensures row.votedAt == log.votedAt && row.voterName == voters[log.voterId].name
  {
    RecentVote(voters[log.voterId].name, parties[log.partyId].name, parties[log.partyId].color,
               villages[log.villageId].name, log.votedAt)
  }

  /** A voter row records a ballot exactly when has_voted is set. */
  predicate BallotFields(v: Voter) {
    if v.hasVoted then v.partyVotedId.Some? && v.votedAt.Some? else v.partyVotedId.None? && v.votedAt.None?
  }

  // ---------------------------------------------------------------------
  // Orders

  predicate VoterViewLe(a: VoterView, b: VoterView) {
    NameLe(a.name, b.name)
  }

  predicate VillageRowLe(a: VillageRow, b: VillageRow) {
    NameLe(a.name, b.name)
  }

  predicate PartyRowLe(a: PartyRow, b: PartyRow) {
    NameLe(a.name, b.name)
  }

  /** ORDER BY voted_at DESC. */
  predicate NewerFirst(a: RecentVote, b: RecentVote) {
    a.votedAt >= b.votedAt
  }

  lemma OrdersArePreorders()
    ensures TotalPreorder(VoterViewLe)
    ensures TotalPreorder(VillageRowLe)
    ensures TotalPreorder(PartyRowLe)
    ensures TotalPreorder(NewerFirst)
  {
    NameLeTotalPreorder();
  }
}
