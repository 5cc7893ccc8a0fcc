// Concrete request sequences against a fresh store and a fresh socket
// service, with the responses their contracts force.
module Scenarios {
  import opened Text
  import opened Seqs
  import opened Records
  import opened Store
  import opened SocketClient

  /** Registering voters: a short identity number is refused, a twelve-digit
      one accepted, and the same number a second time refused. */
  method RegisterVoters() returns (short: Response<VoterView>, first: Response<VoterView>, again: Response<VoterView>)
    ensures short == BadRequest(IcFormat)
    ensures first.Ok? && first.value.id == 1
    ensures again == BadRequest(IcExists)
  {
    var db := new ElectionDb();
    short := db.AddVoter("Aminah", "12345", 1);
    assert IsDigitRun("123456789012", 12);
    first := db.AddVoter("Aminah", "123456789012", 1);
    assert db.voters == map[1 := Voter("Aminah", "123456789012", 1, false, None, None)];
    again := db.AddVoter("Badrul", "123456789012", 1);
  }

  /** A voter votes once: the second ballot is refused with the same message
      as an unknown voter. */
  method VoteOnce() returns (first: Response<()>, second: Response<()>, unknown: Response<()>)
    ensures first.Ok?
    ensures second == BadRequest(VoteRefused) && unknown == BadRequest(VoteRefused)
  {
    var db := new ElectionDb();
    assert IsDigitRun("900101015555", 12);
    var added := db.AddVoter("Chong", "900101015555", 7);
    assert db.voters == map[1 := Voter("Chong", "900101015555", 7, false, None, None)];
    first := db.CastVote(1, 3, "10.0.0.1", "browser", 100);
    assert 1 in db.voters && db.voters[1].hasVoted;
    second := db.CastVote(1, 4, "10.0.0.1", "browser", 101);
    assert db.voters.Keys == {1};
    unknown := db.CastVote(2, 3, "10.0.0.1", "browser", 102);
  }

  /** A voter who has voted can be neither edited nor deleted. */
  method VotedIsLocked() returns (edit: Response<VoterView>, delete: Response<()>)
    ensures edit == BadRequest(VoterVotedNoEdit)
    ensures delete == BadRequest(VoterVotedNoDelete)
  {
    var db := new ElectionDb();
    assert IsDigitRun("900101015555", 12);
    var added := db.AddVoter("Chong", "900101015555", 7);
    assert db.voters == map[1 := Voter("Chong", "900101015555", 7, false, None, None)];
    var voted := db.CastVote(1, 3, "10.0.0.1", "browser", 100);
    assert 1 in db.voters && db.voters[1].hasVoted;
    edit := db.UpdateVoter(1, "Chong Wei", "900101015555", 7);
    assert 1 in db.voters && db.voters[1].hasVoted;
    delete := db.DeleteVoter(1);
  }

  /** A village with a voter cannot be deleted. */
  method VillageWithVoterKept() returns (blocked: Response<()>)
    ensures blocked == BadRequest(VillageHasVoters)
  {
    var db := new ElectionDb();
    var a := db.AddVillage("Kampung Baru", None);
    assert IsDigitRun("880202026666", 12);
    var v := db.AddVoter("Devi", "880202026666", 1);
    assert db.voters == map[1 := Voter("Devi", "880202026666", 1, false, None, None)];
    assert 1 in set x | x in db.voters && db.voters[x].villageId == 1;
    blocked := db.DeleteVillage(1);
  }

  /** Deleting a village that does not exist and has no voters is not found. */
  method UnknownVillage() returns (missing: Response<()>)
    ensures missing == NotFound(VillageNotFound)
  {
    var db := new ElectionDb();
    var a := db.AddVillage("Alor", None);
    assert db.villages.Keys == {1} && db.voters == map[];
    missing := db.DeleteVillage(9);
  }

  /** Renaming a village to another village's name is refused. */
  method VillageRenameClash() returns (renamed: Response<(int, Village)>)
    ensures renamed == BadRequest(VillageNameExists)
  {
    var db := new ElectionDb();
    var a := db.AddVillage("Alor", None);
    assert db.villages == map[1 := Village("Alor", "")];
    var b := db.AddVillage("Jasin", Some("north"));
    assert db.villages.Keys == {1, 2} && db.villages[1].name == "Alor";
    assert 1 in db.villages - {2} && SameText(db.villages[1].name, "Alor");
    renamed := db.UpdateVillage(2, "Alor", "");
  }

  /** A party gets the default colour; a colour name is refused. */
  method PartyColours() returns (named: Response<(int, Party)>, plain: Response<(int, Party)>)
    ensures named == BadRequest(ColorInvalid)
    ensures plain.Ok? && plain.value.1.color == DefaultColor && plain.value.1.logoPath == None
  {
    var db := new ElectionDb();
    assert !Helpers.IsValidHexColor("blue");
    named := db.AddParty("Parti Rakyat", None, Some("blue"), None, None);
    assert Helpers.IsValidHexColor(DefaultColor);
    plain := db.AddParty("Parti Rakyat", Some("PR"), None, None, None);
  }

  /** Adding a listener twice keeps one copy, so an emit calls it once. */
  method ListenerOnce() returns (calls: seq<Call>)
    ensures calls == [Call(5, Data(1))]
  {
    var s := new SocketService();
    s.AddListener("vote_cast", 5);
    s.AddListener("vote_cast", 5);
    var failures;
    calls, failures := s.EmitToListeners("vote_cast", Data(1), {});
  }

  /** A 'connected' listener learns the connection state from its argument:
      true when the socket connects, false when it disconnects. */
  method ConnectionStatus() returns (up: seq<Call>, down: seq<Call>)
    ensures up == [Call(7, Status(true))]
    ensures down == [Call(7, Status(false))]
  {
    var s := new SocketService();
    s.AddListener("connected", 7);
    var sock := s.Connect();
    up := s.HandleConnect({});
    down := s.HandleDisconnect({});
  }
}
