/** The lunch poll walk-through: a fresh store, one poll with two options,
    and four vote attempts that exercise both fairness keys. IP hashes stand
    for the digests of four client addresses. */
module LunchPoll {
  import opened PollRecords
  import opened Tally
  import opened PollStore

  const Lunch: Poll := Poll("p", "S", "Lunch?", "t0")
  const Pizza: PollOption := PollOption("pizza", "p", "Pizza", 0)
  const Tacos: PollOption := PollOption("tacos", "p", "Tacos", 1)

  /** A new store with the lunch poll in it, nobody having voted, and a
      zero total on the results page. */
  method OpenLunchPoll() returns (store: Store)
    ensures fresh(store)
    ensures store.polls == map["p" := Lunch]
    ensures store.options == map["pizza" := Pizza, "tacos" := Tacos]
    ensures store.votes == map[]
    ensures store.slugToPollId == map["S" := "p"]
  {
    store := new Store();
    var optionIds := ["pizza", "tacos"];
    var poll, opts := store.CreatePoll("Lunch?", ["Pizza", "Tacos"], "p", "S", optionIds, "t0");
    assert store.options[optionIds[0]] == Pizza && store.options[optionIds[1]] == Tacos;
    assert store.options.Keys == {"pizza", "tacos"};

    var results := store.GetPollWithResults("S");
    assert PollVotes(store.votes, store.votes.Keys, "p") == {};
    assert results.Some? && results.value.totalVotes == 0;
  }

  /** The four vote attempts: a first vote is accepted, the same browser is
      turned away for its fingerprint, a new browser on the same network is
      turned away for its IP hash, and a new browser on a new network is
      accepted. */
  method CastLunchVotes(store: Store)
    requires store.polls == map["p" := Lunch]
    requires store.options == map["pizza" := Pizza, "tacos" := Tacos]
    requires store.votes == map[]
    modifies store
    ensures store.votes == map["v1" := Vote("v1", "pizza", "p", "f1", "hash-1.1.1.1", "t1"),
                               "v4" := Vote("v4", "tacos", "p", "f2", "hash-3.3.3.3", "t4")]
  {
    var first := store.AddVote("p", "pizza", "f1", "hash-1.1.1.1", "v1", "t1");
    assert first == Accepted;
    var v1 := Vote("v1", "pizza", "p", "f1", "hash-1.1.1.1", "t1");
    assert store.votes == map["v1" := v1];

    var sameBrowser := store.AddVote("p", "pizza", "f1", "hash-2.2.2.2", "v2", "t2");
    assert store.votes["v1"].voterFingerprint == "f1";
    assert sameBrowser == Rejected(AlreadyVoted);
    assert store.votes == map["v1" := v1];
    assert !store.HasVotedByFingerprint("p", "f2") by {
      forall id | id in store.votes ensures store.votes[id].voterFingerprint != "f2" {
        assert id == "v1";
      }
    }

    var sameNetwork := store.AddVote("p", "tacos", "f2", "hash-1.1.1.1", "v3", "t3");
    assert sameNetwork == Rejected(NetworkAlreadyVoted);
    assert store.votes == map["v1" := v1];
    assert !store.HasVotedByFingerprint("p", "f2") && !store.HasVotedByIpHash("p", "hash-3.3.3.3") by {
      forall id | id in store.votes
        ensures store.votes[id].voterFingerprint != "f2" && store.votes[id].ipHash != "hash-3.3.3.3"
      {
        assert id == "v1";
      }
    }

    var second := store.AddVote("p", "tacos", "f2", "hash-3.3.3.3", "v4", "t4");
    assert second == Accepted;
  }

  method Walkthrough()
  {
    var store := OpenLunchPoll();
    CastLunchVotes(store);
  }
}
