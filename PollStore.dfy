/** The in-memory poll store: polls, their options and their votes, kept in
    four maps, with the two-key fairness check on voting and vote counts
    recomputed from the stored votes on every read. */
module PollStore {
  import opened PollRecords
  import opened Tally

  const PollNotFound: string := "Poll not found"
  const InvalidOption: string := "Invalid option"
  const AlreadyVoted: string := "You have already voted in this poll"
  const NetworkAlreadyVoted: string := "Only one vote per device/network is allowed"

  /** The answer of `addVote`: success, or failure with a reason. */
  datatype VoteResult = Accepted | Rejected(error: string)

  /** Within one poll, no two votes carry the same voter fingerprint. */
  ghost predicate OneVotePerFingerprint(votes: map<string, Vote>)
  {
    forall a, b :: a in votes && b in votes && a != b && votes[a].pollId == votes[b].pollId ==>
      votes[a].voterFingerprint != votes[b].voterFingerprint
  }

  /** Within one poll, no two votes carry the same IP hash. */
  ghost predicate OneVotePerIpHash(votes: map<string, Vote>)
  {
    forall a, b :: a in votes && b in votes && a != b && votes[a].pollId == votes[b].pollId ==>
      votes[a].ipHash != votes[b].ipHash
  }

  /** Every vote is for an existing option of the vote's own poll. */
  ghost predicate VotesMatchOptions(votes: map<string, Vote>, options: map<string, PollOption>)
  {
    forall id :: id in votes ==>
      votes[id].optionId in options && options[votes[id].optionId].pollId == votes[id].pollId
  }

  /** Within one poll, no two options share a sort position. */
  ghost predicate DistinctSortOrders(options: map<string, PollOption>)
  {
    forall a, b :: a in options && b in options && a != b && options[a].pollId == options[b].pollId ==>
      options[a].sortOrder != options[b].sortOrder
  }

  /** The slug index and the polls agree both ways. */
  ghost predicate SlugIndexed(polls: map<string, Poll>, slugToPollId: map<string, string>)
  {
    && (forall slug :: slug in slugToPollId ==>
          slugToPollId[slug] in polls && polls[slugToPollId[slug]].slug == slug)
    && (forall id :: id in polls ==>
          polls[id].slug in slugToPollId && slugToPollId[polls[id].slug] == id)
  }

  /** Rows built from the poll's option ids, in the order the ids are
      listed: when options are filed under their own ids, the rows name
      exactly the poll's options, and unique sort positions make the
      non-decreasing order strictly increasing. */
  lemma RowsListPollOptions(options: map<string, PollOption>, pollId: string,
                            ids: seq<string>, rows: seq<OptionWithVotes>)
    requires forall id :: id in options ==> options[id].id == id
    requires DistinctSortOrders(options)
    requires forall i :: 0 <= i < |ids| ==> ids[i] in options && options[ids[i]].pollId == pollId
    requires forall id :: id in options && options[id].pollId == pollId ==> id in ids
    requires NoDuplicates(ids)
    requires SortedBySortOrder(ids, options)
    requires |rows| == |ids| && forall i :: 0 <= i < |rows| ==> rows[i].option == options[ids[i]]
    ensures RowOptionIds(rows) == set id | id in options && options[id].pollId == pollId
    ensures forall i, j :: 0 <= i < j < |rows| ==> rows[i].option.sortOrder < rows[j].option.sortOrder
  {
    forall x | x in options && options[x].pollId == pollId ensures x in RowOptionIds(rows) {
      var i :| 0 <= i < |ids| && ids[i] == x;
      assert rows[i].option.id == x;
    }
    forall i, j | 0 <= i < j < |rows|
      ensures rows[i].option.sortOrder < rows[j].option.sortOrder
    {
      assert ids[i] != ids[j];
    }
  }

  /** The reported total equals the sum of the reported per-option counts:
      every vote is for an option of its own poll, every option of the poll
      has exactly one row, and each row counts the votes for its option. */
  lemma TotalIsSumOfOptionCounts(votes: map<string, Vote>, options: map<string, PollOption>, pollId: string,
                                 ids: seq<string>, rows: seq<OptionWithVotes>)
    requires forall id :: id in options ==> options[id].id == id
    requires VotesMatchOptions(votes, options)
    requires forall id :: id in options && options[id].pollId == pollId ==> id in ids
    requires forall i :: 0 <= i < |ids| ==> ids[i] in options
    requires NoDuplicates(ids)
    requires |rows| == |ids| && forall i :: 0 <= i < |rows| ==> rows[i].option == options[ids[i]]
    requires forall i :: 0 <= i < |rows| ==>
               rows[i].voteCount == |OptionVotes(votes, votes.Keys, pollId, rows[i].option.id)|
    ensures SumVoteCounts(rows) == |PollVotes(votes, votes.Keys, pollId)|
  {
    assert forall i :: 0 <= i < |rows| ==> rows[i].option.id == ids[i];
    SumOfCounts(votes, pollId, rows);
    forall k | k in PollVotes(votes, votes.Keys, pollId)
      ensures k in CoveredVotes(votes, pollId, RowOptionIds(rows))
    {
      var o := votes[k].optionId;
      var i :| 0 <= i < |ids| && ids[i] == o;
      assert rows[i].option.id == o;
    }
    assert CoveredVotes(votes, pollId, RowOptionIds(rows)) == PollVotes(votes, votes.Keys, pollId);
  }

  /** Filing a poll under a fresh id and a fresh slug, with options under
      fresh ids at sort positions 0, 1, 2, ..., keeps every part of the
      store's invariant that mentions polls, options or the slug index. */
  lemma NewPollKeepsInvariant(polls: map<string, Poll>, options: map<string, PollOption>,
                              votes: map<string, Vote>, slugToPollId: map<string, string>,
                              poll: Poll, optionIds: seq<string>, after: map<string, PollOption>)
    requires poll.id != "" && poll.id !in polls && poll.slug !in slugToPollId
    requires "" !in polls && forall id :: id in polls ==> polls[id].id == id
    requires forall id :: id in options ==> options[id].id == id && options[id].pollId in polls
    requires VotesMatchOptions(votes, options)
    requires DistinctSortOrders(options)
    requires SlugIndexed(polls, slugToPollId)
    requires NoDuplicates(optionIds)
    requires forall id :: id in after <==> id in options || id in optionIds
    requires forall id :: id in options ==> after[id] == options[id]
    requires forall i :: 0 <= i < |optionIds| ==>
               && after[optionIds[i]].id == optionIds[i]
               && after[optionIds[i]].pollId == poll.id
               && after[optionIds[i]].sortOrder == i
    ensures var polls' := polls[poll.id := poll];
      && "" !in polls'
      && (forall id :: id in polls' ==> polls'[id].id == id)
      && (forall id :: id in after ==> after[id].id == id && after[id].pollId in polls')
      && VotesMatchOptions(votes, after)
      && DistinctSortOrders(after)
      && SlugIndexed(polls', slugToPollId[poll.slug := poll.id])
  {
    forall id | id in after && id !in options ensures after[id].id == id && after[id].pollId == poll.id {
      var i :| 0 <= i < |optionIds| && optionIds[i] == id;
    }
    forall a, b | a in after && b in after && a != b && after[a].pollId == after[b].pollId
      ensures after[a].sortOrder != after[b].sortOrder
    {
      if a !in options && b !in options {
        var ia :| 0 <= ia < |optionIds| && optionIds[ia] == a;
        var ib :| 0 <= ib < |optionIds| && optionIds[ib] == b;
      }
    }
  }

  class Store {
    var polls: map<string, Poll>
    var options: map<string, PollOption>
    var votes: map<string, Vote>
    var slugToPollId: map<string, string>

    /** The store's invariant: records are filed under their own ids (never
        the empty id), options and votes hang off existing polls and options,
        the fairness keys are unique per poll, sort positions are unique per
        poll, and the slug index is exact. */
    ghost predicate Valid()
      reads this
    {
      && "" !in polls
      && (forall id :: id in polls ==> polls[id].id == id)
      && (forall id :: id in options ==> options[id].id == id && options[id].pollId in polls)
      && (forall id :: id in votes ==> votes[id].id == id)
      && VotesMatchOptions(votes, options)
      && OneVotePerFingerprint(votes)
      && OneVotePerIpHash(votes)
      && DistinctSortOrders(options)
      && SlugIndexed(polls, slugToPollId)
    }

    /** The first use of the store: four empty maps. */
    constructor ()
      ensures Valid()
      ensures polls == map[] && options == map[] && votes == map[] && slugToPollId == map[]
    {
      polls, options, votes, slugToPollId := map[], map[], map[], map[];
    }

    /** `getOptionIdsByPollId`: the ids of the poll's options, each once, in
        ascending `sortOrder`. */
    method OptionIdsByPollId(pollId: string) returns (ids: seq<string>)
      ensures forall i :: 0 <= i < |ids| ==> ids[i] in options && options[ids[i]].pollId == pollId
      ensures forall id :: id in options && options[id].pollId == pollId ==> id in ids
      ensures NoDuplicates(ids)
      ensures SortedBySortOrder(ids, options)
    {
      ids := [];
      var pending := options.Keys;
      while pending != {}
        invariant pending <= options.Keys
        invariant forall x :: x in ids ==> x in options && options[x].pollId == pollId && x !in pending
        invariant forall id :: id in options && id !in pending && options[id].pollId == pollId ==> id in ids
        invariant NoDuplicates(ids)
        invariant SortedBySortOrder(ids, options)
        decreases pending
      {
        var id :| id in pending;
        if options[id].pollId == pollId {
          ids := InsertBySortOrder(ids, id, options);
        }
        pending := pending - {id};
      }
    }

    /** `createPoll`: files the poll and one option per text, option `i`
        getting sort position `i`. The slug index entry is overwritten if the
        slug was already taken; the invariant is kept when it was not. */
    method CreatePoll(question: string, optionTexts: seq<string>, pollId: string, slug: string,
                      optionIds: seq<string>, createdAt: string)
      returns (poll: Poll, opts: seq<PollOption>)
      requires pollId != "" && pollId !in polls
      requires |optionIds| == |optionTexts| && NoDuplicates(optionIds)
      requires forall i :: 0 <= i < |optionIds| ==> optionIds[i] !in options
      modifies this
      ensures poll == Poll(pollId, slug, question, createdAt)
      ensures |opts| == |optionTexts|
      ensures forall i :: 0 <= i < |opts| ==> opts[i] == PollOption(optionIds[i], pollId, optionTexts[i], i)
      ensures polls == old(polls)[pollId := poll]
      ensures slugToPollId == old(slugToPollId)[slug := pollId]
      ensures forall id :: id in options <==> id in old(options) || id in optionIds
      ensures forall id :: id in old(options) ==> options[id] == old(options)[id]
      ensures forall i :: 0 <= i < |opts| ==> options[optionIds[i]] == opts[i]
      ensures votes == old(votes)
      ensures PollBySlug(slug) == Some(poll)
      ensures old(Valid()) && slug !in old(slugToPollId) ==> Valid()
    {
      poll := Poll(pollId, slug, question, createdAt);
      polls := polls[pollId := poll];
      slugToPollId := slugToPollId[slug := pollId];
      opts := [];
      var i := 0;
      while i < |optionTexts|
        invariant 0 <= i <= |optionTexts| && |opts| == i
        invariant forall j :: 0 <= j < i ==> opts[j] == PollOption(optionIds[j], pollId, optionTexts[j], j)
        invariant forall id :: id in options <==> id in old(options) || id in optionIds[..i]
        invariant forall id :: id in old(options) ==> options[id] == old(options)[id]
        invariant forall j :: 0 <= j < i ==> options[optionIds[j]] == opts[j]
        invariant polls == old(polls)[pollId := poll]
        invariant slugToPollId == old(slugToPollId)[slug := pollId]
        invariant votes == old(votes)
      {
        var opt := PollOption(optionIds[i], pollId, optionTexts[i], i);
        options := options[opt.id := opt];
        opts := opts + [opt];
        i := i + 1;
      }
      assert optionIds[..i] == optionIds;
      if old(Valid()) && slug !in old(slugToPollId) {
        NewPollKeepsInvariant(old(polls), old(options), votes, old(slugToPollId), poll, optionIds, options);
      }
    }

    /** `getPollBySlug`: the poll the slug index points to, if any. Under the
        invariant it is found exactly when some poll has this slug, and it is
        that poll. */
    function PollBySlug(slug: string): (r: Option<Poll>)
      reads this
      ensures r.None? <==> slug !in slugToPollId || slugToPollId[slug] == "" || slugToPollId[slug] !in polls
      ensures r.Some? ==> r.value == polls[slugToPollId[slug]]
      ensures Valid() ==> (r.Some? <==> exists id :: id in polls && polls[id].slug == slug)
      ensures Valid() && r.Some? ==> r.value.slug == slug && r.value.id in polls
    {
      if slug in slugToPollId && slugToPollId[slug] != "" && slugToPollId[slug] in polls
      then Some(polls[slugToPollId[slug]])
      else None
    }

    /** `getPollWithResults`: the poll with its options in display order, each
        with the number of stored votes for it, and the poll's vote total,
        all counted afresh from the vote map. */
    method GetPollWithResults(slug: string) returns (r: Option<PollWithResults>)
      ensures r.None? <==> PollBySlug(slug).None?
      ensures r.Some? ==> r.value.poll == PollBySlug(slug).value
      ensures r.Some? ==> r.value.totalVotes == |PollVotes(votes, votes.Keys, r.value.poll.id)|
      ensures r.Some? ==> forall i :: 0 <= i < |r.value.options| ==>
                && r.value.options[i].option in options.Values
                && r.value.options[i].option.pollId == r.value.poll.id
                && r.value.options[i].voteCount
                   == |OptionVotes(votes, votes.Keys, r.value.poll.id, r.value.options[i].option.id)|
      ensures r.Some? ==> forall i, j :: 0 <= i < j < |r.value.options| ==>
                r.value.options[i].option.sortOrder <= r.value.options[j].option.sortOrder
      ensures r.Some? && Valid() ==>
                RowOptionIds(r.value.options) == set id | id in options && options[id].pollId == r.value.poll.id
      ensures r.Some? && Valid() ==> forall i, j :: 0 <= i < j < |r.value.options| ==>
                r.value.options[i].option.sortOrder < r.value.options[j].option.sortOrder
      ensures r.Some? && Valid() ==> r.value.totalVotes == SumVoteCounts(r.value.options)
    {
      var found := PollBySlug(slug);
      if found.None? {
        return None;
      }
      var poll := found.value;
      var ids := OptionIdsByPollId(poll.id);

      var total, counts := CountVotes(poll.id);
      var opts := options;
      var rows := seq(|ids|, i requires 0 <= i < |ids| && ids[i] in opts =>
                               OptionWithVotes(opts[ids[i]], CountOr0(counts, opts[ids[i]].id)));
      r := Some(PollWithResults(poll, rows, total));

      forall i | 0 <= i < |rows|
        ensures rows[i].option in options.Values && rows[i].option.pollId == poll.id
        ensures rows[i].voteCount == |OptionVotes(votes, votes.Keys, poll.id, rows[i].option.id)|
      {
        assert ids[i] in options;
      }
      forall i, j | 0 <= i < j < |rows|
        ensures rows[i].option.sortOrder <= rows[j].option.sortOrder
      {
        assert rows[i].option == options[ids[i]] && rows[j].option == options[ids[j]];
      }
      if Valid() {
        RowsListPollOptions(options, poll.id, ids, rows);
        TotalIsSumOfOptionCounts(votes, options, poll.id, ids, rows);
      }
    }

    /** The vote-counting loop of `getPollWithResults`: one pass over all
        stored votes, counting those of the poll in total and per option. */
    method CountVotes(pollId: string) returns (total: nat, counts: map<string, nat>)
      ensures total == |PollVotes(votes, votes.Keys, pollId)|
      ensures forall o :: CountOr0(counts, o) == |OptionVotes(votes, votes.Keys, pollId, o)|
    {
      counts := map[];
      total := 0;
      var pending := votes.Keys;
      ghost var seen: set<string> := {};
      while pending != {}
        invariant pending <= votes.Keys && seen == votes.Keys - pending
        invariant total == |PollVotes(votes, seen, pollId)|
        invariant forall o :: CountOr0(counts, o) == |OptionVotes(votes, seen, pollId, o)|
        decreases pending
      {
        var k :| k in pending;
        TallyStep(votes, seen, k, pollId);
        if votes[k].pollId == pollId {
          total := total + 1;
          counts := counts[votes[k].optionId := CountOr0(counts, votes[k].optionId) + 1];
        }
        pending := pending - {k};
        seen := seen + {k};
      }
      assert seen == votes.Keys;
    }

    /** `hasVotedByFingerprint`: some stored vote of the poll carries this
        fingerprint. */
    predicate HasVotedByFingerprint(pollId: string, voterFingerprint: string)
      reads this
      ensures Valid() && HasVotedByFingerprint(pollId, voterFingerprint) ==> pollId in polls
    {
      exists id :: id in votes && votes[id].pollId == pollId && votes[id].voterFingerprint == voterFingerprint
    }

    /** Some stored vote of the poll carries this IP hash. */
    predicate HasVotedByIpHash(pollId: string, ipHash: string)
      reads this
    {
      exists id :: id in votes && votes[id].pollId == pollId && votes[id].ipHash == ipHash
    }

    /** `addVote`: rejects an unknown poll, then an option that is missing or
        belongs to another poll, then a fingerprint already used in the poll,
        then an IP hash already used in the poll; otherwise stores exactly one
        new vote. A rejection changes nothing. `voteId` is a fresh id. */
    method AddVote(pollId: string, optionId: string, voterFingerprint: string, ipHash: string,
                   voteId: string, createdAt: string)
      returns (r: VoteResult)
      requires voteId !in votes
      modifies this
      ensures polls == old(polls) && options == old(options) && slugToPollId == old(slugToPollId)
      ensures pollId !in polls ==> r == Rejected(PollNotFound)
      ensures pollId in polls && (optionId !in options || options[optionId].pollId != pollId) ==>
                r == Rejected(InvalidOption)
      ensures pollId in polls && optionId in options && options[optionId].pollId == pollId ==>
                && (old(HasVotedByFingerprint(pollId, voterFingerprint)) ==> r == Rejected(AlreadyVoted))
                && (!old(HasVotedByFingerprint(pollId, voterFingerprint)) && old(HasVotedByIpHash(pollId, ipHash))
                    ==> r == Rejected(NetworkAlreadyVoted))
      ensures r.Accepted? <==>
                && pollId in polls && optionId in options && options[optionId].pollId == pollId
                && !old(HasVotedByFingerprint(pollId, voterFingerprint))
                && !old(HasVotedByIpHash(pollId, ipHash))
      ensures r.Accepted? ==>
                votes == old(votes)[voteId := Vote(voteId, optionId, pollId, voterFingerprint, ipHash, createdAt)]
      ensures r.Accepted? ==> |votes| == |old(votes)| + 1 && HasVotedByFingerprint(pollId, voterFingerprint)
      ensures r.Rejected? ==> votes == old(votes)
      ensures old(Valid()) ==> Valid()
    {
      if pollId !in polls {
        return Rejected(PollNotFound);
      }
      if optionId !in options || options[optionId].pollId != pollId {
        return Rejected(InvalidOption);
      }
      if HasVotedByFingerprint(pollId, voterFingerprint) {
        return Rejected(AlreadyVoted);
      }
      if HasVotedByIpHash(pollId, ipHash) {
        return Rejected(NetworkAlreadyVoted);
      }
      var vote := Vote(voteId, optionId, pollId, voterFingerprint, ipHash, createdAt);
      votes := votes[voteId := vote];
      r := Accepted;
      assert votes[voteId].pollId == pollId && votes[voteId].voterFingerprint == voterFingerprint;
    }
  }
}
