/** Vote counting and option ordering over the store's maps, as values.
    Counts are cardinalities of sets of vote ids, so they do not depend on the
    order in which the store walks its votes. */
module Tally {
  import opened PollRecords

  /** Ids, among `seen`, of the votes cast in poll `pollId`. */
  function PollVotes(votes: map<string, Vote>, seen: set<string>, pollId: string): set<string>
  {
    set k | k in seen && k in votes && votes[k].pollId == pollId
  }

  /** Ids, among `seen`, of the votes cast in poll `pollId` for option `optionId`. */
  function OptionVotes(votes: map<string, Vote>, seen: set<string>, pollId: string, optionId: string): set<string>
  {
    set k | k in seen && k in votes && votes[k].pollId == pollId && votes[k].optionId == optionId
  }

  /** Ids of the votes of poll `pollId` whose option is one of `optionIds`. */
  function CoveredVotes(votes: map<string, Vote>, pollId: string, optionIds: set<string>): set<string>
  {
    set k | k in votes && votes[k].pollId == pollId && votes[k].optionId in optionIds
  }

  /** `counts.get(key) ?? 0`. */
  function CountOr0(counts: map<string, nat>, key: string): nat
  {
    if key in counts then counts[key] else 0
  }

  /** Sum of the vote counts of a list of annotated options. */
  function SumVoteCounts(rows: seq<OptionWithVotes>): nat
  {
    if rows == [] then 0 else rows[0].voteCount + SumVoteCounts(rows[1..])
  }

  /** The option ids of a list of annotated options. */
  function RowOptionIds(rows: seq<OptionWithVotes>): set<string>
  {
    set i | 0 <= i < |rows| :: rows[i].option.id
  }

  /** Looking at one more vote id `k` raises the poll count by one exactly
      when `k` is a vote of that poll, and raises only the count of that
      vote's option. */
  lemma TallyStep(votes: map<string, Vote>, seen: set<string>, k: string, pollId: string)
    requires k in votes && k !in seen
    ensures |PollVotes(votes, seen + {k}, pollId)|
            == |PollVotes(votes, seen, pollId)| + (if votes[k].pollId == pollId then 1 else 0)
    ensures forall o {:trigger OptionVotes(votes, seen + {k}, pollId, o)} ::
              |OptionVotes(votes, seen + {k}, pollId, o)|
              == |OptionVotes(votes, seen, pollId, o)|
                 + (if votes[k].pollId == pollId && votes[k].optionId == o then 1 else 0)
  {
    if votes[k].pollId == pollId {
      assert PollVotes(votes, seen + {k}, pollId) == PollVotes(votes, seen, pollId) + {k};
    } else {
      assert PollVotes(votes, seen + {k}, pollId) == PollVotes(votes, seen, pollId);
    }
    forall o
      ensures |OptionVotes(votes, seen + {k}, pollId, o)|
              == |OptionVotes(votes, seen, pollId, o)|
                 + (if votes[k].pollId == pollId && votes[k].optionId == o then 1 else 0)
    {
      if votes[k].pollId == pollId && votes[k].optionId == o {
        assert OptionVotes(votes, seen + {k}, pollId, o) == OptionVotes(votes, seen, pollId, o) + {k};
      } else {
        assert OptionVotes(votes, seen + {k}, pollId, o) == OptionVotes(votes, seen, pollId, o);
      }
    }
  }

  /** Adding a fresh vote raises the total of its poll, and the count of its
      option, by exactly one, and leaves every other count as it was. */
  lemma TallyAfterVote(votes: map<string, Vote>, v: Vote, pollId: string, optionId: string)
    requires v.id !in votes
    ensures var after := votes[v.id := v];
      && |PollVotes(after, after.Keys, pollId)|
         == |PollVotes(votes, votes.Keys, pollId)| + (if v.pollId == pollId then 1 else 0)
      && |OptionVotes(after, after.Keys, pollId, optionId)|
         == |OptionVotes(votes, votes.Keys, pollId, optionId)|
            + (if v.pollId == pollId && v.optionId == optionId then 1 else 0)
  {
    var after := votes[v.id := v];
    assert PollVotes(after, votes.Keys, pollId) == PollVotes(votes, votes.Keys, pollId);
    assert OptionVotes(after, votes.Keys, pollId, optionId) == OptionVotes(votes, votes.Keys, pollId, optionId);
    assert after.Keys == votes.Keys + {v.id};
    TallyStep(after, votes.Keys, v.id, pollId);
  }

  /** The option ids of a non-empty list: its head's and its tail's. */
  lemma RowOptionIdsCons(rows: seq<OptionWithVotes>)
    requires rows != []
    ensures RowOptionIds(rows) == {rows[0].option.id} + RowOptionIds(rows[1..])
  {
    var rest := RowOptionIds(rows[1..]);
    forall x | x in RowOptionIds(rows) ensures x in {rows[0].option.id} + rest {
      var i :| 0 <= i < |rows| && rows[i].option.id == x;
      if i > 0 { assert rows[1..][i - 1] == rows[i]; }
    }
    forall x | x in rest ensures x in RowOptionIds(rows) {
      var i :| 0 <= i < |rows[1..]| && rows[1..][i].option.id == x;
      assert rows[i + 1].option.id == x;
    }
  }

  /** The votes for one more option id are disjoint from the rest. */
  lemma CoveredVotesAdd(votes: map<string, Vote>, pollId: string, id: string, rest: set<string>)
    requires id !in rest
    ensures CoveredVotes(votes, pollId, {id} + rest)
            == OptionVotes(votes, votes.Keys, pollId, id) + CoveredVotes(votes, pollId, rest)
    ensures OptionVotes(votes, votes.Keys, pollId, id) !! CoveredVotes(votes, pollId, rest)
  {
  }

  /** When each row's count is the number of the poll's votes for that row's
      option and no option appears twice, the counts add up to the number of
      the poll's votes for the listed options. */
  lemma {:induction false} SumOfCounts(votes: map<string, Vote>, pollId: string, rows: seq<OptionWithVotes>)
    requires forall i :: 0 <= i < |rows| ==>
               rows[i].voteCount == |OptionVotes(votes, votes.Keys, pollId, rows[i].option.id)|
    requires forall i, j :: 0 <= i < j < |rows| ==> rows[i].option.id != rows[j].option.id
    ensures SumVoteCounts(rows) == |CoveredVotes(votes, pollId, RowOptionIds(rows))|
  {
    if rows == [] {
      assert CoveredVotes(votes, pollId, RowOptionIds(rows)) == {};
    } else {
      SumOfCounts(votes, pollId, rows[1..]);
      RowOptionIdsCons(rows);
      assert rows[0].option.id !in RowOptionIds(rows[1..]);
      CoveredVotesAdd(votes, pollId, rows[0].option.id, RowOptionIds(rows[1..]));
    }
  }

  /** Option ids listed in ascending `sortOrder`. */
  ghost predicate SortedBySortOrder(ids: seq<string>, options: map<string, PollOption>)
  {
    forall i, j :: 0 <= i < j < |ids| && ids[i] in options && ids[j] in options ==>
      options[ids[i]].sortOrder <= options[ids[j]].sortOrder
  }

  /** Putting the smallest-positioned id of a sorted list in front of a
      sorted list of the other ids, and of ids positioned no lower, keeps the
      list sorted. */
  lemma SortedAfterHead(ids: seq<string>, id: string, options: map<string, PollOption>, rest: seq<string>)
    requires ids != [] && ids[0] in options && id in options
    requires options[ids[0]].sortOrder <= options[id].sortOrder
    requires SortedBySortOrder(ids, options) && SortedBySortOrder(rest, options)
    requires forall k :: 0 <= k < |rest| ==> rest[k] in options && (rest[k] in ids[1..] || rest[k] == id)
    ensures SortedBySortOrder([ids[0]] + rest, options)
  {
    forall k | 0 <= k < |rest|
      ensures options[ids[0]].sortOrder <= options[rest[k]].sortOrder
    {
      if rest[k] != id {
        var j :| 0 <= j < |ids| - 1 && ids[1..][j] == rest[k];
        assert ids[j + 1] == rest[k];
      }
    }
  }

  /** Inserts `id` after every listed option whose `sortOrder` is not larger,
      which is where a stable sort by `sortOrder` puts the later element. */
  function InsertBySortOrder(ids: seq<string>, id: string, options: map<string, PollOption>): (r: seq<string>)
    requires id in options
    requires forall i :: 0 <= i < |ids| ==> ids[i] in options
    ensures |r| == |ids| + 1
    ensures forall x :: x in r <==> x in ids || x == id
    ensures forall i :: 0 <= i < |r| ==> r[i] in options
    ensures SortedBySortOrder(ids, options) ==> SortedBySortOrder(r, options)
    ensures NoDuplicates(ids) && id !in ids ==> NoDuplicates(r)
  {
    if ids == [] then [id]
    else if options[id].sortOrder < options[ids[0]].sortOrder then [id] + ids
    else
      var rest := InsertBySortOrder(ids[1..], id, options);
      assert SortedBySortOrder(ids, options) ==> SortedBySortOrder([ids[0]] + rest, options) by {
        if SortedBySortOrder(ids, options) {
          SortedAfterHead(ids, id, options, rest);
        }
      }
      assert NoDuplicates(ids) && id !in ids ==> ids[0] !in rest;
      [ids[0]] + rest
  }

  /** Insertion only adds the new id: the result is a permutation of the
      old list with `id` added, repeats included. */
  lemma {:induction false} InsertIsPermutation(ids: seq<string>, id: string, options: map<string, PollOption>)
    requires id in options
    requires forall i :: 0 <= i < |ids| ==> ids[i] in options
    ensures multiset(InsertBySortOrder(ids, id, options)) == multiset(ids) + multiset{id}
  {
    if ids != [] && options[ids[0]].sortOrder <= options[id].sortOrder {
      InsertIsPermutation(ids[1..], id, options);
      assert ids == [ids[0]] + ids[1..];
    }
  }
}
