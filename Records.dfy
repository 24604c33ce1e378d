/** The record shapes the poll store keeps and returns. */
module PollRecords {

  /** A value that may be absent (JavaScript `null` / `undefined`). */
  datatype Option<+T> = None | Some(value: T)

  /** A poll; `createdAt` is an opaque timestamp string. */
  datatype Poll = Poll(id: string, slug: string, question: string, createdAt: string)

  /** One answer of a poll; `sortOrder` fixes its display position. */
  datatype PollOption = PollOption(id: string, pollId: string, text: string, sortOrder: int)

  /** One accepted vote. `pollId` is stored beside `optionId` so that the
      fairness checks can scan by poll. */
  datatype Vote = Vote(
    id: string,
    optionId: string,
    pollId: string,
    voterFingerprint: string,
    ipHash: string,
    createdAt: string)

  /** An option annotated with the number of votes it has received. */
  datatype OptionWithVotes = OptionWithVotes(option: PollOption, voteCount: nat)

  /** A poll with its options in display order and the total number of votes. */
  datatype PollWithResults = PollWithResults(poll: Poll, options: seq<OptionWithVotes>, totalVotes: nat)

  predicate NoDuplicates<T(==)>(s: seq<T>)
  {
    forall i, j :: 0 <= i < j < |s| ==> s[i] != s[j]
  }
}
