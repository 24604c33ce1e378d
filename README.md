# Polling app: vote fairness and tallies, in Dafny

This project models the core of a small anonymous polling web application:

- the in-memory poll store (`src/lib/store.ts`). It holds four maps: polls, options, votes, and slug to poll id. It creates polls, looks them up by their public slug, and counts votes afresh from the stored votes on every read. It accepts a vote only after two fairness checks, in a fixed order: the voter fingerprint is checked first, then the hash of the client's IP address;
- the checks the create-poll endpoint makes on a request body before calling the store (`src/app/api/polls/route.ts`);
- the extraction of the client's address from request headers (`getClientIp` in `src/lib/hash.ts`).

Modules and files:

- `Records.dfy` (`PollRecords`): the record shapes of `src/lib/types.ts` as datatypes.
- `JsText.dfy` (`JsText`): `String.prototype.trim` with the ECMAScript white-space and line-terminator set, and `split(sep)[0]`.
- `ClientAddress.dfy` (`ClientAddress`): `getClientIp`. Headers are a map from lower-case name to value, and an absent name is a `null` lookup.
- `CreatePollRequest.dfy` (`CreatePollRequest`): the body checks of `POST /api/polls`, as a function from a JSON value to a rejection or to the question and option texts the store receives.
- `Tally.dfy` (`Tally`): vote counts as sets of vote ids, insertion by `sortOrder`, and the lemmas that the counts add up.
- `PollStore.dfy` (`PollStore`): class `Store` with the four maps as fields. Its methods change them as `createPoll` and `addVote` do. `Valid()` is the store invariant: one vote per fingerprint per poll, one vote per IP hash per poll, every vote for an option of its own poll, unique sort positions per poll, and an exact slug index.
- `Walkthrough.dfy` (`LunchPoll`): a client of `Store`. `OpenLunchPoll` creates the "Lunch?" poll and reads a zero total. `CastLunchVotes` has one vote accepted, then a second vote from the same browser rejected for its fingerprint, then a vote from the same network rejected for its IP hash, then a vote from a new browser on a new network accepted.

The id generator (`nanoid`) and the clock are parameters. The store methods take the new ids and the timestamp as arguments, and require the ids not to be keys already. The slug is not required to be fresh, because `createPoll` overwrites the slug index entry (store.ts:46). The invariant is promised only when the slug was fresh. IP hashes are opaque strings.

The create-poll endpoint sets no upper bound on the number of options (src/app/api/polls/route.ts:11-20): any number from 2 up is accepted. The limit of 10 exists only in the create page's form (src/app/create/page.tsx:8), which is not part of this model. A slug collision is not retried: src/lib/store.ts:46 overwrites the slug index entry. `getPollBySlug` treats an empty poll id in the slug index as "not found", because it tests the id for truthiness (src/lib/store.ts:58).

## Model

| member | source | states |
|---|---|---|
| `JsText.Trim` | src/lib/hash.ts:9 | the result occurs in the input at some offset with only white space before and after it. It is empty exactly when the input is all white space, and otherwise starts and ends with a non-white-space character. It is no longer than the input and only holds the input's characters |
| `JsText.TrimIsFramedSlice` | src/lib/hash.ts:9 | the converse: any slice of the input with only white space around it and no white space at its own ends is the trimmed string, so `trim` has exactly one possible result |
| `JsText.TrimStart` | src/app/api/polls/route.ts:8 | the result is a suffix of the input, everything dropped is white space, and it does not start with white space |
| `JsText.TrimEnd` | src/app/api/polls/route.ts:8 | the result is a prefix of the input, everything dropped is white space, and it does not end with white space |
| `JsText.SplitFirst` | src/lib/hash.ts:9 | `split(",")[0]` is the prefix before the first separator: a prefix of the input with no separator in it, followed in the input by a separator when it is shorter than the input |
| `ClientAddress.ClientIp` | src/lib/hash.ts:7-13 | the result is never empty. A non-blank first hop of `x-forwarded-for` wins. Otherwise a non-empty `x-real-ip` is returned unchanged. Otherwise the result is `127.0.0.1` |
| `ClientAddress.ForwardedAddressIsOneHop` | src/lib/hash.ts:9 | an address taken from `x-forwarded-for` contains no comma, has no leading or trailing white space, and consists of characters of that header |
| `ClientAddress.ClientIpOrigin` | src/lib/hash.ts:8-12 | the address is always the loopback address, the `x-real-ip` value, or the trimmed first hop of `x-forwarded-for` |
| `CreatePollRequest.KeepOptions` | src/app/api/polls/route.ts:11-13 | every kept text was a string entry of the input and is not blank, and nothing is added |
| `CreatePollRequest.KeepOptionsAppend` | src/app/api/polls/route.ts:12 | the filter distributes over concatenation, so the kept texts keep their original relative order |
| `CreatePollRequest.KeepOptionsSingle` | src/app/api/polls/route.ts:12 | one entry is kept, untrimmed, exactly when it is a string whose trim is non-empty |
| `CreatePollRequest.KeepAllUsable` | src/app/api/polls/route.ts:12 | when every entry is a non-blank string, the filter keeps all of them unchanged |
| `CreatePollRequest.ValidateCreatePoll` | src/app/api/polls/route.ts:8-20 | a `null` body gives 500. A missing, non-string or blank question gives 400 "Question is required". Otherwise fewer than 2 usable options give 400 "At least 2 options are required". Acceptance happens exactly when neither applies. It passes the trimmed question, which is non-empty with no surrounding white space, and the kept option texts, untrimmed |
| `CreatePollRequest.NonArrayOptionsRejected` | src/app/api/polls/route.ts:11-14 | an `options` field that is not an array is never accepted |
| `CreatePollRequest.AnyNumberOfOptionsAccepted` | src/app/api/polls/route.ts:11-20 | there is no upper bound: a non-blank question with any number, from 2 up, of non-blank option texts is accepted, with the texts passed on unchanged |
| `Tally.TallyStep` | src/lib/store.ts:68-73 | one more vote seen raises the poll total by one exactly when the vote is in the poll, and raises only its own option's count |
| `Tally.TallyAfterVote` | src/lib/store.ts:112-120 | storing a fresh vote raises its poll's total and its option's count by exactly one and leaves every other total and count unchanged |
| `Tally.SumOfCounts` | src/lib/store.ts:66-84 | when each row counts the poll's votes for its own option and no option repeats, the row counts add up to the number of the poll's votes for the listed options |
| `Tally.InsertBySortOrder` | src/lib/store.ts:37 | inserting into a list sorted by `sortOrder` keeps it sorted, adds exactly the new id, and keeps the ids distinct |
| `Tally.InsertIsPermutation` | src/lib/store.ts:37 | insertion is a permutation: the result holds the old ids, repeats included, plus the new id once |
| `PollStore.RowsListPollOptions` | src/lib/store.ts:34-39 | under the invariant, the rows list exactly the poll's options, in strictly increasing `sortOrder` |
| `PollStore.TotalIsSumOfOptionCounts` | src/lib/store.ts:66-85 | under the invariant, the number of the poll's votes equals the sum of the per-option vote counts |
| `PollStore.NewPollKeepsInvariant` | src/lib/store.ts:41-54 | filing a poll under a fresh id and a fresh slug, with options under fresh ids at sort positions 0, 1, 2, ..., keeps the invariant's parts about polls, options and the slug index |
| `PollStore.Store.constructor` | src/lib/store.ts:17-27 | a new store has four empty maps and satisfies the invariant |
| `PollStore.Store.OptionIdsByPollId` | src/lib/store.ts:34-39 | the result lists each option of the poll once, only options of the poll, in ascending `sortOrder` |
| `PollStore.Store.CreatePoll` | src/lib/store.ts:41-54 | one option per input text, in input order, option `i` with `sortOrder == i` and the new poll's id. It files the poll and its options, points the slug index at the new poll, leaves the votes alone, and makes the new poll findable by its slug. It keeps the invariant when the slug was fresh |
| `PollStore.Store.PollBySlug` | src/lib/store.ts:56-59 | not found exactly when the slug is unindexed, indexed to an empty id, or indexed to an id with no poll. Under the invariant, found exactly when some poll has the slug, and the poll found has that slug |
| `PollStore.Store.CountVotes` | src/lib/store.ts:66-73 | one pass over all votes yields the poll's vote total and, for every option id, the number of the poll's votes for it, 0 when there are none |
| `PollStore.Store.GetPollWithResults` | src/lib/store.ts:61-87 | null exactly when the slug lookup fails. Otherwise the poll, a live vote total, and only options of the poll, each with its live vote count, in non-decreasing `sortOrder`. Under the invariant the options are exactly the poll's, in strictly increasing `sortOrder`, and the total equals the sum of the counts |
| `PollStore.Store.HasVotedByFingerprint` | src/lib/store.ts:124-128 | under the invariant, a fingerprint can only have voted in an existing poll |
| `PollStore.Store.AddVote` | src/lib/store.ts:89-122 | "Poll not found", then "Invalid option" for a missing option or one of another poll, then the fingerprint check before the IP hash check. Accepted exactly when all four pass. Only on acceptance is exactly one vote with the given fields added, after which the fingerprint has voted. Polls, options and the slug index never change. The invariant is kept |
| `LunchPoll.OpenLunchPoll` | src/lib/store.ts:41-54 | creating a two-option poll in an empty store leaves exactly that poll, its two options at sort positions 0 and 1, no votes, and one slug index entry pointing at the poll |
| `LunchPoll.CastLunchVotes` | src/lib/store.ts:89-122 | of four attempts, the repeat from one browser and the repeat from one network are refused, and exactly the other two votes end up stored |

## Left out

- `hashForIp` (src/lib/hash.ts:3-5) is SHA-256 from Node's `crypto`. IP hashes are opaque strings in the model.
- The database backend in src/lib/db.ts and its client construction in src/lib/supabase.ts are left out. They are network calls whose dedup relies on a database error code. The switch between backends is environment configuration. Only the in-memory store is modelled.
- The status endpoint, the vote, results and voted endpoints, the client-side fingerprint in src/lib/fingerprint.ts, and the React pages are left out. They are transport and presentation around the store.
- `nanoid` and `new Date()` are not modelled. New ids, the slug and the timestamp are method parameters, and the ids are required not to be keys already.
- Iteration order of JavaScript `Map`s is not modelled. The store's loops take keys in an arbitrary order. Counts do not depend on it. Under the invariant sort positions are unique, so the option order does not depend on it either. When two options of one poll share a sort position, which can only happen outside the invariant, the model does not say which comes first.
- Strings are sequences of Unicode scalar values, not UTF-16 code units. `trim`, the comma split and equality behave the same on both for the characters involved.
- `Headers.get` is case-insensitive and joins repeated headers with ", ". The model takes headers already keyed by lower-case name, with repeated values already joined.
- In the create-poll endpoint, a body that is not valid JSON is not modelled; it makes `request.json()` throw and gets a 500. Any failure inside the store call is not modelled either. JSON numbers are reals; their value never affects the outcome.
- `PollStore.Store.OptionIdsByPollId` lists the keys under which the poll's options are filed. `getOptionIdsByPollId` lists each record's own `id` (src/lib/store.ts:38), and `getPollWithResults` drops ids it cannot look up (src/lib/store.ts:76-77). The two differ only when an option is filed under a key other than its own id. `Valid()` excludes that state and no method produces it.
- Concurrency is not modelled: each store call runs to completion on a single thread.
- `LunchPoll.CastLunchVotes` checks the rejections and acceptances of the walk-through and the vote map afterwards. It does not re-read the totals after the votes; `PollStore.Store.GetPollWithResults` and `Tally.TallyAfterVote` state those in general.
