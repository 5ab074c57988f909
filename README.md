# Vote ledger of the ideas board, in Dafny

This project models the voting core of an ideas board. Anonymous visitors,
each identified by a network address, vote for improvement ideas. Each
visitor may vote at most once per idea and at most ten times in all.

- `address.dfy` (module `Address`): how the HTTP controller turns a request
  into the visitor key (`extractIpAddress`). The first entry of
  `x-forwarded-for` is trimmed and wins. Otherwise `x-real-ip` is used as it
  is. Otherwise the socket's remote address is used, and otherwise
  `"unknown"`. Headers are `Option<string>`. A header counts as present when
  it is JavaScript-truthy, that is, present and not empty. `String.prototype.trim`
  is modelled by the ECMAScript set of white-space and line-terminator code
  points.
- `ledger.dfy` (module `Ledger`): the `app_idea` and `idea_vote` tables held
  in memory by the class `VotingService`. `Vote` is the three-step
  `voteForIdea`: the duplicate check, then the quota check, then a
  transaction that inserts the record and increments the tally. A failed
  insert rolls the transaction back. `Vote` is proved against the
  specification functions `Outcome` (the answer) and `Next` (the new store),
  and the lemmas about the vote are stated on those functions. The read-only
  projections are `GetUserVoteStatus`, `GetIdeas` (the ranked listing) and
  `GetRandomIdeas`.
- `endpoints.dfy` (module `Endpoints`): the vote and status handlers. Both
  derive the visitor key through the same function.
- `wrappers.dfy`: the `Option` type.

The schema constraints are invariants of the class (`Valid`). These are the
foreign key from `ideaId` to `app_idea`, `UNIQUE("ipAddress","ideaId")` and
ideas stored under their own ids. The quota of ten records per visitor is an
invariant too. The database does not enforce it, but the sequential checks
keep it. An idea's tally is not its number of vote records: the seed script
creates ideas with non-zero tallies and no records. The invariant kept
instead is "tally minus number of records" per idea, equal to the seeded
tally held in the ghost map `base`. A failed vote changes nothing, including
a vote for a missing idea, which fails on the foreign key and is rolled back.

Postgres column types are part of the model. `id`, `votes` and `ideaId` are
INTEGER and `ipAddress` is VARCHAR(45). An idea id outside INTEGER makes the
first query fail. An address longer than 45 characters makes the insert fail.
A tally at the INTEGER maximum makes the increment fail. Each of these is the
outcome `DatabaseError`, and a failure inside the transaction is rolled back.

A forwarded header whose first entry is blank (`" , 10.0.0.1"`) yields the
empty string as the visitor key. It does not fall through to `x-real-ip`.
`Address.EmptyKeyOnlyFromBlankFirstEntry` and
`Address.BlankFirstEntryGivesEmptyKey` state this.

## Model

| member | source | states |
|---|---|---|
| `Address.LeadingBlanks` | apps/backend/src/app/app.controller.ts:126 | counts the white space `trim()` removes at the front: every character before the count is white space and the one at the count is not |
| `Address.TrailingBlanks` | apps/backend/src/app/app.controller.ts:126 | counts the white space `trim()` removes at the back: every character in the counted tail is white space and the one before it is not |
| `Address.Trim` | apps/backend/src/app/app.controller.ts:126 | `trim()` yields the slice of the input that starts at its first non-white-space character, has no outer white space, and is followed only by white space |
| `Address.LeadingBlanksAt` | apps/backend/src/app/app.controller.ts:126 | the leading white space ends exactly at the first non-white-space character |
| `Address.TrailingBlanksAt` | apps/backend/src/app/app.controller.ts:126 | the trailing white space starts exactly after the last non-white-space character |
| `Address.TrimEmptyIffBlank` | apps/backend/src/app/app.controller.ts:126 | `trim()` yields the empty string exactly when the input is all white space |
| `Address.FirstSegment` | apps/backend/src/app/app.controller.ts:125-126 | `split(',')[0]` is the longest comma-free prefix: it stops at the end or at the first comma |
| `Address.FirstSegmentOfList` | apps/backend/src/app/app.controller.ts:125-126 | the first entry of `a + "," + b` is `a` when `a` has no comma |
| `Address.TrimPadded` | apps/backend/src/app/app.controller.ts:126 | trimming a padded address gives back the address |
| `Address.ForwardedKeyIsTrimmedFirstEntry` | apps/backend/src/app/app.controller.ts:123-127 | a key from `x-forwarded-for` contains no comma, has no outer white space and is no longer than the header |
| `Address.ForwardedListGivesClient` | apps/backend/src/app/app.controller.ts:122-127 | for a header "client, proxies…" with any padding around the client, the key is the client address, whatever the other headers say |
| `Address.SettledSegment` | apps/backend/src/app/app.controller.ts:125-126 | splitting and trimming a comma-free string with no outer white space leaves it unchanged |
| `Address.SplitKeepsCommaFree` | apps/backend/src/app/app.controller.ts:125 | the first entry of a comma-free string is the whole string |
| `Address.ReExtractionIsStable` | apps/backend/src/app/app.controller.ts:123-127 | feeding a non-empty forwarded key back as the forwarded header yields the same key |
| `Address.ExtractIpAddress` | apps/backend/src/app/app.controller.ts:122-135 | the visitor key of a request; it has no ensures of its own, and `Precedence`, `ForwardedKeyIsTrimmedFirstEntry`, `EmptyKeyOnlyFromBlankFirstEntry`, `ForwardedListGivesClient` and `ReExtractionIsStable` state its properties |
| `Address.Precedence` | apps/backend/src/app/app.controller.ts:122-135 | a truthy `x-forwarded-for` hides the other headers; otherwise a truthy `x-real-ip` is returned verbatim; otherwise the remote address if truthy, else "unknown"; an empty header behaves as an absent one |
| `Address.EmptyKeyOnlyFromBlankFirstEntry` | apps/backend/src/app/app.controller.ts:122-135 | the key is empty exactly when `x-forwarded-for` is truthy and its first entry is all white space |
| `Address.BlankFirstEntryGivesEmptyKey` | apps/backend/src/app/app.controller.ts:124-126 | the header " , 10.0.0.1" yields the empty key although `x-real-ip` and the remote address are set |
| `Ledger.ByVisitor` | apps/backend/src/app/app.service.ts:89-92 | the query `where: { ipAddress }` returns exactly the records of that visitor |
| `Ledger.ByIdea` | libs/data-access/src/lib/migrations/1704463200000-InitialSchema.ts:23-26 | the records that reference an idea are exactly those with that `ideaId` |
| `Ledger.ByVisitorAppend` | apps/backend/src/app/app.service.ts:63-67 | inserting a record adds it to its own visitor's query result and leaves every other visitor's result unchanged |
| `Ledger.ByIdeaAppend` | apps/backend/src/app/app.service.ts:63-67 | inserting a record adds it to its own idea's records and leaves every other idea's records unchanged |
| `Ledger.VisitorIdeasDistinct` | libs/data-access/src/lib/migrations/1704463200000-InitialSchema.ts:27 | under the UNIQUE constraint, the idea ids of one visitor's records are pairwise distinct |
| `Ledger.Outcome` | apps/backend/src/app/app.service.ts:41-86 | the answer of `voteForIdea`; it has no ensures of its own, and the lemmas below, from `OutOfRangeIdRejected` to `SuccessfulVote`, state each of its cases |
| `Ledger.Next` | apps/backend/src/app/app.service.ts:58-85 | the store after `voteForIdea`, committed only on success; it has no ensures of its own, and `SuccessfulVote`, `VotePreservesConsistency` and `VotePreservesTallyDrift` state what it changes and keeps |
| `Ledger.OutOfRangeIdRejected` | apps/backend/src/app/app.service.ts:42-44 | an idea id outside the INTEGER range of `ideaId` makes the first query fail: a database error, whatever else holds, and the store is unchanged |
| `Ledger.DuplicateVoteRejected` | apps/backend/src/app/app.service.ts:42-48 | if the pair (ip, idea) already has a record, the answer is "already voted" (a database error when the id is outside INTEGER) and the store is unchanged |
| `Ledger.QuotaVoteRejected` | apps/backend/src/app/app.service.ts:42-56 | a visitor with ten records gets a database error for an id outside INTEGER, "already voted" when re-voting an idea (the duplicate check comes first), "maximum number of votes" otherwise, and the store is unchanged |
| `Ledger.MissingIdeaRejected` | apps/backend/src/app/app.service.ts:58-82 | under the foreign key, a vote for a missing idea gets a database error for an id outside INTEGER, "quota exceeded" when the visitor is at the quota, a database error when the address is wider than the column, and "idea not found" otherwise (the insert fails and the transaction is rolled back); the store is unchanged |
| `Ledger.SuccessfulVote` | apps/backend/src/app/app.service.ts:63-78 | a vote succeeds exactly when the id fits INTEGER, the address fits VARCHAR(45), there is no earlier vote for the pair, the visitor has fewer than ten records, the idea exists and its tally is below the INTEGER maximum; then exactly one record (ip, idea) is appended, that idea's row changes only in a tally one higher and no other idea changes; `votes` is the tally after commit and `votesRemaining` is ten minus the visitor's records after the vote, in [0, 9] |
| `Ledger.LongAddressNeverVotes` | libs/data-access/src/lib/migrations/1704463200000-InitialSchema.ts:22 | a visitor key wider than VARCHAR(45) never gets a successful vote: the insert fails and is rolled back (app.service.ts:67, 80-82), and the store is unchanged |
| `Ledger.TallyOverflowRejected` | apps/backend/src/app/app.service.ts:69 | a vote that would raise a tally past the INTEGER maximum fails in the increment, is rolled back, and leaves the store unchanged |
| `Ledger.RetryAfterSuccess` | apps/backend/src/app/app.service.ts:42-48 | retrying a successful vote is answered "already voted" and changes nothing more |
| `Ledger.VisitorCountsAfterVote` | apps/backend/src/app/app.service.ts:50-71 | a visitor's record count grows by one exactly when that visitor's vote succeeds, and never otherwise |
| `Ledger.VotePreservesConsistency` | apps/backend/src/app/app.service.ts:42-71 | every vote keeps the foreign key, the uniqueness of (ip, idea), ideas keyed by id, at most ten records per visitor, and every stored id, tally and address within its column's type |
| `Ledger.VotePreservesTallyDrift` | apps/backend/src/app/app.service.ts:63-71 | every vote keeps, for each idea, its tally minus its number of records unchanged |
| `Ledger.StatusWithinQuota` | apps/backend/src/app/app.service.ts:88-97 | under the invariants a visitor has at most ten records, and the idea ids in their status are distinct |
| `Ledger.TopIdeaExists` | apps/backend/src/app/app.service.ts:24-29 | a non-empty idea table has an idea ranked at least as high as every other by (votes desc, createdAt desc) |
| `Ledger.RankedKeys` | apps/backend/src/app/app.service.ts:24-29 | the ordering lists every idea key exactly once, and no idea after one it outranks |
| `Ledger.Listing` | apps/backend/src/app/app.service.ts:23-30 | the rows under a ranked key sequence list every idea, only stored ideas, in ranking order, with distinct ids when ideas are keyed by id |
| `Ledger.VotingService.constructor` | libs/data-access/src/lib/seeds/seed.ts:96-106 | the seeded database, given ids and tallies that fit INTEGER, has the seed ideas, no vote records, satisfies every invariant, and records each idea's seeded tally as its base |
| `Ledger.VotingService.SaveRecord` | libs/data-access/src/lib/migrations/1704463200000-InitialSchema.ts:22-27 | the insert fails on an address wider than VARCHAR(45), else on the foreign key, else on the UNIQUE pair, and otherwise appends exactly that record; nothing else changes |
| `Ledger.VotingService.Increment` | apps/backend/src/app/app.service.ts:69 | the update fails exactly when the idea exists and its tally is at the INTEGER maximum; otherwise it raises the tally of the idea with that id by one, if it exists, and touches nothing else |
| `Ledger.VotingService.Vote` | apps/backend/src/app/app.service.ts:41-86 | the id check of the first query, the duplicate and quota checks, then the transaction rolled back when the insert or the increment fails: the answer and the new store are those of `Outcome` and `Next`; the invariants hold afterwards and the seeded bases are unchanged |
| `Ledger.VotingService.GetUserVoteStatus` | apps/backend/src/app/app.service.ts:88-98 | `voteCount` equals the length of `votedIdeaIds` and the visitor's number of records; an idea id is listed exactly when the visitor has a record for it |
| `Ledger.VotingService.GetIdeas` | apps/backend/src/app/app.service.ts:23-30 | every stored idea is listed, nothing else is, and as many rows as ideas; rows are ordered by votes descending then createdAt descending; ids are distinct |
| `Ledger.VotingService.GetRandomIdeas` | apps/backend/src/app/app.service.ts:32-39 | returns min(limit, number of ideas) distinct stored ideas; `limit` defaults to 4 |
| `Endpoints.VoteForIdea` | apps/backend/src/app/app.controller.ts:99-103 | the vote is recorded under the key extracted from the request, with the outcome and new store of `Outcome`/`Next` |
| `Endpoints.GetVoteStatus` | apps/backend/src/app/app.controller.ts:117-120 | the status lists exactly the ideas recorded under the key extracted from the request, and counts them |
| `Endpoints.VoteThenStatus` | apps/backend/src/app/app.controller.ts:99-120 | both handlers use the same key: after a successful vote, the status for the same request lists the idea, counts one more vote, and `votesRemaining` is ten minus that count |

## Left out

- Concurrency: execution is sequential and the transaction is one atomic step. The duplicate and quota checks run before the transaction opens. Under concurrent requests the quota can be exceeded, and only the UNIQUE constraint stops duplicates. Nothing is claimed about interleavings.
- Database plumbing: the query runner's connect, release and error objects are not modelled. A foreign-key failure is the result `IdeaNotFound`, where the source rethrows the database error.
- `Ledger.VotingService.GetRandomIdeas`: the choice is nondeterministic. The uniform distribution of `ORDER BY RANDOM()` is not modelled.
- `Ledger.VotingService.GetRandomIdeas`: requires `limit >= 1`. The endpoint validates 1 to 100, with default 16. The service's own default of 4 is the parameter's default. A limit of 0 or below is not modelled.
- `Ledger.VotingService.GetIdeas`: ideas equal in both `votes` and `createdAt` come in an order the model leaves open, as the database does.
- `Ledger.VotingService.GetUserVoteStatus`: lists ids in table insertion order; the database promises no order.
- Timestamps: `createdAt` is an abstract integer. `updatedAt`, `deletedAt`, their trigger and soft delete are not modelled. A vote record's own id and `createdAt` are not modelled.
- `parseInt(id, 10)` in the vote handler is a JavaScript library call. The idea id arrives as an integer, so a non-numeric id is not modelled.
- Declarative validation and API documentation (class-validator and Swagger decorators, the DTO classes) are not modelled.
- A duplicate that reaches the insert fails on the UNIQUE constraint and is `DatabaseError`. Sequentially the duplicate check runs first, so this path is not reachable.
- The other column widths (VARCHAR(255) titles) are not modelled; the service never writes them.
- The SQL migration and the seed and migrate scripts are database I/O. They enter only as the class invariant and the constructor.
- `user-vote.entity.ts` is never used by the service. The `Idea` entity file is not part of this model; the idea's columns are taken from the migration.
- Bootstrap, module wiring, the exception filter, the greeting endpoints (`getData`, `getHello`), the health check and the React front end are not modelled.
