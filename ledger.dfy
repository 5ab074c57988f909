/**
 * The vote ledger of the ideas board (apps/backend/src/app/app.service.ts):
 * the `app_idea` and `idea_vote` tables held in memory, the three-step
 * `voteForIdea` state machine and the read-only projections over the store.
 */
module Ledger {

  /** The per-visitor quota checked at app.service.ts:54. */
  const MaxVotes: int := 10

  /** The bounds of a Postgres INTEGER column, the type of `id`, `votes` and `ideaId`. */
  const MinInt32: int := -0x8000_0000
  const MaxInt32: int := 0x7FFF_FFFF

  predicate InInt32(x: int) {
    MinInt32 <= x <= MaxInt32
  }

  /** The width of the `ipAddress` column, VARCHAR(45). */
  const MaxIpLength: int := 45

  /** The limit `getRandomIdeas` uses when its caller passes none. */
  const DefaultRandomLimit: int := 4

  /** A row of `app_idea`; `createdAt` is an abstract timestamp. */
  datatype Idea = Idea(id: int, title: string, description: string, votes: int, createdAt: int)

  /** A row of `idea_vote`: the pair the table's UNIQUE constraint ranges over. */
  datatype VoteRecord = VoteRecord(ipAddress: string, ideaId: int)

  /** Both tables at one instant between transactions. */
  datatype Store = Store(ideas: map<int, Idea>, records: seq<VoteRecord>)

  /**
   * What `voteForIdea` answers: the response body, or the exception it
   * throws. DatabaseError is an error Postgres raises that the service
   * passes on: a value outside a column's type.
   */
  datatype VoteResult =
    | AlreadyVoted
    | QuotaExceeded
    | IdeaNotFound
    | DatabaseError
    | Ok(votes: int, votesRemaining: int)

  /** How an INSERT into `idea_vote` ends. */
  datatype InsertStatus = Inserted | ValueTooLong | ForeignKeyViolation | UniqueViolation

  /** What `getUserVoteStatus` answers. */
  datatype VoteStatus = VoteStatus(voteCount: int, votedIdeaIds: seq<int>)

  // ---------------------------------------------------------------------
  // Queries over `idea_vote`
  // ---------------------------------------------------------------------

  /** `find`/`count` with `where: { ipAddress }`: the records of one visitor, in table order. */
  function ByVisitor(records: seq<VoteRecord>, ip: string): (r: seq<VoteRecord>)
    ensures |r| <= |records|
    ensures forall v :: v in r <==> v in records && v.ipAddress == ip
  {
    if records == [] then []
    else (if records[0].ipAddress == ip then [records[0]] else []) + ByVisitor(records[1..], ip)
  }

  /** The records that reference one idea. */
  function ByIdea(records: seq<VoteRecord>, ideaId: int): (r: seq<VoteRecord>)
    ensures |r| <= |records|
    ensures forall v :: v in r <==> v in records && v.ideaId == ideaId
  {
    if records == [] then []
    else (if records[0].ideaId == ideaId then [records[0]] else []) + ByIdea(records[1..], ideaId)
  }

  /** `ideaVotes.map((v) => v.ideaId)`. */
  function IdeaIds(found: seq<VoteRecord>): (ids: seq<int>)
    ensures |ids| == |found|
    ensures forall i :: 0 <= i < |found| ==> ids[i] == found[i].ideaId
  {
    seq(|found|, i requires 0 <= i < |found| => found[i].ideaId)
  }

  lemma {:induction false} ByVisitorAppend(records: seq<VoteRecord>, v: VoteRecord, ip: string)
    ensures ByVisitor(records + [v], ip)
         == ByVisitor(records, ip) + (if v.ipAddress == ip then [v] else [])
  {
    if records == [] {
      assert [v] == records + [v];
    } else {
      var w := records + [v];
      assert w[0] == records[0] && w[1..] == records[1..] + [v];
      ByVisitorAppend(records[1..], v, ip);
      var head := if records[0].ipAddress == ip then [records[0]] else [];
      assert ByVisitor(w, ip) == head + ByVisitor(w[1..], ip);
      assert ByVisitor(records, ip) == head + ByVisitor(records[1..], ip);
    }
  }

  lemma {:induction false} ByIdeaAppend(records: seq<VoteRecord>, v: VoteRecord, ideaId: int)
    ensures ByIdea(records + [v], ideaId)
         == ByIdea(records, ideaId) + (if v.ideaId == ideaId then [v] else [])
  {
    if records == [] {
      assert [v] == records + [v];
    } else {
      var w := records + [v];
      assert w[0] == records[0] && w[1..] == records[1..] + [v];
      ByIdeaAppend(records[1..], v, ideaId);
      var head := if records[0].ideaId == ideaId then [records[0]] else [];
      assert ByIdea(w, ideaId) == head + ByIdea(w[1..], ideaId);
      assert ByIdea(records, ideaId) == head + ByIdea(records[1..], ideaId);
    }
  }

  // ---------------------------------------------------------------------
  // Schema constraints and the ledger's invariants
  // ---------------------------------------------------------------------

  /** Every idea is stored under its primary key. */
  ghost predicate KeysMatchIds(ideas: map<int, Idea>) {
    forall k :: k in ideas ==> ideas[k].id == k
  }

  /** FOREIGN KEY ("ideaId") REFERENCES "app_idea"("id"). */
  ghost predicate ForeignKeysHold(s: Store) {
    forall i :: 0 <= i < |s.records| ==> s.records[i].ideaId in s.ideas
  }

  /** UNIQUE ("ipAddress", "ideaId"). */
  ghost predicate UniquePairs(records: seq<VoteRecord>) {
    forall i, j :: 0 <= i < j < |records| ==> records[i] != records[j]
  }

  /** No visitor holds more than MaxVotes records. */
  ghost predicate WithinQuota(records: seq<VoteRecord>) {
    forall ip :: |ByVisitor(records, ip)| <= MaxVotes
  }

  /** Every stored value fits its column: INTEGER ids and tallies, VARCHAR(45) addresses. */
  ghost predicate ColumnsFit(s: Store) {
    && (forall k :: k in s.ideas ==> InInt32(k) && InInt32(s.ideas[k].votes))
    && (forall i :: 0 <= i < |s.records| ==> |s.records[i].ipAddress| <= MaxIpLength)
  }

  /** The schema constraints together with the quota. */
  ghost predicate Consistent(s: Store) {
    && KeysMatchIds(s.ideas) && ForeignKeysHold(s) && UniquePairs(s.records)
    && WithinQuota(s.records) && ColumnsFit(s)
  }

  /**
   * Each idea's tally exceeds the number of records that reference it by
   * `base[k]`, the tally the idea was seeded with.
   */
  ghost predicate TallyDrift(s: Store, base: map<int, int>) {
    && base.Keys == s.ideas.Keys
    && forall k :: k in s.ideas ==> s.ideas[k].votes - |ByIdea(s.records, k)| == base[k]
  }

  /** No value occurs twice in `ids`. */
  predicate Distinct(ids: seq<int>) {
    forall i, j :: 0 <= i < j < |ids| ==> ids[i] != ids[j]
  }

  /** One visitor's records reference pairwise distinct ideas. */
  lemma {:induction false} VisitorIdeasDistinct(records: seq<VoteRecord>, ip: string)
    requires UniquePairs(records)
    ensures Distinct(IdeaIds(ByVisitor(records, ip)))
  {
    if records != [] {
      var rest := records[1..];
      assert UniquePairs(rest) by {
        forall i, j | 0 <= i < j < |rest| ensures rest[i] != rest[j] {
          assert rest[i] == records[i + 1] && rest[j] == records[j + 1];
        }
      }
      VisitorIdeasDistinct(rest, ip);
      var found, later := ByVisitor(records, ip), ByVisitor(rest, ip);
      if records[0].ipAddress == ip {
        assert found == [records[0]] + later;
        var laterIds := IdeaIds(later);
        assert records[0] !in rest by {
          forall m | 0 <= m < |rest| ensures rest[m] != records[0] {
            assert rest[m] == records[m + 1];
          }
        }
        assert records[0].ideaId !in laterIds by {
          forall j | 0 <= j < |later| ensures laterIds[j] != records[0].ideaId {
            assert later[j] in later;
          }
        }
        assert IdeaIds(found) == [records[0].ideaId] + laterIds;
        DistinctCons(records[0].ideaId, laterIds);
      } else {
        assert found == later;
      }
    }
  }

  lemma DistinctCons(x: int, tail: seq<int>)
    requires Distinct(tail) && x !in tail
    ensures Distinct([x] + tail)
  {
    var ids := [x] + tail;
    forall i, j | 0 <= i < j < |ids| ensures ids[i] != ids[j] {
      assert ids[j] == tail[j - 1];
      if i > 0 { assert ids[i] == tail[i - 1]; }
    }
  }

  // ---------------------------------------------------------------------
  // voteForIdea as a specification over Store values
  // ---------------------------------------------------------------------

  /** The idea row after `increment(Idea, { id }, 'votes', 1)`. */
  function Bumped(idea: Idea): (r: Idea)
    ensures r.votes == idea.votes + 1
    ensures r == idea.(votes := r.votes)
  {
    idea.(votes := idea.votes + 1)
  }

  /**
   * The answer of `voteForIdea(ideaId, ip)` on store `s`. An id outside
   * INTEGER makes the first query fail. Then come the duplicate check and
   * the quota check, then the transaction: the insert fails on an address
   * wider than the column or on the foreign key when the idea does not
   * exist, and the increment fails when the tally would leave INTEGER.
   */
  function Outcome(s: Store, ideaId: int, ip: string): VoteResult {
    var current := |ByVisitor(s.records, ip)|;
    if !InInt32(ideaId) then DatabaseError
    else if VoteRecord(ip, ideaId) in s.records then AlreadyVoted
    else if current >= MaxVotes then QuotaExceeded
    else if |ip| > MaxIpLength then DatabaseError
    else if ideaId !in s.ideas then IdeaNotFound
    else if s.ideas[ideaId].votes + 1 > MaxInt32 then DatabaseError
    else Ok(s.ideas[ideaId].votes + 1, MaxVotes - (current + 1))
  }

  /** The store after `voteForIdea(ideaId, ip)`: committed on success, untouched otherwise. */
  function Next(s: Store, ideaId: int, ip: string): Store {
    if Outcome(s, ideaId, ip).Ok? then
      Store(s.ideas[ideaId := Bumped(s.ideas[ideaId])], s.records + [VoteRecord(ip, ideaId)])
    else s
  }

  /** An idea id outside INTEGER fails the first query: an error, and nothing changes. */
  lemma OutOfRangeIdRejected(s: Store, ideaId: int, ip: string)
    requires !InInt32(ideaId)
    ensures Outcome(s, ideaId, ip) == DatabaseError
    ensures Next(s, ideaId, ip) == s
  {
  }

  /** A second vote for the same idea is refused and changes nothing. */
  lemma DuplicateVoteRejected(s: Store, ideaId: int, ip: string)
    requires VoteRecord(ip, ideaId) in s.records
    ensures Outcome(s, ideaId, ip) == if InInt32(ideaId) then AlreadyVoted else DatabaseError
    ensures Next(s, ideaId, ip) == s
  {
  }

  /**
   * Without a duplicate, a visitor holding MaxVotes records is refused and
   * nothing changes; the duplicate check comes first, so a visitor at the
   * quota who re-votes an idea gets AlreadyVoted.
   */
  lemma QuotaVoteRejected(s: Store, ideaId: int, ip: string)
    requires |ByVisitor(s.records, ip)| >= MaxVotes
    ensures Outcome(s, ideaId, ip) ==
      if !InInt32(ideaId) then DatabaseError
      else if VoteRecord(ip, ideaId) in s.records then AlreadyVoted
      else QuotaExceeded
    ensures Next(s, ideaId, ip) == s
  {
  }

  /** A vote for a missing idea is rolled back: nothing is added and no tally moves. */
  lemma MissingIdeaRejected(s: Store, ideaId: int, ip: string)
    requires ForeignKeysHold(s) && ideaId !in s.ideas
    ensures Outcome(s, ideaId, ip) ==
      if !InInt32(ideaId) then DatabaseError
      else if |ByVisitor(s.records, ip)| >= MaxVotes then QuotaExceeded
      else if |ip| > MaxIpLength then DatabaseError
      else IdeaNotFound
    ensures Next(s, ideaId, ip) == s
  {
    assert VoteRecord(ip, ideaId) !in s.records by {
      forall i | 0 <= i < |s.records| ensures s.records[i].ideaId != ideaId {
        assert s.records[i].ideaId in s.ideas;
      }
    }
  }

  /**
   * A vote succeeds exactly when none of the three checks fires; it then adds
   * the one record (ip, ideaId), raises that idea's tally by one and nothing
   * else, reports the committed tally, and reports as remaining the quota
   * left after the new record.
   */
  lemma {:induction false} SuccessfulVote(s: Store, ideaId: int, ip: string)
    ensures Outcome(s, ideaId, ip).Ok? <==>
      && InInt32(ideaId) && |ip| <= MaxIpLength
      && VoteRecord(ip, ideaId) !in s.records && |ByVisitor(s.records, ip)| < MaxVotes
      && ideaId in s.ideas && s.ideas[ideaId].votes < MaxInt32
    ensures Outcome(s, ideaId, ip).Ok? ==>
      var r, t := Outcome(s, ideaId, ip), Next(s, ideaId, ip);
      && t.records == s.records + [VoteRecord(ip, ideaId)]
      && t.ideas.Keys == s.ideas.Keys
      && t.ideas[ideaId] == s.ideas[ideaId].(votes := s.ideas[ideaId].votes + 1)
      && (forall k :: k in s.ideas && k != ideaId ==> t.ideas[k] == s.ideas[k])
      && r.votes == t.ideas[ideaId].votes
      && r.votesRemaining == MaxVotes - |ByVisitor(t.records, ip)|
      && 0 <= r.votesRemaining < MaxVotes
  {
    ByVisitorAppend(s.records, VoteRecord(ip, ideaId), ip);
  }

  /** An address wider than VARCHAR(45) can never vote: its insert always fails. */
  lemma LongAddressNeverVotes(s: Store, ideaId: int, ip: string)
    requires |ip| > MaxIpLength
    ensures !Outcome(s, ideaId, ip).Ok?
    ensures Next(s, ideaId, ip) == s
  {
  }

  /** An increment past the INTEGER maximum fails and the vote is rolled back. */
  lemma TallyOverflowRejected(s: Store, ideaId: int, ip: string)
    requires ideaId in s.ideas && s.ideas[ideaId].votes == MaxInt32 && InInt32(ideaId)
    requires VoteRecord(ip, ideaId) !in s.records && |ByVisitor(s.records, ip)| < MaxVotes
    requires |ip| <= MaxIpLength
    ensures Outcome(s, ideaId, ip) == DatabaseError
    ensures Next(s, ideaId, ip) == s
  {
  }

  /** A retried vote after a success is answered AlreadyVoted and changes nothing more. */
  lemma RetryAfterSuccess(s: Store, ideaId: int, ip: string)
    requires Outcome(s, ideaId, ip).Ok?
    ensures Outcome(Next(s, ideaId, ip), ideaId, ip) == AlreadyVoted
    ensures Next(Next(s, ideaId, ip), ideaId, ip) == Next(s, ideaId, ip)
  {
    assert VoteRecord(ip, ideaId) in Next(s, ideaId, ip).records;
  }

  /**
   * Per visitor, the record count never decreases and grows by one exactly
   * for the visitor whose vote succeeded.
   */
  lemma VisitorCountsAfterVote(s: Store, ideaId: int, ip: string, other: string)
    ensures |ByVisitor(Next(s, ideaId, ip).records, other)| ==
      |ByVisitor(s.records, other)| + (if Outcome(s, ideaId, ip).Ok? && other == ip then 1 else 0)
  {
    if Outcome(s, ideaId, ip).Ok? {
      ByVisitorAppend(s.records, VoteRecord(ip, ideaId), other);
    }
  }

  /** Every vote keeps the schema constraints and the quota. */
  lemma VotePreservesConsistency(s: Store, ideaId: int, ip: string)
    requires Consistent(s)
    ensures Consistent(Next(s, ideaId, ip))
  {
    var t := Next(s, ideaId, ip);
    if Outcome(s, ideaId, ip).Ok? {
      var v := VoteRecord(ip, ideaId);
      assert KeysMatchIds(t.ideas);
      assert ForeignKeysHold(t) by {
        forall i | 0 <= i < |t.records| ensures t.records[i].ideaId in t.ideas {
          if i < |s.records| { assert t.records[i] == s.records[i]; }
        }
      }
      assert UniquePairs(t.records) by {
        forall i, j | 0 <= i < j < |t.records| ensures t.records[i] != t.records[j] {
          if j == |s.records| {
            assert t.records[i] == s.records[i];
          } else {
            assert t.records[i] == s.records[i] && t.records[j] == s.records[j];
          }
        }
      }
      assert ColumnsFit(t) by {
        forall i | 0 <= i < |t.records| ensures |t.records[i].ipAddress| <= MaxIpLength {
          if i < |s.records| { assert t.records[i] == s.records[i]; }
        }
      }
      assert WithinQuota(t.records) by {
        forall other: string ensures |ByVisitor(t.records, other)| <= MaxVotes {
          ByVisitorAppend(s.records, v, other);
        }
      }
    }
  }

  /** Every vote keeps each idea's tally minus its record count unchanged. */
  lemma VotePreservesTallyDrift(s: Store, base: map<int, int>, ideaId: int, ip: string)
    requires TallyDrift(s, base)
    ensures TallyDrift(Next(s, ideaId, ip), base)
  {
    var t := Next(s, ideaId, ip);
    if Outcome(s, ideaId, ip).Ok? {
      forall k | k in t.ideas ensures t.ideas[k].votes - |ByIdea(t.records, k)| == base[k] {
        ByIdeaAppend(s.records, VoteRecord(ip, ideaId), k);
      }
    }
  }

  /** Under the invariants a visitor's status lists at most MaxVotes distinct ideas. */
  lemma StatusWithinQuota(s: Store, ip: string)
    requires Consistent(s)
    ensures |ByVisitor(s.records, ip)| <= MaxVotes
    ensures Distinct(IdeaIds(ByVisitor(s.records, ip)))
  {
    VisitorIdeasDistinct(s.records, ip);
  }

  /** A set that is not empty has a member to pick. */
  lemma HasMember(keys: set<int>)
    ensures keys == {} || exists k :: k in keys
  {
    if forall k :: k !in keys {
      assert keys == {};
    }
  }

  // ---------------------------------------------------------------------
  // The ranked listing
  // ---------------------------------------------------------------------

  /** `a` is listed no later than `b`: more votes, or as many and created no earlier. */
  predicate RanksAtLeast(a: Idea, b: Idea) {
    a.votes > b.votes || (a.votes == b.votes && a.createdAt >= b.createdAt)
  }

  /** A non-empty table has an idea that ranks at least as high as every other. */
  lemma {:induction false} TopIdeaExists(ideas: map<int, Idea>)
    requires ideas.Keys != {}
    ensures exists k :: k in ideas && forall j :: j in ideas ==> RanksAtLeast(ideas[k], ideas[j])
    decreases |ideas|
  {
    HasMember(ideas.Keys);
    var k0 :| k0 in ideas.Keys;
    if !forall j :: j in ideas ==> RanksAtLeast(ideas[k0], ideas[j]) {
      var rest := ideas - {k0};
      assert rest.Keys == ideas.Keys - {k0};
      var above :| above in ideas && !RanksAtLeast(ideas[k0], ideas[above]);
      assert above in rest.Keys;
      assert |rest| < |ideas| by {
        assert |rest.Keys| == |ideas.Keys| - 1;
      }
      TopIdeaExists(rest);
      var k1 :| k1 in rest && forall j :: j in rest ==> RanksAtLeast(rest[k1], rest[j]);
      forall j | j in ideas ensures RanksAtLeast(ideas[k1], ideas[j]) {
        if j != k0 {
          assert j in rest && RanksAtLeast(ideas[k1], ideas[j]);
        } else {
          assert RanksAtLeast(ideas[k1], ideas[above]);
        }
      }
    }
  }

  /**
   * The keys of `ideas` in the order of `ORDER BY votes DESC, createdAt DESC`:
   * each key once, and no idea listed after one it outranks. Ideas equal on
   * both columns come in whichever order the database picks.
   */
  ghost function RankedKeys(ideas: map<int, Idea>): (ks: seq<int>)
    ensures |ks| == |ideas|
    ensures forall i :: 0 <= i < |ks| ==> ks[i] in ideas
    ensures forall k :: k in ideas ==> k in ks
    ensures forall i, j :: 0 <= i < j < |ks| ==> ks[i] != ks[j]
    ensures forall i, j :: 0 <= i < j < |ks| ==> RanksAtLeast(ideas[ks[i]], ideas[ks[j]])
    decreases |ideas|
  {
    if ideas.Keys == {} then []
    else
      TopIdeaExists(ideas);
      var k :| k in ideas && forall j :: j in ideas ==> RanksAtLeast(ideas[k], ideas[j]);
      var rest := ideas - {k};
      assert rest.Keys == ideas.Keys - {k};
      assert |rest| == |ideas| - 1 by {
        assert |rest.Keys| == |ideas.Keys| - 1;
      }
      var tail := RankedKeys(rest);
      RankedCons(ideas, k, rest, tail);
      [k] + tail
  }

  /** Putting a top idea in front of a ranking of the others ranks them all. */
  lemma RankedCons(ideas: map<int, Idea>, k: int, rest: map<int, Idea>, tail: seq<int>)
    requires k in ideas && forall j :: j in ideas ==> RanksAtLeast(ideas[k], ideas[j])
    requires forall j :: j in rest <==> j in ideas && j != k
    requires forall j :: j in rest ==> rest[j] == ideas[j]
    requires |tail| == |ideas| - 1
    requires forall i :: 0 <= i < |tail| ==> tail[i] in rest
    requires forall j :: j in rest ==> j in tail
    requires forall i, j :: 0 <= i < j < |tail| ==> tail[i] != tail[j]
    requires forall i, j :: 0 <= i < j < |tail| ==> RanksAtLeast(rest[tail[i]], rest[tail[j]])
    ensures var ks := [k] + tail;
      && |ks| == |ideas|
      && (forall i :: 0 <= i < |ks| ==> ks[i] in ideas)
      && (forall j :: j in ideas ==> j in ks)
      && (forall i, j :: 0 <= i < j < |ks| ==> ks[i] != ks[j])
      && (forall i, j :: 0 <= i < j < |ks| ==> RanksAtLeast(ideas[ks[i]], ideas[ks[j]]))
  {
    var ks := [k] + tail;
    forall i | 0 <= i < |ks| ensures ks[i] in ideas && (i > 0 ==> ks[i] != k) {
      if i > 0 {
        assert ks[i] == tail[i - 1] && tail[i - 1] in rest;
      }
    }
    forall j | j in ideas ensures j in ks {
      if j != k {
        assert j in rest;
        var i :| 0 <= i < |tail| && tail[i] == j;
        assert ks[i + 1] == j;
      }
    }
    forall i, j | 0 <= i < j < |ks|
      ensures ks[i] != ks[j] && RanksAtLeast(ideas[ks[i]], ideas[ks[j]])
    {
      assert ks[j] == tail[j - 1];
      if i > 0 {
        assert ks[i] == tail[i - 1];
        assert rest[tail[i - 1]] == ideas[tail[i - 1]] && rest[tail[j - 1]] == ideas[tail[j - 1]];
      }
    }
  }

  /** The rows of `ideas` under the keys `ks`, in that order. */
  function Listing(ideas: map<int, Idea>, ks: seq<int>): (listing: seq<Idea>)
    requires |ks| == |ideas|
    requires forall i :: 0 <= i < |ks| ==> ks[i] in ideas
    requires forall k :: k in ideas ==> k in ks
    requires forall i, j :: 0 <= i < j < |ks| ==> ks[i] != ks[j]
    requires forall i, j :: 0 <= i < j < |ks| ==> RanksAtLeast(ideas[ks[i]], ideas[ks[j]])
    ensures |listing| == |ideas|
    ensures forall k :: k in ideas ==> ideas[k] in listing
    ensures forall x :: x in listing ==> x in ideas.Values
    ensures forall i, j :: 0 <= i < j < |listing| ==> RanksAtLeast(listing[i], listing[j])
    ensures KeysMatchIds(ideas) ==>
      forall i, j :: 0 <= i < j < |listing| ==> listing[i].id != listing[j].id
  {
    var listing := seq(|ks|, i requires 0 <= i < |ks| => ideas[ks[i]]);
    assert forall k :: k in ideas ==> ideas[k] in listing by {
      forall k | k in ideas ensures ideas[k] in listing {
        var i :| 0 <= i < |ks| && ks[i] == k;
        assert listing[i] == ideas[k];
      }
    }
    listing
  }

  // ---------------------------------------------------------------------
  // The service over an in-memory database
  // ---------------------------------------------------------------------

  /** `AppService` together with the two tables its repositories reach. */
  class VotingService {
    var ideas: map<int, Idea>
    var records: seq<VoteRecord>
    /** The tally each idea was seeded with, before any vote record existed. */
    ghost var base: map<int, int>

    function Snapshot(): Store
      reads this
    {
      Store(ideas, records)
    }

    /** Schema constraints, quota and constant drift between tallies and records. */
    ghost predicate Valid()
      reads this
    {
      Consistent(Snapshot()) && TallyDrift(Snapshot(), base)
    }

    /**
     * The database as the seed script leaves it: both tables truncated, then
     * the seed ideas inserted with their starting tallies and no vote records.
     */
    constructor (seeded: map<int, Idea>)
      requires KeysMatchIds(seeded)
      requires forall k :: k in seeded ==> InInt32(k) && InInt32(seeded[k].votes)
      ensures Valid()
      ensures ideas == seeded && records == []
      ensures base == map k | k in seeded :: seeded[k].votes
    {
      ideas := seeded;
      records := [];
      base := map k | k in seeded :: seeded[k].votes;
    }

    /**
     * `queryRunner.manager.save(ideaVote)`: the INSERT fails on an address
     * wider than the column, on the foreign key, or on the UNIQUE
     * constraint, and otherwise appends the row.
     */
    method SaveRecord(v: VoteRecord) returns (status: InsertStatus)
      modifies this
      ensures status ==
        if |v.ipAddress| > MaxIpLength then ValueTooLong
        else if v.ideaId !in old(ideas) then ForeignKeyViolation
        else if v in old(records) then UniqueViolation
        else Inserted
      ensures records == if status == Inserted then old(records) + [v] else old(records)
      ensures ideas == old(ideas) && base == old(base)
    {
      if |v.ipAddress| > MaxIpLength {
        return ValueTooLong;
      } else if v.ideaId !in ideas {
        return ForeignKeyViolation;
      } else if v in records {
        return UniqueViolation;
      }
      records := records + [v];
      status := Inserted;
    }

    /**
     * `increment(Idea, { id: ideaId }, 'votes', 1)`: an UPDATE of at most
     * one row, which fails when the new tally would leave INTEGER.
     */
    method Increment(ideaId: int) returns (updated: bool)
      modifies this
      ensures updated <==> !(ideaId in old(ideas) && old(ideas)[ideaId].votes + 1 > MaxInt32)
      ensures ideas == if updated && ideaId in old(ideas) then old(ideas)[ideaId := Bumped(old(ideas)[ideaId])] else old(ideas)
      ensures records == old(records) && base == old(base)
    {
      if ideaId in ideas {
        if ideas[ideaId].votes + 1 > MaxInt32 {
          return false;
        }
        ideas := ideas[ideaId := Bumped(ideas[ideaId])];
      }
      updated := true;
    }

    /**
     * `voteForIdea`: the duplicate check, the quota check, then a
     * transaction that inserts the record and increments the tally, rolled
     * back when either statement fails.
     */
    method Vote(ideaId: int, ip: string) returns (r: VoteResult)
      requires Valid()
      modifies this
      ensures Valid() && base == old(base)
      ensures r == Outcome(old(Snapshot()), ideaId, ip)
      ensures Snapshot() == Next(old(Snapshot()), ideaId, ip)
    {
      ghost var before := Snapshot();
      VotePreservesConsistency(before, ideaId, ip);
      VotePreservesTallyDrift(before, base, ideaId, ip);

      // The first query binds the id as an INTEGER parameter.
      if !InInt32(ideaId) {
        return DatabaseError;
      }
      if VoteRecord(ip, ideaId) in records {
        return AlreadyVoted;
      }
      var currentVoteCount := |ByVisitor(records, ip)|;
      if currentVoteCount >= MaxVotes {
        return QuotaExceeded;
      }

      // The transaction: remember the committed state for the rollback.
      var ideasAtStart, recordsAtStart := ideas, records;
      var status := SaveRecord(VoteRecord(ip, ideaId));
      if status != Inserted {
        ideas, records := ideasAtStart, recordsAtStart;
        return if status == ForeignKeyViolation then IdeaNotFound else DatabaseError;
      }
      var updated := Increment(ideaId);
      if !updated {
        ideas, records := ideasAtStart, recordsAtStart;
        return DatabaseError;
      }
      // Committed; re-read the idea.
      r := Ok(ideas[ideaId].votes, MaxVotes - (currentVoteCount + 1));
    }

    /**
     * `getUserVoteStatus`: the visitor's records, their count and the ideas
     * they reference.
     */
    function GetUserVoteStatus(ip: string): (st: VoteStatus)
      reads this
      ensures st.voteCount == |st.votedIdeaIds| == |ByVisitor(records, ip)|
      ensures forall id :: id in st.votedIdeaIds <==> VoteRecord(ip, id) in records
    {
      var found := ByVisitor(records, ip);
      var ids := IdeaIds(found);
      assert forall id :: VoteRecord(ip, id) in records ==> id in ids by {
        forall id | VoteRecord(ip, id) in records ensures id in ids {
          var i :| 0 <= i < |found| && found[i] == VoteRecord(ip, id);
          assert ids[i] == id;
        }
      }
      assert forall id :: id in ids ==> VoteRecord(ip, id) in records by {
        forall id | id in ids ensures VoteRecord(ip, id) in records {
          var i :| 0 <= i < |ids| && ids[i] == id;
          assert found[i] in found;
        }
      }
      VoteStatus(|found|, ids)
    }

    /**
     * `getIdeas`: every idea once, by votes descending and then by
     * creation time descending.
     */
    ghost function GetIdeas(): (listing: seq<Idea>)
      reads this
      ensures |listing| == |ideas|
      ensures forall k :: k in ideas ==> ideas[k] in listing
      ensures forall x :: x in listing ==> x in ideas.Values
      ensures forall i, j :: 0 <= i < j < |listing| ==> RanksAtLeast(listing[i], listing[j])
      ensures KeysMatchIds(ideas) ==>
        forall i, j :: 0 <= i < j < |listing| ==> listing[i].id != listing[j].id
    {
      Listing(ideas, RankedKeys(ideas))
    }

    /**
     * `getRandomIdeas(limit)`: `ORDER BY RANDOM() LIMIT limit`, that is
     * min(limit, number of ideas) distinct stored ideas in an order the
     * database chooses.
     */
    method GetRandomIdeas(limit: int := DefaultRandomLimit) returns (picked: seq<Idea>)
      requires Valid() && limit >= 1
      ensures |picked| == if limit < |ideas| then limit else |ideas|
      ensures forall i :: 0 <= i < |picked| ==> picked[i].id in ideas && ideas[picked[i].id] == picked[i]
      ensures forall i, j :: 0 <= i < j < |picked| ==> picked[i].id != picked[j].id
    {
      picked := [];
      var remaining := ideas.Keys;
      while |picked| < limit && remaining != {}
        invariant remaining <= ideas.Keys
        invariant |picked| + |remaining| == |ideas.Keys|
        invariant |picked| <= limit
        invariant forall i :: 0 <= i < |picked| ==>
          picked[i].id in ideas && picked[i].id !in remaining && ideas[picked[i].id] == picked[i]
        invariant forall i, j :: 0 <= i < j < |picked| ==> picked[i].id != picked[j].id
        decreases remaining
      {
        HasMember(remaining);
        var k :| k in remaining;
        picked := picked + [ideas[k]];
        remaining := remaining - {k};
      }
      assert |ideas| == |ideas.Keys|;
    }
  }
}
