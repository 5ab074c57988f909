/**
 * The two vote handlers of `AppController`
 * (apps/backend/src/app/app.controller.ts): each derives the visitor key
 * from the request with ExtractIpAddress and delegates to the service.
 */
module Endpoints {
  import opened Wrappers
  import opened Address
  import opened Ledger

  /** POST /v1/ideas/:id/vote, with the path parameter already parsed to an int. */
  method VoteForIdea(service: VotingService, id: int, req: Request) returns (r: VoteResult)
    requires service.Valid()
    modifies service
    ensures service.Valid()
    ensures r == Outcome(old(service.Snapshot()), id, ExtractIpAddress(req))
    ensures service.Snapshot() == Next(old(service.Snapshot()), id, ExtractIpAddress(req))
  {
    var ipAddress := ExtractIpAddress(req);
    r := service.Vote(id, ipAddress);
  }

  /** GET /v1/votes/status. */
  function GetVoteStatus(service: VotingService, req: Request): (st: VoteStatus)
    reads service
    ensures forall id :: id in st.votedIdeaIds <==> VoteRecord(ExtractIpAddress(req), id) in service.records
    ensures st.voteCount == |ByVisitor(service.records, ExtractIpAddress(req))|
  {
    service.GetUserVoteStatus(ExtractIpAddress(req))
  }

  /**
   * Both handlers key the ledger by the same function of the request, so a
   * vote that succeeds is listed by the status of the same request, and
   * that status counts one more vote than before.
   */
  method VoteThenStatus(service: VotingService, id: int, req: Request)
    returns (r: VoteResult, st: VoteStatus)
    requires service.Valid()
    modifies service
    ensures service.Valid()
    ensures r.Ok? ==> id in st.votedIdeaIds
    ensures r.Ok? ==> st.voteCount == old(GetVoteStatus(service, req).voteCount) + 1
    ensures r.Ok? ==> r.votesRemaining == MaxVotes - st.voteCount
  {
    ghost var before := service.Snapshot();
    r := VoteForIdea(service, id, req);
    st := GetVoteStatus(service, req);
    SuccessfulVote(before, id, ExtractIpAddress(req));
  }

  /**
   * A visitor behind a proxy votes for an idea seeded with five votes, then
   * votes for it again, then asks for their status.
   */
  method FirstVoteThenRepeat(client: string)
    requires client != "" && ',' !in client && NoOuterWhitespace(client)
    requires |client| <= MaxIpLength
  {
    var seeded := map[1 := Idea(1, "Dark Mode", "Add a dark mode theme", 5, 0)];
    var service := new VotingService(seeded);
    var header := " " + client + "," + " 10.0.0.1";
    var req := Request(Some(header), None, Some("10.0.0.1"));
    assert IsBlank(" ") && IsBlank("") && header == " " + client + "" + "," + " 10.0.0.1";
    ForwardedListGivesClient(" ", client, "", " 10.0.0.1", None, Some("10.0.0.1"));

    var first := VoteForIdea(service, 1, req);
    assert first == Ok(6, 9);
    var again := VoteForIdea(service, 1, req);
    assert again == AlreadyVoted;
    assert service.ideas[1].votes == 6;

    var st := GetVoteStatus(service, req);
    assert st == VoteStatus(1, [1]);
  }
}
