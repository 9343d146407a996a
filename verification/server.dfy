/** The REST handlers of the poll server as operations on an in-memory store: a map from
    poll id to poll, and the vote ledger, one record per accepted vote. Each handler is one
    atomic step; the database, the HTTP layer and the client address lookup are not modelled. */
module Server {
  import opened Wrappers
  import opened JsText
  import opened PollSchema
  import opened OptionLists

  /** The HTTP statuses the handlers answer with: 201, 200, 400, 404 and 500. */
  datatype Status = Created | Ok | BadRequest | NotFound | ServerError

  /** A ledger entry: who voted in which poll, and for which option. */
  datatype VoteRecord = VoteRecord(ip: string, pollId: string, optionId: string)

  /** The body of a successful read. */
  datatype PollView = PollView(pollTitle: string, options: seq<PollOption>, hasVoted: bool, totalVotes: nat)

  /** An option as the create request carries it; `""` stands for a missing or falsy field. */
  datatype OptionInput = OptionInput(id: string, optionName: string)

  /** The ledger test shared by the read handler's `hasVoted` and the vote handler's duplicate check. */
  predicate HasVoted(votes: seq<VoteRecord>, ip: string, pollId: string)
    ensures HasVoted(votes, ip, pollId) <==> exists v :: v in votes && v.ip == ip && v.pollId == pollId
  {
    exists i :: 0 <= i < |votes| && votes[i].ip == ip && votes[i].pollId == pollId
  }

  /** At most one ledger entry per (ip, poll) pair. */
  predicate OneVotePerVoter(votes: seq<VoteRecord>) {
    forall i, j :: 0 <= i < j < |votes| ==>
      !(votes[i].ip == votes[j].ip && votes[i].pollId == votes[j].pollId)
  }

  /** The options of a new poll, in the order of the request: a supplied id is kept, a
      missing one is taken from the id source `objectIds` (one call per option, by position),
      the name is copied and the count starts at 0, so a new poll's total is 0. */
  function FormatOptions(inputs: seq<OptionInput>, objectIds: nat -> string): (r: seq<PollOption>)
    ensures |r| == |inputs|
    ensures forall i :: 0 <= i < |r| ==> r[i].optionName == inputs[i].optionName && r[i].optionCount == 0
    ensures forall i :: 0 <= i < |r| && inputs[i].id != "" ==> r[i].id == inputs[i].id
    ensures forall i :: 0 <= i < |r| && inputs[i].id == "" ==> r[i].id == objectIds(i)
    ensures Total(r) == 0
  {
    var r := seq(|inputs|, i requires 0 <= i < |inputs| =>
      NewOption(if inputs[i].id != "" then inputs[i].id else objectIds(i), inputs[i].optionName));
    assert forall i :: 0 <= i < |r| ==>
      r[i] == NewOption(if inputs[i].id != "" then inputs[i].id else objectIds(i), inputs[i].optionName);
    r
  }

  /** Appending to the ledger keeps one vote per voter exactly when the voter had not voted. */
  lemma AppendVoteKeepsOnePerVoter(votes: seq<VoteRecord>, v: VoteRecord)
    requires OneVotePerVoter(votes)
    ensures OneVotePerVoter(votes + [v]) <==> !HasVoted(votes, v.ip, v.pollId)
  {
    var w := votes + [v];
    if HasVoted(votes, v.ip, v.pollId) {
      var i :| 0 <= i < |votes| && votes[i].ip == v.ip && votes[i].pollId == v.pollId;
      assert w[i] == votes[i] && w[|votes|] == v;
    }
  }

  class Store {
    /** The poll collection, keyed by `_id`. */
    var polls: map<string, Poll>
    /** The vote collection, in insertion order. */
    var votes: seq<VoteRecord>

    /** Every stored poll obeys the schema and is filed under its own `_id`;
        no voter appears twice for the same poll in the ledger. */
    ghost predicate Valid()
      reads this
    {
      && (forall id :: id in polls ==> polls[id].id == id && ValidPoll(polls[id]))
      && OneVotePerVoter(votes)
    }

    constructor ()
      ensures Valid() && polls == map[] && votes == []
    {
      polls := map[];
      votes := [];
    }

    /** `save()`: validates the document against the schema, then inserts it (a new
        document, refused when its `_id` is taken) or overwrites the stored one. */
    method Save(p: Poll, isNew: bool) returns (ok: bool)
      requires Valid()
      modifies this
      ensures Valid() && votes == old(votes)
      ensures ok <==> ValidPoll(p) && (if isNew then p.id !in old(polls) else p.id in old(polls))
      ensures polls == if ok then old(polls)[p.id := p] else old(polls)
    {
      ok := ValidPoll(p) && (if isNew then p.id !in polls else p.id in polls);
      if ok {
        polls := polls[p.id := p];
      }
    }

    /** POST /api/polls. `options` is `None` when the body's options are not an array;
        `newPollId` and `objectIds` are the ObjectId source. */
    method CreatePoll(pollTitle: string, options: Option<seq<OptionInput>>, newPollId: string, objectIds: nat -> string)
      returns (status: Status, saved: Option<Poll>)
      requires Valid()
      modifies this
      ensures Valid() && votes == old(votes)
      ensures options.None? || options == Some([]) ==> status == BadRequest && polls == old(polls)
      ensures options.Some? && options.value != [] ==>
        var p := Poll(newPollId, pollTitle, FormatOptions(options.value, objectIds));
        if ValidPoll(p) && newPollId !in old(polls)
        then status == Created && polls == old(polls)[newPollId := p]
        else status == ServerError && polls == old(polls)
      ensures status == Created <==> saved.Some?
      ensures status == Created ==> saved.value == polls[newPollId] && Total(saved.value.options) == 0
    {
      if options.None? || |options.value| == 0 {
        return BadRequest, None;
      }
      var p := Poll(newPollId, pollTitle, FormatOptions(options.value, objectIds));
      var ok := Save(p, true);
      if !ok {
        return ServerError, None;
      }
      return Created, Some(p);
    }

    /** GET /api/polls/:pollId: the poll, whether `ip` has voted in it, and its derived total. */
    method ReadPoll(pollId: string, ip: string) returns (status: Status, view: Option<PollView>)
      ensures status == NotFound <==> pollId !in polls
      ensures status != NotFound ==> status == Ok
      ensures status == Ok <==> view.Some?
      ensures status == Ok ==>
        && view.value.pollTitle == polls[pollId].pollTitle
        && view.value.options == polls[pollId].options
        && (view.value.hasVoted <==> HasVoted(votes, ip, pollId))
        && view.value.totalVotes == Total(polls[pollId].options)
    {
      if pollId !in polls {
        return NotFound, None;
      }
      var poll := polls[pollId];
      var totalVotes := Total(poll.options);
      var hasVoted := HasVoted(votes, ip, pollId);
      return Ok, Some(PollView(poll.pollTitle, poll.options, hasVoted, totalVotes));
    }

    /** POST /api/polls/:pollId/vote. `optionId == ""` stands for a missing option id. */
    method CastVote(pollId: string, optionId: string, ip: string) returns (status: Status, updated: Option<Poll>)
      requires Valid()
      modifies this
      ensures Valid()
      ensures status != Ok ==> polls == old(polls) && votes == old(votes) && updated.None?
      ensures status == BadRequest <==>
        pollId == "" || optionId == "" || HasVoted(old(votes), ip, pollId)
      ensures status == NotFound <==>
        && pollId != "" && optionId != "" && !HasVoted(old(votes), ip, pollId)
        && !(pollId in old(polls) && HasOption(old(polls)[pollId].options, optionId))
      ensures status in {Ok, BadRequest, NotFound}
      ensures status == Ok ==>
        var before := old(polls)[pollId];
        && polls == old(polls)[pollId := before.(options := MapFirst(before.options, optionId, Bump))]
        && votes == old(votes) + [VoteRecord(ip, pollId, optionId)]
        && updated == Some(polls[pollId])
        && Total(polls[pollId].options) == Total(before.options) + 1
        && HasVoted(votes, ip, pollId)
    {
      if pollId == "" || optionId == "" {
        return BadRequest, None;
      }
      if HasVoted(votes, ip, pollId) {
        return BadRequest, None;
      }
      if pollId !in polls || !HasOption(polls[pollId].options, optionId) {
        return NotFound, None;
      }
      var before := polls[pollId];
      var after := before.(options := MapFirst(before.options, optionId, Bump));
      TotalBumpFirst(before.options, optionId);
      forall i | 0 <= i < |after.options| ensures ValidOption(after.options[i]) {
        var k := FindIndex(before.options, optionId).value;
        assert i == k || after.options[i] == before.options[i];
      }
      polls := polls[pollId := after];
      var record := VoteRecord(ip, pollId, optionId);
      AppendVoteKeepsOnePerVoter(votes, record);
      votes := votes + [record];
      assert votes[|votes| - 1] == record;
      return Ok, Some(after);
    }

    /** PUT /api/polls/:pollId/options/:optionId: renames the first option with that id.
        `optionName == ""` stands for a missing name, which the save then refuses. */
    method EditOption(pollId: string, optionId: string, optionName: string) returns (status: Status, updated: Option<Poll>)
      requires Valid()
      modifies this
      ensures Valid() && votes == old(votes)
      ensures status != Ok ==> polls == old(polls) && updated.None?
      ensures status == BadRequest <==> IsBlank(pollId) || IsBlank(optionId)
      ensures status == NotFound <==>
        && !IsBlank(pollId) && !IsBlank(optionId)
        && !(pollId in old(polls) && HasOption(old(polls)[pollId].options, optionId))
      ensures status == ServerError <==>
        && !IsBlank(pollId) && !IsBlank(optionId)
        && pollId in old(polls) && HasOption(old(polls)[pollId].options, optionId)
        && optionName == ""
      ensures status in {Ok, BadRequest, NotFound, ServerError}
      ensures status == Ok ==>
        var before := old(polls)[pollId];
        && polls == old(polls)[pollId := before.(options := MapFirst(before.options, optionId, o => Renamed(o, optionName)))]
        && updated == Some(polls[pollId])
    {
      TrimEmptyIffBlank(pollId);
      TrimEmptyIffBlank(optionId);
      if Trim(pollId) == "" {
        return BadRequest, None;
      }
      if Trim(optionId) == "" {
        return BadRequest, None;
      }
      if pollId !in polls {
        return NotFound, None;
      }
      var poll := polls[pollId];
      var found := FindIndex(poll.options, optionId);
      if found.None? {
        return NotFound, None;
      }
      var after := poll.(options := MapFirst(poll.options, optionId, o => Renamed(o, optionName)));
      assert after.options[found.value].optionName == optionName;
      assert optionName != "" ==> forall i :: 0 <= i < |after.options| ==> ValidOption(after.options[i]) by {
        forall i | 0 <= i < |after.options| ensures optionName != "" ==> ValidOption(after.options[i]) {
          assert i == found.value || after.options[i] == poll.options[i];
        }
      }
      var ok := Save(after, false);
      if !ok {
        return ServerError, None;
      }
      return Ok, Some(after);
    }

    /** DELETE /api/polls/:pollId/options/:optionId: drops every option with that id. */
    method DeleteOption(pollId: string, optionId: string) returns (status: Status, updated: Option<Poll>)
      requires Valid()
      modifies this
      ensures Valid() && votes == old(votes)
      ensures status != Ok ==> polls == old(polls) && updated.None?
      ensures status == BadRequest <==> IsBlank(pollId)
      ensures status == NotFound <==>
        !IsBlank(pollId) && !(pollId in old(polls) && HasOption(old(polls)[pollId].options, optionId))
      ensures status in {Ok, BadRequest, NotFound}
      ensures status == Ok ==>
        var before := old(polls)[pollId];
        && polls == old(polls)[pollId := before.(options := Without(before.options, optionId))]
        && |polls[pollId].options| < |before.options|
        && updated == Some(polls[pollId])
    {
      TrimEmptyIffBlank(pollId);
      if Trim(pollId) == "" {
        return BadRequest, None;
      }
      if pollId !in polls {
        return NotFound, None;
      }
      var poll := polls[pollId];
      var initialOptionCount := |poll.options|;
      var after := poll.(options := Without(poll.options, optionId));
      WithoutShortensIff(poll.options, optionId);
      if |after.options| == initialOptionCount {
        return NotFound, None;
      }
      assert forall i :: 0 <= i < |after.options| ==> after.options[i] in poll.options;
      var ok := Save(after, false);
      assert ok;
      return Ok, Some(after);
    }

    /** POST /api/polls/:pollId: appends an option under the next numeric id. */
    method AddOption(pollId: string, optionName: string) returns (status: Status, updated: Option<Poll>)
      requires Valid()
      modifies this
      ensures Valid() && votes == old(votes)
      ensures status != Ok ==> polls == old(polls) && updated.None?
      ensures status == BadRequest <==> IsBlank(optionName)
      ensures status == NotFound <==> !IsBlank(optionName) && pollId !in old(polls)
      ensures status in {Ok, BadRequest, NotFound}
      ensures status == Ok ==>
        var before := old(polls)[pollId];
        && polls == old(polls)[pollId := before.(options := before.options + [NewOption(NextOptionId(before.options), optionName)])]
        && updated == Some(polls[pollId])
    {
      TrimEmptyIffBlank(optionName);
      if optionName == "" || Trim(optionName) == "" {
        return BadRequest, None;
      }
      if pollId !in polls {
        return NotFound, None;
      }
      var poll := polls[pollId];
      var newOptionId := NextOptionId(poll.options);
      var option := NewOption(newOptionId, optionName);
      var after := poll.(options := poll.options + [option]);
      ValidPollAppend(poll, [option]);
      var ok := Save(after, false);
      assert ok;
      return Ok, Some(after);
    }

    /** DELETE /api/polls/:pollId: ends the poll by deleting it; the ledger is left alone. */
    method EndPoll(pollId: string) returns (status: Status)
      requires Valid()
      modifies this
      ensures Valid() && votes == old(votes)
      ensures status == Ok <==> pollId in old(polls)
      ensures status != Ok ==> status == NotFound
      ensures polls == old(polls) - {pollId}
      ensures pollId !in polls
    {
      if pollId !in polls {
        return NotFound;
      }
      polls := polls - {pollId};
      return Ok;
    }
  }

  /** The lifecycle the handlers promise, chained through their contracts: create a poll with
      two options, vote once, get refused on a second vote, end the poll, then miss it. */
  method Lifecycle(ip: string, objectIds: nat -> string)
  {
    var store := new Store();
    var inputs := [OptionInput("1", "A"), OptionInput("2", "B")];
    assert inputs[0].id != "" && inputs[1].id != "";
    assert FormatOptions(inputs, objectIds) == [PollOption("1", "A", 0), PollOption("2", "B", 0)];
    var created, poll := store.CreatePoll("Lunch", Some(inputs), "p1", objectIds);
    assert created == Created && poll.value.options == [PollOption("1", "A", 0), PollOption("2", "B", 0)];
    var read, view := store.ReadPoll("p1", ip);
    assert read == Ok && view.value.totalVotes == 0;
    var voted, updated := store.CastVote("p1", "2", ip);
    assert voted == Ok && Total(updated.value.options) == 1;
    var again, _ := store.CastVote("p1", "1", ip);
    assert again == BadRequest;
    var ended := store.EndPoll("p1");
    assert ended == Ok;
    var missing, _ := store.ReadPoll("p1", ip);
    assert missing == NotFound;
    var endedAgain := store.EndPoll("p1");
    assert endedAgain == NotFound;
  }
}
