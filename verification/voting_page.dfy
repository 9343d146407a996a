/** The voting page: it shows a poll read from the server, lets the visitor pick one option,
    and after the server accepts the vote counts it locally without reading the poll again. */
module VotingPage {
  import opened PollSchema
  import opened OptionLists
  import Server

  /** The page state: the options shown, the selected option id (`""` for none),
      the total shown and whether this visitor has voted. */
  datatype View = View(options: seq<PollOption>, selectedVote: string, totalVotes: nat, hasVoted: bool)

  /** The message the vote handler answers with when it accepts a vote. */
  const VoteAccepted: string := "Vote submitted successfully!"

  /** The total shown is the sum of the counts shown. */
  predicate Consistent(v: View) {
    v.totalVotes == Total(v.options)
  }

  /** The effect of the poll read: options and `hasVoted` from the server, total recomputed. */
  function Load(v: View, data: Server.PollView): (r: View)
    ensures Consistent(r)
    ensures r.options == data.options && r.hasVoted == data.hasVoted && r.selectedVote == v.selectedVote
  {
    View(data.options, v.selectedVote, Total(data.options), data.hasVoted)
  }

  /** The page's poll read against the store: 404 leaves the page as it was; otherwise the
      page shows the stored options, its total is the stored poll's total, and `hasVoted`
      follows the store's ledger. */
  method LoadAgreesWithServer(store: Server.Store, v: View, pollId: string, ip: string) returns (r: View)
    ensures pollId !in store.polls ==> r == v
    ensures pollId in store.polls ==>
      && Consistent(r)
      && r.options == store.polls[pollId].options
      && r.totalVotes == Total(store.polls[pollId].options)
      && (r.hasVoted <==> Server.HasVoted(store.votes, ip, pollId))
      && r.selectedVote == v.selectedVote
  {
    var status, data := store.ReadPoll(pollId, ip);
    if status == Server.Ok {
      r := Load(v, data.value);
    } else {
      r := v;
    }
  }

  /** `handleVoteSelection`: once the visitor has voted, clicking an option does nothing. */
  function SelectOption(v: View, optionId: string): (r: View)
    ensures v.hasVoted ==> r == v
    ensures !v.hasVoted ==>
      r.selectedVote == optionId && r.options == v.options && r.totalVotes == v.totalVotes && !r.hasVoted
  {
    if !v.hasVoted then v.(selectedVote := optionId) else v
  }

  /** The outcome of `handleSubmitVote`: no request, or the option id sent and the page after the reply. */
  datatype Submission = NothingSent | Sent(optionId: string, after: View)

  /** `handleSubmitVote`, given the message of the server's reply. */
  function SubmitVote(v: View, replyMessage: string): (r: Submission)
    ensures r.NothingSent? <==> v.selectedVote == ""
    ensures r.Sent? ==> r.optionId == v.selectedVote
    ensures r.Sent? && replyMessage != VoteAccepted ==> r.after == v
    ensures r.Sent? && replyMessage == VoteAccepted ==>
      && r.after.hasVoted
      && r.after.selectedVote == v.selectedVote
      && |r.after.options| == |v.options|
      && (forall i :: 0 <= i < |v.options| ==>
            r.after.options[i] == if v.options[i].id == v.selectedVote then Bump(v.options[i]) else v.options[i])
      && r.after.totalVotes == Total(v.options) + CountId(v.options, v.selectedVote)
  {
    if v.selectedVote == "" then NothingSent
    else if replyMessage == VoteAccepted then
      var options := MapAll(v.options, v.selectedVote, Bump);
      TotalBumpAll(v.options, v.selectedVote);
      Sent(v.selectedVote, View(options, v.selectedVote, Total(options), true))
    else Sent(v.selectedVote, v)
  }

  /** After an accepted vote the total shown rises by the number of options carrying the
      selected id: by exactly one when the id occurs once. The page stays consistent. */
  lemma AcceptedVoteTotal(v: View)
    requires Consistent(v) && v.selectedVote != ""
    ensures var r := SubmitVote(v, VoteAccepted);
      && Consistent(r.after)
      && r.after.totalVotes == v.totalVotes + CountId(v.options, v.selectedVote)
      && (UniqueIds(v.options) && HasOption(v.options, v.selectedVote) ==> r.after.totalVotes == v.totalVotes + 1)
  {
    var r := SubmitVote(v, VoteAccepted);
    TotalBumpAll(v.options, v.selectedVote);
    if UniqueIds(v.options) && HasOption(v.options, v.selectedVote) {
      UniqueCountOne(v.options, v.selectedVote);
    }
  }

  /** On unique ids the page's local count matches the store's: the options after an
      accepted vote are those the vote handler stores. */
  lemma OptimisticMatchesStore(v: View)
    requires UniqueIds(v.options) && v.selectedVote != ""
    ensures SubmitVote(v, VoteAccepted).after.options == MapFirst(v.options, v.selectedVote, Bump)
  {
    MapAllUniqueIsMapFirst(v.options, v.selectedVote, Bump);
  }
}
