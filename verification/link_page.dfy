/** The poll owner's page: it deletes, renames and adds options through the server,
    and shows the results with the most-voted option marked. */
module LinkPage {
  import opened Wrappers
  import opened JsText
  import opened PollSchema
  import opened OptionLists

  /** `handleDelete`: the local list after the request, every option with the id dropped. */
  function DeleteLocal(opts: seq<PollOption>, optionId: string): (r: seq<PollOption>)
    ensures |r| == |opts| - CountId(opts, optionId)
    ensures forall o :: o in r <==> o in opts && o.id != optionId
    ensures r == Without(opts, optionId)
  {
    Without(opts, optionId)
  }

  /** `handleEdit`: the name it sends, or `None` when the prompt was cancelled or left empty. */
  function EditRequest(prompted: Option<string>): (r: Option<string>)
    ensures r.None? <==> prompted.None? || prompted.value == ""
    ensures r.Some? ==> r == prompted
  {
    if prompted.Some? && prompted.value != "" then prompted else None
  }

  /** `handleAddOption`: the name it sends, or `None` when the name is blank. */
  function AddOptionRequest(newOptionName: string): (r: Option<string>)
    ensures r.None? <==> IsBlank(newOptionName)
    ensures r.Some? ==> r.value == newOptionName
  {
    TrimEmptyIffBlank(newOptionName);
    if Trim(newOptionName) == "" then None else Some(newOptionName)
  }

  /** `Math.max(...options.map(o => o.optionCount))` for a non-empty list. */
  function MaxCount(opts: seq<PollOption>): (m: nat)
    requires opts != []
    ensures exists i :: 0 <= i < |opts| && opts[i].optionCount == m
    ensures forall i :: 0 <= i < |opts| ==> opts[i].optionCount <= m
  {
    if |opts| == 1 then opts[0].optionCount
    else
      var rest := MaxCount(opts[1..]);
      assert forall i :: 1 <= i < |opts| ==> opts[i] == opts[1..][i - 1];
      if opts[0].optionCount >= rest then opts[0].optionCount else rest
  }

  /** `isHighest`: the option's count equals the largest count in the list. */
  predicate IsHighest(opts: seq<PollOption>, o: PollOption)
    requires opts != []
    ensures IsHighest(opts, o) ==> forall j :: 0 <= j < |opts| ==> opts[j].optionCount <= o.optionCount
    ensures IsHighest(opts, o) ==> exists j :: 0 <= j < |opts| && opts[j].optionCount == o.optionCount
  {
    o.optionCount == MaxCount(opts)
  }

  /** An option of the list is marked exactly when no option has more votes. */
  lemma IsHighestIff(opts: seq<PollOption>, i: nat)
    requires i < |opts|
    ensures IsHighest(opts, opts[i]) <==> forall j :: 0 <= j < |opts| ==> opts[j].optionCount <= opts[i].optionCount
  {
  }

  /** The "Highest Votes" `reduce` over the first `n` options, as an index: the running
      choice is kept only while strictly ahead, so an equal count later takes over. */
  function HighestIndex(opts: seq<PollOption>, n: nat): (k: nat)
    requires 1 <= n <= |opts|
    ensures k < n
    ensures forall j :: 0 <= j < n ==> opts[j].optionCount <= opts[k].optionCount
    ensures forall j :: k < j < n ==> opts[j].optionCount < opts[k].optionCount
  {
    if n == 1 then 0
    else
      var prev := HighestIndex(opts, n - 1);
      if opts[prev].optionCount > opts[n - 1].optionCount then prev else n - 1
  }

  /** The option whose name the results show under "Highest Votes": an option of the list
      with no option ahead of it. The `reduce` has no initial value, so the list must not be
      empty. */
  function HighestVotes(opts: seq<PollOption>): (r: PollOption)
    requires opts != []
    ensures r in opts
    ensures forall j :: 0 <= j < |opts| ==> opts[j].optionCount <= r.optionCount
  {
    opts[HighestIndex(opts, |opts|)]
  }

  /** The option shown under "Highest Votes" is one of those marked highest: the last of them. */
  lemma HighestVotesIsLastMarked(opts: seq<PollOption>)
    requires opts != []
    ensures IsHighest(opts, HighestVotes(opts))
    ensures var k := HighestIndex(opts, |opts|);
      forall j :: k < j < |opts| ==> !IsHighest(opts, opts[j])
  {
  }

  /** Between two options tied for the most votes, the later one is shown. */
  lemma {:induction false} TieGoesToLater(opts: seq<PollOption>, i: nat, j: nat)
    requires i < j < |opts|
    requires IsHighest(opts, opts[i]) && IsHighest(opts, opts[j])
    ensures HighestIndex(opts, |opts|) != i
  {
  }
}
