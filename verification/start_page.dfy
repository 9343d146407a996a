/** The poll-creation page: a draft (title and options) edited locally, then sent to the
    create handler. Option ids are numbers on this page; the model holds them as the
    decimal strings the store turns them into. */
module StartPage {
  import opened Wrappers
  import opened JsText
  import opened PollSchema
  import opened OptionLists
  import Server

  /** The `data` state, which is also the body of the create request. */
  datatype PollDraft = PollDraft(pollTitle: string, options: seq<PollOption>)

  /** The page state: the draft and the text of the option input. */
  datatype Page = Page(data: PollDraft, optionText: string)

  /** What every option the page builds looks like: a numeric id, a name, no votes. */
  predicate WellFormedDraft(d: PollDraft) {
    forall i :: 0 <= i < |d.options| ==>
      IsDecimalNumeral(d.options[i].id) && Present(d.options[i].optionName) && d.options[i].optionCount == 0
  }

  /** `addOption`: ignores a blank input; otherwise appends an option numbered one past the
      current length and clears the input. */
  function AddOption(p: Page): (r: Page)
    ensures IsBlank(p.optionText) ==> r == p
    ensures !IsBlank(p.optionText) ==>
      && r.data.pollTitle == p.data.pollTitle
      && r.data.options == p.data.options + [NewOption(NatToDecimal(|p.data.options| + 1), p.optionText)]
      && r.optionText == ""
  {
    TrimEmptyIffBlank(p.optionText);
    if Trim(p.optionText) != "" then
      var newOption := NewOption(NatToDecimal(|p.data.options| + 1), p.optionText);
      Page(p.data.(options := p.data.options + [newOption]), "")
    else p
  }

  /** `handleDeleteLocal`: drops every option with the id, the others kept in order. */
  function DeleteLocal(p: Page, optionId: string): (r: Page)
    ensures r.optionText == p.optionText && r.data.pollTitle == p.data.pollTitle
    ensures |r.data.options| == |p.data.options| - CountId(p.data.options, optionId)
    ensures forall o :: o in r.data.options <==> o in p.data.options && o.id != optionId
    ensures r.data.options == Without(p.data.options, optionId)
  {
    p.(data := p.data.(options := Without(p.data.options, optionId)))
  }

  /** `handleEditLocal`: `prompted` is what the prompt returned (`None` for a cancelled prompt).
      An empty or cancelled answer changes nothing; otherwise every option with the id is renamed. */
  function EditLocal(p: Page, optionId: string, prompted: Option<string>): (r: Page)
    ensures prompted.None? || prompted.value == "" ==> r == p
    ensures r.optionText == p.optionText && r.data.pollTitle == p.data.pollTitle
    ensures |r.data.options| == |p.data.options|
    ensures forall i :: 0 <= i < |p.data.options| ==>
      && r.data.options[i].id == p.data.options[i].id
      && r.data.options[i].optionCount == p.data.options[i].optionCount
      && r.data.options[i].optionName ==
         if prompted.Some? && prompted.value != "" && p.data.options[i].id == optionId
         then prompted.value else p.data.options[i].optionName
  {
    if prompted.Some? && prompted.value != "" then
      p.(data := p.data.(options := MapAll(p.data.options, optionId, o => Renamed(o, prompted.value))))
    else p
  }

  /** `handleSubmit`: the body it posts, or `None` when the title is empty and nothing is sent. */
  function Submit(p: Page): (r: Option<PollDraft>)
    ensures r.None? <==> p.data.pollTitle == ""
    ensures r.Some? ==> r.value == p.data && r.value.pollTitle != ""
  {
    if p.data.pollTitle == "" then None else Some(p.data)
  }

  /** The options of the create request as the handler reads them. */
  function RequestOptions(d: PollDraft): (r: seq<Server.OptionInput>)
    ensures |r| == |d.options|
    ensures forall i :: 0 <= i < |r| ==> r[i] == Server.OptionInput(d.options[i].id, d.options[i].optionName)
  {
    seq(|d.options|, i requires 0 <= i < |d.options| => Server.OptionInput(d.options[i].id, d.options[i].optionName))
  }

  /** The local edits keep the draft well formed. */
  lemma EditsKeepWellFormed(p: Page, optionId: string, prompted: Option<string>)
    requires WellFormedDraft(p.data)
    ensures WellFormedDraft(AddOption(p).data)
    ensures WellFormedDraft(DeleteLocal(p, optionId).data)
    ensures WellFormedDraft(EditLocal(p, optionId, prompted).data)
  {
    var d := DeleteLocal(p, optionId).data;
    forall i | 0 <= i < |d.options|
      ensures IsDecimalNumeral(d.options[i].id) && Present(d.options[i].optionName) && d.options[i].optionCount == 0
    {
      assert d.options[i] in p.data.options;
    }
  }

  /** A well-formed draft is stored as it was built: the create handler keeps every
      client id, name and position, and its counts are already 0. */
  lemma {:induction false} CreateStoresDraft(d: PollDraft, objectIds: nat -> string)
    requires WellFormedDraft(d)
    ensures Server.FormatOptions(RequestOptions(d), objectIds) == d.options
  {
    var r := Server.FormatOptions(RequestOptions(d), objectIds);
    forall i | 0 <= i < |d.options| ensures r[i] == d.options[i] {
      assert RequestOptions(d)[i].id != "";
    }
  }

  // ---- the id that `addOption` allocates --------------------------------------------

  /** Two adds, a delete of the first option, a third add: the third option gets the id
      of the second, so the draft holds two options with id "2". */
  lemma AddAfterDeleteRepeatsId()
    ensures var p1 := AddOption(Page(PollDraft("Lunch", []), "A"));
      var p2 := AddOption(p1.(optionText := "B"));
      var p3 := DeleteLocal(p2, "1");
      var p4 := AddOption(p3.(optionText := "C"));
      && p4.data.options == [NewOption("2", "B"), NewOption("2", "C")]
      && !UniqueIds(p4.data.options)
  {
    assert !IsBlank("A") && !IsBlank("B") && !IsBlank("C") by {
      assert !IsWhitespace('A') && !IsWhitespace('B') && !IsWhitespace('C');
      assert "A"[0] == 'A' && "B"[0] == 'B' && "C"[0] == 'C';
    }
    assert NatToDecimal(1) == "1" && NatToDecimal(2) == "2";
    var p1 := AddOption(Page(PollDraft("Lunch", []), "A"));
    var p2 := AddOption(p1.(optionText := "B"));
    assert p2.data.options == [NewOption("1", "A"), NewOption("2", "B")];
    var p3 := DeleteLocal(p2, "1");
    assert Without(p2.data.options, "1") == [NewOption("2", "B")];
    var p4 := AddOption(p3.(optionText := "C"));
    assert p4.data.options[0].id == p4.data.options[1].id;
  }

  /** `addOption` with the id allocated one past the largest id in the draft rather than
      one past its length. */
  function AddOptionFreshId(p: Page): (r: Page)
    ensures IsBlank(p.optionText) ==> r == p
    ensures !IsBlank(p.optionText) ==>
      && r.data.pollTitle == p.data.pollTitle
      && r.data.options == p.data.options + [NewOption(NextOptionId(p.data.options), p.optionText)]
      && r.optionText == ""
  {
    TrimEmptyIffBlank(p.optionText);
    if Trim(p.optionText) != "" then
      var newOption := NewOption(NextOptionId(p.data.options), p.optionText);
      Page(p.data.(options := p.data.options + [newOption]), "")
    else p
  }

  /** The corrected add keeps a draft well formed with unique ids. */
  lemma AddOptionFreshIdKeepsUnique(p: Page)
    requires WellFormedDraft(p.data) && UniqueIds(p.data.options)
    ensures var r := AddOptionFreshId(p).data; WellFormedDraft(r) && UniqueIds(r.options)
  {
    if !IsBlank(p.optionText) {
      AppendNextIdKeepsUnique(p.data.options, p.optionText);
      var r := AddOptionFreshId(p).data;
      assert r.options == p.data.options + [NewOption(NextOptionId(p.data.options), p.optionText)];
      assert Present(p.optionText);
    }
  }

  /** With that allocation, a draft built by adds, deletes and edits never repeats an id. */
  lemma FreshIdEditsKeepUnique(p: Page, optionId: string, prompted: Option<string>)
    requires WellFormedDraft(p.data) && UniqueIds(p.data.options)
    ensures var r := AddOptionFreshId(p).data; WellFormedDraft(r) && UniqueIds(r.options)
    ensures var r := DeleteLocal(p, optionId).data; WellFormedDraft(r) && UniqueIds(r.options)
    ensures var r := EditLocal(p, optionId, prompted).data; WellFormedDraft(r) && UniqueIds(r.options)
  {
    EditsKeepWellFormed(p, optionId, prompted);
    WithoutKeepsUnique(p.data.options, optionId);
    AddOptionFreshIdKeepsUnique(p);
  }
}
