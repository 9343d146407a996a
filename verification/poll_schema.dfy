/** The two record shapes of the poll store and the field rules a save enforces.
    A string field that the request left out is represented by the empty string:
    a `required` String path rejects both. */
module PollSchema {

  /** One choice of a poll. The schema declares no other fields. */
  datatype PollOption = PollOption(id: string, optionName: string, optionCount: nat)

  /** A stored poll: its `_id`, its title and its options in display order.
      There is no stored vote total; the total is derived from the counts. */
  datatype Poll = Poll(id: string, pollTitle: string, options: seq<PollOption>)

  /** What a `required: true` String path accepts: a value, and not the empty string. */
  predicate Present(s: string) {
    s != ""
  }

  /** The count a new option gets when none is given. */
  const DefaultCount: nat := 0

  /** An option record built from an id and a name, the count left to its default. */
  function NewOption(id: string, optionName: string): (o: PollOption)
    ensures o.id == id && o.optionName == optionName && o.optionCount == 0
  {
    PollOption(id, optionName, DefaultCount)
  }

  /** The option rules: `id` and `optionName` are required. */
  predicate ValidOption(o: PollOption) {
    Present(o.id) && Present(o.optionName)
  }

  /** The poll rules: `_id` and `pollTitle` are required, and every option obeys the option rules. */
  predicate ValidPoll(p: Poll)
    ensures ValidPoll(p) <==>
      p.id != "" && p.pollTitle != "" && forall o :: o in p.options ==> o.id != "" && o.optionName != ""
  {
    && Present(p.id)
    && Present(p.pollTitle)
    && forall i :: 0 <= i < |p.options| ==> ValidOption(p.options[i])
  }

  /** A poll with an option that lacks its name cannot be saved. */
  lemma NamelessOptionRejected(p: Poll, i: nat)
    requires i < |p.options| && p.options[i].optionName == ""
    ensures !ValidPoll(p)
  {
  }

  /** A poll with an option that lacks its id cannot be saved. */
  lemma IdlessOptionRejected(p: Poll, i: nat)
    requires i < |p.options| && p.options[i].id == ""
    ensures !ValidPoll(p)
  {
  }

  /** A new option is savable exactly when it has an id and a name. */
  lemma NewOptionValid(id: string, optionName: string)
    ensures ValidOption(NewOption(id, optionName)) <==> id != "" && optionName != ""
  {
  }

  /** Appending savable options to a savable poll keeps it savable, and only then. */
  lemma ValidPollAppend(p: Poll, more: seq<PollOption>)
    requires ValidPoll(p)
    ensures ValidPoll(p.(options := p.options + more))
        <==> forall i :: 0 <= i < |more| ==> ValidOption(more[i])
  {
    var q := p.(options := p.options + more);
    if forall i :: 0 <= i < |more| ==> ValidOption(more[i]) {
      forall i | 0 <= i < |q.options| ensures ValidOption(q.options[i]) {
        if i >= |p.options| { assert q.options[i] == more[i - |p.options|]; }
      }
    } else {
      var i :| 0 <= i < |more| && !ValidOption(more[i]);
      assert q.options[|p.options| + i] == more[i];
    }
  }
}
