# Online voting poll: the poll store, the vote ledger and the page-side list transforms

This project models the logic of a small group-polling web application. A creator
defines a poll with a title and options. The server stores it, and visitors vote once
each, deduplicated by IP address. The model has two sides.

- **Server** (`server.dfy`, module `Server`). The REST handlers are methods of a `Store`
  class. The class holds the poll collection (a map from `_id` to `Poll`) and the vote
  ledger (a sequence of `(ip, pollId, optionId)` records). The handlers cover create,
  read (with the derived total and `hasVoted`), vote, rename option, delete option, add
  option and end poll. Each returns its HTTP status as a `Status` value and states the
  new store. Every handler keeps `Store.Valid()`: each stored poll passes the schema
  rules and is filed under its own `_id`, and the ledger holds at most one record per
  (ip, poll) pair. `Server.Lifecycle` chains the handlers' contracts: create,
  read with total 0, vote with total 1, a repeat vote refused, end, read 404, end 404.
- **Schema** (`poll_schema.dfy`, module `PollSchema`). The `PollOption` and `Poll`
  records, with the `required` rules that a save enforces.
- **Shared list transforms** (`option_lists.dfy`, module `OptionLists`). These are:
  - the vote total;
  - lookup, filter, first-match update and all-matches update by option id;
  - the "max numeric id + 1" allocation of the add-option handler.

  Option ids are never assumed unique. Each transform says whether it acts on the
  first match or on all matches, as the code does.
- **Pages** (`start_page.dfy`, `voting_page.dfy`, `link_page.dfy`). The pure state
  updates of the React pages, as functions on option lists:
  - the draft editing and the title guard of the creation page;
  - the vote selection guard and the optimistic count of the voting page;
  - the delete filter, the request guards and the "highest votes" choice of the owner's page.
- **JavaScript primitives** (`js_text.dfy`, module `JsText`). `trim`, `parseInt` on
  ids, and the decimal `toString` of non-negative integers.

Representation choices:
- A string field that a request leaves out is represented by `""`. Mongoose's
  `required` check on a String path rejects both the missing value and the empty string.
- The IP address and the generated ObjectIds are opaque strings given as parameters.
- The creation page numbers its options with JavaScript numbers. The model holds them
  as the decimal strings the store casts them to, so equality is unchanged.

Some of the code's behaviour may surprise a reader; the model follows the code:
- The "Highest Votes" `reduce` keeps the running choice only while it is strictly
  ahead, so a tie goes to the **later** option, not the first one
  (`LinkPage.TieGoesToLater`).
- Option ids are not unique. The store accepts client ids unchecked, and the creation
  page can repeat an id (see Findings).
- The vote total is not a stored field. The `totalVotes` increment in the vote handler
  names a path the schema does not declare, so the total is the derived sum.
- The rename handler's 400 answers come from blank ids only. A missing new name gets
  through to the save, and the schema refuses it there with a 500.

## Model

| member | source | states |
|---|---|---|
| `JsText.Trim` | backend/Server.js:258 | `s.trim()`: at most as long as `s`, and a non-empty result neither starts nor ends with whitespace |
| `JsText.TrimCut` | backend/Server.js:258 | `s.trim()` is a contiguous middle part of `s`, and everything cut off before and after it is whitespace |
| `JsText.TrimEmptyIffBlank` | backend/Server.js:258 | `s.trim() === ''` holds exactly when every character of `s` is whitespace |
| `JsText.ParseInt` | backend/Server.js:271 | `parseInt(id)` is NaN exactly when the id does not start with a digit; otherwise it is the value of the longest run of leading digits |
| `JsText.NatToDecimal` | backend/Server.js:274 | `(n).toString()` of a non-negative integer is the canonical numeral: a non-empty string of decimal digits with no leading zero (it starts with `0` only for 0), one digit exactly below 10 |
| `JsText.ParseIntOfNumeral` | backend/Server.js:271 | `parseInt` of a decimal numeral is its decimal value |
| `JsText.ParseIntNatToDecimal` | backend/Server.js:271-274 | `parseInt` reads back exactly the id that `(n).toString()` wrote |
| `JsText.NatToDecimalInjective` | backend/Server.js:274 | different numbers give different id strings |
| `PollSchema.ValidPoll` | backend/poll.js:4-30 | a poll passes the schema exactly when its `_id` and `pollTitle` are non-empty and every option has a non-empty `id` and `optionName` |
| `PollSchema.NewOption` | backend/poll.js:13-16 | an option built without a count has count 0, with the given id and name |
| `PollSchema.IdlessOptionRejected` | backend/poll.js:5-8 | a poll holding an option without an id fails validation |
| `PollSchema.NamelessOptionRejected` | backend/poll.js:9-12 | a poll holding an option without a name fails validation |
| `PollSchema.NewOptionValid` | backend/poll.js:4-17 | a new option passes validation exactly when it has both an id and a name |
| `PollSchema.ValidPollAppend` | backend/poll.js:20-30 | appending options to a valid poll keeps it valid exactly when every appended option is valid |
| `OptionLists.Total` | src/VotingPg.js:15-17 | the sum of counts is 0 exactly when every count is 0 (so 0 for an empty list) |
| `OptionLists.TotalAppend` | backend/Server.js:66 | the total of two lists joined is the sum of their totals |
| `OptionLists.TotalUpdate` | backend/Server.js:66 | replacing one option changes the total by the difference of the two counts |
| `OptionLists.CountId` | src/VotingPg.js:80-87 | the number of options carrying an id is positive exactly when some option carries it |
| `OptionLists.FindIndex` | backend/Server.js:177 | no result exactly when no option carries the id; otherwise the index of the first option carrying it |
| `OptionLists.Without` | backend/Server.js:216 | the filter drops exactly the options with the id: length falls by their number and no kept option carries it |
| `OptionLists.WithoutConcat` | src/StartPage.js:67 | the filter keeps the order: it distributes over concatenation |
| `OptionLists.WithoutAbsent` | backend/Server.js:216-220 | filtering out an id that no option carries returns the list unchanged |
| `OptionLists.WithoutShortensIff` | backend/Server.js:214-220 | the filtered list is as long as before exactly when no option carries the id, and is then the same list |
| `OptionLists.WithoutIdempotent` | src/LinkGeneratingPage.js:36 | filtering the same id twice is filtering once |
| `OptionLists.WithoutKeepsUnique` | src/StartPage.js:67 | filtering keeps ids unique |
| `OptionLists.Bump` | backend/Server.js:112 | one more vote: the count rises by 1, the id and name are kept |
| `OptionLists.Renamed` | backend/Server.js:182 | a rename keeps the id and the count |
| `OptionLists.MapFirst` | backend/Server.js:109-115 | only the first option carrying the id is updated, every other position is kept; with no match the list is unchanged |
| `OptionLists.MapAll` | src/VotingPg.js:72-76 | exactly the options carrying the id are updated, the others are kept, in place |
| `OptionLists.TotalBumpFirst` | backend/Server.js:109-115 | a vote for an id some option carries raises the total by exactly 1 |
| `OptionLists.TotalBumpAll` | src/VotingPg.js:80-87 | bumping every option with the id raises the total by the number of such options |
| `OptionLists.MapAllUniqueIsMapFirst` | src/VotingPg.js:71-77 | when ids are unique, updating all matches is the same as updating the first |
| `OptionLists.UniqueCountOne` | src/VotingPg.js:80-87 | when ids are unique, an id that occurs occurs exactly once |
| `OptionLists.JsMax` | backend/Server.js:271 | `Math.max(a, b)` is NaN exactly when either side is NaN; otherwise it is one of the two and at least both |
| `OptionLists.MaxParsedId` | backend/Server.js:271 | `Math.max` over the parsed ids of a non-empty list is NaN exactly when some id parses to NaN; otherwise it is some option's parsed id and at least every parsed id |
| `OptionLists.NextOptionId` | backend/Server.js:268-274 | the new id is "NaN" exactly when some id parses to NaN. Otherwise it is a numeral, it parses to 1 for an empty list, it parses above every existing id, and no option carries it |
| `OptionLists.MaxParsedIdNumeric` | backend/Server.js:269-272 | when all ids are numerals, `Math.max` of the parsed ids is finite, is reached by some id and bounds every id |
| `OptionLists.NextOptionIdFresh` | backend/Server.js:268-274 | when all ids are numerals, the new id is the string `"1"` for an empty list, otherwise the canonical numeral of one past the largest parsed id. It parses above every existing id and so is carried by no option |
| `OptionLists.AppendNextIdKeepsUnique` | backend/Server.js:277-281 | appending an option under the allocated id keeps numeric ids numeric and unique |
| `Server.FormatOptions` | backend/Server.js:41-45 | new options keep the input order and names, keep a supplied id and take a generated one otherwise, and start at count 0, so the total is 0 |
| `Server.HasVoted` | backend/Server.js:103 | the ledger query `Vote.findOne({ ip, pollId })` (and `Vote.exists` at line 70): the ledger holds a record with this ip and this poll id |
| `Server.AppendVoteKeepsOnePerVoter` | backend/Server.js:103-123 | appending a vote keeps one record per (ip, poll) exactly when that ip had not voted in that poll |
| `Server.Store.Save` | backend/Server.js:48 | a save succeeds exactly when the poll passes the schema rules and, for a new poll, its `_id` is free; it then writes that poll and nothing else |
| `Server.Store.CreatePoll` | backend/Server.js:31-54 | 400 and nothing stored for a missing or empty options array. Otherwise one new poll with the formatted options is stored under the new id (201), or nothing is stored when the schema refuses it (500). Its total is 0; the ledger is untouched |
| `Server.Store.ReadPoll` | backend/Server.js:57-82 | 404 exactly when the poll is absent. Otherwise 200 with its title and options, the derived total, and `hasVoted`, which uses the same ledger test as the vote handler |
| `Server.Store.CastVote` | backend/Server.js:87-135 | 400 for a missing id or a repeat voter; 404 when the poll or option is absent; on error store and ledger are unchanged. On success only the first matching option gains 1, all other options and polls are kept, the record is appended, and the total rises by exactly 1. A repeat vote is then refused |
| `Server.Store.EditOption` | backend/Server.js:158-190 | 400 for a blank poll or option id; 404 when the poll or option is absent; 500 when the new name is missing. Otherwise only the first matching option is renamed, keeping ids, counts and order |
| `Server.Store.DeleteOption` | backend/Server.js:196-228 | 400 for a blank poll id. 404 and nothing saved when the poll is absent or no option matches. Otherwise every matching option is dropped and the rest are kept in order |
| `Server.Store.AddOption` | backend/Server.js:253-292 | 400 for a blank name; 404 for an absent poll. Otherwise one option is appended at the end with the allocated id and count 0, the existing options untouched |
| `Server.Store.EndPoll` | backend/Server.js:295-307 | removes exactly that poll (200) or reports 404 when it is absent; the ledger is unchanged and the poll is gone afterwards |
| `StartPage.AddOption` | src/StartPage.js:14-27 | a blank input changes nothing. Otherwise one option is appended at the end with id length + 1, the given name and count 0, and the input is cleared |
| `StartPage.DeleteLocal` | src/StartPage.js:63-69 | every option with the id is dropped, the others are kept, the title and input untouched |
| `StartPage.EditLocal` | src/StartPage.js:72-83 | a cancelled or empty prompt changes nothing. Otherwise exactly the options with the id get the new name, with ids, counts and order kept |
| `StartPage.Submit` | src/StartPage.js:30-34 | nothing is sent exactly when the title is empty; otherwise the draft itself is sent |
| `StartPage.RequestOptions` | src/StartPage.js:39-45 | the request carries each draft option's id and name, in order |
| `StartPage.EditsKeepWellFormed` | src/StartPage.js:14-83 | add, delete and edit keep every draft option with a numeric id, a name and count 0 |
| `StartPage.CreateStoresDraft` | backend/Server.js:41-45 | the create handler stores a well-formed draft's options exactly as the page built them |
| `StartPage.AddAfterDeleteRepeatsId` | src/StartPage.js:17 | add, add, delete id 1, add leaves two options with id "2" |
| `StartPage.AddOptionFreshId` | src/StartPage.js:14-27 | the same guard and append, with the id allocated one past the largest id |
| `StartPage.FreshIdEditsKeepUnique` | src/StartPage.js:17 | with that allocation, add, delete and edit keep the draft's ids unique |
| `VotingPage.Load` | src/VotingPg.js:29-36 | the page shows the fetched options and `hasVoted`, and a total equal to the sum of the counts shown |
| `VotingPage.LoadAgreesWithServer` | src/VotingPg.js:21-40 | the page's read through the read handler: a failed read leaves the page as it was; otherwise the page shows the stored options, its total is the stored poll's total, and `hasVoted` follows the store's ledger |
| `VotingPage.SelectOption` | src/VotingPg.js:47-51 | once `hasVoted` is true, selecting has no effect; before that, only the selection changes |
| `VotingPage.SubmitVote` | src/VotingPg.js:54-97 | nothing is sent without a selection, and any other reply leaves the page unchanged. On the success message, `hasVoted` becomes true, exactly the options with the selected id gain 1, and the total becomes the old sum plus their number |
| `VotingPage.AcceptedVoteTotal` | src/VotingPg.js:80-87 | after an accepted vote the page stays consistent and its total rises by the number of options with the selected id, which is 1 when ids are unique |
| `VotingPage.OptimisticMatchesStore` | src/VotingPg.js:71-77 | when ids are unique, the page's counts after the vote are the counts the vote handler stores |
| `LinkPage.DeleteLocal` | src/LinkGeneratingPage.js:31-41 | every option with the id is dropped from the local list, the others are kept |
| `LinkPage.EditRequest` | src/LinkGeneratingPage.js:43-59 | nothing is sent exactly when the prompt was cancelled or empty; otherwise the prompted name is sent |
| `LinkPage.AddOptionRequest` | src/LinkGeneratingPage.js:74-78 | a blank name is refused before any request, which is the same test as the server's 400 |
| `LinkPage.MaxCount` | src/LinkGeneratingPage.js:294 | the largest count is some option's count and bounds every count |
| `LinkPage.IsHighest` | src/LinkGeneratingPage.js:294 | a marked option has a count that no option exceeds and that some option of the list has |
| `LinkPage.IsHighestIff` | src/LinkGeneratingPage.js:294 | an option is marked highest exactly when no option has more votes |
| `LinkPage.HighestIndex` | src/LinkGeneratingPage.js:303-304 | the `reduce` picks an option with a maximal count, and every later option has strictly fewer votes |
| `LinkPage.HighestVotes` | src/LinkGeneratingPage.js:303-304 | the option shown under "Highest Votes" is an option of the list, and no option has more votes |
| `LinkPage.HighestVotesIsLastMarked` | src/LinkGeneratingPage.js:303-304 | the option shown under "Highest Votes" is marked highest, and no later option is |
| `LinkPage.TieGoesToLater` | src/LinkGeneratingPage.js:303-304 | of two options tied for the most votes, the earlier one is never shown |

## Left out

- Database and server plumbing: the connection, Express routing, `listen`, the unused
  socket.io server, CORS and the IP middleware (backend/Server.js:13-28, 311). The store
  is an in-memory map and sequence, and the IP is a parameter.
- ObjectId generation (backend/Server.js:39, 42) is given as parameters: `newPollId` and
  the per-position `objectIds`.
- Concurrency: each handler is one atomic step. The race between the duplicate check and
  the ledger insert (backend/Server.js:103, 122-123) is not modelled. With atomic steps,
  the model proves the ledger never holds two records for one (ip, poll) pair.
- The second and third `GET /api/polls/:pollId` handlers (backend/Server.js:139-155,
  231-250) are never reached, because the first one always answers.
- The `totalVotes` increment (backend/Server.js:112) targets an undeclared path. The
  total is the derived sum.
- Storage failures other than the schema check and a taken `_id` on insert (network,
  server errors), and the `TypeError` of a `null` entry in the options array, all end in
  a 500 and are not modelled.
- Type checks on request bodies are not modelled. Strings stand for fields, and JSON
  numbers or other non-string values cast to strings are not modelled (`typeof optionName`
  at backend/Server.js:258, and a falsy non-string option id such as `0`).
- `OptionLists.NextOptionIdFresh`: proved only when every id is a decimal numeral, as the
  creation page produces them. `parseInt` is modelled as reading leading decimal digits
  (NaN when there are none). Leading whitespace, signs, the `0x` prefix, precision above
  2^53 and exponent notation from `toString` are not modelled.
- Vote percentages (src/VotingPg.js:111) are floating point.
- Browser I/O is not modelled: rendering, animation, the QR code and its download,
  `prompt`, `alert`, `confirm`, `window.location` and the `fetch` calls themselves. The
  prompt's answer and the server's reply message are parameters. On the owner's page, the
  reload after an add and the replacement of the poll by the server's reply after an edit
  are not modelled. The owner's delete filters the local list whatever the server
  answers, and only the filter is modelled.
- The voting page computes the new total from the rendered `options` rather than the
  updater's `prevOptions`, and the creation page's `addOption` computes the new id from
  the rendered `data.options.length` but appends to the updater's `prevData.options`
  (src/StartPage.js:17, 21-24). In a sequential model the two are the same list.
- `Math.max` over an empty list (`-Infinity`) is not modelled: `isHighest` is only
  evaluated for options of a non-empty list.
- `LinkPage.HighestVotes`: defined for non-empty lists only. On an empty list the
  `reduce` without an initial value (src/LinkGeneratingPage.js:303-304) throws a
  `TypeError` while the results render, and that crash is not modelled. A user can reach
  it: `Server.Store.DeleteOption` can remove a poll's last option, the schema accepts a
  poll with no options, and the owner's page renders that case
  (src/LinkGeneratingPage.js:232-235) before "See Results" is clicked.
- src/index.js (routing) and src/Heading.js (animated text) are not part of this model.

## Findings

| source | as written | input that shows it | evidently intended | confidence | as-written member | corrected member |
|---|---|---|---|---|---|---|
| src/StartPage.js:17 | a new option's id is `options.length + 1` | add "A", add "B", delete id 1, add "C": the draft holds two options with id 2, so a later delete or edit by id hits both | ids unique within the draft, for example one past the largest id, as the add-option handler allocates | high (not executed) | `StartPage.AddAfterDeleteRepeatsId` | `StartPage.AddOptionFreshId` |
