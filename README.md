# Swimsuit-election vote bot: a verified Dafny model

This project models the core of `vote_bot.py`, a Discord bot that runs a
swimsuit "general election". The bot shows a paged panel with one page per
category. Each page has one vote button per option, "◀"/"▶" buttons to
change page, and a "残り票" (remaining votes) button. Every user may cast
as many votes in total as their quota allows, and an operator sets the
quota with `!setlimit`. `!result_category` posts the per-category tally.

The model covers:

- **the catalog** (`Catalog`): the five categories and their options, in
  declaration order;
- **vote keys** (`VoteKeys`): the `category:option` key a vote is stored
  under, and how the tally splits it again at the first `:` (a key with no
  `:` goes to `未分類`);
- **vote accounting** (`Accounting`): the vote button's quota check and
  increment, the remaining-votes count and `setlimit`. The two JSON
  documents are the fields of the class `VoteStores`. The pure functions
  `RecordVote`, `Remaining` and `SetLimit` specify the class's methods;
- **the tally** (`Tally`): `result_category`'s three loops as methods. They
  are proved equal to folds over the votes document. Lemmas state what the
  report holds: per-key sums over users, grouping by category, and each
  category sorted by descending count with ties kept in order;
- **the panel** (`Panel`): `VoteView.create_buttons` as a loop over the
  page's options, the "◀"/"▶" handlers, and page navigation;
- **dictionaries** (`Dicts`): Python's insertion-ordered `dict`, as a
  sequence of entries with distinct keys. Assigning to a present key
  replaces its value in place. Assigning to an absent key appends it.
  The tally's category order and its tie order depend on this insertion
  order.

## Model

| member | source | states |
|---|---|---|
| Catalog.OptionsOfAt | vote_bot.py:13-38 | the i-th category name is the i-th catalog key, and looking it up gives exactly the i-th option list |
| Catalog.CatalogShape | vote_bot.py:13-38 | the catalog has five distinct categories, and no category name contains `:` |
| VoteKeys.MakeKey | vote_bot.py:96 | the key is the category, one `:`, then the option |
| VoteKeys.FirstSeparator | vote_bot.py:182-183 | the index of the first `:`, or the length when there is none; no `:` comes before it |
| VoteKeys.SplitMakeKey | vote_bot.py:182-183 | splitting a key built from a `:`-free category gives back the category and the option |
| VoteKeys.SplitThenMake | vote_bot.py:182-183 | a key with a `:` is rebuilt exactly from its split, and the category part has no `:` |
| VoteKeys.SplitWithoutSeparator | vote_bot.py:184-186 | a key without `:` is reported as option `key` of category `未分類` |
| VoteKeys.SplitInjective | vote_bot.py:182-183 | two keys that contain `:` and split alike are the same key |
| VoteKeys.SplitCollision | vote_bot.py:182-186 | a `:`-free key `x` and the key `未分類:x` differ, but both split to (`未分類`, `x`) |
| Dicts.GetFound | vote_bot.py:85 | `get` finds a key exactly when the key is in the dictionary |
| Dicts.PutGet | vote_bot.py:99 | after `d[k] = v`, `k` holds `v` and every other key keeps its value |
| Dicts.PutKeys | vote_bot.py:160 | `d[k] = v` keeps the key order, and appends `k` when it is new |
| Dicts.PutValid | vote_bot.py:99 | assignment never creates a duplicate key |
| Dicts.SumPut | vote_bot.py:90 | assignment changes `sum(d.values())` by the new value minus the old one, with an absent key counting as 0 |
| Dicts.PutPut | vote_bot.py:98-99 | assigning a key twice equals assigning its second value once |
| Accounting.Remaining | vote_bot.py:133-148 | the remaining count is an error exactly when the user has no limit, and that error is "limit unset" |
| Accounting.VoteRejected | vote_bot.py:85-94 | a vote is refused as "limit unset" exactly when the user has no limit, and as "limit exceeded" exactly when they have one and `total + 1 > limit` |
| Accounting.SetDefaultThenIncrement | vote_bot.py:98-99 | `setdefault` followed by the increment gives the accepted vote's ledger |
| Accounting.AddOneCounts | vote_bot.py:99 | the key's count rises by one, from 0 when absent; other keys are unchanged; the counts stay a well-formed dictionary |
| Accounting.AddOneSum | vote_bot.py:99 | the user's total rises by exactly one |
| Accounting.PutUser | vote_bot.py:98-99 | replacing one user's counts keeps the ledger valid and leaves every other user's counts as they were |
| Accounting.VoteRecorded | vote_bot.py:80-100 | an accepted vote adds exactly one to `category:option`; it creates the user and the key when absent; it leaves other keys and users unchanged; the new total is the old one plus one and at most the limit |
| Accounting.VoteKeepsLedgerValid | vote_bot.py:98-99 | an accepted vote keeps both levels of the ledger well formed |
| Accounting.VoteKeepsKeysSeparated | vote_bot.py:96-99 | an accepted vote only adds `category:option` keys, so a ledger whose keys all contain `:` keeps that property |
| Accounting.VotePreservesQuota | vote_bot.py:92-99 | if every user was within their limit before an accepted vote, every user is within it after |
| Accounting.RemainingAgreesWithVote | vote_bot.py:142-146 | remaining equals limit minus total, unclamped; it is at least 0 while within the limit; it is at least 1 exactly when a vote would be accepted |
| Accounting.VoteConsumesOne | vote_bot.py:96-100 | each accepted vote lowers the remaining count by exactly one |
| Accounting.SetLimitUpserts | vote_bot.py:158-161 | `setlimit` stores exactly that user's limit and changes no other user's; the key order is kept or the user is appended; any integer is stored |
| Accounting.LoweredLimitBlocksVotes | vote_bot.py:92-94 | a limit lowered below the votes already cast refuses further votes, and remaining goes negative |
| Accounting.QuotaOfThree | vote_bot.py:80-100 | with limit 3, three votes are accepted, none remain, the fourth vote is refused, and lowering the limit keeps the three votes cast |
| Accounting.VoteStores.constructor | vote_bot.py:40-43 | both documents start empty |
| Accounting.VoteStores.Vote | vote_bot.py:80-100 | refuses exactly as `RecordVote` does and then leaves the votes unchanged; otherwise the votes become `RecordVote`'s ledger; limits never change; the ledger stays well formed |
| Accounting.VoteStores.RemainingVotes | vote_bot.py:133-148 | returns `Remaining` of the current documents and changes nothing |
| Accounting.VoteStores.SetUserLimit | vote_bot.py:158-161 | the limits become `SetLimit` of the old limits; the votes are unchanged |
| Tally.AddEntriesSum | vote_bot.py:175-176 | summing entries adds each entry's count to its key; the keys become the union of both dictionaries' keys |
| Tally.AddEntriesValid | vote_bot.py:175-176 | summing never creates a duplicate key |
| Tally.CountForValid | vote_bot.py:175 | in a well-formed dictionary, the entries for a key contribute exactly its one count |
| Tally.TotalsSum | vote_bot.py:173-176 | the total holds exactly the keys some user voted for; each key's value is the sum over users of their count for it; no key appears twice |
| Tally.LedgerEntriesValid | vote_bot.py:174-175 | in a well-formed ledger, each user's counts are a well-formed dictionary |
| Tally.SetDefaultThenAssign | vote_bot.py:188-191 | creating the category when it is new and then assigning the option equals one grouping step |
| Tally.GroupGet | vote_bot.py:179-191 | a category's option gets the count of the last key that splits to that category and option; a category is present exactly when some key splits into it |
| Tally.GroupValid | vote_bot.py:179-191 | grouping gives well-formed dictionaries at both levels |
| Tally.SeparatedLookup | vote_bot.py:181-191 | when every key contains `:`, the option a category lists holds exactly the count of key `category:option` |
| Tally.InsertPermutes | vote_bot.py:199-203 | inserting adds exactly one line |
| Tally.InsertStable | vote_bot.py:199-203 | the inserted line comes first among lines with its count |
| Tally.InsertOrdered | vote_bot.py:199-203 | inserting keeps counts non-increasing |
| Tally.SortDescSorted | vote_bot.py:199-203 | the sort orders counts non-increasingly; it is a permutation; lines with equal counts keep their order |
| Tally.WithCountMember | vote_bot.py:199-203 | a line selected by count is in the list and has that count |
| Tally.WithCountEmpty | vote_bot.py:199-203 | a list has no line of any count exactly when it is empty |
| Tally.HeadsAgree | vote_bot.py:199-203 | two ordered lists that agree on each count's lines begin with the same line |
| Tally.StableSortUnique | vote_bot.py:199-203 | two lists ordered by non-increasing count that agree, for every count, on that count's lines in order are equal |
| Tally.SortDescIsStableSort | vote_bot.py:199-203 | any stable descending ordering of the lines equals `SortDesc` |
| Tally.InIffGet | vote_bot.py:200 | in a well-formed dictionary, an (option, count) item is present exactly when lookup gives that count |
| Tally.SectionLines | vote_bot.py:196-206 | a report section lists (option, n) exactly when that category's group maps the option to n |
| Tally.TallyReportsSums | vote_bot.py:165-210 | for `category:option` keys, the report lists the option under its category with count n exactly when some user voted for it and n is the sum of all users' votes for it |
| Tally.TallyShape | vote_bot.py:179-206 | each section's counts are non-increasing, and no category has two sections |
| Tally.CollisionTotals | vote_bot.py:173-176 | the keys `x` and `未分類:x` stay apart in the total |
| Tally.CollisionGroup | vote_bot.py:181-191 | grouping files both keys under one line of `未分類`, and the later count replaces the earlier one |
| Tally.UnclassifiedCollision | vote_bot.py:165-206 | a user's votes for `x` and for `未分類:x` show as a single line of `未分類` carrying the second count |
| Tally.UsersWithoutVotes | vote_bot.py:168-210 | a ledger whose users have no votes gives an empty report, not "no votes" |
| Tally.SumVotes | vote_bot.py:173-176 | the summing loop computes `Totals` |
| Tally.GroupTotals | vote_bot.py:179-191 | the grouping loop computes `Group` |
| Tally.BuildSections | vote_bot.py:196-208 | the message loop gives one section per category, in order, each sorted |
| Tally.ResultCategory | vote_bot.py:165-210 | the report is `Tally` of the votes, and it is "no votes" exactly when the votes document is empty |
| Panel.LayoutContents | vote_bot.py:64-72 | the vote controls come first and there are no others; Prev and Next appear exactly when asked for; the one Remaining control is last |
| Panel.PanelContents | vote_bot.py:59-72 | a page lists its category's options in catalog order; it has Prev exactly when page > 0 and Next exactly when page < 4; Remaining appears once, last |
| Panel.PanelVoteKeys | vote_bot.py:64-65 | each vote control belongs to the page's category and options, and its key splits back to the same category and option |
| Panel.PressTurns | vote_bot.py:67-70 | Prev moves back one page and Next forward one, each only where the page offers it |
| Panel.PressInRange | vote_bot.py:67-70 | any press that can happen leaves the view on an existing page |
| Panel.WalkInRange | vote_bot.py:67-70 | every sequence of presses that can happen ends on an existing page |
| Panel.NextThenPrev | vote_bot.py:111-127 | Next then Prev returns to the starting page |
| Panel.PrevThenNext | vote_bot.py:111-127 | Prev then Next returns to the starting page |
| Panel.NextsReach | vote_bot.py:122-123 | pressing Next n times from a page reaches the page n further on, when it exists |
| Panel.EveryPageReachable | vote_bot.py:150-155 | every page can be reached from the first page that `startvote` shows |
| Panel.VoteView.constructor | vote_bot.py:54-57 | the view is on the requested page and shows exactly that page's controls |
| Panel.VoteView.CreateButtons | vote_bot.py:59-72 | the controls become exactly the page's panel |
| Panel.VoteView.OnPrev | vote_bot.py:111-116 | a fresh view of the previous page, the one that pressing Prev shows |
| Panel.VoteView.OnNext | vote_bot.py:122-127 | a fresh view of the next page, the one that pressing Next shows |
| Panel.StartVote | vote_bot.py:150-155 | a fresh view of the first page |

## Left out

- The Discord runtime is not modelled: the bot, intents, interactions, message sending and editing, and button styles. Handlers return an outcome (`Result`, `Report`, a new `VoteView`) instead of sending text.
- The exact message texts and the report's string layout are not modelled. The report is the list of sections and their (option, count) lines, in message order.
- JSON file I/O is not modelled: creating the files, `load_json` and `save_json`. Each handler reads the documents and writes them back whole, so the documents are the fields of `VoteStores`, which the methods read and replace.
- Concurrent interactions that interleave their loads and saves are not modelled, and neither are lost updates from them.
- Only integer values in the documents are modelled. The bot only ever writes integers; hand-edited JSON could hold other values.
- The user id is a string parameter. Converting Discord member and user ids to strings is not modelled.
- The button label truncation `option[:20]` is display only, and the vote uses the full option, so it is not modelled.
- The "◀"/"▶" handlers' message text `CATEGORY_NAMES[page ± 1]` is not modelled. Only the new view is.
- `!result_category` walks `for user in votes` and reads `votes[user]`. The model walks the ledger's entries, which is the same thing for a dictionary with distinct keys.
- Panel.VoteView.constructor: requires 0 <= page < 5. Python would index from the end for a negative page and raise `IndexError` past the last page. No caller can pass such a page (`Panel.WalkInRange`, `Panel.EveryPageReachable`), because Prev only exists when page > 0 and Next only when page < 4.
- Tally.TallyReportsSums: covers ledgers whose keys all contain `:`, which includes every key the vote button creates (`Accounting.VoteKeepsKeysSeparated` proves that votes keep this property). Keys without `:` can only come from hand-edited data. For those, `Tally.GroupGet` gives the exact result: the last key that splits to a category and option wins. `Tally.UnclassifiedCollision` shows a case where a count is replaced.
