# Bank API monitor: a Dafny model

The service downloads the API documentation of several banks, stores a snapshot of each, compares it with the
one before and shows the differences on a dashboard, in a history and in Telegram. This project models the parts of
it that carry state or recursion, and proves what they are for.

| modules | what they model |
|---|---|
| `Diff`, `DiffLaws`, `DiffExact`, `DiffKeys`, `DiffOrder` | the comparison of two snapshots, with methods that become hidden or visible |
| `ServiceReplay` | what the public service changes tell of the visible services |
| `FieldText`, `FieldReaders` | field changes as sets, as the stored text, and as the history page and the digest read that text |
| `Snapshot`, `Tables`, `StoreViews`, `Store` | the parsed snapshot, the tables with their cascades, and the import as methods of a class |
| `History`, `ImportLaws` | whole runs of imports: what is accepted, kept and returned, what the stored changes say, how the visible surface may shrink |
| `Json`, `Refs`, `ExternalRefs`, `SpecParser` | JSON pointers (RFC 6901 sections 3 and 4), references between documents (OpenAPI 3.0.3 section 4.7.23), the parser object with its download cache |
| `FieldWalk`, `FieldListing`, `Inlining`, `PlainInlining`, `RefChains`, `GuardedWalk` | field extraction: which fields are listed, shape of the list, independence of references, where full replacement differs, termination by the cycle guard alone |
| `ExampleWalk`, `ExampleTypes`, `ExampleMerge`, `GuardedExample` | example generation: types, completeness, combinators, termination |
| `Packing`, `DigestLines` | splitting a digest into messages, and the lines in them |
| `Limiter` | the login limiter and the login step that drives it |
| `Rotator` | round robin over proxies with a cooldown |
| `Runner`, `RunnerLaws` | one run over the banks and its failure and recovery alerts |
| `LogConsole`, `ConsoleSteps`, `LateAnswers` | the event log, its paged query, the console's window on it, and answers that come late |
| `AlfaTree`, `AlfaMerge`, `AlfaMergeLaws`, `AlfaDetails` | the article tree of one portal and its three deduplicating passes |
| `Ordering`, `Text`, `Common` | sorted listings of sets, splitting and joining of text, `Option` |

How it is written. Where the source changes something step by step there is a class or a method with a loop, and its
`ensures` ties the new state to a function of the old one; the laws are lemmas about these functions, over all
inputs or all runs. `Store.Database.ImportSnapshot` refines `History.Step`, so every law of `History` is one of the tables.

Assumptions. Rows come back in insertion order: the queries have no ORDER BY (app/repository.py:57-69), and which of
two methods with one key is compared depends on it. A transaction is one step that rolls back its rows but not
the serial counters. Clock readings are real numbers handed in. The documents a specification can reach are a finite
`World`: what can be downloaded and parsed, and where the file part of a reference leads from a given document.

What the proofs show to be different from what one would expect:

- A field change is stored as text. Field lists in which no name contains a comma, a blank and the mark in a row are
  determined by their text (`FieldText.TextTellsNames`); with such a name two lists can share one text
  (`FieldText.SeparatorMakesTextAmbiguous`). Both readers of the text split at every comma and strip blanks: the
  history page tells the edit exactly when no changed field holds a comma or ends in a blank
  (`FieldReaders.PageTellsEditIff`), the digest exactly when moreover no removed field begins with a dash
  (`FieldReaders.DigestTellsEditIff`).
- The code never follows a reference that its target carries; it walks the target's other keys instead. Replacing every
  reference by its target less such a reference leaves the field list alone (`PlainInlining.PlainInliningKeepsFields`;
  in cyclic and external documents too, `Inlining.InliningKeepsFields`). Putting the schema at the end of a chain of
  references in its place does not (`RefChains.TwoLinksDiffer`). Where those other keys or that schema list nothing, it
  keeps the list exactly when both do: when no property is reached through combinators and arrays within the depth
  limit and nothing raises (`RefChains.RefChainIff`, `RefChains.NothingListedIff`).
- The public service changes of an import lead from the old visible services to the new ones exactly when no service
  of both snapshots becomes hidden, or visible, as a whole (`ServiceReplay.ServicesReplayIff`); a service whose only
  method becomes hidden is a witness (`ServiceReplay.HiddenServiceStays`). Method keys have no such exception.
- The answer to "show more" keeps the console gap-free exactly when the oldest event shown is still the one the request
  was made for (`LateAnswers.LateAnswerIff`). The handler does not check this, and a refresh that starts over in between
  changes it.
- Beyond the depth limit an object with properties is replaced by `{}`, so an example has every declared key exactly
  when no such object lies there (`ExampleTypes.ExamplesValidate`); objects nested more than thirteen deep have
  incomplete examples (`ExampleTypes.DeepExampleIsIncomplete`).
- A message piece longer than the limit is cut. Pieces with a text are packed without loss exactly when each of them
  fits into a message (`Packing.LosslessIffAllFit`).
- A failed import whose public error text is empty counts as a success (`Runner.EmptyErrorPasses`).
- The limiter keeps no empty or outdated entry exactly when its limit and window are positive (`Limiter.TidyNeedsLimitAndWindow`).
- Stripping "/api" is not idempotent. Stored paths stay unique all the same, but two merged methods can share a
  `_method_key`, exactly when one article's stored path is "/api" before another's (`AlfaMergeLaws.KeysUniqueIff`).
- With `keep` below one nothing is pruned (`History.Newest`); a request refused by a table constraint
  still draws a snapshot id (`History.FailedImportsChangeNothing`).

## Model

| member | source | states |
|---|---|---|
| Diff.Index | app/diff.py:59-64 | the index built by the loop is the first-occurrence map of the list |
| DiffLaws.FirstOccurrenceWins | app/diff.py:59-64 | of several methods with one key the first is the one compared |
| Diff.HiddenServiceNames | app/diff.py:67-71 | the loop yields the services that have a method and whose methods are all hidden |
| Diff.CompareCommon | app/diff.py:142-159 | for the keys both snapshots have: flips come from differing visibility, field edits only where visibility agrees |
| Diff.CompareMethods | app/diff.py:129-162 | added, removed, flipped and edited keys are reported in this order |
| Diff.ComputeChanges | app/diff.py:109-162 | a first snapshot reports nothing; otherwise services first, then methods |
| DiffExact.DiffIsExact | app/diff.py:109-162 | a change is reported, with all its contents, if and only if it is that of a service only one snapshot has or of a key that was added, removed, made visible or hidden, or edited |
| DiffOrder.ChangesInOrder | app/diff.py:80-162 | the changes come in six groups, services that came and went, methods that came, went, became visible or hidden, and edited fields, each in the order of the names |
| Ordering.LeqIff | app/diff.py:132-134 | one name comes before another if and only if it begins that one or is smaller at the first difference |
| DiffKeys.PathKeyIff | app/diff.py:41-45 | methods with a path have one key if and only if verb and path agree, whatever their service |
| DiffKeys.NameKeyIff | app/diff.py:41-45 | methods without a path have one key if and only if service, verb and name agree |
| DiffKeys.KindsApart | app/diff.py:41-45 | a method with a path and one without never have one key |
| DiffKeys.ChangeSays | app/diff.py:74-77 | a method change carries kind, action, key, URL and hidden flag, and a path that begins with the service |
| DiffKeys.ServiceReadBackIff | app/notify_format.py:57-58 | the digest files a change under its method's own service if and only if that name has no slash between blanks |
| DiffLaws.NoChangesIffAgree | app/diff.py:80-106 | the change list is empty if and only if service names, method keys, visibility and field sets all agree |
| DiffLaws.OneChangePerKey | app/diff.py:129-162 | no two changes about methods or fields concern one key |
| DiffLaws.PublicDelta | app/diff.py:118-123 | the public method changes are exactly the keys that entered and left the dashboard, flips included |
| DiffLaws.ReplayOneImport | app/diff.py:126-162 | applied in order to the old dashboard keys, one import's changes give the new ones |
| ServiceReplay.OneService | app/diff.py:80-92 | after replaying the public service changes a service of both snapshots is in the set if and only if it was visible before, any other if and only if it is visible now |
| ServiceReplay.ServicesReplayIff | app/diff.py:67-92 | replaying them gives the new visible services if and only if no service of both snapshots changes between hidden and visible as a whole |
| ServiceReplay.HiddenServiceStays | app/diff.py:80-92 | a service whose only method becomes hidden stays in the replayed set |
| FieldText.FieldSetsReplay | app/diff.py:95-106 | old fields minus removed plus added are the new fields, nothing is removed or added in vain, and a change stores just these two lists |
| FieldText.TextTellsNames | app/diff.py:104-105 | lists in which no name contains a comma, a blank and the mark in a row are determined by their text |
| FieldText.SeparatorMakesTextAmbiguous | app/diff.py:104-105 | two different lists of added fields with one text |
| FieldReaders.ChipsAreNamesIff | frontend/src/pages/Changes.tsx:17-22 | the text taken apart at its commas gives the marked names, in order, if and only if no name holds a comma or ends in a blank |
| FieldReaders.PageTellsEditIff | frontend/src/pages/Changes.tsx:17-22 | the names on the history page turn the old fields into the new ones if and only if no changed field holds a comma or ends in a blank |
| FieldReaders.DigestTellsEditIff | app/notify_format.py:61-64 | the names in the digest do so if and only if moreover no removed field begins with a dash |
| FieldReaders.BlankAtEndIsLost | app/notify_format.py:62 | a name that ends in a blank is shown as another name by both |
| DiffLaws.SwappedSnapshots | app/diff.py:80-92 | swapping the snapshots gives the same service and method changes with added and removed exchanged |
| FieldText.SwappedFieldEdits | app/diff.py:95-106 | and the field edits of the same keys in the same order, each with its removed and added fields exchanged |
| Snapshot.EntryHiddenMeaning | app/diff.py:48-56 | a service is hidden if and only if it has methods and all of them are hidden |
| Snapshot.RecordCount | app/snapshot_import.py:41-58 | counting visible records gives the visible method count of the parsed snapshot |
| ImportLaws.RecordsInOrder | app/snapshot_import.py:19-38 | the records of a service are its methods in order, each with all it says |
| ImportLaws.RecordsByService | app/snapshot_import.py:19-38 | the records of a snapshot are those of its services, one after the other |
| ImportLaws.ServiceUrlIsFirst | app/snapshot_import.py:75-78 | a service has the URL of its first method, none without one |
| ImportLaws.StorableIff | migrations/007_hidden_methods.sql:20-30 | the tables take a snapshot if and only if every hidden method names a reason and every reason is one of four |
| Store.Database.CreateSnapshot | app/repository.py:17-20 | one row with the next id, nothing else changes |
| Store.Database.CreateService | app/repository.py:81-99 | a new row, or the row of that name in the snapshot overwritten in place; all references stay intact |
| Store.Database.CreateMethod | app/repository.py:140-165 | one row with the next id, or none when a hidden method has no known reason |
| Store.Database.CreateFields | app/repository.py:217-225 | appends one row for each name and touches nothing else |
| Store.Database.CreateChanges | app/repository.py:228-245 | appends the changes in order and touches nothing else |
| Store.Database.DeleteSnapshots | app/repository.py:47-49 | removes the snapshots with all they own, keeps the change log, leaves no dangling reference |
| Tables.PruneKeepsIntegrity | migrations/001_initial.sql:17-40 | the cascade leaves no dangling reference |
| Tables.DetachedInPlace | migrations/004_keep_change_history.sql:3-7 | pruning leaves every stored change in place with all it says, and takes its reference if and only if that snapshot is pruned |
| Tables.SurvivorsReadSame | app/repository.py:47-78 | every snapshot that is not pruned reads back exactly as before |
| StoreViews.RecordRoundTrip | app/snapshot_import.py:75-97 | a method written and read back is the record the comparison made of it |
| StoreViews.NewestSurvives | app/repository.py:23-44 | cleanup never takes the snapshot just added, which stays the latest |
| Store.Database.WriteSnapshot | app/snapshot_import.py:75-97 | read back, a written snapshot is the records made from it; every other snapshot reads as before |
| Store.Database.ImportSnapshot | app/snapshot_import.py:100-137 | succeeds if and only if the tables take the snapshot, some method is visible, and it has no predecessor to compare with or keeps enough of it; then it is the latest, with stats equal to its visible counts; any other outcome leaves all rows alone; the tables move as the history step says |
| ImportLaws.OutcomeIff | app/snapshot_import.py:61-72 | an import succeeds, is rejected for having no methods, is rejected for dropping too many, or is refused by the tables, each under its exact condition |
| ImportLaws.AcceptedNext | app/snapshot_import.py:100-137 | after any run one more request joins the accepted snapshots of its bank if and only if it is storable, shows a method and keeps enough of the last accepted one |
| ImportLaws.BaselineAccepted | app/snapshot_import.py:68-72 | a bank's first storable request with a visible method is accepted, whatever the ratio |
| ImportLaws.PublicPart | app/snapshot_import.py:132-137 | what an import returns are all its changes that are not hidden, each as often as it is stored |
| History.StepOfBank | app/snapshot_import.py:119-130 | one request leaves its bank the newest `keep` snapshots with the new one, and every other bank all of its own |
| History.RunIsSound | app/snapshot_import.py:61-72 | after any run ids ascend below the next one and every stored snapshot has a visible method |
| History.NewestKept | app/repository.py:35-44 | after any run a bank holds exactly the newest `keep` of the snapshots ever accepted for it |
| History.LatestIsLastAccepted | app/repository.py:23-32 | whatever the `keep` of each request, the snapshot in force is the last one accepted |
| History.HistoryReplays | app/snapshot_import.py:119-130 | for every run, the first accepted dashboard keys brought forward by the bank's stored public changes are those of the last accepted snapshot, pruned or not |
| History.DashboardIsReplayable | migrations/004_keep_change_history.sql:3-7 | the same of the snapshot that is stored and shown |
| History.VisibleFloor | app/snapshot_import.py:61-72 | the k-th accepted snapshot after the first has at least ratio^k of its visible methods |
| History.ReimportIsQuiet | app/snapshot_import.py:100-137 | importing the same snapshot again is accepted if and only if the ratio is at most one, and reports nothing |
| Json.ResolvePointer | bank_api_parser/parsers/base_parser.py:315-325 | the loop yields the node at the end of the RFC 6901 path, always an object |
| Json.UnescapeEscape | bank_api_parser/parsers/base_parser.py:320 | undoing "~1" before "~0" gives back every escaped key |
| Json.PointerRoundTrip | bank_api_parser/parsers/base_parser.py:315-325 | for every non-empty path of keys to an object, the escaped and joined pointer resolves to that object |
| Json.PointerExact | bank_api_parser/parsers/base_parser.py:315-325 | for every non-empty path the escaped and joined keys resolve to the object at its end, and to {} where there is none |
| ExternalRefs.LocalRef | bank_api_parser/parsers/base_parser.py:342-347 | a reference into its own document gives the object at its path, in that document |
| ExternalRefs.ExternalRef | bank_api_parser/parsers/base_parser.py:349-369 | a reference into another file gives the object at its path in that file, and what it refers to is taken from there |
| ExternalRefs.WholeFile | bank_api_parser/parsers/base_parser.py:366-367 | without a path it gives the whole file |
| ExternalRefs.FileMissing | bank_api_parser/parsers/base_parser.py:349-365 | a file without a known address, on another host, not to be had or empty gives {} in the old document |
| ExternalRefs.NotFollowed | bank_api_parser/parsers/base_parser.py:342-351 | an empty reference or one already followed gives {} and is not followed; a bare fragment gives {} |
| Refs.ResolveBounded | bank_api_parser/parsers/base_parser.py:327-369 | following a reference stays within the references and heights of the reachable documents |
| Refs.EveryWorldIsBounded | bank_api_parser/parsers/base_parser.py:281-303 | any documents have such finite bounds |
| SpecParser.BaseParser.FetchExternalSpec | bank_api_parser/parsers/base_parser.py:281-303 | each address is downloaded at most once, and the answer does not depend on what was asked before |
| SpecParser.BaseParser.ResolveRef | bank_api_parser/parsers/base_parser.py:327-369 | resolving with the cache is resolving in the fixed documents |
| SpecParser.BaseParser.ExtractFields | bank_api_parser/parsers/base_parser.py:377-411 | the loops with the cache compute the recursive field list |
| SpecParser.BaseParser.SchemaToExample | bank_api_parser/parsers/base_parser.py:547-627 | the loops with the cache compute the recursive example |
| FieldWalk.FieldsArePaths | bank_api_parser/parsers/base_parser.py:402-411 | the dotted names are exactly the component sequences, joined |
| FieldWalk.PathsFormForest | bank_api_parser/parsers/base_parser.py:386-411 | in every call each parent longer than the prefix comes before its children, and a call adds at most as many components as its depth allows |
| FieldWalk.TopLevelForest | bank_api_parser/parsers/base_parser.py:386-411 | with the source's limits a top-level call lists names of at most three components |
| FieldListing.WalkListsIff | bank_api_parser/parsers/base_parser.py:386-411 | a call that does not raise lists exactly the paths over property names reached through references, members of the first of `allOf`, `oneOf` and `anyOf`, and array items with or without a type, down to level 4, and below properties to level 2 |
| FieldListing.TopLevelIff | bank_api_parser/parsers/base_parser.py:377-411 | a top-level call lists a name if and only if some such path reads like it |
| FieldListing.NameJoins | bank_api_parser/parsers/base_parser.py:404 | a name is its components with dots between, if the first is not empty |
| Inlining.InliningKeepsFields | bank_api_parser/parsers/base_parser.py:389-411 | at every depth and prefix, in any documents, cyclic and external ones too, replacing references by what they resolve to leaves the field list as it was |
| PlainInlining.InlineIsExpand | bank_api_parser/parsers/base_parser.py:342-347 | in a document with acyclic local references the cycle guard never fires, so that guarded replacement is plain replacement |
| PlainInlining.PlainInliningKeepsFields | bank_api_parser/parsers/base_parser.py:377-411 | there the field list of a schema, at every depth and prefix, is that of the schema with every reference replaced by its target, less a reference of the target's own |
| PlainInlining.PlainTargetReplaces | bank_api_parser/parsers/base_parser.py:389-392 | a target without a reference of its own takes the place of a reference as it stands |
| RefChains.TargetRefIgnored | bank_api_parser/parsers/base_parser.py:389-392 | a reference lists what the keys of its target other than `$ref` list |
| RefChains.NothingListedIff | bank_api_parser/parsers/base_parser.py:386-411 | a schema lists nothing if and only if no property is reached through combinator members and items within the limit and nothing raises |
| RefChains.RefChainIff | bank_api_parser/parsers/base_parser.py:327-347 | at any place of a walk, where a reference leads to a schema through further ones and that schema or the first link's other keys list nothing: putting the schema there keeps the field list if and only if both reach no property and raise nothing |
| RefChains.TwoLinksDiffer | bank_api_parser/parsers/base_parser.py:389-392 | documents, with and without a description beside the reference, where the code lists nothing and full replacement lists a field |
| GuardedWalk.GuardAloneEndsFields | bank_api_parser/parsers/base_parser.py:342-411 | extraction without depth limits terminates on any documents by the references not yet seen and the schema, and agrees with every large enough limit |
| GuardedExample.GuardAloneEndsExamples | bank_api_parser/parsers/base_parser.py:567-622 | the same for example generation |
| ExampleTypes.ExamplesValidate | bank_api_parser/parsers/base_parser.py:567-627 | an example of a simple schema has the declared type everywhere, and all declared keys if and only if no object with properties lies beyond the limit |
| ExampleTypes.ObjectExampleAligned | bank_api_parser/parsers/base_parser.py:604-618 | an object example has the declared keys in order, each with the example of its own property |
| ExampleTypes.DeepExampleIsIncomplete | bank_api_parser/parsers/base_parser.py:137 | the example of n nested objects lacks a declared key if and only if n exceeds the source's limit by more than one |
| ExampleMerge.CombinedExample | bank_api_parser/parsers/base_parser.py:579-602 | where the members of a combinator give objects, each key has the value of the last member with it, else the example of the property of that name |
| ExampleMerge.FirstScalarWins | bank_api_parser/parsers/base_parser.py:592-595 | the first member that gives anything is the result when it gives no object |
| ExampleMerge.GivenExample | bank_api_parser/parsers/base_parser.py:575-577 | an explicit example is taken as it is, whatever else the schema says |
| ExampleMerge.TypeExample | bank_api_parser/parsers/base_parser.py:604-627 | the example of each bare type |
| ExampleMerge.ArrayExample | bank_api_parser/parsers/base_parser.py:620-622 | an array stands with one item, or none when its item has no example |
| Packing.Pack | app/notify_format.py:114-141 | the loops compute the greedy messages of the pieces |
| Packing.AddLines | app/notify_format.py:137-140 | an oversized block enters as its lines, the first after a blank line |
| DigestLines.NoLineIsLost | app/notify_format.py:133-141 | for any blocks of non-empty lines that each fit a message, the messages split at the line ends give all lines of all blocks, in order and once each |
| DigestLines.BlockSplits | app/notify_format.py:134 | split at the line ends, a block's text gives back the block |
| DigestLines.BlankLineBetweenBlocks | app/notify_format.py:123-136 | messages and blocks are the same text when joined by blank lines, if every block fits |
| DigestLines.LargeBlockIsWhole | app/notify_format.py:137-140 | a block too large for one message is parted only between its lines |
| Packing.MessagesBounded | app/notify_format.py:123-131 | whatever the blocks, every message is non-empty and within the limit |
| Packing.PackingIsLossless | app/notify_format.py:123-141 | pieces that fit are all there, in order and once each, with their own separators |
| Packing.PackingIsOptimal | app/notify_format.py:114-141 | no packing of the same pieces in order uses fewer messages |
| Packing.LosslessIffAllFit | app/notify_format.py:123-131 | for pieces with a text the messages are some grouping of all of them in order if and only if each piece fits the limit |
| Packing.OversizedPieceIsCut | app/notify_format.py:131 | the least case of a loss: one piece longer than the limit |
| Limiter.LoginLimiter.RecentFor | app/auth.py:81-88 | outdated keys go, the key's own deque is trimmed and returned |
| Limiter.LoginLimiter.Blocked | app/auth.py:72-73 | blocked if and only if the trimmed deque has `max` entries |
| Limiter.LoginLimiter.Failure | app/auth.py:75-76 | one more failure for the key after pruning |
| Limiter.LoginLimiter.Reset | app/auth.py:78-79 | only the key goes |
| Limiter.LoginLimiter.Login | app/web_auth.py:70-88 | one try moves table and reply as the attempt function says, whose replies `ReplyIff` gives exactly |
| Limiter.BlockedIsIdeal | app/auth.py:72-88 | after any calls in time order the stored count is the number of failures within the window since the key was last cleared, despite all pruning |
| Limiter.ReplyIff | app/web_auth.py:70-88 | for tries in time order, one is refused if and only if `max` wrong passwords of its address since its last success lie in the window, and otherwise granted if and only if its password is right |
| Limiter.WrongPasswordsSpread | app/web_auth.py:70-82 | between successes any `max` + 1 wrong passwords of an address are at least the window apart |
| Limiter.FewWrongPasswords | app/web_auth.py:70-82 | at most `max` wrong passwords per address are checked in any window between successes |
| Limiter.TriesAreTidy | app/auth.py:82-88 | after any login attempts every stored deque is non-empty and its last entry inside the window |
| Limiter.TidyNeedsLimitAndWindow | app/auth.py:67-70 | this needs, and only needs, a positive limit and window |
| Rotator.ProxyRotator.Candidates | bank_api_parser/proxy.py:57-67 | the first alive proxies from the current start, which moves one place on |
| Rotator.ProxyRotator.ReportFailure | bank_api_parser/proxy.py:69-71 | the proxy's failure time is now; no other changes |
| Rotator.ProxyRotator.Send | bank_api_parser/proxy.py:79-88 | tries the candidates up to the first that connects, reports each that did not at the time it failed, and goes direct when none is left |
| Rotator.SendFacts | bank_api_parser/proxy.py:79-88 | the sends follow the candidate list, at most `max_attempts` + 1 of them; direct only after every candidate failed and was reported, and nothing after one that connected |
| Rotator.SendsAreEvents | bank_api_parser/proxy.py:57-88 | any run of sends leaves the rotator where its requests and reports leave it, as the two laws below read them |
| Rotator.FirstAliveInCyclicOrder | bank_api_parser/proxy.py:65-67 | a proxy is listed if and only if it is alive and fewer than `max_attempts` alive ones stand before it in cyclic order |
| Rotator.RotatedAt | bank_api_parser/proxy.py:65 | place p of the cyclic order is the proxy p places after the start, modulo their number |
| Rotator.CandidatesInOrder | bank_api_parser/proxy.py:65-67 | the candidates stand in cyclic order |
| Rotator.AliveAgainIff | bank_api_parser/proxy.py:66 | after its last report at t a proxy is alive if and only if the clock has reached t + cooldown |
| Rotator.SendReportsOnlyFailures | bank_api_parser/proxy.py:80-87 | only the proxies found failing are reported, each at the end of its own attempt |
| Rotator.EveryProxyLeads | bank_api_parser/proxy.py:61-67 | in any n consecutive requests every proxy alive at each of them heads one list |
| Rotator.UnreportedProxyLeads | bank_api_parser/proxy.py:61-67 | with clock readings from 0 on this holds of every proxy that is never reported |
| Rotator.CooldownRespected | bank_api_parser/proxy.py:66-71 | a proxy reported at t is in no list before t + cooldown |
| Runner.ParserRunner.RunBankSafe | app/parser_runner.py:185-205 | the outcome and the bank's status say how the run ended; other banks keep theirs |
| Runner.ParserRunner.Notify | app/parser_runner.py:252-286 | the failing set and the alerts sent follow from the outcomes; without a notifier only the set moves |
| Runner.ParserRunner.RunAll | app/parser_runner.py:122-151 | a request while the lock is held changes nothing; otherwise status, failing set and alerts are those of the outcomes |
| Runner.FailingIsLatest | app/parser_runner.py:253-256 | after any runs on any banks the failing set is exactly the banks whose latest outcome failed |
| Runner.AlertsAreEdges | app/parser_runner.py:255-286 | a bank is alerted about exactly at the changes of its own latest outcome |
| Runner.AlertsAlternate | app/parser_runner.py:252-286 | a bank's alerts alternate, failure first, and the last one says whether it is failing |
| RunnerLaws.FailureAlertSays | app/parser_runner.py:252-278 | the alert with a text and a refused flag is sent if and only if the bank was not failing before and its last attempt raised with that text and kind |
| RunnerLaws.RecoveryAlertSays | app/parser_runner.py:252-280 | the recovery is told if and only if the bank was failing and its last attempt passed |
| RunnerLaws.FinalStatus | app/parser_runner.py:185-248 | after a run each bank's status says how its last attempt went; others keep theirs |
| Runner.EmptyErrorPasses | app/parser_runner.py:253-254 | an outcome passes if and only if the run succeeded or its public error text is empty |
| LogConsole.NewestBefore | app/event_log.py:133-152 | asking for what is older than a row of the result gives the rows after it, under any filters |
| LogConsole.PagingEnumerates | app/logs_api.py:36-45 | paging until there is no more lists every matching event once, newest first, for any page size |
| LogConsole.Console.FirstLoad | frontend/src/hooks/useLogs.ts:39-54 | shows the newest page |
| LogConsole.Console.Refresh | frontend/src/hooks/useLogs.ts:14-70 | moves the view as the refresh function says, whose views `RefreshExact` gives exactly |
| LogConsole.Console.LoadMore | frontend/src/hooks/useLogs.ts:88-104 | appends the page older than the oldest shown event; nothing when nothing is shown |
| LogConsole.RefreshedWindow | frontend/src/hooks/useLogs.ts:14-20 | a refresh turns a window on the log into a window on the grown log |
| ConsoleSteps.FirstLoadExact | frontend/src/hooks/useLogs.ts:38-54 | the first load shows the newest 100 events and offers more if and only if there are more |
| ConsoleSteps.RefreshExact | frontend/src/hooks/useLogs.ts:14-20 | a refresh shows all that was shown and all that came since, or starts over from the newest page if and only if that is full and an id lies in between |
| ConsoleSteps.RefreshKeeps | frontend/src/hooks/useLogs.ts:8-13 | when the newest page overlaps what is shown nothing is lost and the offer of more stays |
| ConsoleSteps.NewestIsShown | frontend/src/hooks/useLogs.ts:56-70 | the newest event is shown after every first load and refresh |
| ConsoleSteps.MoreExact | frontend/src/hooks/useLogs.ts:88-104 | "show more" adds the 100 events before the oldest shown and offers more if and only if there are more |
| ConsoleSteps.OffersMoreIff | frontend/src/hooks/useLogs.ts:27-107 | with ids from 1 on, after any steps more is offered if and only if something older than what is shown exists |
| ConsoleSteps.QueryIff | app/event_log.py:133-152 | the rows of a query are exactly the events that fit level, category and bound |
| ConsoleSteps.QueryDescends | app/event_log.py:147-151 | they come newest first, each once |
| LogConsole.ConsoleIsGapFree | frontend/src/hooks/useLogs.ts:27-107 | after any sequence of steps the shown events descend strictly and are all events of the log between the oldest and newest shown; when nothing more is offered there is nothing older |
| LateAnswers.LateAnswerIff | frontend/src/hooks/useLogs.ts:88-104 | the answer to a "show more", however late, keeps the view gap-free if and only if the oldest event shown is still the one asked about |
| AlfaTree.CollectLeafArticles | bank_api_parser/parsers/alfabank_parser.py:283-324 | the loop over the items computes the inherited-attribute walk |
| AlfaTree.LeavesArePathLeaves | bank_api_parser/parsers/alfabank_parser.py:283-324 | for any tree the walk lists, in document order, the leaves at the ends of the root paths, each read off its path alone |
| AlfaTree.LeafPathsComplete | bank_api_parser/parsers/alfabank_parser.py:314-317 | a path is listed if and only if it runs from a root down to a childless node with a path |
| AlfaDetails.StripMdFirst | bank_api_parser/parsers/alfabank_parser.py:309 | ".md" is taken out wherever it stands, and nothing else |
| AlfaTree.ServiceOfLeaf | bank_api_parser/parsers/alfabank_parser.py:312-318 | with non-empty titles a leaf's service is the nearest node tagged "service", itself included, else its parent, else itself |
| AlfaTree.PrivateOfLeaf | bank_api_parser/parsers/alfabank_parser.py:311-321 | a leaf is private if and only if some node on its root path is tagged private |
| AlfaMerge.MethodsFromEndpoints | bank_api_parser/parsers/alfabank_parser.py:248-277 | the nested loops with their shared accumulators keep the first declaration of each key, grouped by service |
| AlfaMerge.CollectUpdate | bank_api_parser/parsers/alfabank_parser.py:530-572 | one release-notes block extends the shared accumulators by its mentions, one of an ignored service by nothing |
| AlfaDetails.TagsReadBack | bank_api_parser/parsers/alfabank_parser.py:541 | a service name split at its commas gives back the tags |
| AlfaDetails.EndpointsInOrder | bank_api_parser/parsers/alfabank_parser.py:252-276 | each endpoint of a leaf is stored with the leaf's service and title, hidden if and only if the leaf is private or not visible, private being the reason that wins |
| AlfaDetails.EveryEndpointDeclared | bank_api_parser/parsers/alfabank_parser.py:252-255 | every endpoint of every scanned leaf is declared |
| AlfaDetails.EveryLineMentioned | bank_api_parser/parsers/alfabank_parser.py:522-545 | every line of a block whose service is not ignored is mentioned, hidden as a ghost |
| AlfaMerge.CollectReleaseNotes | bank_api_parser/parsers/alfabank_parser.py:510-528 | all blocks together keep the first mention of each key |
| AlfaMerge.MergeReleaseNotes | bank_api_parser/parsers/alfabank_parser.py:114-131 | the loops compute the merge with the keys seen in the articles |
| AlfaMerge.FirstsAreFirst | bank_api_parser/parsers/alfabank_parser.py:257-260 | deduplication keeps an item if and only if it is the first with its key |
| AlfaMerge.StripTwice | bank_api_parser/parsers/alfabank_parser.py:376-384 | stripping again changes nothing if and only if the path does not start with "/api/api/" |
| AlfaMerge.SameNormalForm | bank_api_parser/parsers/alfabank_parser.py:376-391 | two paths share a normal form if and only if they are equal or one is the other after "/api" |
| AlfaMergeLaws.ArticlesAreKept | bank_api_parser/parsers/alfabank_parser.py:120-131 | under every service the article methods come first, unchanged, then what only the release notes have |
| AlfaMergeLaws.StoredOnce | bank_api_parser/parsers/alfabank_parser.py:114-131 | no two merged methods share verb and stored path |
| AlfaMergeLaws.MergedKeyCount | bank_api_parser/parsers/alfabank_parser.py:116-129 | every key mentioned in the release notes has a merged method, exactly one unless the articles have it |
| AlfaMergeLaws.MergedContents | bank_api_parser/parsers/alfabank_parser.py:248-277 | a service lists exactly what a leaf of it was first to declare, and what its release notes were first to mention and no article has |
| AlfaDetails.MergedSays | bank_api_parser/parsers/alfabank_parser.py:114-131 | every merged method is an article's, visible if and only if the article is public and visible, or stands only in the release notes and is a hidden ghost |
| AlfaDetails.MergedIsStorable | migrations/007_hidden_methods.sql:20-30 | the tables take every merged method |
| AlfaMergeLaws.KeysUniqueIff | bank_api_parser/parsers/alfabank_parser.py:376-391 | the merged `_method_key`s are unique if and only if no two articles store, for one verb, a path and "/api" before that path |
| AlfaMergeLaws.DoublePrefixClash | bank_api_parser/parsers/alfabank_parser.py:384 | two endpoints whose merged methods share a `_method_key` |

## Left out

- DiffLaws.SwappedSnapshots: compares the changes without their order, since the code lists added before removed; `DiffOrder.ChangesInOrder` says what the order is, and `FieldText.SwappedFieldEdits` covers field edits.
- History.VisibleFloor: the ratio is a real number; floating-point rounding in `min_ratio` is not modelled.
- RefChains.RefChainIff: leaves out the case that a link's other keys and the schema behind it both list fields; then the two lists have to be compared.
- Packing.PackingIsLossless: asks that every piece fits the limit, which `LosslessIffAllFit` shows to be needed; how escaped lines come to fit it is digest wording, which is not modelled.
- Rotator.ProxyRotator.Send: how the attempts end and when is handed in, one reply for each proxy that may be tried.
- FieldReaders.DigestTellsEditIff: is about the names before the digest is cut to the first few and to a length.
- LogConsole.ConsoleIsGapFree: is about handlers that do not overlap, on a log that is not pruned; `LateAnswerIff` says when an overlapping "show more" does no harm.
- AlfaMergeLaws.KeysUniqueIff: asks for verbs without a colon, which is what the endpoint extraction yields.
- AlfaMerge.CollectUpdate: the service name in lower case and the lines that match the Markdown pattern are handed in.
- Overlapping imports of one bank, connection pools, SQL text, column widths, timestamps, descriptions and stored examples.
- Downloading, charsets, redirects, YAML and JSON text, dates inside YAML examples, `urljoin` and the host comparison: they decide the `World` the walkers see.
- ExampleMerge.CombinedExample: is about members that give objects; `FirstScalarWins` covers a first member that gives none, mixtures after an object are only modelled.
- A schema whose `type` is a list makes example generation raise; the model has this outcome, and no law is about it.
- Password comparison, tokens, cookies, client addresses; the limiter sees an address, a time and whether the password was right.
- Texts of digests, alerts and event-log entries; of the digest only the packing.
- Pruning of the event log, commits that become visible out of id order, filters in the console (the query has them).
- Choice of media type and response, the benchmark catalogue, scheduling, React components: little state, easy claims.
