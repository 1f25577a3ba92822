# Testnizer in Dafny

Testnizer's main process and shared modules hold a number of deterministic algorithms with invariants worth keeping:
walks over cyclic object graphs, a forest in two SQL tables, codecs and parser/printer pairs, crash and retry protocols,
and incrementally kept state. This project models them and proves what they promise, for all inputs and all runs.
`dafny verify dfyconfig.toml` checks it.

## Components

- **Bounded walks** (`ObjectGraph`, `BoundedJson`, `BoundedDocument`). A JavaScript object graph is a finite map from
  references to nodes; sharing and cycles are ordinary. Its unfolding below a path of ancestors is the reference both
  walks are proved against, and paths through the graph itself are the reference the unfolding is proved against.
- **The test-suite forest** (`ParentForest`, `Siblings`, `SuiteTables`, `SuiteWrites`, `SuiteRepo`). Tables are maps from id to row,
  one transaction is one method. `SuiteTables` states each operation as a relation on tables and proves what keeps the
  invariant; `SuiteRepo` is the class whose methods are proved to be those steps.
- **Execution order** (`SuiteRows`, `SuiteOrder`, `SuiteOrderLaws`, `SuiteOrderByRow`, `SuiteListing`, `ParentsFirst`). The depth-first
  walks with their `seen` sets, proved against a specification that is then shown to conserve rows on any parents and to
  be the documented order on acyclic ones.
- **Codecs** (`BinaryText`, `Utf8Length`, `SseBlocks`, `SseFixpoint`, `SseCover`, `CommandLine`, `Splitting`, `AssertionScript`,
  `AssertionScriptLaws`, `AssertionExport`, `AssertionLines`, `JsonWithVars`, `Decimals`), each with its round trip or fixpoint. `Int32`
  is the meaning of JavaScript's shifts and masks on the bits of a word, which the base64 decoder's accumulator needs.
- **Crash and retry protocols** (`BackupNames`, `PreMigrationBackup`, `BackupRuns`, `HistoryMask`, `SseResume`). Every
  call that can fail is an atomic step that works, throws, or is the last thing the process does; the theorems are about
  all sequences of starts, launches or connections.
- **Closures and incremental state** (`GitChanges`, `ConversationSplice`, `JsonValues`, `ChatTurns`, `ChatSanitize`).
- `Options`, `Sequences`, `SiblingOrder` and `JsText` hold the option type, two facts about sequences, the order of
  siblings, and the string operations of JavaScript the others use.

## What the code does not keep

Where a promise does not hold of the code, the code is modelled as it is and the exact condition is proved.

- The `testSuiteFolder:move` handler does not look at the suite of the target parent
  (`src/main/ipc/test-suite.handler.ts:1021-1026`); neither do `createFolder` and `createItem`, and
  `testSuiteItem:update` writes a `folder_id` it does not look at, without a new `sort_order`
  (`src/main/ipc/test-suite.handler.ts:852-876`). A step keeps the invariant if and only if what it names is in its own
  suite and the place is free (`SuiteTables.StepKeepsIff`, `SuiteTables.HandlerAcceptsForeignParent`,
  `SuiteTables.UpdateBreaksEither`). After such a step, deleting one suite can take rows of another along
  (`SuiteTables.DeletesOnlyItsOwnIff`, `SuiteTables.DeletionReachesAcross`).
- A resumed event stream can skip blocks and answer that nothing is left, when an id does not come back as it was sent
  (`src/main/mock/server.ts:1060` compares what the header carries) but as one that only a later block bears; the exact
  condition is `SseResume.SafeIffAllLeadBack`, an input `SseResume.SpaceSkips`.
- A quarantine whose second or third rename fails leaves a `-wal` or `-shm` file where the next start creates a fresh
  database, which its own comment rules out (`src/main/db/database.ts:68-89`): `BackupRuns.OrphanedIff`,
  `BackupRuns.StuckThrows`.
- `orderSuiteItems` loses an item whose `folder_id` is the empty string when no folder has that id
  (`SuiteOrderLaws.PermutationIff`, `SuiteOrderLaws.ItemOfEmptyFolderIsLost`).
- `utf8Length` miscounts a lone high surrogate, in either direction, exactly when what the lone ones add does not
  cancel out (`Utf8Length.CountedExactly`, `Utf8Length.OneLoneHigh`, `Utf8Length.LoneHighIsMiscounted`).
- A new copy falls to its own pruning when the clock went back behind three copies
  (`BackupRuns.NewCopySurvivesIff`, `BackupRuns.ThreeNewerPushOut`, `BackupRuns.PushedOut`); with copies of the very
  same time it depends on the order in which the folder is read (`BackupRuns.TieGoesEitherWay`).

Two promises hold of everything the program itself produces, though not of every value their functions accept. Build ids
are seven hexadecimal digits, a short revision or `unknown` (`electron.vite.config.ts:20-31`), so
`BackupNames.LabelsTellBuildsApart` applies to all real builds. And the changes of a project carry the same requirements
on every item of one row (`src/main/lib/project-changes.ts:191-194`), so unchecking and checking are two directions of
one relation (`GitChanges.DependentIffRequired`); `GitChanges.DirectionsAgreeIff` is the condition for any other list.

## Model

| member | source | states |
|---|---|---|
| ObjectGraph.RecursionIffCyclic | src/shared/bounded-document.ts:51-57 | cutting revisits of an ancestor finds one if and only if some path through the (possibly infinite) object graph comes back to an object already on it |
| BoundedJson.Copier.Copy | src/main/import/openapi-refs.ts:133-147 | the nested copy, started at preorder number `pos`, writes exactly the objects and arrays numbered below the allowance, restores the path set, takes from `left` what it expanded, and sets `cut` exactly when something below was over the allowance |
| BoundedJson.Copier.CopyKids | src/main/import/openapi-refs.ts:142-144 | the same for the children of one node, in order |
| BoundedJson.BoundedJson | src/main/import/openapi-refs.ts:128-152 | on every finite graph, cyclic or shared: the text is the positional reference cut at the first N objects and arrays, N at most 20 000 and at most what is left, and the import budget is charged by exactly what was expanded |
| BoundedJson.BudgetIsConserved | src/main/import/openapi-refs.ts:110-120 | over any sequence of calls the budget drops by exactly the expanded objects and arrays and never below zero, and `trimmed` counts exactly the calls that expanded less than they were given |
| BoundedJson.ExpandedIffNumbered | src/main/import/openapi-refs.ts:133-147 | what a path reaches is written out in full when its preorder number is below the allowance, and otherwise is `{}` or lies under a `{}` |
| BoundedJson.RevisitIsClosed | src/main/import/openapi-refs.ts:135 | a path that comes back to an ancestor ends in `{}` with nothing below it |
| BoundedJson.NothingCutIsFullUnfolding | src/main/import/openapi-refs.ts:128-152 | without a cycle and within the allowance the result has exactly the paths of the object graph and reads the same at each of them |
| BoundedDocument.Walker.Walk | src/shared/bounded-document.ts:38-58 | the walk gives the verdict of the first limit broken in walking order; on a normal return the ancestor set is restored and `visits` grew by the unfolded size |
| BoundedDocument.AssertBounded | src/shared/bounded-document.ts:31-60 | returns normally if and only if no path repeats an ancestor, the unfolding has at most `maxNodes` values (shared nodes once per use, leaves included) and no object or array lies deeper than 64; each error names a limit that is broken |
| BoundedDocument.AssertTextBounded | src/shared/bounded-document.ts:67-69 | the same with the larger of the document limit and the text's length, so a parsed text is never refused for its own size |
| BoundedDocument.DeeperThanIffPath | src/shared/bounded-document.ts:46-50 | the depth verdict means a path of more than 64 steps to an object or array |
| ParentForest.MoveAcyclicIff | src/main/db/test-suite-folder.repo.ts:195-216 | hanging a folder under a new parent keeps the forest acyclic if and only if the parent is not the folder or below it |
| ParentForest.SubtableAcyclic | src/main/db/test-suite-folder.repo.ts:106-110 | what is left after deleting rows is acyclic |
| ParentForest.LeafAcyclic | src/main/db/test-suite-folder.repo.ts:43-67 | a new folder under an existing one or none keeps the forest acyclic |
| ParentForest.SiblingsDisjoint | src/shared/suite-order.ts:45-69 | the subtrees of two folders with one parent have no folder in common |
| ParentForest.RootAbove | src/shared/suite-order.ts:45-69 | in an acyclic forest every folder has a root above it |
| Siblings.OrderBy | src/main/db/test-suite-folder.repo.ts:175-179 | the sibling query: every row of the group once, by sort_order then created_at |
| Siblings.SplicedIsPlaced | src/main/db/test-suite-folder.repo.ts:181-186 | splicing the moved id into its siblings puts it right before `insertBeforeId`, or last when that is no sibling, and leaves the others in their old order without a gap or duplicate |
| Siblings.Reordered | src/main/db/test-suite-folder.repo.ts:169-189 | the whole reorder step: positions 0..N-1 with the moved row where it was asked for |
| SuiteTables.StepKeepsIff | src/main/ipc/test-suite.handler.ts:852-1033 | one create, delete, move or update of an item, folder or suite keeps the invariant (foreign keys, acyclic parents, folders and items in their folder's suite, distinct sort_order per group) if and only if it is refused, or the folder it names is in the right suite and an updated item's place there is free |
| SuiteTables.HandlerAcceptsForeignParent | src/main/ipc/test-suite.handler.ts:1020-1028 | two tables and a move the handler accepts although the target parent belongs to another suite |
| SuiteTables.UnguardedMoveClosesCycle | src/main/db/test-suite-folder.repo.ts:112-121 | `moveFolder` without the caller's check keeps the parents acyclic if and only if the target is not inside the moved branch |
| SuiteTables.StepKeepsRooted | src/main/db/test-suite-folder.repo.ts:106-216 | every one of these requests, whatever it names, keeps the foreign keys and the acyclic parents, also on tables that an earlier one took out of their suites |
| SuiteTables.RunKeepsRooted | src/main/db/test-suite-folder.repo.ts:106-216 | over every run of these requests no row refers to a missing one and no folder lies under itself |
| SuiteTables.RunKeepsValid | src/main/db/test-suite-folder.repo.ts:106-216 | over every run of these requests in which each fits its suite and place the whole invariant holds |
| SuiteTables.CreateFolderKeeps | src/main/db/test-suite-folder.repo.ts:43-67 | a created folder is last in its group, and the invariant holds if and only if its parent is in its suite |
| SuiteTables.CreateItemKeeps | src/main/db/test-suite-item.repo.ts:89-129 | the same for an item and its folder |
| SuiteTables.DeleteFolderKeeps | src/main/db/database.ts:720-756 | a cascading delete keeps the invariant |
| SuiteTables.MoveFolderKeeps | src/main/db/test-suite-folder.repo.ts:136-193 | a folder move, across suites too, keeps the invariant if and only if the target parent is in the target suite |
| SuiteTables.MoveItemKeeps | src/main/db/test-suite-item.repo.ts:184-232 | an item move its handler lets through keeps the invariant |
| SuiteTables.UpdateItemKeeps | src/main/db/test-suite-item.repo.ts:133-160 | an item update, which may write `folder_id` and `sort_order` and recomputes neither, keeps the invariant if and only if the folder is null, kept or in the item's suite and no other item there has its sort_order |
| SuiteTables.UpdateBreaksEither | src/main/ipc/test-suite.handler.ts:852-876 | valid tables and two updates the handler accepts: one puts two items at one place, one puts an item into another suite's folder |
| SuiteTables.DeleteSuiteKeeps | src/main/ipc/test-suite.handler.ts:668-680 | deleting a suite with its cascades keeps the invariant |
| SuiteTables.DeletesOnlyItsOwnIff | src/main/db/database.ts:721-756 | deleting a suite removes exactly its own rows if and only if no folder or item of another suite hangs in one of its folders |
| SuiteTables.ValidIsAlone | src/main/db/database.ts:721-756 | which holds of every suite on tables that meet the invariant |
| SuiteTables.DeletionReachesAcross | src/main/db/database.ts:721-756 | tables, as an accepted cross-suite move leaves them, on which deleting one suite takes a folder of another along |
| SuiteTables.MoveFolderKeepsOldOrder | src/main/db/test-suite-folder.repo.ts:175-189 | after a move, of two other rows of the target group the one that had the smaller sort_order still has it, and of two that had the same one the older row |
| SuiteTables.MoveItemKeepsOldOrder | src/main/db/test-suite-item.repo.ts:204-229 | the same for items |
| SuiteWrites.FolderMoveWrites | src/main/db/test-suite-folder.repo.ts:136-193 | column by column: sort_order changes in the rows of the named suite and parent only, where it becomes 0..N-1 with the moved folder just before `insertBeforeId` or last; parent_id changes in that folder only; the other columns stay |
| SuiteWrites.ItemMoveWrites | src/main/db/test-suite-item.repo.ts:184-232 | the same for items, with `updated_at`; every row outside the group is left as it is |
| SuiteWrites.FolderGoesBehind | src/main/db/test-suite-folder.repo.ts:43-67 | a new folder's sort_order is one more than the largest of that suite and parent, or 0 |
| SuiteWrites.ItemGoesBehind | src/main/db/test-suite-item.repo.ts:89-129 | the same for items |
| SuiteWrites.UpdateWrites | src/main/db/test-suite-item.repo.ts:133-160 | each column of the patch is written, each column it leaves out is kept |
| SuiteRepo.SuiteDb.CollectSubtreeIds | src/main/db/test-suite-folder.repo.ts:122-134 | the breadth-first list is exactly the folder and everything below it, once each, on cyclic parents too |
| SuiteRepo.SuiteDb.IsDescendantOf | src/main/db/test-suite-folder.repo.ts:201-216 | true if and only if one folder is the other or below it, on every parent graph; the walk up ends at an empty id |
| SuiteRepo.SuiteDb.CreateFolder | src/main/db/test-suite-folder.repo.ts:43-67 | the new tables: one row more, behind its siblings; refused exactly when a foreign key is missing |
| SuiteRepo.SuiteDb.CreateItem | src/main/db/test-suite-item.repo.ts:89-129 | the same for items |
| SuiteRepo.SuiteDb.DeleteFolder | src/main/db/test-suite-folder.repo.ts:106-110 | removes exactly the folder's subtree and the items in it |
| SuiteRepo.SuiteDb.DeleteItem | src/main/db/test-suite-item.repo.ts:164-168 | removes exactly the item |
| SuiteRepo.SuiteDb.Rehome | src/main/db/test-suite-folder.repo.ts:153-162 | a cross-suite move stamps exactly the descendant set, folders and the items in them, with the new suite |
| SuiteRepo.SuiteDb.MoveFolder | src/main/db/test-suite-folder.repo.ts:136-193 | the whole new state of a folder move: suite of the branch, parent of the folder, numbering of the target group, nothing else |
| SuiteRepo.SuiteDb.FolderMoveRequest | src/main/ipc/test-suite.handler.ts:1009-1033 | the guarded move, on any tables that meet their foreign keys: done exactly when accepted, otherwise nothing changes |
| SuiteRepo.SuiteDb.MoveItem | src/main/db/test-suite-item.repo.ts:184-232 | the whole new state of an item move, `updated_at` of the renumbered rows included; `suite_id` is never written |
| SuiteRepo.SuiteDb.ItemMoveRequest | src/main/ipc/test-suite.handler.ts:899-919 | the guarded move: done exactly when item and folder are of the named suite, otherwise nothing changes |
| SuiteRepo.SuiteDb.UpdateItem | src/main/db/test-suite-item.repo.ts:133-160 | the columns of the patch and `updated_at` of that row, and nothing else; refused exactly when the item or the named folder is missing |
| SuiteRepo.SuiteDb.CollectUnder | src/main/db/database.ts:721-756 | exactly the suite's folders and all that lie below one of them |
| SuiteRepo.SuiteDb.DeleteSuite | src/main/ipc/test-suite.handler.ts:668-680 | removes exactly the suite, what the cascades reach from it, and nothing when it does not exist |
| SuiteRepo.SuiteDb.Handle | src/main/db/test-suite-folder.repo.ts:106-216 | each request is one step of the state machine and keeps the tree; on tables that meet the whole invariant it holds afterwards exactly under the stated condition |
| SuiteRows.StableSortSorts | src/shared/suite-order.ts:34-43 | the sibling comparator sorts and loses nothing |
| SuiteRows.StableSortIsStable | src/shared/suite-order.ts:34-43 | rows of equal rank keep their order |
| SuiteRows.GroupFolders | src/shared/suite-order.ts:46-54 | every list of children holds the folders under that parent, sorted; a dangling parent counts as the root |
| SuiteRows.GroupItems | src/shared/suite-order.ts:80-93 | every list of items holds the folder's items, sorted; items of unknown folders are kept aside |
| SuiteOrder.OrderSuiteFolders | src/shared/suite-order.ts:45-69 | computes the specified depth-first order with what is on cycles behind it |
| SuiteOrder.OrderSuiteItems | src/shared/suite-order.ts:76-123 | computes the specified item order |
| SuiteOrderLaws.ItemsConserved | src/shared/suite-order.ts:76-123 | on any folders, dangling and cyclic parents included, every item occurs as often as it was given, except items whose `folder_id` is an unmatched empty string, which are lost |
| SuiteOrderLaws.PermutationIff | src/shared/suite-order.ts:76-123 | the result is a permutation of the items if and only if no item has an unmatched empty `folder_id` |
| SuiteOrderLaws.ItemOfEmptyFolderIsLost | src/shared/suite-order.ts:84-92 | one item with an empty `folder_id` and no folders: the result is empty |
| SuiteOrderLaws.FoldersConserved | src/shared/suite-order.ts:45-69 | with distinct ids every folder is returned exactly once, whatever the parents |
| SuiteOrderLaws.FolderOrderIsTree | src/shared/suite-order.ts:45-69 | on acyclic parents the order is the preorder of the sorted forest |
| SuiteOrderLaws.ItemOrderIsDocumented | src/shared/suite-order.ts:71-123 | on acyclic parents: root items, then each folder's items in folder order, then the dangling ones |
| SuiteOrderLaws.SubtreeIsContiguous | src/shared/suite-order.ts:45-69 | on acyclic parents a folder's subtree is one contiguous block that starts with the folder |
| SuiteOrderByRow.ItemsRunInSiblingOrder | src/shared/suite-order.ts:34-37 | in the result, on any parents: of two items of one folder the one with the smaller sort_order stands first, with equal ones the one with the smaller created_at, a missing one counting as 0 |
| SuiteOrderByRow.ItemsRunByFolder | src/shared/suite-order.ts:104-122 | root items stand in front, then the items of each folder in the order in which the walk reaches the folders, then the dangling ones |
| SuiteOrderByRow.FoldersStandInSiblingOrder | src/shared/suite-order.ts:34-69 | on acyclic parents, of two folders under one parent the one with the smaller sort_order stands first, with equal ones the one with the smaller created_at |
| SuiteOrderByRow.FoldersStandUnderParent | src/shared/suite-order.ts:45-69 | a folder stands behind the folder its `parent_id` names, with nothing between them that is not below that folder |
| SuiteOrderByRow.ParentsRead | src/shared/suite-order.ts:49 | a folder whose `parent_id` is null, empty or no listed id stands at the root |
| SuiteListing.ListItemsBySuite | src/main/db/test-suite-item.repo.ts:63-76 | on tables that meet the invariant a suite's run holds every item id of that suite exactly once and no other, in the documented order, with nothing dangling |
| ParentsFirst.AcyclicIsRanked | src/shared/suite-order.ts:125-152 | on acyclic parents every row has a rank above its parent's |
| ParentsFirst.Visitor.Visit | src/shared/suite-order.ts:141-149 | a visit only appends, never twice, and leaves the visiting set as it was |
| ParentsFirst.ParentsFirstOrder | src/shared/suite-order.ts:133-152 | a permutation of the rows on any parent graph; each row behind its parent when parents are acyclic; a list already in that order comes back unchanged, and otherwise a row passes another only when it, or the row it was fetched for, stands in front of it |
| ParentsFirst.ParentStandsFirst | src/shared/suite-order.ts:125-152 | by ids: on acyclic parents, a row whose `parent_id` is another row's id stands behind a row with that id |
| ParentsFirst.NumberedIsAcyclic | src/shared/suite-order.ts:125-132 | parents are acyclic when the rows can be numbered so that every row's number is above that of each other row its `parent_id` names |
| ParentsFirst.ListedFirst | src/shared/suite-order.ts:125-152 | by ids: a list in which each named row stands in front of the rows that name it comes back as it is |
| BinaryText.DecodeDigits | src/shared/realtime.ts:239-250 | the decoder's unmasked 32-bit accumulator writes exactly the bytes the digits spell, up to index floor(3n/4) |
| BinaryText.ShiftOr | src/shared/realtime.ts:244 | `(buf << 6) \| v` on the 32 bits of the word is 64 times the number plus the digit, read as a signed 32-bit number |
| BinaryText.ShiftMask | src/shared/realtime.ts:248 | `(buf >> bits) & 0xff` on the bits is the byte above the `bits` lowest bits, for negative numbers too |
| Int32.ShiftInSix | src/shared/realtime.ts:244 | shifting a word left by six and or-ing in a six-bit number multiplies by 64 and adds, up to whole turns of 2^32 |
| Int32.ByteAbove | src/shared/realtime.ts:248 | shifting a word right and masking eight bits divides and takes the remainder, rounding down |
| BinaryText.Take | src/shared/realtime.ts:243-248 | one digit shifted in: the low bits of the accumulator stay exact although its high bits overflow |
| BinaryText.WriteIndex | src/shared/realtime.ts:238-249 | the write index never passes and ends at floor(3n/4) |
| BinaryText.BytesFromBase64 | src/shared/realtime.ts:233-252 | returns bytes if and only if the text, character by character, is digits of either alphabet and at most two `=` with white space anywhere, no lone digit in the last group, and these bytes are the leading bits of the digits |
| BinaryText.ReadsIff | src/shared/realtime.ts:234-235 | the three replacements together are that one reading of the text |
| BinaryText.Alphabet | src/shared/realtime.ts:230 | the digits are the 64 characters of the table, in its order |
| BinaryText.SpellsUnique | src/shared/realtime.ts:233-252 | digits spell at most one byte sequence |
| BinaryText.BytesToBase64 | src/shared/realtime.ts:254-263 | the output is the padded base64 of the bytes (section 4 of RFC 4648) |
| BinaryText.RoundTrip | src/shared/realtime.ts:233-263 | the base64 of any bytes, its URL-safe form and both without padding decode to those bytes |
| BinaryText.AnySpellingDecodes | src/shared/realtime.ts:233-252 | so does every text that cleans up to those digits with at most two pad characters |
| BinaryText.SpacesDoNotMatter | src/shared/realtime.ts:234 | white space anywhere is ignored |
| BinaryText.UrlSafeDoesNotMatter | src/shared/realtime.ts:234 | `-` and `_` stand for `+` and `/` |
| BinaryText.EncodeThenDecode | src/shared/realtime.ts:233-263 | decoding what was encoded gives the bytes back |
| BinaryText.BytesFromHex | src/shared/realtime.ts:220-228 | returns bytes if and only if the text prints them: two hexadecimal digits each, in either case, with white space, `:`, `,`, `-` and `0x` anywhere |
| BinaryText.SpelledIff | src/shared/realtime.ts:221-224 | the two cleaning passes leave exactly the digits of such a text, and of no other |
| BinaryText.PrintedHexPairs | src/shared/realtime.ts:220-228 | a text prints bytes if and only if what cleaning leaves is their digit pairs |
| BinaryText.DecodePrintedHex | src/shared/realtime.ts:220-228 | such a print decodes back to the bytes |
| Utf8Length.Utf8Length | src/shared/realtime.ts:289-301 | the loop counts four for every high half and skips the unit behind it |
| Utf8Length.CountIsSizePlusDrift | src/shared/realtime.ts:289-301 | on every text, well-formed or not, and from every position the count is the UTF-8 size plus a drift that only lone high halves contribute to |
| Utf8Length.CountedExactly | src/shared/realtime.ts:289-301 | for every text the count is right if and only if that drift is zero |
| Utf8Length.CountIsSize | src/shared/realtime.ts:289-301 | on every text without a lone high half the count is its UTF-8 size, lone low halves included |
| Utf8Length.LoneHighIsMiscounted | src/shared/realtime.ts:289-301 | texts with lone high halves counted one too many, one too few, and with two mistakes that cancel |
| Utf8Length.OneLoneHigh | src/shared/realtime.ts:289-301 | a text with one lone high half, anywhere in it, is counted right if and only if an ASCII unit or a pair follows it |
| Utf8Length.Halves | src/shared/realtime.ts:289-301 | a unit is a high half when its upper six bits are 110110, a low half when they are 110111 |
| SseBlocks.ReadId | src/shared/mock-sse-blocks.ts:56-70 | the last `id:` line of a block and whether any id holds a template |
| SseBlocks.ReaderAgrees | src/shared/mock-sse-blocks.ts:56-70 | that id is what a reader following section 9.2.6 of the HTML Standard ends up with, line by line |
| SseBlocks.MarkedBlockAgreesIff | src/shared/mock-sse-blocks.ts:56-70 | such a reader drops a byte order mark at the start of the stream, the mock does not; they still agree unless the line behind the mark is the only one that sets an id |
| SseBlocks.SplitSseBlocks | src/shared/mock-sse-blocks.ts:76-95 | computes the specified block list for any mix of LF, CRLF and CR |
| SseFixpoint.SplitOfWire | src/shared/mock-sse-blocks.ts:76-95 | writing well-formed blocks with their separators and splitting gives the same blocks |
| SseFixpoint.BlocksTight | src/shared/mock-sse-blocks.ts:76-95 | no block is empty and none holds an inner blank line |
| SseFixpoint.Fixpoint | src/shared/mock-sse-blocks.ts:76-95 | for any body, splitting what was written from the blocks gives the identical list: text, separator and id |
| SseCover.NothingLost | src/shared/mock-sse-blocks.ts:76-95 | the body is the blocks' texts in order with white space before, between and behind them: line breaks between two blocks at least two, no other character anywhere lost; each separator is the kind of the first break behind its block, the last one's the body's |
| SseCover.BlocksAreStretches | src/shared/mock-sse-blocks.ts:82-87 | no block is blank, ends in a line break or holds two in a row |
| SseCover.LinesCover | src/shared/mock-sse-blocks.ts:51-59 | the lines of a block are its text cut at each LF, CR LF or CR, nothing lost |
| SseCover.TemplateIff | src/shared/mock-sse-blocks.ts:62-66 | a block counts as a template exactly when a usable `id:` line holds two opening braces in a row |
| SseResume.ArrivesAsSentIff | src/main/mock/server.ts:1060 | an id comes back in the request header as it was sent if and only if it is ASCII without white space around it |
| SseResume.BytesSpell | src/main/mock/server.ts:1060 | the bytes an id is written as are its code points in UTF-8, as few for each as have room for it |
| SseResume.StartsFromTheTop | src/shared/mock-sse-blocks.ts:97-116 | a list that loops, is not resumable or has a template id starts from the top, and so does a missing or empty header |
| SseResume.GoesOnBehind | src/shared/mock-sse-blocks.ts:117-121 | otherwise the stream goes on behind the first block with that id, and has finished exactly when that is the last block; an id no block has starts from the top |
| SseResume.HoldsWhatIsRead | src/shared/mock-sse-blocks.ts:56-70 | what a reader holds behind a block is what reading its lines leaves, line by line |
| SseResume.SafeIffAllLeadBack | src/shared/mock-sse-blocks.ts:109-122 | every run of connects, drops and reconnects skips nothing and is told `finished` only when it was all delivered, if and only if some id is a template or each block's id, once it arrives, is empty, unknown, or first borne by a block no later than that one |
| SseResume.CursorSound | src/shared/mock-sse-blocks.ts:109-122 | when all ids lead back so, a resumed connection starts at most behind what was delivered |
| SseResume.NothingSkipped | src/shared/mock-sse-blocks.ts:109-122 | and over every run the delivered blocks are exactly a prefix that never shrinks |
| SseResume.FinishedMeansAll | src/shared/mock-sse-blocks.ts:109-122 | and a finished answer means every block was delivered |
| SseResume.SpaceSkips | src/shared/mock-sse-blocks.ts:62-63 | three blocks with different ids, the first with a second space in front: dropped behind the first block, the reader is told that it has seen everything |
| SseResume.ExactlyOnceIff | src/shared/mock-sse-blocks.ts:109-122 | every run delivers each block exactly once and in order if and only if there are none, or no id is a template and each block's id, once it arrives, is not empty and first borne by that very block |
| SseResume.ExactlyOnce | src/shared/mock-sse-blocks.ts:109-122 | under that condition no run repeats or leaves out a block |
| SseResume.DistinctPlainLeadHome | src/shared/mock-sse-blocks.ts:109-122 | distinct ASCII ids without white space around them meet it, unless a byte order mark hides the first |
| CommandLine.TokenizeCommandLine | src/shared/mcp-call.ts:377-404 | the character loop computes the specified tokens |
| CommandLine.ParseCommandLine | src/shared/mcp-call.ts:406-409 | the first token of the trimmed line is the command, the others are its arguments |
| CommandLine.ScanQuotedToken | src/shared/mcp-call.ts:411-422 | whatever a token holds (nothing, spaces, backslashes, both kinds of quotes), the tokenizer reads its quoted form as that one token |
| CommandLine.RoundTrip | src/shared/mcp-call.ts:377-427 | parsing a joined command line gives the command and its arguments, for all strings |
| CommandLine.JoinThenParse | src/shared/mcp-call.ts:406-427 | the same of the operations themselves |
| CommandLine.ParsedSpread | src/shared/mcp-call.ts:377-409 | quoted tokens with any white space in front, between and behind them are read as those tokens, and no others |
| CommandLine.ParsedBlank | src/shared/mcp-call.ts:377-409 | a line of white space has no tokens |
| CommandLine.WordsAreThemselves | src/shared/mcp-call.ts:411-422 | a word without white space and quotes is written as it is |
| JsText.SpaceIff | src/shared/mcp-call.ts:394 | white space is the white space and line terminators of ECMAScript, by code point |
| BackupNames.NameReadsBack | src/main/db/pre-migration-backup.ts:65-66 | a backup's name is read back as its label and timestamp, dots in the label included |
| BackupNames.PatternIff | src/main/db/pre-migration-backup.ts:65-66 | a name is read as a label and a time if and only if it matches the pattern, character by character, with these groups |
| BackupNames.LabelAt | src/main/db/pre-migration-backup.ts:77-79 | the label is `<version>-<build>` with every character outside the class replaced by `_` |
| BackupNames.PartialNeverCounts | src/main/db/pre-migration-backup.ts:65-66 | no name ending in `.partial` is a backup's |
| BackupNames.LabelsCanCollide | src/main/db/pre-migration-backup.ts:77-79 | with a dash in a build id, which no build of the app has, two different builds could share a label |
| BackupNames.LabelsTellBuildsApart | electron.vite.config.ts:20-31 | builds with safe characters and no dash in the build id, as the build script makes them, share a label only if they are the same |
| PreMigrationBackup.UserData.ListBackups | src/main/db/pre-migration-backup.ts:108-118 | every regular file whose name parses, once, in no particular order |
| PreMigrationBackup.NewestFirst | src/main/db/pre-migration-backup.ts:122 | sorted by timestamp, newest first, nothing lost |
| PreMigrationBackup.UserData.PruneBackups | src/main/db/pre-migration-backup.ts:121-129 | however far deletion gets, the `keep` newest stay and no kept copy is older than a deleted one; a complete pruning keeps exactly those |
| PreMigrationBackup.UserData.TakeCopy | src/main/db/pre-migration-backup.ts:227-256 | copy, seal, rename, prune with a failure or crash at any step: at most the partial file differs, or one sealed copy of the live database is in place |
| PreMigrationBackup.UserData.BackupBeforeMigration | src/main/db/pre-migration-backup.ts:194-269 | which outcome is reported exactly when, and what it did to the folder: too little space if and only if the probe says less than twice the database and its log plus 50 MiB, a copy if and only if each step works, and whatever else fails is a failure or a crash |
| PreMigrationBackup.UserData.QuarantineCorruptDb | src/main/db/database.ts:76-89 | the three renames, each of which may fail: which files are aside under one timestamp and which still lie in place |
| PreMigrationBackup.UserData.OpenOrRecover | src/main/db/database.ts:143-157 | opening succeeds exactly when the first attempt does, or a corrupt file and its sidecars were moved aside and the fresh one opens; database, sidecars and what lies aside are fixed in every case |
| PreMigrationBackup.UserData.InitDatabase | src/main/db/database.ts:129-180 | a whole start: backup, open and migrate, quarantine, marker, in that order, with the marker written only at the end |
| BackupRuns.KeepsCopies | src/main/db/pre-migration-backup.ts:30-32 | no start, however it ends, leaves fewer than the smaller of three and the copies it found |
| BackupRuns.CopiesAreNotRewritten | src/main/db/pre-migration-backup.ts:194-269 | a start adds or deletes copies; what one holds is never written again |
| BackupRuns.AtMostThree | src/main/db/pre-migration-backup.ts:121-129 | a copy made and pruned without error leaves at most three, and exactly three or one more than before |
| BackupRuns.StaysSound | src/main/db/pre-migration-backup.ts:22-29 | every copy is a whole file, and sealed when each start had a keychain; a crash in the middle of a copy leaves none |
| BackupRuns.StaysWhileNewest | src/main/db/pre-migration-backup.ts:121-129 | a copy with fewer than three others as new, counting the one this start may take, stays as it is |
| BackupRuns.NewCopySurvives | src/main/db/pre-migration-backup.ts:253-256 | with fewer than three copies at or after this start's time the new copy survives its own pruning and holds the live database |
| BackupRuns.NewCopySurvivesIff | src/main/db/pre-migration-backup.ts:121-129 | when no copy bears this start's time that is exactly when it survives a complete pruning |
| BackupRuns.ThreeNewerPushOut | src/main/db/pre-migration-backup.ts:121-129 | with three copies of a later time the new one is always gone after a complete pruning |
| BackupRuns.TieGoesEitherWay | src/main/db/pre-migration-backup.ts:121-129 | in between, when copies of the very same time make up the three, a complete pruning that keeps the new copy and one that deletes it are both possible |
| BackupRuns.PushedOut | src/main/db/pre-migration-backup.ts:253-256 | three copies with times 5, 6 and 7 and a start at time 4: its copy is taken and deleted again |
| BackupRuns.MigrationIsCovered | src/main/db/database.ts:129-147 | migrations of a new build reach an existing database only with a copy under its label in place, or after a reported failure |
| BackupRuns.RunKeepsCopies | src/main/db/pre-migration-backup.ts:194-269 | over any sequence of starts of any builds the copies never become fewer than the smaller of three and the first count |
| BackupRuns.OwnCopyFreezes | src/main/db/pre-migration-backup.ts:18-21 | once a copy with a build's label exists, starts of that label leave the folder as it is |
| BackupRuns.CopyOutlivesRun | src/main/db/pre-migration-backup.ts:121-129 | a copy outlives every run that takes too few newer ones |
| BackupRuns.ForwardClockTicks | src/main/db/pre-migration-backup.ts:227 | a clock that only goes forward is ahead of every copy at every start |
| BackupRuns.CleanCopyStays | src/main/db/pre-migration-backup.ts:18-21 | the database a new build found stays in its copy while only that build starts, however often it fails, and until three more copies were taken |
| BackupRuns.MarkerIsLastRecorded | src/main/db/pre-migration-backup.ts:94-100 | the marker names the last build that opened, migrated and wrote it |
| BackupRuns.AsideIsKept | src/main/db/database.ts:68-89 | a file moved aside is never lost to a later start |
| BackupRuns.SidecarsAsideStay | src/main/db/database.ts:68-89 | nor are sidecars, even when files are moved aside twice at one timestamp |
| BackupRuns.FreshIsAlone | src/main/db/database.ts:68-89 | a quarantine that works leaves no `-wal` or `-shm` file beside the database created next |
| BackupRuns.OrphanedIff | src/main/db/database.ts:68-89 | a start leaves sidecars without their database if and only if it got to renaming them and one of those two renames failed after the first had worked |
| BackupRuns.StuckThrows | src/main/db/database.ts:143-157 | such a start never goes on; when it throws, the database is aside and a sidecar lies where the next start creates a fresh one |
| Splitting.JoinOfSplit | src/shared/assertions-to-script.ts:276 | joining what was split gives the text back |
| Splitting.SplitOfJoin | src/shared/assertions-to-script.ts:249 | splitting what was joined gives the parts back |
| AssertionScript.StripBlock | src/shared/assertions-to-script.ts:291-306 | one block without the rows to strip, or nothing when no row is left |
| AssertionScript.StripExportedAssertions | src/shared/assertions-to-script.ts:274-311 | the line loops compute the specified stripping |
| AssertionScriptLaws.ParsePrint | src/shared/assertions-to-script.ts:274-311 | the parts of a script are found again in what stripping leaves |
| AssertionScriptLaws.StripTwice | src/shared/assertions-to-script.ts:274-311 | stripping is idempotent on any text whatever |
| AssertionExport.AssertionsToScript | src/shared/assertions-to-script.ts:237-250 | writes the block of the enabled rows |
| AssertionExport.BlockRemains | src/shared/assertions-to-script.ts:291-306 | a row goes if and only if its trimmed kind is to be stripped; frame, helper and the other rows stay, in order |
| AssertionExport.ExportThenStrip | src/shared/assertions-to-script.ts:257-311 | stripping an exported script leaves the block of the other rows and the user's part as stripping that part alone would |
| AssertionExport.UserScriptComesBack | src/shared/assertions-to-script.ts:257-311 | a user's script without a begin marker comes back: minus its leading blank lines when every row went, untouched otherwise |
| AssertionExport.NothingLeft | src/shared/assertions-to-script.ts:257-311 | without a user's script the result is empty if and only if every row went |
| AssertionLines.MarkIs | src/shared/assertions-to-script.ts:280-297 | a line is a begin or end marker if and only if it is the marker's text with nothing but white space around it, and a tag of a kind if and only if it is the tag with that kind behind it, trimmed |
| AssertionLines.SwitchedOff | src/shared/assertions-to-script.ts:233-241 | a row that is switched off leaves no trace in the script |
| AssertionLines.SwitchedOn | src/shared/assertions-to-script.ts:237-250 | rows that are all switched on are written in order, two lines each, inside the frame; the JSON path helper is there exactly when some row needs it |
| AssertionLines.ScriptIs | src/shared/assertions-to-script.ts:257-266 | the block goes in front of the user's script on lines of its own; without a row that is switched on the script is the user's alone, and a blank one is none |
| JsText.IncludesIff | src/shared/assertions-to-script.ts:275 | a script includes the marker exactly when it is that marker with something in front and behind |
| GitChanges.KeysTellRowsApart | src/shared/git-changes.ts:50-52 | a key stands for one kind and one row id |
| GitChanges.WithRequiredChanges | src/shared/git-changes.ts:59-70 | the least set with the known keys that is closed under what its members require, on cyclic requirements too |
| GitChanges.WithDependentChanges | src/shared/git-changes.ts:73-91 | the least set with the keys that holds whatever requires one of its members |
| GitChanges.ClosedSelectionStays | src/shared/git-changes.ts:54-58 | a closed selection is left as it is |
| GitChanges.UncheckingKeepsClosed | src/shared/git-changes.ts:72-91 | removing any keys with their dependents from a closed selection leaves a closed one |
| GitChanges.DirectionsAgreeIff | src/shared/git-changes.ts:59-91 | on any list of changes: one known change goes with another exactly when it brings it along, for all pairs, if and only if whatever an item requires is reached from the item that counts for its row |
| GitChanges.SameNeedsAreBacked | src/main/lib/project-changes.ts:191-194 | that holds of every list in which items of one row require the same, which is what a project's changes are |
| GitChanges.DependentIffRequired | src/shared/git-changes.ts:59-91 | so for a project's changes one is a dependent of another if and only if it requires it, transitively |
| GitChanges.UnbackedList | src/shared/git-changes.ts:60 | on a list made by hand, in which two items of one row require different things, the directions part |
| JsonWithVars.SwapVars | src/shared/json-with-vars.ts:25-55 | the character loop computes the swapped text and the list of placeholders |
| JsonWithVars.PiecesAreText | src/shared/json-with-vars.ts:29-55 | the scan loses nothing and adds nothing |
| JsonWithVars.StringIsVerbatim | src/shared/json-with-vars.ts:31-45 | a JSON string literal goes through unaltered, placeholders and escapes inside included |
| JsonWithVars.ScanFindsPlaceholders | src/shared/json-with-vars.ts:29-56 | on positions of the text: every placeholder collected starts with `{{` outside a string literal and ends at the first `}}` behind it, and no `{{` outside a literal that some `}}` follows is left as plain characters |
| JsonWithVars.TokenText | src/shared/json-with-vars.ts:22-50 | the tokens of the first and the thirteenth placeholder, written out |
| JsonWithVars.RestoreFills | src/shared/json-with-vars.ts:64-66 | wherever tokens stand in a text without other marks, each is replaced by its own placeholder and nothing else changes |
| JsonWithVars.RestoreToken | src/shared/json-with-vars.ts:64-66 | in any text, a token is replaced by the placeholder its digits count to, or stays when there is none |
| JsonWithVars.RestoreChar | src/shared/json-with-vars.ts:64-66 | in any text, a character at which no token begins is kept |
| JsonWithVars.SwapThenRestore | src/shared/json-with-vars.ts:25-68 | for text without the mark, restoring the swapped text gives the text back |
| HistoryMask.NextRows | src/main/db/history-mask-migration.ts:116-124 | the next rows by rowid, none left out |
| HistoryMask.NextBatchIds | src/main/db/history-mask-migration.ts:69-79 | a batch is never empty while rows remain, stays under the byte cap unless it is one row, and is as long as it can be |
| HistoryMask.MaskBatch | src/main/db/history-mask-migration.ts:132-161 | one transaction masks exactly the rows of its range, counts the changed ones and reports the ones it cannot mask |
| HistoryMask.HistoryDb.MaskTable | src/main/db/history-mask-migration.ts:115-224 | with others inserting masked rows or deleting rows at each pause, and an end at any point: every row is as it was, masked, or somebody's masked text; a completed pass leaves every row masked or reported; the pass ends early only when it is interrupted, a batch is rolled back or the process ends, and with nobody interfering each batch is as large as the limits allow |
| HistoryMask.HistoryDb.RunHistoryMaskMigration | src/main/db/history-mask-migration.ts:230-267 | the marker is written only after both tables, a marked database is left alone, and `skipped` counts the reported rows: every row a pass got to and could not mask, all of them when the marker was written, no other when nobody interferes, and those a transaction reported before it failed and was rolled back; a pass that is not cut short goes on to the end: with a scrubber, no marker and nobody interfering, as many pauses as rows are enough to mask every row of both tables and write the marker |
| HistoryMask.MarkerMeansMasked | src/main/db/history-mask-migration.ts:11-14 | over any launches and other writers: once the marker is there every row that can be masked is |
| HistoryMask.NothingElseIsWritten | src/main/db/history-mask-migration.ts:11-14 | over the same runs a row is only ever its first text, that text masked, or somebody's masked text |
| HistoryMask.TwoPassesAreOne | src/main/db/history-mask-migration.ts:11-14 | an interrupted pass and a full one leave the same table as one full pass, with the same number of changed rows in all |
| HistoryMask.LaunchTwice | src/main/db/history-mask-migration.ts:230-267 | the same for both tables and the marker |
| ConversationSplice.ParseOfStringify | src/main/db/ai-conversation.repo.ts:61-67 | the text of an array of turns is read back as those turns |
| JsonValues.ValueIsElement | src/main/db/ai-conversation.repo.ts:147-176 | the text of any JSON value (RFC 8259), however it nests and whatever its strings hold, is one array element |
| JsonValues.ArrayReadsBack | src/main/db/ai-conversation.repo.ts:61-67 | an array of JSON values is read back as the texts of those values, none cut and none run together |
| JsonValues.OnlyArraysAreRead | src/main/db/ai-conversation.repo.ts:61-67 | a text that is read is its elements between brackets and commas, with the strings and brackets of each closed |
| ConversationSplice.SpliceIsStringify | src/main/db/ai-conversation.repo.ts:215-222 | the SQL splice is character by character the text of the concatenation, for an empty stored array too |
| ConversationSplice.SpliceSize | src/main/db/ai-conversation.repo.ts:213 | the spliced text is no longer than both texts together |
| ConversationSplice.RTrimIsFront | src/main/db/ai-conversation.repo.ts:217-218 | `rtrim` drops the spaces at the end and nothing else |
| ConversationSplice.Utf8SizeIsLeast | src/main/db/ai-conversation.repo.ts:212-213 | a character is counted with the fewest UTF-8 bytes that have room for it |
| ConversationSplice.Extend | src/main/db/ai-conversation.repo.ts:203-240 | the new text of a row is the JSON text of an array and holds all turns, or the trimmed ones past the cap; the reported count is its real length; it is under the cap if and only if everything fitted or the trimmed turns do |
| ConversationSplice.ConversationTable.Create | src/main/db/ai-conversation.repo.ts:147-176 | a new row is the JSON text of an array with the given turns, or the trimmed ones, under the cap if and only if one of the two is |
| ConversationSplice.ConversationTable.Append | src/main/db/ai-conversation.repo.ts:196-243 | an append changes one row only, whose text then is an array's, an unreadable row's and one over the cap too, under the cap on the same condition; the returned count is the real length |
| ConversationSplice.SplicesAreOneStringify | src/main/db/ai-conversation.repo.ts:189-195 | any number of splices give the text and count of the conversation written at once |
| ChatTurns.StreamInvariant | src/shared/ai-chat-turns.ts:27-60 | for every interleaving of text deltas and other parts: content equals the joined text parts equals all deltas in order, no two text parts are neighbours, none is empty, and no identity occurs twice |
| ChatTurns.SlotShowsLastSent | src/shared/ai-chat-turns.ts:45-60 | a slot exists exactly when something was sent for it, and shows what was sent last |
| ChatTurns.OneDelta | src/shared/ai-chat-turns.ts:36-43 | text grows the text at the end of the list or opens one there; nothing else moves |
| ChatTurns.OneUpsert | src/shared/ai-chat-turns.ts:54-60 | a part takes the place of the part with its id, or goes to the end when there is none; nothing else moves |
| ChatTurns.LastOfItsIdIsShown | src/shared/ai-chat-turns.ts:45-60 | what was sent last under an id is in the list, and no id is there twice |
| ChatSanitize.CappedTwice | src/shared/ai-chat-turns.ts:19-25 | capping a capped text changes nothing |
| ChatSanitize.SumOf | src/shared/ai-chat-turns.ts:69-79 | the sum over the reporting calls that have the number |
| ChatSanitize.SumTurnMetrics | src/shared/ai-chat-turns.ts:63-101 | totals over the reporting calls; partial exactly when some reported and some did not |
| ChatSanitize.SanitizeTurns | src/shared/ai-chat-turns.ts:229-268 | the loop computes the specified list |
| ChatSanitize.TurnsAreTidy | src/shared/ai-chat-turns.ts:229-268 | whatever was handed in, what is stored is capped, has recomputed totals, joined content, and nothing left waiting |
| ChatSanitize.TurnsReadBack | src/shared/ai-chat-turns.ts:229-268 | turns that are so are read back exactly as they were written, none dropped |
| ChatSanitize.StoredIsReadBack | src/shared/ai-chat-turns.ts:225-268 | whatever was handed in, sanitizing what was stored gives what was stored, metrics and caps included |
| ChatSanitize.CallStatus | src/shared/ai-chat-turns.ts:165-170 | a call waiting for approval or running is stored as failed, approved, denied and done as they are, and any other status as failed |
| ChatSanitize.CardStatus | src/shared/ai-chat-turns.ts:214-216 | a pending card is stored as skipped, a trusted one as trusted, and any other status as none |
| ChatSanitize.CardKind | src/shared/ai-chat-turns.ts:192-193 | three kinds of notice are known; one of another kind is dropped |
| ChatSanitize.CapKeeps | src/shared/ai-chat-turns.ts:19-25 | a text is kept up to 32 000 characters, and one that is longer is cut there and ends in the note |
| ChatSanitize.CutKeeps | src/shared/ai-chat-turns.ts:156 | a bounded field keeps as much of its text as fits, and is left out when it is no text |
| ChatSanitize.OneCallIsItsOwnTotal | src/shared/ai-chat-turns.ts:63-101 | the totals of one call that reported are its own numbers, each under its own name |
| ChatSanitize.MissingFields | src/shared/ai-chat-turns.ts:144-268 | what an object without any of the fields is read as |
| ChatSanitize.UnknownTypeIsDropped | src/shared/ai-chat-turns.ts:160-223 | a part of an unknown type is dropped, whatever else it holds |
| ChatSanitize.JunkIsDropped | src/shared/ai-chat-turns.ts:203-259 | an element of the wrong kind, anywhere in a list, leaves the rest of the list as it is |

## Left out

- ConversationSplice.Extend: takes the trimmed conversation as given; `capConversation` keeps the newest two turns whatever their size, so a row can stay over the cap. Rows with tabs, line breaks or leading white space around the array, which this code never writes, are outside the model.
- HistoryMask.HistoryDb.RunHistoryMaskMigration: an `UPDATE` that fails for one row alone, which the source reports like a row it cannot mask, is not modelled; a failing statement ends its transaction.
- HistoryMask.HistoryDb.MaskTable: the scrubber is a map from texts to masked texts that is idempotent; the three snapshot columns of a history row are one text, and rows with a rowid below 1 are not visited, as in the query.
- ChatTurns.StreamInvariant: text parts reach a turn through deltas only; `upsertPart` of a text part would put two of them side by side.
- ChatSanitize.StoredIsReadBack: numbers are finite reals, so rounding of token sums is not modelled; object fields the code does not look at are dropped.
- JsonWithVars.SwapThenRestore: `JSON.parse` and re-serialising in between are not part of this model; `RestoreFills` covers any text they may give.
- SseResume.SafeIffAllLeadBack: a byte order mark is dropped from the first block of the list only, not from a later one a reconnect happens to start with; ids with control characters, which an HTTP parser may refuse, are taken to arrive.
- PreMigrationBackup.UserData.InitDatabase: file modes and timestamps beyond 2^53 are not modelled; a number stands for the content of the database, and what SQLite makes of a stale sidecar is not part of this model.
- AssertionExport.ExportThenStrip: the text of a row's `pm.test` line and of the JSONPath helper is given; only how such lines begin, and that they hold no line break, is used.
- `updateFolderSettings`, `renameFolder`, `bulkInsertItems`: writes of columns no tree operation reads, and inserts like `createItem`. Suite rows are their ids; importing and restoring whole suites (`save.handler.ts`) is not part of this model.
- `hexdump`, `decodeBinary`, `formatElapsed` and the settings readers of `realtime.ts`: one-way formatting and one-branch facts.
- `dereferenceLocalRefs` and `sweepRefs`: they wrap a parser library that is not part of this model.
- `capConversation`, the scrubbers, sealing of secrets, the free-space probe, `VACUUM`, SQLite and the file system: atomic steps with a chosen outcome, or values with the contract a property needs.
- `historyAsText`, `listByOwner`, `rename`, `rehome`: filters and single-column updates that would add easy members only.
- The other checks, logging and error texts of the IPC handlers; the text of the backup notice; how the marker file is parsed (an unreadable one is no marker).
