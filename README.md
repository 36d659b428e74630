# kanbox, modelled in Dafny

kanbox is a Trello-like board application: workspaces hold boards, boards hold lists, lists
hold cards. Lists within a board and cards within a list are ordered by opaque string keys
(fractional indices). An item is placed at an index by generating a key strictly between the
keys of its future neighbours. This project models the core of the application and proves
properties of it:

- **position keys** (`positions.dfy`): JavaScript string `<` and the generator
  `generateKeyBetween`. It also models `sortByPosition`, `calculateNewPosition` and
  `generateInitialPositions`. The main theorem is that the key computed for `targetIndex`
  gives the item rank `clamp(targetIndex, 0, n)` among its siblings.
- **backend services** (`card_service.dfy`, `list_service.dfy`, `board_service.dfy`,
  `workspace_service.dfy`, `copy_rules.dfy`, over the in-memory store of `db.dfy`):
  - each service is a function from the store to its result and the new store;
  - the `Store` class (`store.dfy`) holds the collections as fields, and its methods update
    them step by step;
  - each method is proved to produce exactly what its service function gives, and to keep
    ids unique.
- **HTTP layer** (`board_controller.dfy`, `error_handler.dfy`): the board controller's
  query parsing and status mapping, and the error middleware's classification chain.
- **request schemas** (`schemas.dfy`): the zod schemas as predicates on JSON values.
- **client state** (`board_reducer.dfy`, `workspace_reducer.dfy`, `user_reducer.dfy`,
  `board_selectors.dfy`, `workspace_selectors.dfy`, `dnd.dfy`): the reducers, the
  selectors, and drag-and-drop list reordering.

Shared pieces:

- `wrappers.dfy`: `Option` and `Result`.
- `seqs.dfy`: filter, map, find and insertion sort, with their lemmas.
- `text.dfy`: UTF-16 length, `trim`, and `split`/`join`.
- `documents.dfy`: the documents (workspace, board, list, card, user and their
  sub-documents).

Two pieces are assumptions rather than code:

- **`generateKeyBetween`**, from the `fractional-indexing` package. Its notion of a valid key
  is modelled as the package defines it:
  - the head letter fixes the length of the integer part ("a" 2 up to "z" 27, "Z" 2 down
    to "A" 27);
  - every character is a base-62 digit;
  - the fraction after the integer part does not end in "0";
  - the key is not the smallest integer, "A" followed by 26 zeros.

  So "a0" and "a1" are valid, and "b" and "a10" are not. The generator itself is one
  concrete key function with the package's contract:
  - with no bounds it returns "a0", as the package does;
  - the result is a valid key strictly between the bounds, and a missing bound means
    unbounded;
  - it fails on an invalid key or on bounds out of order.

  The keys it picks inside the bounds need not be the package's.
- **`backend/src/services/position-service.js`**, which is not part of this model. The
  backend services import `calculateNewPosition` from it. The model assumes it behaves as the
  frontend's `calculateNewPosition`.

## Model

| member | source | states |
|---|---|---|
| Positions.GenerateKeyBetween | frontend/src/services/fractional-index-service.js:1 | succeeds exactly on valid, ordered bounds; the key is valid and strictly between the given bounds; an absent bound is unbounded |
| Positions.KeyExamples | frontend/src/services/fractional-index-service.js:42-44 | with no bounds the key is "a0"; "a0", "a1" and "Zz" are valid; "b", "z" and "a10" are not; keys below and above "a0" exist |
| Positions.IntegerLength | frontend/src/services/fractional-index-service.js:1 | the integer part a head letter announces is 2 to 27 characters long, 27 exactly for "A" and "z" |
| Positions.KeyBelow | frontend/src/services/fractional-index-service.js:16-18 | a valid key strictly below any valid key |
| Positions.KeyAbove | frontend/src/services/fractional-index-service.js:20-22 | a valid key strictly above any valid key, the key with "V" appended |
| Positions.KeyInside | frontend/src/services/fractional-index-service.js:24-26 | a valid key strictly between two ordered valid keys |
| Positions.KeyInsideExtension | frontend/src/services/fractional-index-service.js:24-26 | when the lower key is a prefix of the upper one, a valid key strictly between them |
| Positions.FractionBelow | frontend/src/services/fractional-index-service.js:16-26 | a non-empty digit string not ending in "0" and strictly below the given fraction |
| Positions.SmallestBelow | frontend/src/services/fractional-index-service.js:16-18 | the smallest integer followed by "V" lies below every valid integer key |
| Positions.SmallestAndVValid | frontend/src/services/fractional-index-service.js:16-18 | the smallest integer followed by "V" is a valid key |
| Positions.ExtendValid | frontend/src/services/fractional-index-service.js:16-26 | a valid key cut after its integer part and extended by a fraction not ending in "0" stays valid |
| Positions.PositionAtStart | frontend/src/services/fractional-index-service.js:16-18 | succeeds exactly for a valid key and returns a valid key strictly below it |
| Positions.PositionAtEnd | frontend/src/services/fractional-index-service.js:20-22 | succeeds exactly for a valid key and returns a valid key strictly above it |
| Positions.PositionBetween | frontend/src/services/fractional-index-service.js:24-26 | succeeds exactly for valid ordered bounds and returns a valid key strictly between them |
| Positions.LessTotal | frontend/src/services/fractional-index-service.js:62-63 | JS string `<` orders any two different keys one way or the other |
| Positions.LessTransitive | frontend/src/services/fractional-index-service.js:62-63 | JS string `<` is transitive |
| Positions.PositionLeIsTotalPreorder | frontend/src/services/fractional-index-service.js:61-65 | the comparator of `sortByPosition` is a total preorder |
| Positions.SortByPosition | frontend/src/services/fractional-index-service.js:60-66 | the sorted copy has the input's length |
| Positions.SortByPositionStable | frontend/src/services/fractional-index-service.js:60-66 | the sort is stable: items sharing a key keep their input order |
| Seqs.SortWithStable | frontend/src/services/fractional-index-service.js:61 | elements the comparator ranks level keep their input order |
| Positions.SortByPositionSorted | frontend/src/services/fractional-index-service.js:60-66 | the sorted copy is a permutation of the input, no key follows a smaller one, and sorting again changes nothing |
| Positions.SortByPositionAscending | frontend/src/services/fractional-index-service.js:60-66 | with distinct keys the sorted copy is strictly ascending |
| Positions.AscendingUnique | frontend/src/services/fractional-index-service.js:60-66 | two strictly ascending arrangements of the same items are equal |
| Positions.AscendingSortsToItself | frontend/src/services/fractional-index-service.js:60-66 | a strictly ascending sequence sorts to itself |
| Positions.SortByPositionPermutation | frontend/src/services/fractional-index-service.js:60-66 | well-keyed items sort to the same sequence whatever order they arrive in |
| Positions.Relevant | frontend/src/services/fractional-index-service.js:36-38 | without a moved id the items are unchanged; with one, exactly the items with other ids remain, and no item is added |
| Positions.Clamp | frontend/src/services/fractional-index-service.js:46-52 | the rank lies in `[0, n]` and equals `targetIndex` strictly inside that range |
| Positions.KeyAtRankNeighbours | frontend/src/services/fractional-index-service.js:42-57 | with valid ordered neighbours of the target slot, the key succeeds, is valid and lies between them |
| Positions.KeyAtRankSplits | frontend/src/services/fractional-index-service.js:42-57 | over strictly ascending valid keys, the key succeeds, is above the first `clamp(targetIndex)` keys and below all others |
| Positions.SortedSiblings | frontend/src/services/fractional-index-service.js:36-40 | the siblings considered, once sorted, are a strictly ascending permutation of well-keyed items |
| Positions.CalculateNewPositionRank | frontend/src/services/fractional-index-service.js:35-58 | over well-keyed items the key succeeds, is valid, is above exactly the first `clamp(targetIndex, 0, n)` sorted siblings (moved item left out) and below the rest |
| Positions.CalculateNewPositionInserts | frontend/src/services/fractional-index-service.js:35-58 | an item given that key sorts to index `clamp(targetIndex, 0, n)` of the siblings, the others in their old order |
| Positions.NewKeyIsFresh | frontend/src/services/fractional-index-service.js:35-58 | the computed key equals no existing sibling key |
| Positions.ReplaceInGroupPlaces | frontend/src/services/fractional-index-service.js:35-38 | moving an item inside its own group with the key computed without it puts it at the clamped rank among the others |
| Positions.ChainedAscending | frontend/src/services/fractional-index-service.js:3-14 | keys generated each after the previous one are valid and strictly ascending |
| Positions.GenerateInitialPositions | frontend/src/services/fractional-index-service.js:3-14 | returns `max(count, 0)` keys, each generated after the previous one; all valid and strictly increasing |
| Dnd.RemoveAt | frontend/src/services/dnd-service.js:46 | `splice(i, 1)`: one shorter, elements after `i` shifted down |
| Dnd.InsertAt | frontend/src/services/dnd-service.js:47 | `splice(j, 0, x)`: one longer, `x` at `j`, the others shifted around it |
| Dnd.MovedPermutation | frontend/src/services/dnd-service.js:45-47 | the reordered lists have the same length and the same elements, as often as before |
| Dnd.MovedKeepsOthers | frontend/src/services/dnd-service.js:46-47 | the moved list lands at the destination and the other lists keep their relative order |
| Dnd.MovedUndo | frontend/src/services/dnd-service.js:45-47 | moving back from the destination to the source restores the input |
| Dnd.SpliceOut | frontend/src/services/dnd-service.js:46 | returns the element at `i` and closes the gap in the array |
| Dnd.SpliceIn | frontend/src/services/dnd-service.js:47 | opens a slot at `j` in the array and writes `x` there |
| Dnd.ReorderLists | frontend/src/services/dnd-service.js:35-53 | throws "Invalid source or destination index" exactly when an index is outside `[0, length)`; otherwise returns the moved lists, the list moved, and the ids before and after the destination (or null at the ends); the caller's array is untouched |
| Dnd.ReorderCards | frontend/src/services/dnd-service.js:11-26 | returns a card with the dragged id, or throws "Card not found" exactly when there is none |
| Database.FindCard | backend/src/services/card-service.js:93-94 | `findById`: the first card with that id, or none exactly when no card has it |
| CardService.ListCards | backend/src/services/card-service.js:13 | `Card.find({ listId })` holds only cards of that list |
| CardService.FindComment | backend/src/services/card-service.js:115-116 | `comments.id(...)`: the first comment with that id, or none exactly when no comment has it |
| CardService.FindAttachment | backend/src/services/card-service.js:247-248 | the first attachment with that id, or none exactly when no attachment has it |
| CardService.CreateCardStores | backend/src/services/card-service.js:9-24 | stores exactly one new card with a fresh id and the given board, list, title and description, with nothing else set; ids stay unique |
| CardService.CreateCardPlacesLast | backend/src/services/card-service.js:12-15 | the new key is above every key in the list, and the sorted list is the old sorted list followed by the new card |
| CardService.ListCardsAppend | backend/src/services/card-service.js:13-16 | a stored card appears at the end of its own list's cards |
| CardService.MoveCardValidationOrder | backend/src/services/card-service.js:50-63 | fails with 404 board, then 404 list, then 400 foreign list, in that order; a failure or an unknown card writes nothing |
| CardService.MoveCardIgnoresOwnPosition | backend/src/services/card-service.js:65-72 | the moved card's current position has no influence on the result |
| CardService.MoveCardPlaces | backend/src/services/card-service.js:65-78 | only `position`, `listId` and `boardId` of the card change; in the target list it sits at index `clamp(targetIndex)` among the other cards, in position order |
| CardService.AddCommentEffect | backend/src/services/card-service.js:92-109 | 404 for an unknown card; otherwise appends one comment with the trimmed text, the user as author, not edited, a fresh id; nothing else changes |
| CardService.DeleteAfterAddComment | backend/src/services/card-service.js:92-139 | deleting the comment just added restores the card |
| CardService.UpdateCommentEffect | backend/src/services/card-service.js:111-126 | 404 for a missing card or comment, writing nothing; otherwise stores the trimmed text and marks the comment edited only when the text changed; other comments unchanged |
| CardService.UpdateCommentIdempotent | backend/src/services/card-service.js:111-126 | repeating the same update changes nothing more |
| CardService.DeleteCommentEffect | backend/src/services/card-service.js:128-139 | 404 for a missing card or comment; otherwise removes every comment with that id and keeps the rest in order |
| CardService.AddAttachmentNeedsUrl | backend/src/services/card-service.js:226-228 | a missing or empty url is a 400 before the card is looked up, writing nothing |
| CardService.AddAttachmentEffect | backend/src/services/card-service.js:226-241 | appends one attachment with trimmed url, name and public id (defaults "") under a fresh id; nothing else changes |
| CardService.RemoveAfterAddAttachment | backend/src/services/card-service.js:226-254 | removing the attachment just added restores the card |
| CardService.RemoveAttachmentEffect | backend/src/services/card-service.js:243-254 | 404 for a missing card or attachment; otherwise removes every attachment with that id, keeps the other attachments and shortens the list |
| CardService.AddCardAssigneeEffect | backend/src/services/card-service.js:150-188 | succeeds exactly when card, board and user exist, the user is a board member and not yet assigned; appends the user's snapshot; failures write nothing |
| CardService.AddCardAssigneeTwice | backend/src/services/card-service.js:165-170 | assigning the same user again is a 400 and writes nothing |
| CardService.TargetBoardLookup | backend/src/services/card-service.js:272-277 | no target board id: no lookup; a loaded board is a stored board |
| CardService.CopyCard | backend/src/services/card-service.js:256-345 | only cards and the id counter change |
| CardService.CopyCardFailures | backend/src/services/card-service.js:267-277 | 404 for a missing source card, then 404 for a supplied target board that does not exist; failures write nothing |
| CardService.CopyCardWrites | backend/src/services/card-service.js:267-345 | stores exactly one new card built by the carry-over rules, in the target list (default the source's), at index `clamp(targetIndex)` (default last) in position order; ids stay unique |
| CardService.WriteCopyAt | backend/src/services/card-service.js:279-331 | with the key found, the copy built by the carry-over rules is appended under a fresh id |
| CardService.WriteCopySucceeds | backend/src/services/card-service.js:279-345 | on a well-keyed target list the write succeeds, appends the copy, and its copied comments follow it in id order |
| CardService.WriteCopyStores | backend/src/services/card-service.js:279-345 | the copy's id was never handed out and ids stay unique |
| CardService.WriteCopyPlaces | backend/src/services/card-service.js:279-292 | the copy sorts to index `clamp(targetIndex)` (default last) of the target list |
| CardService.CreateCardValid | backend/src/services/card-service.js:9-24 | `createCard` keeps ids unique |
| CardService.MoveCardValid | backend/src/services/card-service.js:50-79 | `moveCard` keeps ids unique |
| CardService.AddCommentValid | backend/src/services/card-service.js:92-109 | `addComment` keeps ids unique |
| CardService.UpdateCommentValid | backend/src/services/card-service.js:111-126 | `updateComment` keeps ids unique |
| CardService.DeleteCommentValid | backend/src/services/card-service.js:128-139 | `deleteComment` keeps ids unique |
| CardService.AddAttachmentValid | backend/src/services/card-service.js:226-241 | `addAttachment` keeps ids unique |
| CardService.PulledAttachment | backend/src/services/card-service.js:243-254 | pulling the id of an attachment just pushed, an id no earlier attachment carries, leaves the earlier ones |
| CardService.RemoveAttachmentValid | backend/src/services/card-service.js:243-254 | `removeAttachment` keeps ids unique |
| CardService.AddCardAssigneeValid | backend/src/services/card-service.js:150-188 | `addCardAssignee` keeps ids unique |
| CardService.CopyCardValid | backend/src/services/card-service.js:256-345 | `copyCard` keeps ids unique |
| CardCopy.CopiedAssigneesExactly | backend/src/services/card-service.js:298-323 | with `copyAssignees`: exactly the source assignees whose user exists and who belong to a loaded target board, in order; without it, none |
| CardCopy.CopiedAssigneesAll | backend/src/services/card-service.js:298-323 | when every assignee passes the filter, all are kept |
| CardCopy.CopiedComments | backend/src/services/card-service.js:333-342 | as many comments as the source, same author and text, not edited, consecutive fresh ids |
| CardCopy.CarryOverMatrix | backend/src/services/card-service.js:286-342 | labels only with `copyLabels` and non-empty labels; dates only with `copyDates`; comments only with `copyComments`; attachments never; title, description, list and board from the options or the source |
| CardCopy.PlainCopy | backend/src/services/card-service.js:286-292 | with no options the copy has the source's title, description, list and board, and nothing else |
| CardCopy.FullCopy | backend/src/services/card-service.js:286-342 | with every flag, the copy equals the source apart from id, position, attachments and fresh unedited comments |
| ListService.BoardListsAppend | backend/src/services/list-service.js:12-19 | a stored list appears at the end of its board's lists |
| ListService.NoCardsInFreshList | backend/src/services/list-service.js:100 | no card belongs to the id handed out next |
| ListService.CreateListSucceeds | backend/src/services/list-service.js:8-21 | a successful create stores the returned list under the next id, with the key for the end of the board |
| ListService.CreateListStores | backend/src/services/list-service.js:8-21 | on a well-keyed board it succeeds and stores one new list with a fresh id, board and title, not archived |
| ListService.CreateListPlacesLast | backend/src/services/list-service.js:11-14 | the new list sorts after every list already on the board |
| ListService.MoveListFailures | backend/src/services/list-service.js:38-54 | 404 for a missing board; an unknown list id is no error and yields null; nothing is written unless a list moves |
| ListService.MoveListIgnoresOwnPosition | backend/src/services/list-service.js:44-47 | the moved list's current position has no influence on the result |
| ListService.MoveListPlaces | backend/src/services/list-service.js:44-53 | only `position` and `boardId` change; the list sits at index `clamp(targetIndex)` among the target board's other lists |
| ListService.ArchiveListEffect | backend/src/services/list-service.js:56-62 | 404 for an unknown list; null and no write when already archived; otherwise only `archivedAt` is set |
| ListService.ArchiveListTwice | backend/src/services/list-service.js:59 | a second archive returns null and keeps the first date |
| ListService.LoopOptions | backend/src/services/list-service.js:109-117 | every carry-over flag set, into the new list on the final board, at index `i` |
| ListService.CopyRounds | backend/src/services/list-service.js:107-118 | the card loop writes only cards and the id counter |
| ListService.CopyListFailures | backend/src/services/list-service.js:76-84 | 404 for a missing source list, then 404 for a different target board that does not exist; failures write nothing |
| ListService.ListCopyDocPlaces | backend/src/services/list-service.js:86-98 | the new list document has the final board, the given title or "<title> (copy)", the source's description, and a key for index `clamp(targetIndex)` (default last) |
| ListService.CopyListWithoutCards | backend/src/services/list-service.js:100-102 | without `copyCards` the new list has no cards and only the list is written |
| ListService.SourceFound | backend/src/services/list-service.js:107-109 | each source card is still found by its id during the loop |
| ListService.RoundAppends | backend/src/services/list-service.js:107-117 | one round appends the copy of source `i`, built with `LoopOptions(i)` |
| ListService.CopyRound | backend/src/services/list-service.js:107-117 | one round appends the copy after the copies so far |
| ListService.RoundKeepsInvariant | backend/src/services/list-service.js:107-118 | the loop invariant holds after appending the next copy |
| ListService.RoundCopies | backend/src/services/list-service.js:107-118 | the copies so far plus the next one are the copies of the first `i + 1` sources |
| ListService.CopyRoundsKeepOrder | backend/src/services/list-service.js:107-118 | from round `i`, every remaining round succeeds and the invariant holds at the end |
| ListService.CopyLoopReady | backend/src/services/list-service.js:100-106 | the loop may start right after `List.create` |
| ListService.CopyListKeepsOrder | backend/src/services/list-service.js:102-124 | with `copyCards` the new list holds the copies of the source cards in their position order; only cards are written; ids stay unique |
| ListService.CopyListUnfolds | backend/src/services/list-service.js:76-124 | past both lookups and the key, the copy creates the list document and fills it |
| ListService.CopyListCopies | backend/src/services/list-service.js:68-124 | succeeds and returns the new list holding in order the copies of the source cards when `copyCards` is set, none otherwise |
| ListService.CopyListPlaces | backend/src/services/list-service.js:86-100 | the new list sits at index `clamp(targetIndex)` (default last) among the final board's lists |
| ListService.CreateListValid | backend/src/services/list-service.js:8-21 | `createList` keeps ids unique |
| ListService.MoveListValid | backend/src/services/list-service.js:38-54 | `moveList` keeps ids unique |
| ListService.ArchiveListValid | backend/src/services/list-service.js:56-62 | `archiveList` keeps ids unique |
| ListService.CopyRoundsValid | backend/src/services/list-service.js:107-118 | each round of the card loop keeps ids unique |
| ListService.FillListCopyValid | backend/src/services/list-service.js:100-124 | filling the new list keeps ids unique, also when a round throws |
| ListService.CopyListValid | backend/src/services/list-service.js:68-125 | `copyList` keeps ids unique |
| BoardService.NormalizeAppearance | backend/src/services/board-service.js:10-13 | a supplied appearance keeps only its background; an absent one stays absent |
| BoardService.NormalizeAppearanceIdempotent | backend/src/services/board-service.js:56-59 | normalising twice is normalising once |
| BoardService.CreateBoardStores | backend/src/services/board-service.js:9-16 | stores one new board with a fresh id, the supplied fields, the background only and no labels; ids stay unique |
| BoardService.UpdateBoardEffect | backend/src/services/board-service.js:55-65 | null and no write for an unknown board; otherwise sets exactly title, description and background; labels, owner, members and workspace kept |
| BoardService.UpdateBoardValid | backend/src/services/board-service.js:55-65 | `updateBoard` keeps ids unique |
| BoardService.ListIds | backend/src/services/board-service.js:35 | the ids of the lists, position by position |
| BoardService.GetFullBoardLists | backend/src/services/board-service.js:26-33 | null exactly for an unknown board; otherwise the board and exactly its lists, in ascending position |
| BoardService.GetFullBoardCards | backend/src/services/board-service.js:35-46 | exactly the stored cards of the returned lists that match the filter, in ascending position |
| BoardService.GetFullBoardReadsOnly | backend/src/services/board-service.js:26-53 | the result depends only on boards, lists and cards |
| BoardService.GetBoardLabels | backend/src/services/board-service.js:71-75 | fails with the plain error "Board not found" exactly for an unknown board; otherwise returns the stored board |
| BoardService.AddLabelEffect | backend/src/services/board-service.js:77-84 | appends exactly that label under a fresh id and returns it; an unknown board is a 500 with no write |
| BoardService.AddLabelValid | backend/src/services/board-service.js:77-84 | `addLabelToBoard` keeps ids unique |
| BoardService.LabelIndex | backend/src/services/board-service.js:97 | `labels.id(...)`: the first label with that id, or none exactly when no label has it |
| BoardService.UpdateLabelEffect | backend/src/services/board-service.js:86-98 | sets only title and color of the first label with that id and returns it; a missing board or label is a 500 with no write |
| BoardService.UpdateLabelFindsUpdated | backend/src/services/board-service.js:97 | the label found after the update is the one returned |
| BoardService.RemoveLabelEffect | backend/src/services/board-service.js:100-106 | leaves exactly the other labels in order and nothing else changes; an unknown board yields null and no write |
| BoardService.RemoveLabelTwice | backend/src/services/board-service.js:100-106 | removing a label twice is removing it once |
| BoardService.AddThenRemoveLabel | backend/src/services/board-service.js:77-106 | adding then removing a label leaves the labels as removing alone would |
| BoardService.UpdateLabelValid | backend/src/services/board-service.js:86-98 | `updateLabelInBoard` keeps ids unique |
| BoardService.RemoveLabelValid | backend/src/services/board-service.js:100-106 | `removeLabelFromBoard` keeps ids unique |
| WorkspaceService.UpdateWorkspaceEffect | backend/src/services/workspace-service.js:16-21 | null and no write for an unknown id; otherwise sets exactly the supplied fields and returns the workspace |
| WorkspaceService.DeleteWorkspaceEffect | backend/src/services/workspace-service.js:23-25 | null and no write for an unknown id; otherwise removes and returns it, the others kept in order; with distinct ids the id is gone |
| WorkspaceService.AddMemberEffect | backend/src/services/workspace-service.js:27-34 | appends exactly the member and returns it, duplicates included; an unknown workspace is a 500 with no write |
| WorkspaceService.RemoveMemberEffect | backend/src/services/workspace-service.js:36-42 | leaves exactly the members with other user ids, in order; an unknown workspace yields null and no write |
| WorkspaceService.AddThenRemoveMember | backend/src/services/workspace-service.js:27-42 | a member added then removed does not survive, whatever was there |
| WorkspaceService.GetWorkspaceBoardsExactly | backend/src/services/workspace-service.js:44-50 | fails exactly for an unknown workspace; otherwise exactly the boards with that workspace id |
| Backend.Store.CreateCard | backend/src/services/card-service.js:9-24 | result and new collections are those of `CardService.CreateCard`; ids stay unique |
| Backend.Store.MoveCard | backend/src/services/card-service.js:50-79 | result and new collections are those of `CardService.MoveCard`; ids stay unique |
| Backend.Store.AddComment | backend/src/services/card-service.js:92-109 | as `CardService.AddComment`; ids stay unique |
| Backend.Store.UpdateComment | backend/src/services/card-service.js:111-126 | as `CardService.UpdateComment`; ids stay unique |
| Backend.Store.DeleteComment | backend/src/services/card-service.js:128-139 | as `CardService.DeleteComment`; ids stay unique |
| Backend.Store.AddAttachment | backend/src/services/card-service.js:226-241 | as `CardService.AddAttachment`; ids stay unique |
| Backend.Store.RemoveAttachment | backend/src/services/card-service.js:243-254 | as `CardService.RemoveAttachment`; ids stay unique |
| Backend.Store.AddCardAssignee | backend/src/services/card-service.js:150-188 | as `CardService.AddCardAssignee`; ids stay unique |
| Backend.Store.CopyCard | backend/src/services/card-service.js:256-345 | as `CardService.CopyCard`; ids stay unique |
| Backend.Store.WriteCopy | backend/src/services/card-service.js:279-345 | as `CardService.WriteCopy` |
| Backend.Store.InsertCopy | backend/src/services/card-service.js:286-342 | appends the card the carry-over rules build, then its comments' ids |
| Backend.Store.CreateList | backend/src/services/list-service.js:8-21 | as `ListService.CreateList`; ids stay unique |
| Backend.Store.MoveList | backend/src/services/list-service.js:38-54 | as `ListService.MoveList`; ids stay unique |
| Backend.Store.ArchiveList | backend/src/services/list-service.js:56-62 | as `ListService.ArchiveList`; ids stay unique |
| Backend.Store.CopyCardsInto | backend/src/services/list-service.js:107-118 | the `for` loop does what `ListService.CopyRounds` gives; ids stay unique |
| Backend.Store.CopyList | backend/src/services/list-service.js:68-125 | as `ListService.CopyList`; ids stay unique |
| Backend.Store.CreateListCopy | backend/src/services/list-service.js:100-124 | creates the list document and fills it as `ListService.FillListCopy` gives |
| Backend.Store.CreateBoard | backend/src/services/board-service.js:9-16 | as `BoardService.CreateBoard`; ids stay unique |
| Backend.Store.UpdateBoard | backend/src/services/board-service.js:55-65 | as `BoardService.UpdateBoard`; ids stay unique |
| Backend.Store.AddLabelToBoard | backend/src/services/board-service.js:77-84 | as `BoardService.AddLabelToBoard`; ids stay unique |
| Backend.Store.UpdateLabelInBoard | backend/src/services/board-service.js:86-98 | as `BoardService.UpdateLabelInBoard`; ids stay unique |
| Backend.Store.RemoveLabelFromBoard | backend/src/services/board-service.js:100-106 | as `BoardService.RemoveLabelFromBoard`; ids stay unique |
| Backend.Store.UpdateWorkspace | backend/src/services/workspace-service.js:16-21 | as `WorkspaceService.UpdateWorkspace`; ids stay unique |
| Backend.Store.DeleteWorkspace | backend/src/services/workspace-service.js:23-25 | as `WorkspaceService.DeleteWorkspace`; ids stay unique |
| Backend.Store.AddMember | backend/src/services/workspace-service.js:27-34 | as `WorkspaceService.AddMember`; ids stay unique |
| Backend.Store.RemoveMember | backend/src/services/workspace-service.js:36-42 | as `WorkspaceService.RemoveMember`; ids stay unique |
| BoardController.IdList | backend/src/controllers/board-controller.js:53-64 | undefined exactly when the raw value is absent or empty |
| BoardController.IdListClean | backend/src/controllers/board-controller.js:53-64 | every parsed id is non-empty, trimmed and free of commas |
| BoardController.IdListRoundTrip | backend/src/controllers/board-controller.js:53-64 | clean ids joined with "," parse back to the same ids |
| BoardController.ParseFilter | backend/src/controllers/board-controller.js:49-67 | title passed on; labels and members parsed as id lists; each flag true exactly for "true" or "1" |
| BoardController.NotFoundIs404 | backend/src/controllers/board-controller.js:73 | a thrown 404 reaches the client as a 404 with its message |
| BoardController.GetFullBoardById | backend/src/controllers/board-controller.js:48-76 | the service's result with 200, or a 404 "Board not found" through the error middleware |
| BoardController.Caught | backend/src/controllers/board-controller.js:20-25 | the status sent is 400 exactly for a ValidationError, with its message, and 500 otherwise, with the handler's message |
| BoardController.CreateBoard | backend/src/controllers/board-controller.js:4-26 | 201 with the board exactly on success; a failure is sent as 400 exactly for a ValidationError, else 500 "Failed to create board" |
| BoardController.GetAllBoards | backend/src/controllers/board-controller.js:28-35 | 200 with the boards exactly on success, else 500 "Failed to fetch boards" |
| BoardController.GetBoardById | backend/src/controllers/board-controller.js:37-46 | 200 with the board exactly when found; 404 "Board not found" exactly when absent; 500 "Failed to fetch board" exactly on error |
| BoardController.UpdateBoard | backend/src/controllers/board-controller.js:78-96 | 200 with the board exactly when updated; 404 exactly when absent; a failure is sent as 400 exactly for a ValidationError, else 500 "Failed to update board" |
| BoardController.DeletedOr404 | backend/src/controllers/board-controller.js:98-103 | `deleteBoard` (and `deleteBoardLabel`, lines 130-137, with "Label not found"): 204 exactly when something was deleted, else a 404 with the message |
| BoardController.UnrecognisedIs500 | backend/src/middleware/error-handler.js:31-47 | a plain Error or TypeError without an HTTP status reaches the client as a 500 "Internal server error" |
| BoardController.GetBoardLabels | backend/src/controllers/board-controller.js:105-108 | 200 with the labels exactly for a found board; for a missing board the service's Error "Board not found" is sent as a 500 "Internal server error" |
| BoardController.AddBoardLabel | backend/src/controllers/board-controller.js:110-117 | 201 with the label exactly when added; for a missing board the TypeError is sent as a 500 "Internal server error" |
| BoardController.UpdateBoardLabel | backend/src/controllers/board-controller.js:119-128 | 200 with the label exactly when updated; a missing board or label is a TypeError sent as a 500 "Internal server error"; the 404 "Label not found" is never sent |
| ErrorHandler.HttpError | backend/src/middleware/error-handler.js:11 | `createError` makes an HTTP error with that status and message |
| ErrorHandler.StatusOf | backend/src/middleware/error-handler.js:37 | `statusCode`, else `status`, else 500; never 0 |
| ErrorHandler.Respond | backend/src/middleware/error-handler.js:4-48 | fails exactly for a duplicate-key error without key pattern; the stack is sent exactly in development; the status is never 0 |
| ErrorHandler.HandleError | backend/src/middleware/error-handler.js:4-48 | the sequence of overriding `if`s gives what `Respond`'s precedence list gives |
| ErrorHandler.UnexpectedIsHidden | backend/src/middleware/error-handler.js:31-35 | an unrecognised non-HTTP error becomes a 500 "Internal server error" and never shows its own stack |
| ErrorHandler.HttpErrorPassesThrough | backend/src/middleware/error-handler.js:32-47 | an HTTP error keeps its status, message and stack |
| ErrorHandler.ValidationMessagesRecoverable | backend/src/middleware/error-handler.js:7-12 | a validation error is a 400 whose message splits back into the field messages |
| ErrorHandler.JoinSpaced | backend/src/middleware/error-handler.js:8-10 | joining with ", " is joining with "," pieces that, after the first, start with a space |
| BoardReducer.Reduce | frontend/src/store/reducers/board-reducer.js:537-540 | an unhandled action leaves the state unchanged; a handler that reads `state.board` throws exactly when there is none; boards, normalised lists and cards are never changed; errors change only under SET_ERROR; board info changes only under DELETE_LABEL |
| BoardReducer.DropCardCounts | frontend/src/store/reducers/board-reducer.js:336-339 | dropping a card id keeps every other card as often as before |
| BoardReducer.MovedCardInList | frontend/src/store/reducers/board-reducer.js:334-350 | one list under MOVE_CARD keeps its document, loses the id, and gains the card only if named |
| BoardReducer.AddedCardInList | frontend/src/store/reducers/board-reducer.js:204-212 | one list under ADD_CARD keeps its document and gains the card only if named, sorted |
| BoardReducer.MoveCardEffect | frontend/src/store/reducers/board-reducer.js:330-353 | unnamed lists lose the card's id and keep the other cards in order; the named list holds the card once, no other card with its id, in position order |
| BoardReducer.MoveCardUnique | frontend/src/store/reducers/board-reducer.js:330-353 | afterwards only the payload carries the id, and only in the named list |
| BoardReducer.DeleteCardEffect | frontend/src/store/reducers/board-reducer.js:300-312 | every list keeps its document and loses exactly the cards with that id |
| BoardReducer.AddCardEffect | frontend/src/store/reducers/board-reducer.js:200-214 | ADD_CARD and COPY_CARD: the named list gains the card, in position order; every other list is unchanged |
| BoardReducer.MoveListAwayEffect | frontend/src/store/reducers/board-reducer.js:141-148 | a list moved to another board leaves the board, nothing else does |
| BoardReducer.SortedSameMembers | frontend/src/store/reducers/board-reducer.js:156 | sorting keeps the members and puts them in key order |
| BoardReducer.MergedListsSorted | frontend/src/store/reducers/board-reducer.js:149-158 | the merged lists: same count, in key order, the moved one carrying the payload with its old cards |
| BoardReducer.MoveListHereEffect | frontend/src/store/reducers/board-reducer.js:141-160 | a move within the board keeps the lists, the moved one carrying the payload's document and its cards, in position order |
| BoardReducer.CopyListEffect | frontend/src/store/reducers/board-reducer.js:162-178 | a copy on another board leaves the state identical; on this board it joins the lists in position order |
| BoardReducer.AppendedListSorted | frontend/src/store/reducers/board-reducer.js:165-166 | the appended and sorted lists are in key order and a permutation |
| BoardReducer.RemoveListCounts | frontend/src/store/reducers/board-reducer.js:82-84 | filtering a list id keeps every other list as often as before |
| BoardReducer.RemoveListEffect | frontend/src/store/reducers/board-reducer.js:78-85 | ARCHIVE_LIST and DELETE_LIST: exactly the lists with that id leave the board |
| BoardReducer.WithoutLabelOnCardEffect | frontend/src/store/reducers/board-reducer.js:481-487 | a card loses exactly that label id and nothing else |
| BoardReducer.DeleteLabelEffect | frontend/src/store/reducers/board-reducer.js:475-489 | the board loses exactly that label; every card loses that id from its labels and nothing else |
| BoardReducer.SetFlagEffect | frontend/src/store/reducers/board-reducer.js:513-526 | SET_LOADING and SET_ERROR change their map at the key only |
| WorkspaceReducer.Reduce | frontend/src/store/reducers/workspace-reducer.js:127-130 | an unknown action leaves the state unchanged; each field changes only under its own actions; the setters replace exactly their field |
| WorkspaceReducer.AddWorkspaceEffect | frontend/src/store/reducers/workspace-reducer.js:39-42 | the workspace is appended, the others kept |
| WorkspaceReducer.UpdateWorkspaceEffect | frontend/src/store/reducers/workspace-reducer.js:45-54 | the workspaces with that id, and the open one when it has that id, become the payload; others unchanged |
| WorkspaceReducer.DeleteWorkspaceEffect | frontend/src/store/reducers/workspace-reducer.js:57-61 | exactly the workspaces with that id leave; the open one is closed exactly when it has that id |
| WorkspaceReducer.WithMemberAdds | frontend/src/store/reducers/workspace-reducer.js:68 | a member is appended and nothing else changes |
| WorkspaceReducer.AddMemberEffect | frontend/src/store/reducers/workspace-reducer.js:64-78 | only the workspace with that id, listed or open, gains the member |
| WorkspaceReducer.WithoutMemberRemoves | frontend/src/store/reducers/workspace-reducer.js:86-89 | exactly the members with that user id are removed |
| WorkspaceReducer.RemoveMemberEffect | frontend/src/store/reducers/workspace-reducer.js:81-102 | only the workspace with that id, listed or open, loses the members with that user id |
| WorkspaceReducer.SetFlagEffect | frontend/src/store/reducers/workspace-reducer.js:110-124 | SET_LOADING and SET_ERROR change their map at the key only |
| UserReducer.Reduce | frontend/src/store/reducers/user-reducer.js:18-38 | each action replaces only its own field; any other action leaves the state unchanged |
| UserReducer.DeleteUserEffect | frontend/src/store/reducers/user-reducer.js:26-30 | exactly the users with that id leave; the others stay, as often and in order |
| WorkspaceSelectors.WorkspaceById | frontend/src/store/selectors/workspace-selectors.js:21-25 | the first workspace with that id, or undefined exactly when none has it |
| WorkspaceSelectors.OwnedWorkspacesAsWritten | frontend/src/store/selectors/workspace-selectors.js:27-31 | as written: none for a logged-in user, all while logged out |
| WorkspaceSelectors.OwnedWorkspaces | frontend/src/store/selectors/workspace-selectors.js:27-31 | corrected: exactly the workspaces the user owns |
| WorkspaceSelectors.MemberWorkspaces | frontend/src/store/selectors/workspace-selectors.js:33-37 | exactly the workspaces listing the user as a member |
| WorkspaceSelectors.AccessibleWorkspacesAsWritten | frontend/src/store/selectors/workspace-selectors.js:39-45 | as written: the "owner or member" filter with the always-undefined `ownerId` |
| WorkspaceSelectors.AccessibleWorkspaces | frontend/src/store/selectors/workspace-selectors.js:39-45 | corrected: exactly the workspaces the user owns or belongs to |
| WorkspaceSelectors.AccessibleAsWrittenIsMember | frontend/src/store/selectors/workspace-selectors.js:39-45 | as written, a logged-in user's accessible workspaces are exactly the member ones, in order |
| WorkspaceSelectors.AccessibleIsUnion | frontend/src/store/selectors/workspace-selectors.js:39-45 | accessible = owned ∪ member, each at most once |
| WorkspaceSelectors.FilterUnionLength | frontend/src/store/selectors/workspace-selectors.js:40-44 | a filter by "p or q" is no longer than the two filters together |
| WorkspaceSelectors.IsOwnerAsWritten | frontend/src/store/selectors/workspace-selectors.js:47-52 | as written: true exactly when no one is logged in |
| WorkspaceSelectors.IsOwner | frontend/src/store/selectors/workspace-selectors.js:47-52 | corrected: for a logged-in user, the workspace exists and the user owns it |
| WorkspaceSelectors.IsMember | frontend/src/store/selectors/workspace-selectors.js:54-59 | undefined exactly when the workspace is missing; otherwise whether the user is a member |
| WorkspaceSelectors.TestsAgreeWithFilters | frontend/src/store/selectors/workspace-selectors.js:27-59 | the ownership and membership tests agree with the owned and member filters |
| WorkspaceSelectors.IsLoading | frontend/src/store/selectors/workspace-selectors.js:61-63 | true exactly when the key is set to true |
| WorkspaceSelectors.Error | frontend/src/store/selectors/workspace-selectors.js:65-67 | a message exactly when a non-empty one is stored, otherwise null |
| WorkspaceSelectors.OwnerNotRecognised | frontend/src/store/selectors/workspace-selectors.js:27-52 | an owner who is not a member: the selectors as written miss the workspace, the corrected ones find it |
| BoardSelectors.BoardLists | frontend/src/store/selectors/board-selectors.js:3-9 | no board: no lists; otherwise exactly the stored lists of the board, as a permutation |
| BoardSelectors.CardsByListId | frontend/src/store/selectors/board-selectors.js:11-15 | exactly the stored cards of the list, as a permutation |
| BoardSelectors.CardById | frontend/src/store/selectors/board-selectors.js:17-19 | a stored card with that id, or undefined exactly when none has it |
| BoardSelectors.ListById | frontend/src/store/selectors/board-selectors.js:21-23 | a stored list with that id, or undefined exactly when none has it |
| BoardSelectors.BoardListIds | frontend/src/store/selectors/board-selectors.js:28-31 | the collected ids are exactly the ids of the board's lists |
| BoardSelectors.AllCardsForBoard | frontend/src/store/selectors/board-selectors.js:25-35 | no board: no cards; otherwise exactly the stored cards whose list is on the board |
| BoardSelectors.SelectorsSorted | frontend/src/store/selectors/board-selectors.js:8-34 | with a total collation, each selector's result is sorted by it |
| BoardSelectors.LiftedTotalPreorder | frontend/src/store/selectors/board-selectors.js:8 | comparing by position under a total collation is a total preorder |
| BoardSelectors.AllCardsAreListCards | frontend/src/store/selectors/board-selectors.js:11-35 | the board's cards are exactly the cards of the board's lists, list by list |
| Schemas.Pagination | backend/src/validation/schemas/common.js:22-25 | an accepted query has page ≥ 1 and limit in 1..100; missing values default to 1 and 20 |
| Schemas.UsernameLength | backend/src/validation/schemas/auth.js:15-22 | an accepted username has 3 to 30 characters |
| Schemas.AsciiLength | backend/src/validation/schemas/auth.js:19-21 | a string of username characters has a UTF-16 length equal to its character count |
| Schemas.SignupCredentialsLogIn | backend/src/validation/schemas/auth.js:26-36 | the email and password of an accepted signup form an accepted login |
| Schemas.WeakPasswordLogsIn | backend/src/validation/schemas/auth.js:3-36 | a password without an upper-case letter passes login but not the signup rules |
| Schemas.CreatedCardUpdatable | backend/src/validation/schemas/card.js:23-44 | an accepted new card without board and list is an accepted update |
| Schemas.MoveIndexIsNat | backend/src/validation/schemas/card.js:46-50 | an accepted card or list move has a safe non-negative integer index |
| Schemas.LabelUpdateWithBoth | backend/src/validation/schemas/board.js:4-23 | every label is an update; an update giving both fields is a label |
| Schemas.CopyListRefusesServiceOptions | backend/src/validation/schemas/list.js:20-23 | a copy body naming `copyCards` or `targetIndex` is refused |
| Schemas.UpdatesWithTitle | backend/src/validation/schemas/workspace.js:4-12 | a workspace (or list) update with a title is exactly a valid new workspace; a new list without its board is a list update |

## Left out

- Mongoose is replaced by an in-memory store of sequences in insertion order. Not modelled:
  queries, `populate`, `runValidators`, `$set` dropping `undefined`, and string-vs-ObjectId
  identity. Ids are natural numbers handed out by a counter.
- The target-board lookup in `copyCard` (backend/src/services/card-service.js:274) compares a
  string with an ObjectId, which never matches. The model therefore performs the lookup
  whenever a target board id is supplied.
- Positions.GenerateKeyBetween: the keys the package picks between its bounds (its midpoint
  and integer-increment encoding) are not modelled; a concrete key function with the
  package's contract and validity rule stands in for it, so the model proves where a key
  falls, not which key it is.
- Positions.ValidKey: a key with a character outside the base-62 digits is invalid in the
  model; the package does not look at those characters and may accept such a key.
- backend/src/services/position-service.js is not part of this model. It is assumed to
  behave as the frontend `calculateNewPosition`.
- Concurrency is not modelled. There is no transaction around the sequence "read siblings,
  compute key, write". Distinct sibling keys are a precondition, not an invariant.
- `createCard` and `createList` are modelled without `targetIndex`. The strict create
  schemas admit no such key, and a non-zero value would leave the position undefined.
  The `description` the list schema admits is not stored by `createList`, and the model
  does not store it either.
- The card filter of `getFullBoardById` is a parameter. `validateFilterParams` and
  `buildCardFilterQuery` (filter-service.js) are not part of this model.
- Clock and environment are parameters:
  - `new Date()` in `archiveList` is the parameter `now`;
  - `config.env === "development"` is a boolean;
  - the stack of an error the handler creates is a parameter.
- The error handler's `console.error` is not modelled.
- ErrorHandler.Respond: `Object.keys(undefined)` throwing inside the handler, for a
  duplicate-key error without `keyPattern`, is modelled as a `Failure`.
- Trivial pass-through operations are not modelled:
  - card service: `getAllCards`, `getCardById`, `updateCard`, `deleteCard`,
    `updateCardLabels`, `getComments`, `removeCardAssignee`, `updateCover`;
  - list service: `getListById`, `getListsByBoardId`, `updateList`, `deleteList`;
  - board service: `getAllBoards`, `getBoardById`, `deleteBoard`;
  - workspace service: `createWorkspace`, `getAllWorkspaces`, `getWorkspaceById`.
- Board controller:
  - only status codes and bodies are modelled; the `{ board }` wrappers are dropped;
  - the owner snapshot that `createBoard` takes from the logged-in user is not modelled;
  - the service is a parameter: each handler receives the service's result or the error
    it threw.
- Board reducer: only the list, card and label handlers listed in the model table, plus
  SET_LOADING and SET_ERROR, are modelled. These handlers are left out: ADD_LIST,
  MOVE_ALL_CARDS, ARCHIVE_ALL_CARDS_IN_LIST, SET_BOARD(S), DELETE_BOARD, ADD_BOARD,
  UPDATE_BOARD, UPDATE_LIST, EDIT_CARD, the cover, attachment, assignee, comment and
  label-edit handlers, SET_FILTERS and CLEAR_ALL_FILTERS.
- Reducers in general:
  - the REQUEST/FAILURE handlers that `createAsyncHandlers` adds are not modelled;
  - the loading keys of the SUCCESS handlers are plain strings;
  - normalised `{ [id]: doc }` objects are sequences in insertion order.
- The selectors sort with `localeCompare`. Its collation is a parameter, and the model does
  not prove that it agrees with `<`. The plain getters (`selectWorkspaces`,
  `selectCurrentBoard`, …) are not modelled.
- `reorderLists` is modelled on an array copy of fixed length. The source's array shrinks
  by one and grows back.
- Request schemas:
  - `z.email()`, `z.url()`, `z.iso.datetime()`, `ObjectId.isValid` and `Number(...)`
    coercion are parameters;
  - lengths count UTF-16 code units and are checked on the string as sent;
  - the trimmed, lower-cased value a schema hands on is not modelled, nor are zod's
    messages;
  - `validate.js` and the HTTP plumbing are not modelled.
- Authentication and authorisation (JWT, bcrypt, permission checks) are not modelled.
  Neither are the remaining controllers and routes, the frontend HTTP clients or the UI.
- The client sends `copyMembers` where `copyCard` reads `copyAssignees`. This mismatch is
  noted but not modelled.

## Findings

| source | as written | input that shows it | evidently intended | confidence | as-written member | corrected member |
|---|---|---|---|---|---|---|
| frontend/src/store/selectors/workspace-selectors.js:27-52 | the selectors compare `workspace.ownerId`, a property the client's workspace objects do not have (the owner is `owner.userId`), so it is always `undefined` | a logged-in user who owns workspace 1 without being listed among its members: owned and accessible workspaces are empty and `selectIsWorkspaceOwner` is false; while logged out, every workspace counts as owned | compare `workspace.owner.userId` with the user id | not executed | WorkspaceSelectors.OwnerNotRecognised | WorkspaceSelectors.AccessibleIsUnion |
