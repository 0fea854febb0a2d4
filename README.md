# Spec workspace: commands, threads, listing and headings

This project models the state logic of a specification-management web app in
Dafny. Four React components hold that logic:

- **Spec detail screen** (`SpecDetail.tsx`). One spec record and a working
  list of user stories. Its handlers change the status or the stage (a later
  stage locks the requirements and records why), unlock the requirements,
  save the description, record an approver's decision, snapshot a new
  version and reorder the stories by drag and drop. The version-comparison
  dialog shows which stories were added, modified or removed between two
  versions.
- **Comment threads** (`CommentSystem.tsx`). Top-level comments with one
  level of replies. Users create comments (blank drafts are refused), reply,
  flip the resolved flag, tag people in a draft, search and filter the list,
  and read the unresolved and tagged counts.
- **Spec listing** (`SpecsTable.tsx`). A case-insensitive search over titles
  and ids, row check boxes and the select-all box with its checked and
  indeterminate states.
- **Listing heading** (`MainContent.tsx`). A title and a description for
  each sidebar view, with defaults.

Every state update is a function from the old value to the new one
(`WithStage`, `Decided`, `VersionCreated`, `WithReply`, `Toggled`,
`TagAdded`, ...). The contracts and lemmas state what each update promises.
The component state lives in classes (`SpecDetailState`, `CommentSystemState`,
`CommentThreadState`). Their methods replace the fields the handler replaces
and keep an invariant:

- the spec's lock reason is present exactly when its requirements are locked;
- the current version resolves into the history;
- the ids of the tagged users are unique.

The table handlers only compute a new selection and hand it to the owner.
The heading functions are pure `switch` mappings. These are plain functions.

Modules, one per file: `Seqs` (the JavaScript `find`/`findIndex`/`filter`
and the drag library's `arrayMove`), `Text` (`trim`, `toLowerCase`,
`includes`, `replace` and number printing), `SpecModel` (the spec records),
`VersionComparison`, `SpecDetail`, `CommentSystem`, `SpecsTable`,
`MainContent`.

## Model

| member | source | states |
|---|---|---|
| Seqs.Find | src/components/SpecDetail.tsx:583-584 | `find` returns the element at `findIndex`, the first one satisfying the callback, and returns nothing exactly when no element does |
| Seqs.FindIndex | src/components/SpecDetail.tsx:889-890 | `findIndex` is the first index whose element satisfies the callback, or -1 exactly when there is none |
| Seqs.Filter | src/components/SpecDetail.tsx:898 | `filter` keeps exactly the elements satisfying the callback and is never longer than its input |
| Seqs.FilterIsSubsequence | src/components/CommentSystem.tsx:492 | a filtered list keeps its elements in their original order |
| Seqs.FilterPartition | src/components/CommentSystem.tsx:514-517 | filtering by a test and by its negation splits a list: multisets and lengths add up to the whole |
| Seqs.FilterConcat | src/components/SpecsTable.tsx:143 | filtering distributes over concatenation |
| Seqs.FilterMultiplicity | src/components/SpecsTable.tsx:143 | `filter` keeps every copy of an element the callback accepts and no copy of one it rejects |
| Seqs.ArrayMove | src/components/SpecDetail.tsx:892 | `arrayMove(items, from, to)` keeps the length and puts the moved element at `to`; taking it out again leaves what taking it out of the input leaves |
| Seqs.ArrayMoveRoundTrip | src/components/SpecDetail.tsx:892 | moving from `from` to `to` and back restores the list |
| Seqs.ArrayMovePermutes | src/components/SpecDetail.tsx:892 | a move is a permutation: same elements, same multiplicities |
| Text.TrimSpec | src/components/SpecDetail.tsx:1024 | `trim()` is the piece of the string left after dropping the white space at both ends: everything dropped is white space, and the result neither starts nor ends with white space |
| Text.BlankIffAllWhitespace | src/components/SpecDetail.tsx:1024 | a draft is refused by `!s.trim()` (`IsBlank`) exactly when all of its characters are ECMAScript white space or line terminators |
| Text.ToLower | src/components/SpecsTable.tsx:127-128 | `toLowerCase()` keeps the length and maps each upper-case ASCII letter to its lower-case letter, leaving every other character alone |
| Text.ToLowerIdempotent | src/components/SpecsTable.tsx:127-128 | lower-casing twice is lower-casing once |
| Text.ReplaceFirst | src/components/SpecDetail.tsx:776 | `replace` with a one-character pattern keeps the length; `ReplaceFirstSpec` states which character changes |
| Text.IndexOf | src/components/SpecDetail.tsx:776 | the position of the first occurrence of a character, or -1 exactly when it does not occur |
| Text.ReplaceFirstSpec | src/components/SpecDetail.tsx:776 | `replace('-', ' ')` leaves a string without a hyphen unchanged and otherwise replaces the first hyphen, and only it, by a space |
| Text.ReplaceFirstAt | src/components/SpecDetail.tsx:776 | in `a + "-" + b`, where `a` has no hyphen, exactly that hyphen becomes a space |
| Text.Includes | src/components/SpecsTable.tsx:127-128 | `includes` holds only when the query is no longer than the string; `IncludesAt` and `IncludesOccurs` tie it to an occurrence at some position |
| Text.IncludesEmpty | src/components/SpecsTable.tsx:127-128 | every string includes the empty query |
| Text.IncludesAt | src/components/CommentSystem.tsx:495 | `includes` holds whenever the query occurs at some position |
| Text.IncludesOccurs | src/components/CommentSystem.tsx:495 | `includes` holds only when the query occurs at some position |
| Text.NatToString | src/components/SpecDetail.tsx:825 | `${n}` is a non-empty run of decimal digits, "0" for zero and without a leading zero otherwise |
| Text.ParseNatToString | src/components/SpecDetail.tsx:825 | the decimal text `${n}` reads back as `n` |
| Text.NatToStringInjective | src/components/SpecDetail.tsx:825 | different numbers print differently |
| SpecModel.FindVersion | src/components/SpecDetail.tsx:897 | `versions.find(v => v.id === id)` yields the first version with that id, and nothing exactly when no version has it |
| SpecModel.FindStory | src/components/SpecDetail.tsx:664 | `stories.find(s => s.id === id)` yields the first story with that id, and nothing exactly when no story has it |
| VersionComparison.ChangeOf | src/components/SpecDetail.tsx:663-715 | a current story with no older story of its id gets an "added" card; one whose first older story with its id differs gets a "modified" card showing that older story; it gets no card exactly when that older story equals it |
| VersionComparison.CurrentChanges | src/components/SpecDetail.tsx:663-716 | at most one card per current story, none of them a removal, each showing a current story |
| VersionComparison.RemovedStories | src/components/SpecDetail.tsx:719-721 | the older stories listed as removed are exactly those no current story shares an id with |
| VersionComparison.StoryDiff | src/components/SpecDetail.tsx:663-729 | at most one card per current and per older story; a removal card shows an older story with no current counterpart; added and modified cards show current stories |
| VersionComparison.RemovedChanges | src/components/SpecDetail.tsx:719-729 | one removal card per removed story, in order |
| VersionComparison.CurrentChangesMembership | src/components/SpecDetail.tsx:663 | a card is in the first part of the list exactly when some current story produces it |
| VersionComparison.RemovedChangesMembership | src/components/SpecDetail.tsx:719-722 | a card is in the second part exactly when it is a removal of a listed story |
| VersionComparison.DiffAdded | src/components/SpecDetail.tsx:664-676 | a story is shown as added exactly when it is current and no older story has its id |
| VersionComparison.DiffModified | src/components/SpecDetail.tsx:679-715 | a story is shown as modified (with its older form) exactly when it is current, the first older story with its id is that older form, and the two differ |
| VersionComparison.DiffRemoved | src/components/SpecDetail.tsx:719-729 | a story is shown as removed exactly when it is in the older version and no current story has its id |
| VersionComparison.DiffOmitsUnchanged | src/components/SpecDetail.tsx:679-681 | a current story whose older form is identical is shown neither as added nor as modified |
| VersionComparison.RemovalsLast | src/components/SpecDetail.tsx:663-729 | every removal card comes after every added or modified card |
| VersionComparison.CurrentChangesInOrder | src/components/SpecDetail.tsx:663 | added and modified cards follow the current version's story order |
| VersionComparison.RemovedInOrder | src/components/SpecDetail.tsx:719-721 | removal cards follow the older version's story order |
| VersionComparison.FindStoryUnique | src/components/SpecDetail.tsx:664 | with unique ids, looking up a story's own id finds that story |
| VersionComparison.CurrentChangesNone | src/components/SpecDetail.tsx:679-681 | when every current story is found unchanged, the first part of the list is empty |
| VersionComparison.DiffOfSameStoriesIsEmpty | src/components/SpecDetail.tsx:663-729 | comparing a story list with itself (ids unique) shows no card |
| VersionComparison.CompareVersions | src/components/SpecDetail.tsx:583-586 | the dialog shows a diff exactly when both versions are in the history, and then it is the diff from the selected version to the current one |
| VersionComparison.InitialSelection | src/components/SpecDetail.tsx:581 | the dialog first compares with the second version of the history, or with no version when there are fewer than two |
| SpecDetail.LocksRequirements | src/components/SpecDetail.tsx:770 | every stage except requirements locks the requirements |
| SpecDetail.TechnicalDesignPhrase | src/components/SpecDetail.tsx:776 | `'technical-design'.replace('-', ' ')` is `technical design` |
| SpecDetail.ImplementationTasksPhrase | src/components/SpecDetail.tsx:776 | `'implementation-tasks'.replace('-', ' ')` is `implementation tasks` |
| SpecDetail.LockReason | src/components/SpecDetail.tsx:776 | the lock banner reads "Requirements locked because spec moved to technical design stage" or "... implementation tasks stage" |
| SpecDetail.WithStatus | src/components/SpecDetail.tsx:758-764 | the status becomes the chosen one, `updatedAt` becomes 'just now', nothing else changes |
| SpecDetail.WithStage | src/components/SpecDetail.tsx:766-781 | the stage becomes the chosen one; a later stage locks the requirements with its reason; the requirements stage unlocks and clears the reason; 'just now'; nothing else changes |
| SpecDetail.Unlocked | src/components/SpecDetail.tsx:783-790 | unlocked with no reason, 'just now'; stage, status, approvers, versions, description and every other field unchanged |
| SpecDetail.WithDescription | src/components/SpecDetail.tsx:792-799 | the draft becomes the description whether or not the requirements are locked; 'just now'; nothing else changes |
| SpecDetail.StageChangeKeepsLockReason | src/components/SpecDetail.tsx:775-776 | after any stage change or unlock, a reason is present exactly when the requirements are locked |
| SpecDetail.DecideOne | src/components/SpecDetail.tsx:809-816 | an approver with another id is unchanged; the matching one gets the decision, its time and comment, and nothing else |
| SpecDetail.Decided | src/components/SpecDetail.tsx:808-817 | the approver list keeps its length and order, and each entry is `DecideOne` of the entry at the same position |
| SpecDetail.WithDecision | src/components/SpecDetail.tsx:806-821 | a decision changes only the approvers and `updatedAt` |
| SpecDetail.DecidedUnknownId | src/components/SpecDetail.tsx:809-817 | a decision for an id no approver has leaves the list unchanged |
| SpecDetail.ApprovedCount | src/components/SpecDetail.tsx:898-899 | the approved count never exceeds the number of approvers |
| SpecDetail.TotalApprovers | src/components/SpecDetail.tsx:899 | the number of approvers, the denominator of the approval progress |
| SpecDetail.ApprovedCountAfterDecision | src/components/SpecDetail.tsx:806-821 | with unique ids, a decision by approver `k` changes the approved count by exactly that approver's change of vote |
| SpecDetail.DecisionMovesCountOneWay | src/components/SpecDetail.tsx:806-821 | an approval never lowers the approved count and a rejection never raises it |
| SpecDetail.VersionLabel | src/components/SpecDetail.tsx:825 | the label is `v`, the decimal digits of n+1 without a leading zero, then `.0` |
| SpecDetail.VersionLabelInjective | src/components/SpecDetail.tsx:825 | different version counts give different labels |
| SpecDetail.VersionCreated | src/components/SpecDetail.tsx:823-846 | exactly one version is prepended: labelled `v{n+1}.0`, holding the working stories, the description, the time and the assignee, with one modified/description change record; older versions follow unchanged; it becomes the current version; nothing else changes |
| SpecDetail.CreatedVersionIsActive | src/components/SpecDetail.tsx:843-844 | after creation the current version resolves to the new version |
| SpecDetail.ActiveVersion | src/components/SpecDetail.tsx:897 | the version shown as current is found exactly when the current id resolves, and it is a version of the history with that id |
| SpecDetail.SuccessiveVersionsDiffer | src/components/SpecDetail.tsx:825 | two creations in a row give different ids, and the first stays second in the history |
| SpecDetail.StoryIndex | src/components/SpecDetail.tsx:889-890 | the index of the first story with the id, or -1 exactly when none has it |
| SpecDetail.Reordered | src/components/SpecDetail.tsx:884-895 | no drop target, or the dragged story dropped on itself, changes nothing; otherwise a permutation of the same length with the dragged story at the target's former index |
| SpecDetail.SpecDetailState.constructor | src/components/SpecDetail.tsx:738-748 | the screen starts from the spec and its stories, not editing, with an empty version draft |
| SpecDetail.SpecDetailState.HandleStatusChange | src/components/SpecDetail.tsx:758-764 | the spec becomes `WithStatus` of the old spec; the invariant holds |
| SpecDetail.SpecDetailState.HandleStageChange | src/components/SpecDetail.tsx:766-781 | the spec becomes `WithStage` of the old spec and the stage tab follows; the invariant holds |
| SpecDetail.SpecDetailState.HandleUnlockRequirements | src/components/SpecDetail.tsx:783-790 | the spec becomes `Unlocked`; the invariant holds |
| SpecDetail.SpecDetailState.ToggleEditing | src/components/SpecDetail.tsx:1220-1225 | the Edit button, shown only while unlocked, flips editing mode |
| SpecDetail.SpecDetailState.SetEditDescription | src/components/SpecDetail.tsx:1244 | typing replaces the description draft; the invariant holds |
| SpecDetail.SpecDetailState.HandleDescriptionSave | src/components/SpecDetail.tsx:792-799 | the draft is saved through `WithDescription` and editing ends; the invariant holds |
| SpecDetail.SpecDetailState.HandleDescriptionCancel | src/components/SpecDetail.tsx:801-804 | the draft is reset to the saved description and editing ends |
| SpecDetail.SpecDetailState.HandleApproverStatusChange | src/components/SpecDetail.tsx:806-821 | the spec becomes `WithDecision` of the old spec; the invariant holds |
| SpecDetail.SpecDetailState.SetNewVersionDescription | src/components/SpecDetail.tsx:1015 | typing replaces the version description draft; the invariant holds |
| SpecDetail.SpecDetailState.HandleCreateNewVersion | src/components/SpecDetail.tsx:823-850 | for a non-blank draft the spec becomes `VersionCreated` from the working stories and the draft; the draft is cleared and the dialog closed; the current version still resolves |
| SpecDetail.SpecDetailState.HandleDragEnd | src/components/SpecDetail.tsx:884-895 | the working stories become `Reordered`; the spec and its versions are untouched |
| CommentSystem.NewComment | src/components/CommentSystem.tsx:414-428 | a new comment has id `c` + the clock reading, the current user as author, is unresolved with no replies, carries the tags; the highlight is present exactly when text or a range was selected |
| CommentSystem.Created | src/components/CommentSystem.tsx:412-437 | a blank draft changes nothing; otherwise exactly one new comment is prepended and the old comments follow unchanged |
| CommentSystem.NewReply | src/components/CommentSystem.tsx:440-449 | a reply's id is the parent id, `-r` and the clock reading; it names its parent, is by the current user, unresolved, never edited, without replies, highlight or selection range, tagging exactly the given users |
| CommentSystem.WithReply | src/components/CommentSystem.tsx:451-457 | the reply goes at the end of the replies of the top-level comments with the parent id; all other comments are unchanged; the length is kept |
| CommentSystem.WithReplyUnknownParent | src/components/CommentSystem.tsx:451-457 | replying to an id no top-level comment has (a reply's id, say) leaves the list unchanged |
| CommentSystem.CommentResolved | src/components/CommentSystem.tsx:462-475 | a matching top-level comment is flipped and its replies left alone; otherwise only matching replies are flipped |
| CommentSystem.Toggled | src/components/CommentSystem.tsx:460-477 | resolving keeps the length and the ids and applies `CommentResolved` at every position: a matching top-level comment is flipped, any other keeps its flag and everything but its replies, of which only the matching ones are flipped |
| CommentSystem.CommentResolvedTwice | src/components/CommentSystem.tsx:462-475 | resolving one comment twice with the same id restores it |
| CommentSystem.ToggledTwice | src/components/CommentSystem.tsx:460-477 | resolving the same id twice restores the comment list |
| CommentSystem.ToggledUnknownId | src/components/CommentSystem.tsx:460-477 | an id no comment or first-level reply has changes nothing |
| CommentSystem.ToggledCount | src/components/CommentSystem.tsx:460-477 | with unique ids, resolving top-level comment `k` moves the unresolved count by one, down if it was open, up if not |
| CommentSystem.TagAdded | src/components/CommentSystem.tsx:479-485 | tagging an already-tagged id changes neither tags nor draft; otherwise the user is appended and `@name ` is appended to the draft |
| CommentSystem.TagRemoved | src/components/CommentSystem.tsx:487-489 | every user with the id is dropped; every other user is kept with all its copies, in order |
| CommentSystem.TagAddedKeepsIdsUnique | src/components/CommentSystem.tsx:479-485 | tagging keeps the tagged ids duplicate-free |
| CommentSystem.TagRemovedKeepsIdsUnique | src/components/CommentSystem.tsx:487-489 | removing a tag keeps the tagged ids duplicate-free |
| CommentSystem.TagThenRemove | src/components/CommentSystem.tsx:479-489 | tagging an untagged user and then removing that user restores the tags |
| CommentSystem.MatchesSearch | src/components/CommentSystem.tsx:494-500 | the search test on a comment's content, author name and replies; an empty query matches every comment |
| CommentSystem.TagsCurrentUser | src/components/CommentSystem.tsx:505-507 | the current user is tagged on the comment or on one of its replies |
| CommentSystem.StatusMatches | src/components/CommentSystem.tsx:504-518 | the drop-down test: tagged, recent, resolved, unresolved, or every comment |
| CommentSystem.FilteredComments | src/components/CommentSystem.tsx:492-520 | the filtered list is never longer than the list |
| CommentSystem.FilteredMembership | src/components/CommentSystem.tsx:492-520 | a comment is listed exactly when it is in the list, matches the lower-cased query in its content, its author's name or a reply's content or author name (when the query is not empty), and passes the drop-down filter |
| CommentSystem.FilteredInOrder | src/components/CommentSystem.tsx:492 | the listed comments keep the list's order |
| CommentSystem.FilteredAllIsEverything | src/components/CommentSystem.tsx:518-519 | with no search and the 'all' filter, the list is shown unchanged |
| CommentSystem.ResolvedUnresolvedPartition | src/components/CommentSystem.tsx:513-516 | with no search, the 'resolved' and 'unresolved' lists partition the comments |
| CommentSystem.UnresolvedCount | src/components/CommentSystem.tsx:522 | the unresolved count never exceeds the number of comments |
| CommentSystem.TaggedCount | src/components/CommentSystem.tsx:523-526 | the tagged count never exceeds the number of comments |
| CommentSystem.CountsMatchFilters | src/components/CommentSystem.tsx:505-526 | the unresolved badge counts the 'unresolved' list and the tagged badge counts the 'tagged me' list (current user tagged on the comment or a reply), without a search |
| CommentSystem.CreatedCount | src/components/CommentSystem.tsx:412-437 | creating a comment raises the unresolved count by one, and a blank draft by nothing |
| CommentSystem.ReplyKeepsCount | src/components/CommentSystem.tsx:439-458 | a reply never changes the unresolved count |
| CommentSystem.CommentThreadState.constructor | src/components/CommentSystem.tsx:157-160 | a thread's reply form starts closed, empty and untagged |
| CommentSystem.CommentThreadState.SetReplyContent | src/components/CommentSystem.tsx:307 | typing replaces the reply draft |
| CommentSystem.CommentThreadState.HandleReply | src/components/CommentSystem.tsx:162-169 | a blank reply sends nothing and changes nothing; otherwise the draft and its tags go to the parent with this comment's id, and the form resets |
| CommentSystem.CommentThreadState.HandleTagUser | src/components/CommentSystem.tsx:171-177 | tags and draft become `TagAdded` of the old ones; the picker closes; tagged ids stay unique |
| CommentSystem.CommentThreadState.RemoveTag | src/components/CommentSystem.tsx:179-181 | tags become `TagRemoved`; tagged ids stay unique |
| CommentSystem.CommentSystemState.constructor | src/components/CommentSystem.tsx:384-393 | the panel starts from the given comments with an empty form, no tags, the 'all' filter and no search |
| CommentSystem.CommentSystemState.SetNewCommentContent | src/components/CommentSystem.tsx:644-645 | typing replaces the comment draft |
| CommentSystem.CommentSystemState.SetSearchQuery | src/components/CommentSystem.tsx:555-557 | typing replaces the search query |
| CommentSystem.CommentSystemState.SetFilterBy | src/components/CommentSystem.tsx:562 | the drop-down replaces the filter |
| CommentSystem.CommentSystemState.HandleTextSelection | src/components/CommentSystem.tsx:396-410 | a selection blank after trimming changes nothing; otherwise the trimmed text and the range offsets are kept and the comment form opens |
| CommentSystem.CommentSystemState.HandleCreateComment | src/components/CommentSystem.tsx:412-437 | the comments become `Created`; a blank draft leaves the form as it was, otherwise the form is cleared and closed; tagged ids stay unique |
| CommentSystem.CommentSystemState.HandleReply | src/components/CommentSystem.tsx:439-458 | the comments become `WithReply` with the reply built from the request |
| CommentSystem.CommentSystemState.HandleResolve | src/components/CommentSystem.tsx:460-477 | the comments become `Toggled` |
| CommentSystem.CommentSystemState.HandleTagUser | src/components/CommentSystem.tsx:479-485 | tags and draft become `TagAdded` of the old ones; the picker closes; tagged ids stay unique |
| CommentSystem.CommentSystemState.RemoveTag | src/components/CommentSystem.tsx:487-489 | tags become `TagRemoved`; tagged ids stay unique |
| CommentSystem.CommentSystemState.CancelComment | src/components/CommentSystem.tsx:692-698 | Cancel closes the form and clears draft, selection and tags |
| SpecsTable.FilteredSpecs | src/components/SpecsTable.tsx:126-129 | the shown rows are never more than the rows |
| SpecsTable.FilteredSpecsMembership | src/components/SpecsTable.tsx:126-129 | a row is shown exactly when the lower-cased query occurs in its lower-cased title or id |
| SpecsTable.FilteredSpecsInOrder | src/components/SpecsTable.tsx:126-129 | the shown rows keep the list's order |
| SpecsTable.EmptyQueryKeepsAll | src/components/SpecsTable.tsx:126-129 | an empty search shows every row |
| SpecsTable.Ids | src/components/SpecsTable.tsx:133 | the ids of the shown rows, one per row, in order |
| SpecsTable.SelectAll | src/components/SpecsTable.tsx:131-137 | checking selects exactly the shown ids, in order; unchecking selects nothing |
| SpecsTable.SelectSpec | src/components/SpecsTable.tsx:139-145 | checking appends the id without a duplicate check; unchecking drops every copy of the id and keeps every other id with all its copies, in order |
| SpecsTable.SelectThenDeselect | src/components/SpecsTable.tsx:139-145 | checking an unselected row and unchecking it again restores the selection |
| SpecsTable.IsAllSelected | src/components/SpecsTable.tsx:147 | as written: some row is shown and the selection holds as many ids as there are shown rows (see Findings) |
| SpecsTable.IsIndeterminate | src/components/SpecsTable.tsx:148 | some id is selected, but fewer ids than shown rows |
| SpecsTable.CheckedAndIndeterminateExclusive | src/components/SpecsTable.tsx:147-148 | the header box is never checked and indeterminate at once |
| SpecsTable.SelectAllHeader | src/components/SpecsTable.tsx:131-148 | after select-all on a non-empty listing the header is checked and not indeterminate; after clearing it is neither |
| SpecsTable.IsAllSelectedMisleads | src/components/SpecsTable.tsx:147 | one shown row and one other selected id already check the header box |
| SpecsTable.SelectAllCheckedIntended | src/components/SpecsTable.tsx:131-137 | select-all makes every shown row selected; clearing leaves the corrected header unchecked |
| SpecsTable.IntendedCheckedNotIndeterminate | src/components/SpecsTable.tsx:147-148 | with distinct row ids, the corrected header box is never both checked and indeterminate |
| MainContent.ViewTitle | src/components/MainContent.tsx:14-33 | each named view gets its fixed title, and any other view 'All Specs' |
| MainContent.ViewDescription | src/components/MainContent.tsx:35-48 | inbox, specs, assigned and archived get their fixed descriptions, and any other view 'Manage your specifications' |
| MainContent.AllSpecsTitle | src/components/MainContent.tsx:17-31 | the title is 'All Specs' exactly for the specs view and for views the switch does not name |
| MainContent.TitledButUndescribed | src/components/MainContent.tsx:25-46 | team, cycles and settings have titles of their own but the default description |
| MainContent.TitlesDistinct | src/components/MainContent.tsx:15-29 | the seven named views have seven different titles |

## Left out

- Rendering, styles, icons, colour tables, dialogs, tabs and the compact view are presentation. `formatTime` is also left out: it reads the clock.
- The text diff of two descriptions is drawn by an external diff-viewer component whose code is not part of this model. Only the user-story part of the comparison is modelled.
- Clock readings and generated ids are parameters. `new Date().toISOString()` is the `now`/`at` string, and the `Date.now()` reading in comment and reply ids is `millis`.
- The 'recent' comment filter compares `createdAt` with the clock minus 24 hours. It is the parameter `isRecent`, a test on `createdAt`.
- `toLowerCase` lower-cases ASCII letters only; full Unicode case mapping is not modelled.
- `JSON.stringify(a) !== JSON.stringify(b)` on two stories is modelled as structural inequality of the story records.
- `estimatedPoints` and the comment and attachment counters are `int`; JavaScript numbers are floating point.
- Reading the page's selection (`window.getSelection`), `scrollToContent` (DOM walking, scrolling, timers) and the drag sensors are DOM work. The selection's text and the offsets of its first range are parameters of `HandleTextSelection`; no selection is the empty text.
- SpecDetail.Reordered: requires that both dragged ids are in the list, as the drag library only reports items of the list. The `findIndex` result -1 is not modelled.
- SpecDetail.SpecDetailState.HandleCreateNewVersion: requires a non-blank draft, because the Create Version button is disabled otherwise. The handler itself does not check.
- SpecDetail.SpecDetailState.ToggleEditing: requires unlocked requirements, because the Edit button is hidden while they are locked.
- The approver buttons are shown only for pending approvers. `HandleApproverStatusChange` accepts any approver id, which is weaker than the screen allows.
- User stories are only displayed: each story card renders its fields, and the "Add User Story" button, hidden while the requirements are locked, has no handler. Neither has anything to model beyond the working list that drag reordering changes.
- The comment panel declares an `onContentUpdate` callback but never calls it, so there is nothing to model for it.
- The sidebar, the command palette, the listing header and the app shell hold navigation and keyboard handling only. They are not part of this model.
- The mock records are not modelled; the classes start from any initial value.

## Findings

| source | as written | input that shows it | evidently intended | confidence | as-written member | corrected member |
|---|---|---|---|---|---|---|
| src/components/SpecsTable.tsx:147 | the header box is checked when the number of selected ids equals the number of shown rows | the selection survives a change of search. Select SPEC-002 with an empty search, then search "authentication": one row (SPEC-001) is shown, the selection is ["SPEC-002"], and the box is checked though SPEC-001 is not selected | checked only when every shown row is selected | medium, not executed | SpecsTable.IsAllSelectedMisleads | SpecsTable.SelectAllCheckedIntended |
