/** The comment threads attached to a user story: top-level comments, each
    with one level of replies, created, answered, resolved, tagged, searched
    and counted. The list of comments is a value that every command replaces
    with an updated copy (`setComments`); the classes `CommentSystemState` and
    `CommentThreadState` hold the state of the two components and apply the
    updates. Clock readings (`Date.now()`, `new Date().toISOString()`) are
    parameters. */
module CommentSystem {
  import opened Seqs
  import opened Text

  datatype User = User(id: string, name: string, email: string, avatar: string, initials: string)

  /** The highlighted part of the story text a comment refers to. */
  datatype HighlightRange = HighlightRange(start: int, end: int, text: string)

  /** The offsets of the current text selection, before a comment is made of it. */
  datatype Selection = Selection(start: int, end: int)

  datatype Comment = Comment(
    id: string,
    content: string,
    author: User,
    createdAt: string,
    updatedAt: Option<string>,
    isResolved: bool,
    highlightedText: Option<string>,
    highlightRange: Option<HighlightRange>,
    taggedUsers: seq<User>,
    replies: seq<Comment>,
    parentId: Option<string>)

  /** The signed-in user: the first of the team members. */
  const CurrentUser: User := User("1", "Alice Johnson", "alice@company.com", "", "AJ")

  /** The comment list filter of the drop-down. */
  datatype FilterBy = All | TaggedMe | Recent | Resolved | Unresolved

  // ---------------------------------------------------------------------------
  // Creating and replying

  /** The comment `handleCreateComment` builds from the form; `millis` is the
      `Date.now()` reading its id is made from and `now` the creation time. */
  function NewComment(content: string, selectedText: string, selection: Option<Selection>,
                      tagged: seq<User>, millis: nat, now: string): (c: Comment)
    ensures c.id == "c" + NatToString(millis)
    ensures c.content == content && c.author == CurrentUser && c.createdAt == now
    ensures !c.isResolved && c.replies == [] && c.taggedUsers == tagged
    ensures c.highlightedText.Some? <==> selectedText != ""
    ensures c.highlightedText.Some? ==> c.highlightedText.value == selectedText
    ensures c.highlightRange.Some? <==> selection.Some?
    ensures c.highlightRange.Some? ==>
      c.highlightRange.value == HighlightRange(selection.value.start, selection.value.end, selectedText)
    ensures c.parentId == None && c.updatedAt == None
  {
    Comment("c" + NatToString(millis), content, CurrentUser, now, None, false,
            if selectedText == "" then None else Some(selectedText),
            match selection case None => None case Some(r) => Some(HighlightRange(r.start, r.end, selectedText)),
            tagged, [], None)
  }

  /** The comment list after the Add Comment button: a blank draft changes
      nothing, otherwise the new comment goes in front. */
  function Created(comments: seq<Comment>, content: string, selectedText: string, selection: Option<Selection>,
                   tagged: seq<User>, millis: nat, now: string): (r: seq<Comment>)
    ensures IsBlank(content) ==> r == comments
    ensures !IsBlank(content) ==>
      |r| == |comments| + 1 && r[1..] == comments &&
      r[0] == NewComment(content, selectedText, selection, tagged, millis, now)
  {
    if IsBlank(content) then comments
    else [NewComment(content, selectedText, selection, tagged, millis, now)] + comments
  }

  /** The reply `handleReply` builds; its id is the parent's id, `-r` and the clock reading. */
  function NewReply(parentId: string, content: string, tagged: seq<User>, millis: nat, now: string): (c: Comment)
    ensures c.id == parentId + "-r" + NatToString(millis) && c.parentId == Some(parentId)
    ensures c.content == content && c.author == CurrentUser && c.createdAt == now
    ensures !c.isResolved && c.replies == [] && c.taggedUsers == tagged
    ensures c.highlightedText == None && c.highlightRange == None && c.updatedAt == None
  {
    Comment(parentId + "-r" + NatToString(millis), content, CurrentUser, now, None, false, None, None, tagged, [], Some(parentId))
  }

  /** One element of the `map` in `handleReply`. */
  function ReplyAddedTo(c: Comment, parentId: string, reply: Comment): Comment {
    if c.id == parentId then c.(replies := c.replies + [reply]) else c
  }

  /** The comment list after a reply to `parentId`: every top-level comment
      with that id gets the reply at the end of its replies; nothing else
      changes. Replies are not searched, so answering a reply changes nothing. */
  function WithReply(comments: seq<Comment>, parentId: string, reply: Comment): (r: seq<Comment>)
    ensures |r| == |comments|
    ensures forall i :: 0 <= i < |r| && comments[i].id != parentId ==> r[i] == comments[i]
    ensures forall i :: 0 <= i < |r| && comments[i].id == parentId ==>
      r[i].replies == comments[i].replies + [reply] && r[i].(replies := comments[i].replies) == comments[i]
  {
    seq(|comments|, i requires 0 <= i < |comments| => ReplyAddedTo(comments[i], parentId, reply))
  }

  /** A reply whose parent is not a top-level comment leaves the list as it was. */
  lemma WithReplyUnknownParent(comments: seq<Comment>, parentId: string, reply: Comment)
    requires forall c :: c in comments ==> c.id != parentId
    ensures WithReply(comments, parentId, reply) == comments
  {
    var r := WithReply(comments, parentId, reply);
    forall i | 0 <= i < |r|
      ensures r[i] == comments[i]
    {
      assert comments[i] in comments;
    }
  }

  // ---------------------------------------------------------------------------
  // Resolving

  function Flipped(c: Comment): Comment {
    c.(isResolved := !c.isResolved)
  }

  /** One reply of the inner `map` in `handleResolve`. */
  function ReplyResolved(reply: Comment, commentId: string): Comment {
    if reply.id == commentId then Flipped(reply) else reply
  }

  /** One element of the outer `map` in `handleResolve`: a matching top-level
      comment is flipped (its replies are left alone); otherwise its matching
      replies are. */
  function CommentResolved(c: Comment, commentId: string): (r: Comment)
    ensures c.id == commentId ==> r == Flipped(c)
    ensures c.id != commentId ==>
      r.isResolved == c.isResolved && |r.replies| == |c.replies| &&
      r.(replies := c.replies) == c &&
      forall j :: 0 <= j < |c.replies| ==>
        r.replies[j] == (if c.replies[j].id == commentId then Flipped(c.replies[j]) else c.replies[j])
  {
    if c.id == commentId then Flipped(c)
    else c.(replies := seq(|c.replies|, j requires 0 <= j < |c.replies| => ReplyResolved(c.replies[j], commentId)))
  }

  /** `handleResolve`: the resolved flag of the comment, or first-level reply,
      carrying `commentId` is flipped. */
  function Toggled(comments: seq<Comment>, commentId: string): (r: seq<Comment>)
    ensures |r| == |comments|
    ensures forall i :: 0 <= i < |r| ==> r[i].id == comments[i].id
    ensures forall i :: 0 <= i < |r| && comments[i].id == commentId ==>
      r[i].isResolved == !comments[i].isResolved && r[i].(isResolved := comments[i].isResolved) == comments[i]
    ensures forall i :: 0 <= i < |r| && comments[i].id != commentId ==>
      r[i].isResolved == comments[i].isResolved && r[i].(replies := comments[i].replies) == comments[i]
    ensures forall i :: 0 <= i < |r| ==> r[i] == CommentResolved(comments[i], commentId)
  {
    seq(|comments|, i requires 0 <= i < |comments| => CommentResolved(comments[i], commentId))
  }

  lemma CommentResolvedTwice(c: Comment, commentId: string)
    ensures CommentResolved(CommentResolved(c, commentId), commentId) == c
  {
    if c.id != commentId {
      var once := CommentResolved(c, commentId);
      var twice := CommentResolved(once, commentId);
      assert twice.replies == c.replies;
    }
  }

  /** Resolving the same id twice restores the comment list. */
  lemma ToggledTwice(comments: seq<Comment>, commentId: string)
    ensures Toggled(Toggled(comments, commentId), commentId) == comments
  {
    var once := Toggled(comments, commentId);
    var twice := Toggled(once, commentId);
    forall i | 0 <= i < |comments|
      ensures twice[i] == comments[i]
    {
      CommentResolvedTwice(comments[i], commentId);
    }
  }

  /** An id that is neither a comment's nor a first-level reply's changes nothing. */
  lemma ToggledUnknownId(comments: seq<Comment>, commentId: string)
    requires forall c :: c in comments ==> c.id != commentId && forall r :: r in c.replies ==> r.id != commentId
    ensures Toggled(comments, commentId) == comments
  {
    var r := Toggled(comments, commentId);
    forall i | 0 <= i < |comments|
      ensures r[i] == comments[i]
    {
      var c := comments[i];
      assert c in comments;
      assert CommentResolved(c, commentId).replies == c.replies by {
        forall j | 0 <= j < |c.replies|
          ensures CommentResolved(c, commentId).replies[j] == c.replies[j]
        {
          assert c.replies[j] in c.replies;
        }
      }
    }
  }

  // ---------------------------------------------------------------------------
  // Tagging

  /** The callback `u => u.id === id`. */
  function UserHasId(id: string): User -> bool {
    (u: User) => u.id == id
  }

  /** The callback `u => u.id !== id` of `removeTag`. */
  function UserLacksId(id: string): User -> bool {
    (u: User) => u.id != id
  }

  predicate UniqueUserIds(users: seq<User>) {
    forall i, j :: 0 <= i < j < |users| ==> users[i].id != users[j].id
  }

  /** `handleTagUser` on the tag list and the draft: a user already tagged
      (by id) changes neither; otherwise the user is appended and `@name `
      is added to the draft. */
  function TagAdded(tags: seq<User>, draft: string, user: User): (r: (seq<User>, string))
    ensures (exists u :: u in tags && u.id == user.id) ==> r == (tags, draft)
    ensures (forall u :: u in tags ==> u.id != user.id) ==>
      r == (tags + [user], draft + "@" + user.name + " ")
  {
    if Find(tags, UserHasId(user.id)).None? then (tags + [user], draft + "@" + user.name + " ")
    else (tags, draft)
  }

  /** `removeTag`: every user with `userId` goes, the others stay in order. */
  function TagRemoved(tags: seq<User>, userId: string): (r: seq<User>)
    ensures forall u :: u in r ==> u in tags && u.id != userId
    ensures forall u :: u in tags && u.id != userId ==> u in r
    ensures IsSubsequence(r, tags)
    ensures forall u: User :: u.id != userId ==> multiset(r)[u] == multiset(tags)[u]
  {
    FilterIsSubsequence(tags, UserLacksId(userId));
    FilterMultiplicity(tags, UserLacksId(userId));
    Filter(tags, UserLacksId(userId))
  }

  /** Tagging never duplicates an id. */
  lemma TagAddedKeepsIdsUnique(tags: seq<User>, draft: string, user: User)
    requires UniqueUserIds(tags)
    ensures UniqueUserIds(TagAdded(tags, draft, user).0)
  {
    if forall u :: u in tags ==> u.id != user.id {
      var r := tags + [user];
      forall i, j | 0 <= i < j < |r|
        ensures r[i].id != r[j].id
      {
        if j == |tags| {
          assert r[i] in tags;
        }
      }
    }
  }

  lemma {:induction false} FilterKeepsIdsUnique(tags: seq<User>, p: User -> bool)
    requires UniqueUserIds(tags)
    ensures UniqueUserIds(Filter(tags, p))
  {
    if tags != [] {
      FilterKeepsIdsUnique(tags[1..], p);
      var rest := Filter(tags[1..], p);
      if p(tags[0]) {
        var r := [tags[0]] + rest;
        forall i, j | 0 <= i < j < |r|
          ensures r[i].id != r[j].id
        {
          if i == 0 {
            assert r[j] in rest;
            var k :| 0 <= k < |tags[1..]| && tags[1..][k] == r[j];
            assert tags[k + 1] == r[j];
          }
        }
      }
    }
  }

  /** Removing a tag keeps ids unique. */
  lemma TagRemovedKeepsIdsUnique(tags: seq<User>, userId: string)
    requires UniqueUserIds(tags)
    ensures UniqueUserIds(TagRemoved(tags, userId))
  {
    FilterKeepsIdsUnique(tags, UserLacksId(userId));
  }

  /** Tagging a user who was not tagged and then removing them restores the tags. */
  lemma TagThenRemove(tags: seq<User>, draft: string, user: User)
    requires forall u :: u in tags ==> u.id != user.id
    ensures TagRemoved(TagAdded(tags, draft, user).0, user.id) == tags
  {
    FilterConcat(tags, [user], UserLacksId(user.id));
    FilterKeepsAll(tags, UserLacksId(user.id));
  }

  // ---------------------------------------------------------------------------
  // Searching, filtering and counting

  /** `text.toLowerCase().includes(query.toLowerCase())`. */
  predicate MentionsQuery(text: string, query: string) {
    Includes(ToLower(text), ToLower(query))
  }

  /** The search test: the query occurs in the comment's content or author
      name, or in some reply's content or author name. */
  predicate MatchesSearch(c: Comment, query: string)
    ensures query == "" ==> MatchesSearch(c, query)
  {
    || MentionsQuery(c.content, query)
    || MentionsQuery(c.author.name, query)
    || exists r :: r in c.replies && (MentionsQuery(r.content, query) || MentionsQuery(r.author.name, query))
  }

  /** The signed-in user is tagged on the comment or on one of its replies. */
  predicate TagsCurrentUser(c: Comment) {
    || (exists u :: u in c.taggedUsers && u.id == CurrentUser.id)
    || exists r :: r in c.replies && exists u :: u in r.taggedUsers && u.id == CurrentUser.id
  }

  /** The drop-down's test; `isRecent` stands for the 24-hour window on
      `createdAt`, which depends on the clock. */
  predicate StatusMatches(c: Comment, filterBy: FilterBy, isRecent: string -> bool) {
    match filterBy
    case TaggedMe => TagsCurrentUser(c)
    case Recent => isRecent(c.createdAt)
    case Resolved => c.isResolved
    case Unresolved => !c.isResolved
    case All => true
  }

  /** The callback of `comments.filter(...)`: an empty query searches nothing. */
  function Keeps(query: string, filterBy: FilterBy, isRecent: string -> bool): Comment -> bool {
    (c: Comment) => (query == "" || MatchesSearch(c, query)) && StatusMatches(c, filterBy, isRecent)
  }

  /** `filteredComments`. */
  function FilteredComments(comments: seq<Comment>, query: string, filterBy: FilterBy, isRecent: string -> bool): (r: seq<Comment>)
    ensures |r| <= |comments|
  {
    Filter(comments, Keeps(query, filterBy, isRecent))
  }

  /** A comment is listed exactly when it is in the list, passes the search
      (if any) and passes the drop-down's filter. */
  lemma FilteredMembership(comments: seq<Comment>, query: string, filterBy: FilterBy, isRecent: string -> bool, c: Comment)
    ensures c in FilteredComments(comments, query, filterBy, isRecent) <==>
      c in comments && (query == "" || MatchesSearch(c, query)) && StatusMatches(c, filterBy, isRecent)
  {
    assert Keeps(query, filterBy, isRecent)(c) <==>
      (query == "" || MatchesSearch(c, query)) && StatusMatches(c, filterBy, isRecent);
  }

  /** The listed comments keep the order of the list. */
  lemma FilteredInOrder(comments: seq<Comment>, query: string, filterBy: FilterBy, isRecent: string -> bool)
    ensures IsSubsequence(FilteredComments(comments, query, filterBy, isRecent), comments)
  {
    FilterIsSubsequence(comments, Keeps(query, filterBy, isRecent));
  }

  /** With no search and the "all" filter every comment is listed, in order. */
  lemma FilteredAllIsEverything(comments: seq<Comment>, isRecent: string -> bool)
    ensures FilteredComments(comments, "", All, isRecent) == comments
  {
    FilterKeepsAll(comments, Keeps("", All, isRecent));
  }

  /** With no search, the resolved and the unresolved lists split the comments between them. */
  lemma ResolvedUnresolvedPartition(comments: seq<Comment>, isRecent: string -> bool)
    ensures multiset(FilteredComments(comments, "", Resolved, isRecent)) +
            multiset(FilteredComments(comments, "", Unresolved, isRecent)) == multiset(comments)
    ensures |FilteredComments(comments, "", Resolved, isRecent)| +
            |FilteredComments(comments, "", Unresolved, isRecent)| == |comments|
  {
    var p, q := Keeps("", Resolved, isRecent), Keeps("", Unresolved, isRecent);
    assert forall c :: q(c) == !p(c);
    FilterPartition(comments, p, q);
  }

  predicate IsUnresolved(c: Comment) {
    !c.isResolved
  }

  /** `unresolvedCount`: the top-level comments not resolved. */
  function UnresolvedCount(comments: seq<Comment>): (n: nat)
    ensures n <= |comments|
  {
    |Filter(comments, IsUnresolved)|
  }

  /** `taggedCount`: the top-level comments tagging the signed-in user, on
      themselves or on a reply. */
  function TaggedCount(comments: seq<Comment>): (n: nat)
    ensures n <= |comments|
  {
    |Filter(comments, TagsCurrentUser)|
  }

  /** The badges agree with the lists: the unresolved badge counts the
      "unresolved" list and the tagged badge the "tagged me" list, without a search. */
  lemma CountsMatchFilters(comments: seq<Comment>, isRecent: string -> bool)
    ensures UnresolvedCount(comments) == |FilteredComments(comments, "", Unresolved, isRecent)|
    ensures TaggedCount(comments) == |FilteredComments(comments, "", TaggedMe, isRecent)|
  {
    FilterExtensional(comments, IsUnresolved, Keeps("", Unresolved, isRecent));
    FilterExtensional(comments, TagsCurrentUser, Keeps("", TaggedMe, isRecent));
  }

  /** A new comment adds one to the unresolved count; a blank draft adds nothing. */
  lemma CreatedCount(comments: seq<Comment>, content: string, selectedText: string, selection: Option<Selection>,
                     tagged: seq<User>, millis: nat, now: string)
    ensures UnresolvedCount(Created(comments, content, selectedText, selection, tagged, millis, now))
         == UnresolvedCount(comments) + (if IsBlank(content) then 0 else 1)
  {
    var r := Created(comments, content, selectedText, selection, tagged, millis, now);
    if !IsBlank(content) {
      assert r[1..] == comments;
    }
  }

  /** Lists whose entries agree on being resolved have the same unresolved count. */
  lemma {:induction false} SameResolutionSameCount(a: seq<Comment>, b: seq<Comment>)
    requires |a| == |b| && forall i :: 0 <= i < |a| ==> a[i].isResolved == b[i].isResolved
    ensures UnresolvedCount(a) == UnresolvedCount(b)
  {
    if a != [] {
      SameResolutionSameCount(a[1..], b[1..]);
    }
  }

  /** A reply never changes the unresolved count. */
  lemma ReplyKeepsCount(comments: seq<Comment>, parentId: string, reply: Comment)
    ensures UnresolvedCount(WithReply(comments, parentId, reply)) == UnresolvedCount(comments)
  {
    SameResolutionSameCount(WithReply(comments, parentId, reply), comments);
  }

  predicate UniqueCommentIds(comments: seq<Comment>) {
    forall i, j :: 0 <= i < j < |comments| ==> comments[i].id != comments[j].id
  }

  /** Resolving the `k`-th top-level comment moves the unresolved count by one,
      down if it was open and up if it was resolved. */
  lemma {:induction false} ToggledCount(comments: seq<Comment>, k: nat)
    requires UniqueCommentIds(comments) && k < |comments|
    ensures UnresolvedCount(Toggled(comments, comments[k].id))
         == UnresolvedCount(comments) + (if comments[k].isResolved then 1 else -1)
  {
    var id := comments[k].id;
    var r := Toggled(comments, id);
    var tail := comments[1..];
    assert r[1..] == Toggled(tail, id);
    if k == 0 {
      SameResolutionSameCount(r[1..], tail);
    } else {
      assert tail[k - 1] == comments[k];
      ToggledCount(tail, k - 1);
    }
  }

  // ---------------------------------------------------------------------------
  // The components

  /** A reply as `CommentThread` hands it to its parent (`onReply`). */
  datatype ReplyRequest = ReplyRequest(parentId: string, content: string, taggedUsers: seq<User>)

  /** The reply form of one rendered comment or reply. */
  class CommentThreadState {
    const commentId: string
    var isReplying: bool
    var replyContent: string
    var taggedUsers: seq<User>
    var showTagging: bool

    ghost predicate Valid()
      reads this
    {
      UniqueUserIds(taggedUsers)
    }

    constructor (id: string)
      ensures Valid() && commentId == id
      ensures !isReplying && replyContent == "" && taggedUsers == [] && !showTagging
    {
      commentId := id;
      isReplying := false;
      replyContent := "";
      taggedUsers := [];
      showTagging := false;
    }

    method SetReplyContent(text: string)
      requires Valid()
      modifies this`replyContent
      ensures Valid()
      ensures replyContent == text
    {
      replyContent := text;
    }

    /** The Reply button: a blank draft sends nothing and changes nothing;
        otherwise the draft and its tags go to the parent and the form resets. */
    method HandleReply() returns (request: Option<ReplyRequest>)
      requires Valid()
      modifies this`replyContent, this`taggedUsers, this`isReplying
      ensures Valid()
      ensures IsBlank(old(replyContent)) ==>
        request == None && replyContent == old(replyContent) && taggedUsers == old(taggedUsers) && isReplying == old(isReplying)
      ensures !IsBlank(old(replyContent)) ==>
        request == Some(ReplyRequest(commentId, old(replyContent), old(taggedUsers))) &&
        replyContent == "" && taggedUsers == [] && !isReplying
    {
      if IsBlank(replyContent) {
        request := None;
      } else {
        request := Some(ReplyRequest(commentId, replyContent, taggedUsers));
        replyContent := "";
        taggedUsers := [];
        isReplying := false;
      }
    }

    method HandleTagUser(user: User)
      requires Valid()
      modifies this`taggedUsers, this`replyContent, this`showTagging
      ensures Valid()
      ensures (taggedUsers, replyContent) == TagAdded(old(taggedUsers), old(replyContent), user)
      ensures !showTagging
    {
      TagAddedKeepsIdsUnique(taggedUsers, replyContent, user);
      var next := TagAdded(taggedUsers, replyContent, user);
      taggedUsers, replyContent := next.0, next.1;
      showTagging := false;
    }

    method RemoveTag(userId: string)
      requires Valid()
      modifies this`taggedUsers
      ensures Valid()
      ensures taggedUsers == TagRemoved(old(taggedUsers), userId)
    {
      TagRemovedKeepsIdsUnique(taggedUsers, userId);
      taggedUsers := TagRemoved(taggedUsers, userId);
    }
  }

  /** The comment panel of one user story. */
  class CommentSystemState {
    var comments: seq<Comment>
    var isCreatingComment: bool
    var newCommentContent: string
    var selectedText: string
    var selectionRange: Option<Selection>
    var taggedUsers: seq<User>
    var showTagging: bool
    var filterBy: FilterBy
    var searchQuery: string

    ghost predicate Valid()
      reads this
    {
      UniqueUserIds(taggedUsers)
    }

    constructor (initial: seq<Comment>)
      ensures Valid() && comments == initial
      ensures !isCreatingComment && newCommentContent == "" && selectedText == "" && selectionRange == None
      ensures taggedUsers == [] && !showTagging && filterBy == All && searchQuery == ""
    {
      comments := initial;
      isCreatingComment := false;
      newCommentContent := "";
      selectedText := "";
      selectionRange := None;
      taggedUsers := [];
      showTagging := false;
      filterBy := All;
      searchQuery := "";
    }

    method SetNewCommentContent(text: string)
      requires Valid()
      modifies this`newCommentContent
      ensures Valid()
      ensures newCommentContent == text
    {
      newCommentContent := text;
    }

    method SetSearchQuery(query: string)
      requires Valid()
      modifies this`searchQuery
      ensures Valid()
      ensures searchQuery == query
    {
      searchQuery := query;
    }

    method SetFilterBy(f: FilterBy)
      requires Valid()
      modifies this`filterBy
      ensures Valid()
      ensures filterBy == f
    {
      filterBy := f;
    }

    /** A text selection in the story, read from the page as its text
        `selected` and the offsets `range` of its first range. A selection
        that is blank after trimming (or none, the empty text) changes
        nothing; otherwise its trimmed text and offsets are kept and the
        comment form opens. */
    method HandleTextSelection(selected: string, range: Selection)
      requires Valid()
      modifies this`selectedText, this`selectionRange, this`isCreatingComment
      ensures Valid()
      ensures IsBlank(selected) ==>
        selectedText == old(selectedText) && selectionRange == old(selectionRange) && isCreatingComment == old(isCreatingComment)
      ensures !IsBlank(selected) ==>
        selectedText == Trim(selected) && selectedText != "" && selectionRange == Some(range) && isCreatingComment
    {
      if !IsBlank(selected) {
        selectedText := Trim(selected);
        selectionRange := Some(range);
        isCreatingComment := true;
      }
    }

    /** The Add Comment button; `millis` and `now` are the clock readings. A
        blank draft changes nothing; otherwise the comment is added and the
        form is cleared. */
    method HandleCreateComment(millis: nat, now: string)
      requires Valid()
      modifies this`comments, this`newCommentContent, this`selectedText, this`selectionRange,
               this`taggedUsers, this`isCreatingComment
      ensures Valid()
      ensures comments == Created(old(comments), old(newCommentContent), old(selectedText),
                                  old(selectionRange), old(taggedUsers), millis, now)
      ensures IsBlank(old(newCommentContent)) ==>
        newCommentContent == old(newCommentContent) && selectedText == old(selectedText) &&
        selectionRange == old(selectionRange) && taggedUsers == old(taggedUsers) &&
        isCreatingComment == old(isCreatingComment)
      ensures !IsBlank(old(newCommentContent)) ==>
        newCommentContent == "" && selectedText == "" && selectionRange == None &&
        taggedUsers == [] && !isCreatingComment
    {
      if !IsBlank(newCommentContent) {
        comments := Created(comments, newCommentContent, selectedText, selectionRange, taggedUsers, millis, now);
        newCommentContent := "";
        selectedText := "";
        selectionRange := None;
        taggedUsers := [];
        isCreatingComment := false;
      }
    }

    /** `onReply` from a thread; the content is not checked again here. */
    method HandleReply(parentId: string, content: string, tagged: seq<User>, millis: nat, now: string)
      requires Valid()
      modifies this`comments
      ensures Valid()
      ensures comments == WithReply(old(comments), parentId, NewReply(parentId, content, tagged, millis, now))
    {
      comments := WithReply(comments, parentId, NewReply(parentId, content, tagged, millis, now));
    }

    method HandleResolve(commentId: string)
      requires Valid()
      modifies this`comments
      ensures Valid()
      ensures comments == Toggled(old(comments), commentId)
    {
      comments := Toggled(comments, commentId);
    }

    method HandleTagUser(user: User)
      requires Valid()
      modifies this`taggedUsers, this`newCommentContent, this`showTagging
      ensures Valid()
      ensures (taggedUsers, newCommentContent) == TagAdded(old(taggedUsers), old(newCommentContent), user)
      ensures !showTagging
    {
      TagAddedKeepsIdsUnique(taggedUsers, newCommentContent, user);
      var next := TagAdded(taggedUsers, newCommentContent, user);
      taggedUsers, newCommentContent := next.0, next.1;
      showTagging := false;
    }

    method RemoveTag(userId: string)
      requires Valid()
      modifies this`taggedUsers
      ensures Valid()
      ensures taggedUsers == TagRemoved(old(taggedUsers), userId)
    {
      TagRemovedKeepsIdsUnique(taggedUsers, userId);
      taggedUsers := TagRemoved(taggedUsers, userId);
    }

    /** The form's Cancel button. */
    method CancelComment()
      requires Valid()
      modifies this`isCreatingComment, this`newCommentContent, this`selectedText, this`selectionRange, this`taggedUsers
      ensures Valid()
      ensures !isCreatingComment && newCommentContent == "" && selectedText == "" && selectionRange == None && taggedUsers == []
    {
      isCreatingComment := false;
      newCommentContent := "";
      selectedText := "";
      selectionRange := None;
      taggedUsers := [];
    }
  }
}
