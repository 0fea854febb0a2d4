/** The user-story part of the version comparison dialog: the stories of the
    current version are matched by id against those of the version being
    compared with. A story with no match is "added", a matched story that
    differs is "modified", an identical one is not shown, and stories of the
    older version with no match in the current one are "removed", listed after
    the others. The description panel is drawn by an external text-diff
    component and is not part of this module. */
module VersionComparison {
  import opened Seqs
  import opened SpecModel

  datatype StoryChange =
    | StoryAdded(story: UserStory)
    | StoryModified(before: UserStory, after: UserStory)
    | StoryRemoved(story: UserStory)

  /** The card drawn for one story of the current version, if any. Equality of
      records stands for the comparison of their JSON serialisations. */
  function ChangeOf(current: UserStory, previous: seq<UserStory>): (c: Option<StoryChange>)
    ensures c.None? <==> FindStory(previous, current.id) == Some(current)
    ensures c.Some? ==> !c.value.StoryRemoved?
    ensures FindStory(previous, current.id).None? ==> c == Some(StoryAdded(current))
    ensures FindStory(previous, current.id).Some? && FindStory(previous, current.id).value != current ==>
      c == Some(StoryModified(FindStory(previous, current.id).value, current))
  {
    match FindStory(previous, current.id)
    case None => Some(StoryAdded(current))
    case Some(o) => if o == current then None else Some(StoryModified(o, current))
  }

  /** The cards for the current version's stories, in their order. */
  function CurrentChanges(current: seq<UserStory>, previous: seq<UserStory>): (r: seq<StoryChange>)
    ensures |r| <= |current|
    ensures forall c :: c in r ==>
      !c.StoryRemoved? && (c.StoryAdded? ==> c.story in current) && (c.StoryModified? ==> c.after in current)
  {
    if current == [] then []
    else
      (match ChangeOf(current[0], previous) case None => [] case Some(c) => [c])
      + CurrentChanges(current[1..], previous)
  }

  /** The filter `oldStory => !current.find(s => s.id === oldStory.id)`. */
  function AbsentFrom(current: seq<UserStory>): UserStory -> bool {
    (o: UserStory) => FindStory(current, o.id).None?
  }

  /** The stories of the older version that have no id-match in the current one. */
  function RemovedStories(previous: seq<UserStory>, current: seq<UserStory>): (r: seq<UserStory>)
    ensures |r| <= |previous|
    ensures forall o :: o in r <==> o in previous && FindStory(current, o.id).None?
  {
    Filter(previous, AbsentFrom(current))
  }

  function RemovedChanges(removed: seq<UserStory>): (r: seq<StoryChange>)
    ensures |r| == |removed|
    ensures forall i :: 0 <= i < |r| ==> r[i] == StoryRemoved(removed[i])
  {
    if removed == [] then [] else [StoryRemoved(removed[0])] + RemovedChanges(removed[1..])
  }

  /** Everything the dialog lists about the user stories, in display order. */
  function StoryDiff(previous: seq<UserStory>, current: seq<UserStory>): (r: seq<StoryChange>)
    ensures |r| <= |current| + |previous|
    ensures forall c :: c in r && c.StoryRemoved? ==> c.story in previous && FindStory(current, c.story.id).None?
    ensures forall c :: c in r && c.StoryAdded? ==> c.story in current
    ensures forall c :: c in r && c.StoryModified? ==> c.after in current
  {
    CurrentChanges(current, previous) + RemovedChanges(RemovedStories(previous, current))
  }

  lemma {:induction false} CurrentChangesMembership(current: seq<UserStory>, previous: seq<UserStory>, c: StoryChange)
    ensures c in CurrentChanges(current, previous) <==> exists s :: s in current && ChangeOf(s, previous) == Some(c)
  {
    if current != [] {
      CurrentChangesMembership(current[1..], previous, c);
      var head := match ChangeOf(current[0], previous) case None => [] case Some(d) => [d];
      assert CurrentChanges(current, previous) == head + CurrentChanges(current[1..], previous);
      assert current == [current[0]] + current[1..];
    }
  }

  lemma RemovedChangesMembership(removed: seq<UserStory>, c: StoryChange)
    ensures c in RemovedChanges(removed) <==> c.StoryRemoved? && c.story in removed
  {
    var r := RemovedChanges(removed);
    if c in r {
      var i :| 0 <= i < |r| && r[i] == c;
      assert removed[i] == c.story;
    }
    if c.StoryRemoved? && c.story in removed {
      var i :| 0 <= i < |removed| && removed[i] == c.story;
      assert r[i] == c;
    }
  }

  /** The card a story produces shows that story, and the reason for it. */
  lemma ChangeOfShows(t: UserStory, previous: seq<UserStory>, c: StoryChange)
    requires ChangeOf(t, previous) == Some(c)
    ensures c.StoryAdded? ==> c.story == t && FindStory(previous, t.id).None?
    ensures c.StoryModified? ==> c.after == t && FindStory(previous, t.id) == Some(c.before) && c.before != t
  {
  }

  /** A story is reported as added exactly when it is in the current version
      and no story of the older version has its id. */
  lemma DiffAdded(previous: seq<UserStory>, current: seq<UserStory>, s: UserStory)
    ensures StoryAdded(s) in StoryDiff(previous, current) <==> s in current && FindStory(previous, s.id).None?
  {
    CurrentChangesMembership(current, previous, StoryAdded(s));
    RemovedChangesMembership(RemovedStories(previous, current), StoryAdded(s));
    if StoryAdded(s) in StoryDiff(previous, current) {
      var t :| t in current && ChangeOf(t, previous) == Some(StoryAdded(s));
      ChangeOfShows(t, previous, StoryAdded(s));
    }
    if s in current && FindStory(previous, s.id).None? {
      assert ChangeOf(s, previous) == Some(StoryAdded(s));
    }
  }

  /** A story is reported as modified exactly when it is in the current
      version and the first older story with its id differs from it. */
  lemma DiffModified(previous: seq<UserStory>, current: seq<UserStory>, before: UserStory, after: UserStory)
    ensures StoryModified(before, after) in StoryDiff(previous, current)
        <==> after in current && FindStory(previous, after.id) == Some(before) && before != after
  {
    CurrentChangesMembership(current, previous, StoryModified(before, after));
    RemovedChangesMembership(RemovedStories(previous, current), StoryModified(before, after));
    if StoryModified(before, after) in StoryDiff(previous, current) {
      var t :| t in current && ChangeOf(t, previous) == Some(StoryModified(before, after));
      ChangeOfShows(t, previous, StoryModified(before, after));
    }
    if after in current && FindStory(previous, after.id) == Some(before) && before != after {
      assert ChangeOf(after, previous) == Some(StoryModified(before, after));
    }
  }

  /** A story is reported as removed exactly when it is in the older version
      and no story of the current version has its id. */
  lemma DiffRemoved(previous: seq<UserStory>, current: seq<UserStory>, s: UserStory)
    ensures StoryRemoved(s) in StoryDiff(previous, current) <==> s in previous && FindStory(current, s.id).None?
  {
    CurrentChangesMembership(current, previous, StoryRemoved(s));
    RemovedChangesMembership(RemovedStories(previous, current), StoryRemoved(s));
  }

  /** A story found unchanged in the older version is not mentioned at all. */
  lemma DiffOmitsUnchanged(previous: seq<UserStory>, current: seq<UserStory>, s: UserStory)
    requires s in current && FindStory(previous, s.id) == Some(s)
    ensures StoryAdded(s) !in StoryDiff(previous, current)
    ensures forall before :: StoryModified(before, s) !in StoryDiff(previous, current)
  {
    DiffAdded(previous, current, s);
    forall before
      ensures StoryModified(before, s) !in StoryDiff(previous, current)
    {
      DiffModified(previous, current, before, s);
    }
  }

  /** Removals come after every added or modified card. */
  lemma RemovalsLast(previous: seq<UserStory>, current: seq<UserStory>)
    ensures var d := StoryDiff(previous, current);
      forall i, j :: 0 <= i < j < |d| && d[i].StoryRemoved? ==> d[j].StoryRemoved?
  {
    var front := CurrentChanges(current, previous);
    var back := RemovedChanges(RemovedStories(previous, current));
    var d := front + back;
    forall k | 0 <= k < |front|
      ensures !d[k].StoryRemoved?
    {
      assert d[k] == front[k] && front[k] in front;
    }
    forall k | |front| <= k < |d|
      ensures d[k].StoryRemoved?
    {
      assert d[k] == back[k - |front|];
    }
  }

  /** The story each added or modified card shows. */
  function ShownStories(changes: seq<StoryChange>): seq<UserStory> {
    if changes == [] then []
    else (if changes[0].StoryModified? then [changes[0].after] else [changes[0].story]) + ShownStories(changes[1..])
  }

  /** Added and modified cards follow the order of the current version. */
  lemma {:induction false} CurrentChangesInOrder(current: seq<UserStory>, previous: seq<UserStory>)
    ensures IsSubsequence(ShownStories(CurrentChanges(current, previous)), current)
  {
    if current != [] {
      CurrentChangesInOrder(current[1..], previous);
      var rest := CurrentChanges(current[1..], previous);
      match ChangeOf(current[0], previous)
      case None =>
        assert CurrentChanges(current, previous) == rest;
        var shown := ShownStories(rest);
        assert IsSubsequence(shown, current[1..]);
        SubsequenceSkip(shown, current);
      case Some(c) =>
        assert CurrentChanges(current, previous) == [c] + rest;
        assert ([c] + rest)[1..] == rest;
        assert ShownStories([c] + rest) == [current[0]] + ShownStories(rest);
    }
  }

  lemma SubsequenceSkip<T>(a: seq<T>, b: seq<T>)
    requires b != [] && IsSubsequence(a, b[1..])
    ensures IsSubsequence(a, b)
  {
  }

  /** Removed cards follow the order of the older version. */
  lemma RemovedInOrder(previous: seq<UserStory>, current: seq<UserStory>)
    ensures IsSubsequence(RemovedStories(previous, current), previous)
  {
    FilterIsSubsequence(previous, AbsentFrom(current));
  }

  predicate UniqueStoryIds(stories: seq<UserStory>) {
    forall i, j :: 0 <= i < j < |stories| ==> stories[i].id != stories[j].id
  }

  lemma FindStoryUnique(stories: seq<UserStory>, k: nat)
    requires UniqueStoryIds(stories) && k < |stories|
    ensures FindStory(stories, stories[k].id) == Some(stories[k])
  {
    var i := FindIndex(stories, StoryHasId(stories[k].id));
    assert StoryHasId(stories[k].id)(stories[k]);
  }

  lemma {:induction false} CurrentChangesNone(current: seq<UserStory>, previous: seq<UserStory>)
    requires forall s :: s in current ==> FindStory(previous, s.id) == Some(s)
    ensures CurrentChanges(current, previous) == []
  {
    if current != [] {
      CurrentChangesNone(current[1..], previous);
    }
  }

  /** Comparing a version with itself shows no story changes, provided story
      ids are unique within it. */
  lemma DiffOfSameStoriesIsEmpty(stories: seq<UserStory>)
    requires UniqueStoryIds(stories)
    ensures StoryDiff(stories, stories) == []
  {
    forall s | s in stories
      ensures FindStory(stories, s.id) == Some(s)
    {
      var k :| 0 <= k < |stories| && stories[k] == s;
      FindStoryUnique(stories, k);
    }
    CurrentChangesNone(stories, stories);
    FilterKeepsNone(stories, AbsentFrom(stories));
  }

  /** The dialog's two look-ups: it renders nothing (None) unless both the
      current version and the selected one are in the history. */
  function CompareVersions(versions: seq<SpecVersion>, currentVersionId: string, selectedVersion: string): (r: Option<seq<StoryChange>>)
    ensures r.Some? <==> FindVersion(versions, currentVersionId).Some? && FindVersion(versions, selectedVersion).Some?
    ensures r.Some? ==> r.value == StoryDiff(FindVersion(versions, selectedVersion).value.userStories,
                                             FindVersion(versions, currentVersionId).value.userStories)
  {
    match (FindVersion(versions, currentVersionId), FindVersion(versions, selectedVersion))
    case (Some(current), Some(compare)) => Some(StoryDiff(compare.userStories, current.userStories))
    case _ => None
  }

  /** The version selected when the dialog opens: the second in the history, or ''. */
  function InitialSelection(versions: seq<SpecVersion>): (id: string)
    ensures |versions| >= 2 ==> id == versions[1].id
    ensures |versions| < 2 ==> id == ""
  {
    if |versions| >= 2 then versions[1].id else ""
  }
}
