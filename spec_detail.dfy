/** The commands of the spec detail screen. Each handler of the component
    replaces the held spec record with an updated copy (`setSpec(prev => ...)`)
    or replaces the working story list; here each update is a function from the
    old record to the new one, and the class `SpecDetailState` holds the state
    and applies them. No command can fail: the screen only hides the buttons it
    does not want pressed. */
module SpecDetail {
  import opened Seqs
  import opened Text
  import opened SpecModel

  /** The `updatedAt` marker every spec command writes. */
  const JustNow: string := "just now"

  /** The stage's value in the stage selector. */
  function StageName(stage: Stage): string {
    match stage
    case Requirements => "requirements"
    case TechnicalDesign => "technical-design"
    case ImplementationTasks => "implementation-tasks"
  }

  /** Moving to either later stage locks the requirements. */
  predicate LocksRequirements(stage: Stage)
    ensures LocksRequirements(stage) <==> stage != Requirements
  {
    stage == TechnicalDesign || stage == ImplementationTasks
  }

  /** The technical design stage as the lock banner words it: the first '-'
      of its selector value becomes a space. */
  lemma TechnicalDesignPhrase()
    ensures ReplaceFirst(StageName(TechnicalDesign), '-', ' ') == "technical design"
  {
    var before, after := "technical", "design";
    assert StageName(TechnicalDesign) == before + ['-'] + after;
    assert '-' !in before;
    ReplaceFirstAt(before, after, '-', ' ');
    assert before + [' '] + after == "technical design";
  }

  /** The implementation tasks stage as the lock banner words it. */
  lemma ImplementationTasksPhrase()
    ensures ReplaceFirst(StageName(ImplementationTasks), '-', ' ') == "implementation tasks"
  {
    var before, after := "implementation", "tasks";
    assert StageName(ImplementationTasks) == before + ['-'] + after;
    assert '-' !in before;
    ReplaceFirstAt(before, after, '-', ' ');
    assert before + [' '] + after == "implementation tasks";
  }

  /** The opening words of every lock banner. */
  const LockPrefix: string := "Requirements locked because spec moved to "

  /** The lock banner text. */
  function LockReason(stage: Stage): (reason: string)
    ensures stage == TechnicalDesign ==> reason == LockPrefix + "technical design" + " stage"
    ensures stage == ImplementationTasks ==> reason == LockPrefix + "implementation tasks" + " stage"
  {
    var phrase := ReplaceFirst(StageName(stage), '-', ' ');
    if stage == TechnicalDesign then
      TechnicalDesignPhrase();
      LockPrefix + phrase + " stage"
    else if stage == ImplementationTasks then
      ImplementationTasksPhrase();
      LockPrefix + phrase + " stage"
    else
      LockPrefix + phrase + " stage"
  }

  // ---------------------------------------------------------------------------
  // Status, stage, lock and description

  /** `handleStatusChange`: the new status and the update marker, nothing else. */
  function WithStatus(s: Spec, status: SpecStatus): (r: Spec)
    ensures r.status == status && r.updatedAt == JustNow
    ensures r.(status := s.status, updatedAt := s.updatedAt) == s
  {
    s.(status := status, updatedAt := JustNow)
  }

  /** `handleStageChange`: a later stage locks the requirements with a reason,
      the requirements stage clears the lock and its reason. */
  function WithStage(s: Spec, stage: Stage): (r: Spec)
    ensures r.stage == stage && r.updatedAt == JustNow
    ensures r.requirementsLocked <==> stage != Requirements
    ensures stage != Requirements ==> r.lockReason == Some(LockReason(stage))
    ensures stage == Requirements ==> r.lockReason == None
    ensures LockConsistent(r)
    ensures r.(stage := s.stage, requirementsLocked := s.requirementsLocked,
               lockReason := s.lockReason, updatedAt := s.updatedAt) == s
  {
    var locks := LocksRequirements(stage);
    s.(stage := stage,
       requirementsLocked := locks,
       lockReason := if locks then Some(LockReason(stage)) else None,
       updatedAt := JustNow)
  }

  /** `handleUnlockRequirements`: unlocked, no reason; stage, status, approvers,
      versions and description are untouched. */
  function Unlocked(s: Spec): (r: Spec)
    ensures !r.requirementsLocked && r.lockReason == None && r.updatedAt == JustNow
    ensures LockConsistent(r)
    ensures r.stage == s.stage && r.status == s.status && r.approvers == s.approvers
    ensures r.versions == s.versions && r.description == s.description
    ensures r.(requirementsLocked := s.requirementsLocked, lockReason := s.lockReason,
               updatedAt := s.updatedAt) == s
  {
    s.(requirementsLocked := false, lockReason := None, updatedAt := JustNow)
  }

  /** `handleDescriptionSave`: the draft becomes the description whether or not
      the requirements are locked (only the Edit button checks the lock). */
  function WithDescription(s: Spec, draft: string): (r: Spec)
    ensures r.description == draft && r.updatedAt == JustNow
    ensures r.requirementsLocked == s.requirementsLocked && r.lockReason == s.lockReason
    ensures r.(description := s.description, updatedAt := s.updatedAt) == s
  {
    s.(description := draft, updatedAt := JustNow)
  }

  /** A stage change always leaves the lock flag and its reason in step, from any state. */
  lemma StageChangeKeepsLockReason(s: Spec, stage: Stage)
    ensures LockConsistent(WithStage(s, stage))
    ensures LockConsistent(Unlocked(s))
  {
  }

  // ---------------------------------------------------------------------------
  // Approvals

  /** The decisions an approver can record: `'approved' | 'rejected'`. */
  type Decision = d: ApproverStatus | d != Pending witness ApproverStatus.Approved

  /** One element of `prev.approvers.map(...)`: the approver with the id
      takes the decision, its time and its comment, and nothing else changes;
      any other approver is left as it was. */
  function DecideOne(a: Approver, approverId: string, status: Decision, at: string, comments: Option<string>): (r: Approver)
    ensures a.id != approverId ==> r == a
    ensures a.id == approverId ==>
      r.status == status && r.approvedAt == Some(at) && r.comments == comments &&
      r.(status := a.status, approvedAt := a.approvedAt, comments := a.comments) == a
  {
    if a.id == approverId then a.(status := status, approvedAt := Some(at), comments := comments) else a
  }

  /** The approver list after `approverId` records `status`, in the same order. */
  function Decided(approvers: seq<Approver>, approverId: string, status: Decision, at: string, comments: Option<string>): (r: seq<Approver>)
    ensures |r| == |approvers|
    ensures forall i :: 0 <= i < |r| ==> r[i] == DecideOne(approvers[i], approverId, status, at, comments)
  {
    if approvers == [] then []
    else [DecideOne(approvers[0], approverId, status, at, comments)] + Decided(approvers[1..], approverId, status, at, comments)
  }

  /** `handleApproverStatusChange`. */
  function WithDecision(s: Spec, approverId: string, status: Decision, at: string, comments: Option<string>): (r: Spec)
    ensures r.approvers == Decided(s.approvers, approverId, status, at, comments)
    ensures r.updatedAt == JustNow
    ensures r.(approvers := s.approvers, updatedAt := s.updatedAt) == s
  {
    s.(approvers := Decided(s.approvers, approverId, status, at, comments), updatedAt := JustNow)
  }

  /** A decision for an id no approver has leaves the list as it was. */
  lemma {:induction false} DecidedUnknownId(approvers: seq<Approver>, approverId: string, status: Decision, at: string, comments: Option<string>)
    requires forall a :: a in approvers ==> a.id != approverId
    ensures Decided(approvers, approverId, status, at, comments) == approvers
  {
    if approvers != [] {
      DecidedUnknownId(approvers[1..], approverId, status, at, comments);
      assert approvers == [approvers[0]] + approvers[1..];
    }
  }

  predicate IsApproved(a: Approver) {
    a.status == ApproverStatus.Approved
  }

  /** `approvedCount`: `approvers.filter(a => a.status === 'approved').length`. */
  function ApprovedCount(approvers: seq<Approver>): (n: nat)
    ensures n <= TotalApprovers(approvers)
  {
    |Filter(approvers, IsApproved)|
  }

  /** `totalApprovers`. */
  function TotalApprovers(approvers: seq<Approver>): nat {
    |approvers|
  }

  predicate UniqueApproverIds(approvers: seq<Approver>) {
    forall i, j :: 0 <= i < j < |approvers| ==> approvers[i].id != approvers[j].id
  }

  /** Counting approvals one approver at a time. */
  lemma ApprovedCountCons(a: Approver, rest: seq<Approver>)
    ensures ApprovedCount([a] + rest) == (if IsApproved(a) then 1 else 0) + ApprovedCount(rest)
  {
    assert ([a] + rest)[1..] == rest;
  }

  /** Below the first approver of a list with unique ids, the ids stay
      unique and none is the first one's. */
  lemma UniqueApproverIdsTail(approvers: seq<Approver>)
    requires UniqueApproverIds(approvers) && approvers != []
    ensures UniqueApproverIds(approvers[1..])
    ensures forall a :: a in approvers[1..] ==> a.id != approvers[0].id
  {
    forall a | a in approvers[1..]
      ensures a.id != approvers[0].id
    {
      var j :| 0 <= j < |approvers[1..]| && approvers[1..][j] == a;
      assert approvers[j + 1] == a;
    }
  }

  /** `Decided` takes one approver at a time. */
  lemma DecidedCons(approvers: seq<Approver>, approverId: string, status: Decision, at: string, comments: Option<string>)
    requires approvers != []
    ensures ApprovedCount(Decided(approvers, approverId, status, at, comments))
         == (if IsApproved(DecideOne(approvers[0], approverId, status, at, comments)) then 1 else 0)
            + ApprovedCount(Decided(approvers[1..], approverId, status, at, comments))
  {
    ApprovedCountCons(DecideOne(approvers[0], approverId, status, at, comments), Decided(approvers[1..], approverId, status, at, comments));
  }

  /** The approval count after a decision: the decided approver's old vote
      is taken out and the new one put in; nobody else's vote moves. */
  lemma {:induction false} ApprovedCountAfterDecision(approvers: seq<Approver>, k: nat, status: Decision, at: string, comments: Option<string>)
    requires UniqueApproverIds(approvers) && k < |approvers|
    ensures ApprovedCount(Decided(approvers, approvers[k].id, status, at, comments))
         == ApprovedCount(approvers) - (if IsApproved(approvers[k]) then 1 else 0) + (if status == ApproverStatus.Approved then 1 else 0)
  {
    var id := approvers[k].id;
    var tail := approvers[1..];
    assert approvers == [approvers[0]] + tail;
    ApprovedCountCons(approvers[0], tail);
    DecidedCons(approvers, id, status, at, comments);
    UniqueApproverIdsTail(approvers);
    if k == 0 {
      DecidedUnknownId(tail, id, status, at, comments);
    } else {
      assert tail[k - 1] == approvers[k];
      assert approvers[k] in tail;
      ApprovedCountAfterDecision(tail, k - 1, status, at, comments);
    }
  }

  /** An approval never lowers the count and a rejection never raises it. */
  lemma {:induction false} DecisionMovesCountOneWay(approvers: seq<Approver>, approverId: string, status: Decision, at: string, comments: Option<string>)
    ensures status == ApproverStatus.Approved ==> ApprovedCount(Decided(approvers, approverId, status, at, comments)) >= ApprovedCount(approvers)
    ensures status == Rejected ==> ApprovedCount(Decided(approvers, approverId, status, at, comments)) <= ApprovedCount(approvers)
  {
    if approvers != [] {
      DecisionMovesCountOneWay(approvers[1..], approverId, status, at, comments);
      DecidedCons(approvers, approverId, status, at, comments);
      assert approvers == [approvers[0]] + approvers[1..];
      ApprovedCountCons(approvers[0], approvers[1..]);
    }
  }

  // ---------------------------------------------------------------------------
  // Versions

  /** The label `v{n+1}.0` given to a version created when `n` exist. */
  function VersionLabel(n: nat): (name: string)
    ensures |name| >= 4 && name[0] == 'v' && name[|name| - 2..] == ".0"
    ensures IsDigits(name[1..|name| - 2]) && ParseDigits(name[1..|name| - 2]) == n + 1
    ensures name[1] != '0'
  {
    var digits := NatToString(n + 1);
    var name := "v" + digits + ".0";
    assert name[1..|name| - 2] == digits;
    ParseNatToString(n + 1);
    name
  }

  /** Different version counts give different labels. */
  lemma VersionLabelInjective(m: nat, n: nat)
    requires VersionLabel(m) == VersionLabel(n)
    ensures m == n
  {
  }

  /** `handleCreateNewVersion`: a snapshot of the working stories, labelled
      from the number of versions so far, goes to the front of the history
      and becomes the current version. */
  function VersionCreated(s: Spec, workingStories: seq<UserStory>, description: string, now: string): (r: Spec)
    ensures |r.versions| == |s.versions| + 1 && r.versions[1..] == s.versions
    ensures r.versions[0].id == VersionLabel(|s.versions|) && r.versions[0].version == r.versions[0].id
    ensures r.versions[0].description == description && r.versions[0].userStories == workingStories
    ensures r.versions[0].createdAt == now && r.versions[0].createdBy == s.assignee
    ensures r.versions[0].changes == [ChangeRecord(Modified, DescriptionSection, "Updated specification", description)]
    ensures r.currentVersion == r.versions[0].id
    ensures r.updatedAt == JustNow
    ensures r.requirementsLocked == s.requirementsLocked && r.lockReason == s.lockReason
    ensures r.(versions := s.versions, currentVersion := s.currentVersion, updatedAt := s.updatedAt) == s
  {
    var name := VersionLabel(|s.versions|);
    var v := SpecVersion(name, name, description, workingStories, now, s.assignee,
                         [ChangeRecord(Modified, DescriptionSection, "Updated specification", description)]);
    s.(versions := [v] + s.versions, currentVersion := name, updatedAt := JustNow)
  }

  /** The version just created is the one the screen shows as current. */
  lemma CreatedVersionIsActive(s: Spec, workingStories: seq<UserStory>, description: string, now: string)
    ensures var r := VersionCreated(s, workingStories, description, now);
            ActiveVersion(r) == Some(r.versions[0]) && CurrentVersionResolves(r) && (LockConsistent(s) ==> LockConsistent(r))
  {
    var r := VersionCreated(s, workingStories, description, now);
    assert VersionHasId(r.currentVersion)(r.versions[0]);
  }

  /** Two creations in a row give the two new versions different labels. */
  lemma SuccessiveVersionsDiffer(s: Spec, stories1: seq<UserStory>, d1: string, t1: string,
                                 stories2: seq<UserStory>, d2: string, t2: string)
    ensures var s1 := VersionCreated(s, stories1, d1, t1);
            var s2 := VersionCreated(s1, stories2, d2, t2);
            s2.versions[0].id != s2.versions[1].id && s2.versions[1] == s1.versions[0]
  {
    var s1 := VersionCreated(s, stories1, d1, t1);
    if VersionLabel(|s1.versions|) == VersionLabel(|s.versions|) {
      VersionLabelInjective(|s1.versions|, |s.versions|);
    }
  }

  /** `currentVersion` as the screen resolves it. */
  function ActiveVersion(s: Spec): (v: Option<SpecVersion>)
    ensures v.Some? <==> CurrentVersionResolves(s)
    ensures v.Some? ==> v.value in s.versions && v.value.id == s.currentVersion
  {
    FindVersion(s.versions, s.currentVersion)
  }

  // ---------------------------------------------------------------------------
  // Drag reordering of the working stories

  /** `findIndex(item => item.id === id)`. */
  function StoryIndex(stories: seq<UserStory>, id: string): (k: int)
    ensures -1 <= k < |stories|
    ensures k == -1 <==> forall s :: s in stories ==> s.id != id
    ensures 0 <= k ==> stories[k].id == id && forall i :: 0 <= i < k ==> stories[i].id != id
  {
    var k := FindIndex(stories, StoryHasId(id));
    assert forall i :: 0 <= i < |stories| ==> (StoryHasId(id)(stories[i]) <==> stories[i].id == id);
    k
  }

  /** Whether a drag from `activeId` onto `overId` moves anything. */
  predicate MovesStory(activeId: string, overId: Option<string>) {
    overId.Some? && activeId != overId.value
  }

  /** `handleDragEnd` on the working stories. The drag library only reports
      ids of stories in the list. */
  function Reordered(stories: seq<UserStory>, activeId: string, overId: Option<string>): (r: seq<UserStory>)
    requires MovesStory(activeId, overId) ==> StoryIndex(stories, activeId) >= 0 && StoryIndex(stories, overId.value) >= 0
    ensures !MovesStory(activeId, overId) ==> r == stories
    ensures |r| == |stories| && multiset(r) == multiset(stories)
    ensures MovesStory(activeId, overId) ==>
      var from, to := StoryIndex(stories, activeId), StoryIndex(stories, overId.value);
      r[to] == stories[from] && Remove(r, to) == Remove(stories, from)
  {
    if MovesStory(activeId, overId) then
      var from, to := StoryIndex(stories, activeId), StoryIndex(stories, overId.value);
      ArrayMovePermutes(stories, from, to);
      ArrayMove(stories, from, to)
    else
      stories
  }

  // ---------------------------------------------------------------------------
  // The component state

  class SpecDetailState {
    var spec: Spec
    var userStories: seq<UserStory>
    var editDescription: string
    var isEditingDescription: bool
    var newVersionDescription: string
    var showCreateVersion: bool
    var activeStageTab: Stage

    /** The lock reason is there exactly when locked, and the current version
        is in the history. */
    ghost predicate Valid()
      reads this`spec
    {
      LockConsistent(spec) && CurrentVersionResolves(spec)
    }

    /** The component's initial state, from the spec record it starts with. */
    constructor (initial: Spec)
      requires LockConsistent(initial) && CurrentVersionResolves(initial)
      ensures Valid()
      ensures spec == initial && userStories == initial.userStories
      ensures editDescription == initial.description && !isEditingDescription
      ensures newVersionDescription == "" && !showCreateVersion
      ensures activeStageTab == initial.stage
    {
      spec := initial;
      userStories := initial.userStories;
      editDescription := initial.description;
      isEditingDescription := false;
      newVersionDescription := "";
      showCreateVersion := false;
      activeStageTab := initial.stage;
    }

    method HandleStatusChange(newStatus: SpecStatus)
      requires Valid()
      modifies this`spec
      ensures Valid()
      ensures spec == WithStatus(old(spec), newStatus)
    {
      spec := WithStatus(spec, newStatus);
    }

    method HandleStageChange(newStage: Stage)
      requires Valid()
      modifies this`spec, this`activeStageTab
      ensures Valid()
      ensures spec == WithStage(old(spec), newStage)
      ensures activeStageTab == newStage
    {
      spec := WithStage(spec, newStage);
      activeStageTab := newStage;
    }

    method HandleUnlockRequirements()
      requires Valid()
      modifies this`spec
      ensures Valid()
      ensures spec == Unlocked(old(spec))
    {
      spec := Unlocked(spec);
    }

    /** The Edit/Preview toggle, shown only while the requirements are unlocked. */
    method ToggleEditing()
      requires Valid()
      requires !spec.requirementsLocked
      modifies this`isEditingDescription
      ensures Valid()
      ensures isEditingDescription == !old(isEditingDescription)
    {
      isEditingDescription := !isEditingDescription;
    }

    /** Typing in the description editor. */
    method SetEditDescription(text: string)
      requires Valid()
      modifies this`editDescription
      ensures Valid()
      ensures editDescription == text
    {
      editDescription := text;
    }

    method HandleDescriptionSave()
      requires Valid()
      modifies this`spec, this`isEditingDescription
      ensures Valid()
      ensures spec == WithDescription(old(spec), editDescription)
      ensures !isEditingDescription
    {
      spec := WithDescription(spec, editDescription);
      isEditingDescription := false;
    }

    method HandleDescriptionCancel()
      requires Valid()
      modifies this`editDescription, this`isEditingDescription
      ensures Valid()
      ensures editDescription == spec.description && !isEditingDescription
    {
      editDescription := spec.description;
      isEditingDescription := false;
    }

    /** The Approve and Reject buttons; `now` is the decision time. */
    method HandleApproverStatusChange(approverId: string, status: Decision, comments: Option<string>, now: string)
      requires Valid()
      modifies this`spec
      ensures Valid()
      ensures spec == WithDecision(old(spec), approverId, status, now, comments)
    {
      spec := WithDecision(spec, approverId, status, now, comments);
    }

    /** Typing in the new-version dialog. */
    method SetNewVersionDescription(text: string)
      requires Valid()
      modifies this`newVersionDescription
      ensures Valid()
      ensures newVersionDescription == text
    {
      newVersionDescription := text;
    }

    /** The dialog's Create Version button, enabled only for a non-blank
        description; `now` is the creation time. */
    method HandleCreateNewVersion(now: string)
      requires Valid() && !IsBlank(newVersionDescription)
      modifies this`spec, this`newVersionDescription, this`showCreateVersion
      ensures Valid()
      ensures spec == VersionCreated(old(spec), old(userStories), old(newVersionDescription), now)
      ensures newVersionDescription == "" && !showCreateVersion
    {
      var created := VersionCreated(spec, userStories, newVersionDescription, now);
      CreatedVersionIsActive(spec, userStories, newVersionDescription, now);
      spec := created;
      newVersionDescription := "";
      showCreateVersion := false;
    }

    /** The end of a drag in the story list; the recorded versions do not move. */
    method HandleDragEnd(activeId: string, overId: Option<string>)
      requires Valid()
      requires MovesStory(activeId, overId) ==>
        StoryIndex(userStories, activeId) >= 0 && StoryIndex(userStories, overId.value) >= 0
      modifies this`userStories
      ensures Valid()
      ensures userStories == Reordered(old(userStories), activeId, overId)
    {
      if overId.Some? && activeId != overId.value {
        userStories := Reordered(userStories, activeId, overId);
      }
    }
  }
}
