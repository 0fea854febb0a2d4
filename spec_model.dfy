/** The records the spec detail screen works on: a spec, its user stories,
    approvers and version snapshots. Everything here is a value, so a
    snapshot's copy of the stories can never be altered by later edits of the
    working list. */
module SpecModel {
  import opened Seqs

  datatype Priority = Urgent | High | Medium | Low

  datatype SpecStatus = Draft | Review | Approved | Implemented

  datatype Stage = Requirements | TechnicalDesign | ImplementationTasks

  datatype StoryStatus = Todo | InProgress | Done

  datatype ApproverStatus = Pending | Approved | Rejected

  /** The `{ name, avatar, initials }` shape used for assignees and authors. */
  datatype Person = Person(name: string, avatar: string, initials: string)

  datatype UserStory = UserStory(
    id: string,
    title: string,
    description: string,
    priority: Priority,
    status: StoryStatus,
    acceptanceCriteria: seq<string>,
    assignee: Option<Person>,
    estimatedPoints: int)

  datatype Approver = Approver(
    id: string,
    name: string,
    avatar: string,
    initials: string,
    status: ApproverStatus,
    approvedAt: Option<string>,
    comments: Option<string>)

  datatype ChangeType = Added | Modified | Removed

  datatype ChangeSection = DescriptionSection | UserStorySection

  datatype ChangeRecord = ChangeRecord(kind: ChangeType, section: ChangeSection, title: string, details: string)

  datatype SpecVersion = SpecVersion(
    id: string,
    version: string,
    description: string,
    userStories: seq<UserStory>,
    createdAt: string,
    createdBy: Person,
    changes: seq<ChangeRecord>)

  datatype Spec = Spec(
    id: string,
    title: string,
    priority: Priority,
    status: SpecStatus,
    stage: Stage,
    assignee: Person,
    cycle: string,
    createdAt: string,
    updatedAt: string,
    comments: int,
    attachments: int,
    description: string,
    technicalDesign: string,
    implementationTasks: string,
    userStories: seq<UserStory>,
    approvers: seq<Approver>,
    versions: seq<SpecVersion>,
    currentVersion: string,
    requirementsLocked: bool,
    lockReason: Option<string>)

  /** The callback `item => item.id === id` used to look stories up. */
  function StoryHasId(id: string): UserStory -> bool {
    (s: UserStory) => s.id == id
  }

  /** The callback `v => v.id === id` used to look versions up. */
  function VersionHasId(id: string): SpecVersion -> bool {
    (v: SpecVersion) => v.id == id
  }

  /** `versions.find(v => v.id === id)`. */
  function FindVersion(versions: seq<SpecVersion>, id: string): (r: Option<SpecVersion>)
    ensures r.Some? ==> r.value in versions && r.value.id == id
    ensures r.None? <==> forall v :: v in versions ==> v.id != id
    ensures r.Some? ==> exists k :: 0 <= k < |versions| && versions[k] == r.value && forall i :: 0 <= i < k ==> versions[i].id != id
  {
    var r := Find(versions, VersionHasId(id));
    assert r.Some? ==> var k := FindIndex(versions, VersionHasId(id)); versions[k] == r.value && forall i :: 0 <= i < k ==> !VersionHasId(id)(versions[i]);
    r
  }

  /** `stories.find(s => s.id === id)`. */
  function FindStory(stories: seq<UserStory>, id: string): (r: Option<UserStory>)
    ensures r.Some? ==> r.value in stories && r.value.id == id
    ensures r.None? <==> forall s :: s in stories ==> s.id != id
    ensures r.Some? ==> exists k :: 0 <= k < |stories| && stories[k] == r.value && forall i :: 0 <= i < k ==> stories[i].id != id
  {
    var r := Find(stories, StoryHasId(id));
    assert r.Some? ==> var k := FindIndex(stories, StoryHasId(id)); stories[k] == r.value && forall i :: 0 <= i < k ==> !StoryHasId(id)(stories[i]);
    r
  }

  /** The lock reason is present exactly when the requirements are locked. */
  predicate LockConsistent(s: Spec) {
    s.requirementsLocked <==> s.lockReason.Some?
  }

  /** `currentVersion` names a version in the history. */
  predicate CurrentVersionResolves(s: Spec) {
    exists v :: v in s.versions && v.id == s.currentVersion
  }
}
