/** The spec listing: the search filter over the rows and the selection
    check boxes. The table holds no state of its own; the selection handlers
    compute the new list of selected ids and hand it to the owner, so each is
    a function here. */
module SpecsTable {
  import opened Seqs
  import opened Text
  import opened SpecModel

  /** One row of the listing. */
  datatype SpecSummary = SpecSummary(
    id: string,
    title: string,
    priority: Priority,
    status: SpecStatus,
    assignee: Person,
    cycle: string,
    createdAt: string,
    updatedAt: string,
    comments: int,
    attachments: int)

  /** The search test: the lower-cased query occurs in the lower-cased title or id. */
  predicate MatchesQuery(spec: SpecSummary, query: string) {
    Includes(ToLower(spec.title), ToLower(query)) || Includes(ToLower(spec.id), ToLower(query))
  }

  /** The callback of `specs.filter(...)`. */
  function QueryFilter(query: string): SpecSummary -> bool {
    (spec: SpecSummary) => MatchesQuery(spec, query)
  }

  /** `filteredSpecs`. */
  function FilteredSpecs(specs: seq<SpecSummary>, query: string): (r: seq<SpecSummary>)
    ensures |r| <= |specs|
  {
    Filter(specs, QueryFilter(query))
  }

  /** A row is shown exactly when it is in the list and matches the query. */
  lemma FilteredSpecsMembership(specs: seq<SpecSummary>, query: string, spec: SpecSummary)
    ensures spec in FilteredSpecs(specs, query) <==> spec in specs && MatchesQuery(spec, query)
  {
    assert QueryFilter(query)(spec) == MatchesQuery(spec, query);
  }

  /** The shown rows keep the order of the list. */
  lemma FilteredSpecsInOrder(specs: seq<SpecSummary>, query: string)
    ensures IsSubsequence(FilteredSpecs(specs, query), specs)
  {
    FilterIsSubsequence(specs, QueryFilter(query));
  }

  /** An empty search shows every row. */
  lemma EmptyQueryKeepsAll(specs: seq<SpecSummary>)
    ensures FilteredSpecs(specs, "") == specs
  {
    forall spec | spec in specs
      ensures QueryFilter("")(spec)
    {
      IncludesEmpty(ToLower(spec.title));
    }
    FilterKeepsAll(specs, QueryFilter(""));
  }

  /** The ids of the shown rows, in order (`filteredSpecs.map(spec => spec.id)`). */
  function Ids(specs: seq<SpecSummary>): (ids: seq<string>)
    ensures |ids| == |specs| && forall i :: 0 <= i < |specs| ==> ids[i] == specs[i].id
  {
    seq(|specs|, i requires 0 <= i < |specs| => specs[i].id)
  }

  /** `handleSelectAll`: checked selects exactly the shown rows, unchecked selects nothing. */
  function SelectAll(filtered: seq<SpecSummary>, checked: bool): (selected: seq<string>)
    ensures checked ==> |selected| == |filtered| && forall i :: 0 <= i < |filtered| ==> selected[i] == filtered[i].id
    ensures !checked ==> selected == []
  {
    if checked then Ids(filtered) else []
  }

  /** The callback `id => id !== specId`. */
  function OtherThan(specId: string): string -> bool {
    (id: string) => id != specId
  }

  /** `handleSelectSpec`: checking appends the id (without looking for it
      first); unchecking drops every copy of it and keeps the rest in order. */
  function SelectSpec(selected: seq<string>, specId: string, checked: bool): (r: seq<string>)
    ensures checked ==> r == selected + [specId]
    ensures !checked ==> specId !in r && forall id :: id in selected && id != specId ==> id in r
    ensures !checked ==> IsSubsequence(r, selected)
    ensures !checked ==> forall id :: id != specId ==> multiset(r)[id] == multiset(selected)[id]
  {
    if checked then selected + [specId]
    else
      FilterIsSubsequence(selected, OtherThan(specId));
      FilterMultiplicity(selected, OtherThan(specId));
      assert forall id :: id in Filter(selected, OtherThan(specId)) ==> OtherThan(specId)(id);
      Filter(selected, OtherThan(specId))
  }

  /** Checking a row that was not selected and unchecking it again restores the selection. */
  lemma SelectThenDeselect(selected: seq<string>, specId: string)
    requires specId !in selected
    ensures SelectSpec(SelectSpec(selected, specId, true), specId, false) == selected
  {
    FilterConcat(selected, [specId], OtherThan(specId));
    FilterKeepsAll(selected, OtherThan(specId));
  }

  /** `isAllSelected` as written: some row is shown and the selection has as many ids as there are shown rows. */
  predicate IsAllSelected(filtered: seq<SpecSummary>, selected: seq<string>) {
    |filtered| > 0 && |selected| == |filtered|
  }

  /** `isIndeterminate`: something is selected, but fewer ids than shown rows. */
  predicate IsIndeterminate(filtered: seq<SpecSummary>, selected: seq<string>) {
    |selected| > 0 && |selected| < |filtered|
  }

  /** The header box is never both checked and indeterminate. */
  lemma CheckedAndIndeterminateExclusive(filtered: seq<SpecSummary>, selected: seq<string>)
    ensures !(IsAllSelected(filtered, selected) && IsIndeterminate(filtered, selected))
  {
  }

  /** Select-all on a non-empty listing checks the header box; clearing unchecks it. */
  lemma SelectAllHeader(filtered: seq<SpecSummary>)
    requires filtered != []
    ensures IsAllSelected(filtered, SelectAll(filtered, true)) && !IsIndeterminate(filtered, SelectAll(filtered, true))
    ensures !IsAllSelected(filtered, SelectAll(filtered, false)) && !IsIndeterminate(filtered, SelectAll(filtered, false))
  {
  }

  /** A selection left over from another search can check the header box
      while a shown row is unselected: one row shown, one other id selected. */
  lemma IsAllSelectedMisleads()
    ensures var shown := SpecSummary("SPEC-001", "User Authentication System Specification", Urgent, Review,
                                     Person("Alice Johnson", "", "AJ"), "Q1 2024", "2024-01-15", "2 hours ago", 5, 2);
            IsAllSelected([shown], ["SPEC-002"]) && shown.id !in ["SPEC-002"]
  {
  }

  /** The header box as evidently intended: some row is shown and every shown row is selected. */
  predicate AllVisibleSelected(filtered: seq<SpecSummary>, selected: seq<string>) {
    |filtered| > 0 && forall spec :: spec in filtered ==> spec.id in selected
  }

  predicate UniqueSpecIds(specs: seq<SpecSummary>) {
    forall i, j :: 0 <= i < j < |specs| ==> specs[i].id != specs[j].id
  }

  /** Select-all checks the corrected header box, and clearing unchecks it. */
  lemma SelectAllCheckedIntended(filtered: seq<SpecSummary>)
    requires filtered != []
    ensures AllVisibleSelected(filtered, SelectAll(filtered, true))
    ensures !AllVisibleSelected(filtered, SelectAll(filtered, false))
  {
    var selected := SelectAll(filtered, true);
    forall spec | spec in filtered
      ensures spec.id in selected
    {
      var i :| 0 <= i < |filtered| && filtered[i] == spec;
      assert selected[i] == spec.id;
    }
    assert filtered[0] in filtered;
  }

  lemma UniqueSpecIdsTail(specs: seq<SpecSummary>)
    requires UniqueSpecIds(specs) && specs != []
    ensures UniqueSpecIds(specs[1..])
    ensures forall spec :: spec in specs[1..] ==> spec.id != specs[0].id
  {
    forall spec | spec in specs[1..]
      ensures spec.id != specs[0].id
    {
      var k :| 0 <= k < |specs[1..]| && specs[1..][k] == spec;
      assert specs[k + 1] == spec;
    }
  }

  lemma {:induction false} DistinctIdsCount(specs: seq<SpecSummary>)
    requires UniqueSpecIds(specs)
    ensures |set spec | spec in specs :: spec.id| == |specs|
  {
    if specs != [] {
      var tail := specs[1..];
      UniqueSpecIdsTail(specs);
      DistinctIdsCount(tail);
      var rest := set spec | spec in tail :: spec.id;
      assert specs[0].id !in rest;
      assert (set spec | spec in specs :: spec.id) == rest + {specs[0].id};
    }
  }

  lemma {:induction false} SetOfSeqBound(s: seq<string>)
    ensures |set x | x in s| <= |s|
  {
    if s != [] {
      SetOfSeqBound(s[1..]);
      assert (set x | x in s) == (set x | x in s[1..]) + {s[0]};
    }
  }

  /** With distinct row ids, the corrected header box is never checked while
      indeterminate: every shown id selected means at least as many ids. */
  lemma IntendedCheckedNotIndeterminate(filtered: seq<SpecSummary>, selected: seq<string>)
    requires UniqueSpecIds(filtered) && AllVisibleSelected(filtered, selected)
    ensures !IsIndeterminate(filtered, selected)
  {
    DistinctIdsCount(filtered);
    SetOfSeqBound(selected);
    var shownIds := set spec | spec in filtered :: spec.id;
    var selectedIds := set x | x in selected;
    assert shownIds <= selectedIds;
    assert selectedIds == shownIds + (selectedIds - shownIds);
  }
}
