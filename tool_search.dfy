/** The tool-catalogue search: tools matching the term in name, description or category,
    name matches first, plus the search term and a short history of recent terms. */
module ToolSearch {
  import opened Wrappers
  import opened Text
  import opened ToolData
  import Seqs

  const HISTORY_LIMIT: nat := 5

  predicate NameMatches(t: CatalogTool, lowered: string) {
    Includes(ToLower(t.name), lowered)
  }

  /** The filter: name, description or (when present) category contains the term. */
  predicate AnyMatches(t: CatalogTool, lowered: string) {
    NameMatches(t, lowered) || Includes(ToLower(t.description), lowered)
    || (t.category.Some? && Includes(ToLower(t.category.value), lowered))
  }

  /** The tools the filter keeps, in list order. */
  function Matching(tools: seq<CatalogTool>, lowered: string): seq<CatalogTool> {
    Seqs.Filter((t: CatalogTool) => AnyMatches(t, lowered), tools)
  }

  /** The sort's two groups: tools whose name contains the term. */
  function ByName(lowered: string): CatalogTool -> bool {
    t => NameMatches(t, lowered)
  }

  /** The matching tools, name matches first. A stable sort under a comparator that only
      separates the two groups is the stable partition into them. */
  function NameMatchesFirst(tools: seq<CatalogTool>, lowered: string): seq<CatalogTool> {
    Seqs.StablePartition(ByName(lowered), Matching(tools, lowered))
  }

  /** filteredTools: a blank term gives the list itself; otherwise the matching tools,
      stably sorted so that name matches come first. */
  function FilteredTools(tools: seq<CatalogTool>, searchTerm: string): seq<CatalogTool> {
    if Trim(searchTerm) == [] then tools
    else NameMatchesFirst(tools, ToLower(searchTerm))
  }

  /** For a non-blank term the result is a permutation of the matching tools (in list
      order), every name match precedes every other match, and each group keeps its order;
      a blank term gives the list unchanged. */
  lemma FilteredToolsSpec(tools: seq<CatalogTool>, searchTerm: string)
    ensures IsBlank(searchTerm) ==> FilteredTools(tools, searchTerm) == tools
    ensures !IsBlank(searchTerm) ==>
      var lowered := ToLower(searchTerm);
      var matching := Matching(tools, lowered);
      var r := FilteredTools(tools, searchTerm);
      && (forall i :: 0 <= i < |tools| ==> (tools[i] in matching <==> AnyMatches(tools[i], lowered)))
      && Seqs.IsSubsequence(matching, tools)
      && multiset(r) == multiset(matching)
      && (forall i, j :: 0 <= i < j < |r| && NameMatches(r[j], lowered) ==> NameMatches(r[i], lowered))
      && Seqs.Filter(ByName(lowered), r) == Seqs.Filter(ByName(lowered), matching)
      && Seqs.Filter(Seqs.Not(ByName(lowered)), r) == Seqs.Filter(Seqs.Not(ByName(lowered)), matching)
  {
    TrimEmptyIffBlank(searchTerm);
    if !IsBlank(searchTerm) {
      NameMatchesFirstSpec(tools, ToLower(searchTerm));
    }
  }

  lemma NameMatchesFirstSpec(tools: seq<CatalogTool>, lowered: string)
    ensures Seqs.IsSubsequence(Matching(tools, lowered), tools)
    ensures multiset(NameMatchesFirst(tools, lowered)) == multiset(Matching(tools, lowered))
    ensures var r := NameMatchesFirst(tools, lowered);
      forall i, j :: 0 <= i < j < |r| && NameMatches(r[j], lowered) ==> NameMatches(r[i], lowered)
    ensures var r := NameMatchesFirst(tools, lowered);
      var matching := Matching(tools, lowered);
      && Seqs.Filter(ByName(lowered), r) == Seqs.Filter(ByName(lowered), matching)
      && Seqs.Filter(Seqs.Not(ByName(lowered)), r) == Seqs.Filter(Seqs.Not(ByName(lowered)), matching)
  {
    var p := ByName(lowered);
    var matching := Matching(tools, lowered);
    Seqs.FilterIsSubsequence((t: CatalogTool) => AnyMatches(t, lowered), tools);
    Seqs.StablePartitionIsPermutation(p, matching);
    Seqs.StablePartitionOrdered(p, matching);
    Seqs.StablePartitionKeepsGroups(p, matching);
  }

  predicate NoDuplicates(s: seq<string>) {
    forall i, j :: 0 <= i < j < |s| ==> s[i] != s[j]
  }

  /** handleSearch's history update. */
  function NextHistory(history: seq<string>, term: string): seq<string> {
    if Trim(term) != [] && term !in history then [term] + history[..if |history| < 4 then |history| else 4]
    else history
  }

  /** A new non-blank term goes to the front of the history; the history never grows past
      five entries and stays free of duplicates. */
  lemma NextHistoryBounded(history: seq<string>, term: string)
    requires |history| <= HISTORY_LIMIT && NoDuplicates(history)
    ensures |NextHistory(history, term)| <= HISTORY_LIMIT
    ensures NoDuplicates(NextHistory(history, term))
    ensures !IsBlank(term) && term !in history ==> NextHistory(history, term)[0] == term
    ensures IsBlank(term) || term in history ==> NextHistory(history, term) == history
  {
    TrimEmptyIffBlank(term);
    if Trim(term) != [] && term !in history {
      PrependKeepsDistinct(history, term, if |history| < 4 then |history| else 4);
    }
  }

  lemma PrependKeepsDistinct(history: seq<string>, term: string, k: nat)
    requires k <= |history| && term !in history && NoDuplicates(history)
    ensures NoDuplicates([term] + history[..k])
  {
    var h := [term] + history[..k];
    forall i, j | 0 <= i < j < |h|
      ensures h[i] != h[j]
    {
      assert h[j] == history[j - 1];
      if i > 0 {
        assert h[i] == history[i - 1];
      }
    }
  }

  /** useToolSearch's state. */
  class SearchState {
    var searchTerm: string
    var searchHistory: seq<string>

    ghost predicate Valid()
      reads this
    {
      |searchHistory| <= HISTORY_LIMIT && NoDuplicates(searchHistory)
    }

    constructor()
      ensures Valid() && searchTerm == [] && searchHistory == []
    {
      searchTerm := [];
      searchHistory := [];
    }

    /** handleSearch: the term is always set; the history is updated as NextHistory says. */
    method HandleSearch(term: string)
      requires Valid()
      modifies this
      ensures Valid()
      ensures searchTerm == term && searchHistory == NextHistory(old(searchHistory), term)
    {
      NextHistoryBounded(searchHistory, term);
      searchTerm := term;
      if Trim(term) != [] && term !in searchHistory {
        var k := if |searchHistory| < 4 then |searchHistory| else 4;
        searchHistory := [term] + searchHistory[..k];
      }
    }

    /** clearSearch: the term is emptied, the history kept. */
    method ClearSearch()
      modifies this
      ensures searchTerm == [] && searchHistory == old(searchHistory)
    {
      searchTerm := [];
    }

    /** selectSearchHistory: the term is set, the history kept. */
    method SelectSearchHistory(term: string)
      modifies this
      ensures searchTerm == term && searchHistory == old(searchHistory)
    {
      searchTerm := term;
    }
  }
}
