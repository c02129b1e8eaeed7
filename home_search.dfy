/** The side panel's home page: the search box narrowing the tool list by label, and the
    keyboard selection that moves through the narrowed list with wrap-around. */
module HomeSearch {
  import opened Wrappers
  import opened Text
  import opened ToolsData
  import Seqs

  predicate LabelMatches(t: Tool, lowered: string) {
    Includes(ToLower(t.labelText), lowered)
  }

  /** useSearchTool's filteredTools. */
  function FilteredTools(tools: seq<Tool>, searchTerm: string): seq<Tool> {
    if Trim(searchTerm) == [] then tools
    else Seqs.Filter((t: Tool) => LabelMatches(t, ToLower(searchTerm)), tools)
  }

  /** useSearchTool's isSearching. */
  predicate IsSearching(searchTerm: string) {
    |Trim(searchTerm)| > 0
  }

  /** A blank term lists every tool in order; any other term lists, in order, exactly the
      tools whose label contains it, ignoring case; and searching means a non-blank term. */
  lemma FilteredToolsSpec(tools: seq<Tool>, searchTerm: string)
    ensures IsBlank(searchTerm) ==> FilteredTools(tools, searchTerm) == tools
    ensures !IsBlank(searchTerm) ==>
      var r := FilteredTools(tools, searchTerm);
      && Seqs.IsSubsequence(r, tools)
      && (forall i :: 0 <= i < |tools| ==> (tools[i] in r <==> LabelMatches(tools[i], ToLower(searchTerm))))
      && (forall x :: multiset(r)[x] == if LabelMatches(x, ToLower(searchTerm)) then multiset(tools)[x] else 0)
    ensures IsSearching(searchTerm) <==> !IsBlank(searchTerm)
  {
    TrimEmptyIffBlank(searchTerm);
    if !IsBlank(searchTerm) {
      Seqs.FilterIsSubsequence((t: Tool) => LabelMatches(t, ToLower(searchTerm)), tools);
      Seqs.FilterMultiset((t: Tool) => LabelMatches(t, ToLower(searchTerm)), tools);
    }
  }

  datatype Key = ArrowDown | ArrowUp | ArrowRight | ArrowLeft | Enter | OtherKey

  /** handleKeyDown's new index for a list of n tools. */
  function NextIndex(key: Key, i: int, n: nat): int {
    if n == 0 then i
    else match key
      case ArrowDown => if i < n - 1 then i + 1 else 0
      case ArrowUp => if i > 0 then i - 1 else n - 1
      case ArrowRight => if i + 1 < n then i + 1 else 0
      case ArrowLeft => if i - 1 >= 0 then i - 1 else n - 1
      case _ => i
  }

  /** Within the list, down and right step forward with wrap-around, up and left step
      back with wrap-around; every arrow key keeps the index in the list; an empty list or
      any other key leaves the index alone. */
  lemma NextIndexWraps(key: Key, i: int, n: nat)
    ensures 0 <= i < n && (key == ArrowDown || key == ArrowRight) ==> NextIndex(key, i, n) == (i + 1) % n
    ensures 0 <= i < n && (key == ArrowUp || key == ArrowLeft) ==> NextIndex(key, i, n) == (i - 1 + n) % n
    ensures 0 <= i < n ==> 0 <= NextIndex(key, i, n) < n
    ensures n == 0 || key == Enter || key == OtherKey ==> NextIndex(key, i, n) == i
  {
    if 0 <= i < n {
      ForwardWrap(i, n);
      BackwardWrap(i, n);
    }
  }

  /** One step forward modulo n: the next index, or 0 after the last. */
  lemma ForwardWrap(i: int, n: nat)
    requires 0 <= i < n
    ensures (i + 1) % n == if i < n - 1 then i + 1 else 0
  {
    if i == n - 1 {
      assert i + 1 == n;
    }
  }

  /** One step back modulo n: the previous index, or n - 1 before the first. */
  lemma BackwardWrap(i: int, n: nat)
    requires 0 <= i < n
    ensures (i - 1 + n) % n == if i > 0 then i - 1 else n - 1
  {
    if i > 0 {
      assert n <= i - 1 + n < 2 * n;
      assert (i - 1 + n) % n == (i - 1 + n) - n;
    }
  }

  /** The selected tool: the one at the index, or none when it is out of range. */
  function SelectedTool(filtered: seq<Tool>, i: int): (r: Option<Tool>)
    ensures r.Some? <==> 0 <= i < |filtered|
    ensures r.Some? ==> r.value == filtered[i]
  {
    if 0 <= i < |filtered| then Some(filtered[i]) else None
  }

  /** useNavigation's state. */
  class Navigation {
    var selectedIndex: int

    constructor()
      ensures selectedIndex == 0
    {
      selectedIndex := 0;
    }

    /** The effect that runs whenever the filtered list changes. */
    method OnFilteredToolsChanged()
      modifies this
      ensures selectedIndex == 0
    {
      selectedIndex := 0;
    }

    method HandleKeyDown(key: Key, filtered: seq<Tool>)
      modifies this
      ensures selectedIndex == NextIndex(key, old(selectedIndex), |filtered|)
    {
      var n := |filtered|;
      if n == 0 {
        return;
      }
      match key {
        case ArrowDown => selectedIndex := if selectedIndex < n - 1 then selectedIndex + 1 else 0;
        case ArrowUp => selectedIndex := if selectedIndex > 0 then selectedIndex - 1 else n - 1;
        case ArrowRight =>
          var nextIndex := selectedIndex + 1;
          selectedIndex := if nextIndex < n then nextIndex else 0;
        case ArrowLeft =>
          var prevIndex := selectedIndex - 1;
          selectedIndex := if prevIndex >= 0 then prevIndex else n - 1;
        case _ =>
      }
    }

    /** The search box's key handler: Enter with a selected tool opens its path (when the
        path is non-empty); any other key goes to handleKeyDown. */
    method HandleSearchKeyDown(key: Key, filtered: seq<Tool>) returns (navigateTo: Option<string>)
      modifies this
      ensures key == Enter && SelectedTool(filtered, old(selectedIndex)).Some? ==>
        selectedIndex == old(selectedIndex)
        && (navigateTo.Some? <==> filtered[selectedIndex].path != [])
        && (navigateTo.Some? ==> navigateTo.value == filtered[selectedIndex].path)
      ensures !(key == Enter && SelectedTool(filtered, old(selectedIndex)).Some?) ==>
        navigateTo.None? && selectedIndex == NextIndex(key, old(selectedIndex), |filtered|)
    {
      var selected := SelectedTool(filtered, selectedIndex);
      if key == Enter && selected.Some? {
        if selected.value.path != [] {
          return Some(selected.value.path);
        }
        return None;
      }
      HandleKeyDown(key, filtered);
      navigateTo := None;
    }
  }
}
