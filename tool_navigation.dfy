/** The side panel's route helpers: the path of a tool page, the tool id read back from the
    current path, and the two route tests. */
module ToolNavigation {
  import opened Wrappers
  import opened Text

  const TOOL_PREFIX: string := "/tool/"
  const HOME_PATH: string := "/"

  /** navigateToTool's target. */
  function ToolPath(toolId: string): string {
    TOOL_PREFIX + toolId
  }

  predicate NoLineTerminator(s: string) {
    forall i :: 0 <= i < |s| ==> !IsLineTerminator(s[i])
  }

  /** getCurrentToolId: the pattern `^\/tool\/(.+)$` matches when the path starts with
      '/tool/' and the rest is one or more characters none of which ends a line (`.` does
      not match a line terminator and `$` is the end of the input). */
  function CurrentToolId(pathname: string): (r: Option<string>)
    ensures r.Some? ==> r.value != [] && NoLineTerminator(r.value) && pathname == TOOL_PREFIX + r.value
    ensures r.None? ==>
      (!IsPrefix(TOOL_PREFIX, pathname) || pathname == TOOL_PREFIX || !NoLineTerminator(pathname[|TOOL_PREFIX|..]))
  {
    if IsPrefix(TOOL_PREFIX, pathname) && |pathname| > |TOOL_PREFIX| && NoLineTerminator(pathname[|TOOL_PREFIX|..])
    then Some(pathname[|TOOL_PREFIX|..])
    else None
  }

  /** isToolRoute */
  predicate IsToolRoute(pathname: string) {
    IsPrefix(TOOL_PREFIX, pathname)
  }

  /** isHomeRoute */
  predicate IsHomeRoute(pathname: string) {
    pathname == HOME_PATH
  }

  /** Navigating to a tool and reading the id back gives the id, for every non-empty id
      without line breaks; and an id is only read on a tool route. */
  lemma ToolPathRoundTrip(toolId: string)
    requires toolId != [] && NoLineTerminator(toolId)
    ensures CurrentToolId(ToolPath(toolId)) == Some(toolId)
  {
    assert ToolPath(toolId)[|TOOL_PREFIX|..] == toolId;
  }

  /** A path with a tool id is a tool route, and the home route is never a tool route. */
  lemma RoutesConsistent(pathname: string)
    ensures CurrentToolId(pathname).Some? ==> IsToolRoute(pathname)
    ensures IsHomeRoute(pathname) ==> !IsToolRoute(pathname)
  {
  }
}
