/** The side panel's tool list as the home page shows it: one entry per tool route, with
    the route's label, icon and description (or their defaults) and the path `/tool/<route>`.
    Icons are React elements in the program; here they are names. */
module ToolsData {
  import opened Wrappers

  /** A route's `handle`; any of its fields may be missing. */
  datatype RouteHandle = RouteHandle(labelText: Option<string>, icon: Option<string>, description: Option<string>)

  datatype ToolRoute = ToolRoute(path: string, handle: Option<RouteHandle>)

  datatype Tool = Tool(labelText: string, icon: string, description: string, path: string)

  const TOOL_PATH_PREFIX: string := "/tool/"
  const DEFAULT_LABEL: string := "Empty"
  const DEFAULT_ICON: string := "🤔"
  const DEFAULT_DESCRIPTION: string := "Empty"

  /** `route.handle?.field ?? default` */
  function HandleField(h: Option<RouteHandle>, pick: RouteHandle -> Option<string>, default: string): string {
    if h.Some? && pick(h.value).Some? then pick(h.value).value else default
  }

  function ToolOf(route: ToolRoute): Tool {
    Tool(
      HandleField(route.handle, (h: RouteHandle) => h.labelText, DEFAULT_LABEL),
      HandleField(route.handle, (h: RouteHandle) => h.icon, DEFAULT_ICON),
      HandleField(route.handle, (h: RouteHandle) => h.description, DEFAULT_DESCRIPTION),
      TOOL_PATH_PREFIX + route.path)
  }

  /** useToolsData: the routes mapped in order. */
  function ToolsOf(routes: seq<ToolRoute>): (tools: seq<Tool>)
    ensures |tools| == |routes|
    ensures forall i :: 0 <= i < |routes| ==> tools[i] == ToolOf(routes[i])
  {
    if routes == [] then [] else [ToolOf(routes[0])] + ToolsOf(routes[1..])
  }

  /** One tool per route, in route order, with path '/tool/' + the route's path and the
      defaults 'Empty', '🤔' and 'Empty' for whatever the handle lacks. */
  lemma ToolsOfSpec(routes: seq<ToolRoute>, i: nat)
    requires i < |routes|
    ensures ToolsOf(routes)[i].path == TOOL_PATH_PREFIX + routes[i].path
    ensures routes[i].handle.None? ==>
      ToolsOf(routes)[i] == Tool(DEFAULT_LABEL, DEFAULT_ICON, DEFAULT_DESCRIPTION, TOOL_PATH_PREFIX + routes[i].path)
    ensures routes[i].handle.Some? ==>
      var h := routes[i].handle.value;
      && ToolsOf(routes)[i].labelText == h.labelText.GetOr(DEFAULT_LABEL)
      && ToolsOf(routes)[i].icon == h.icon.GetOr(DEFAULT_ICON)
      && ToolsOf(routes)[i].description == h.description.GetOr(DEFAULT_DESCRIPTION)
  {
  }

  predicate PathsDistinct(routes: seq<ToolRoute>) {
    forall i, j :: 0 <= i < j < |routes| ==> routes[i].path != routes[j].path
  }

  /** Distinct route paths give distinct tool paths. */
  lemma ToolPathsDistinct(routes: seq<ToolRoute>)
    requires PathsDistinct(routes)
    ensures forall i, j :: 0 <= i < j < |routes| ==> ToolsOf(routes)[i].path != ToolsOf(routes)[j].path
  {
    var tools := ToolsOf(routes);
    forall i, j | 0 <= i < j < |routes|
      ensures tools[i].path != tools[j].path
    {
      assert tools[i].path[|TOOL_PATH_PREFIX|..] == routes[i].path;
      assert tools[j].path[|TOOL_PATH_PREFIX|..] == routes[j].path;
    }
  }

  /** The route paths the side panel registers. */
  const TOOL_ROUTE_PATHS: seq<string> := [
    "NotebookLLM", "ErrorTest", "ColorPalette", "RequestInterceptor",
    "URLEncoder", "JSONViewer", "Base64Encoder", "ClipboardViewer"
  ]

  /** The registered route paths are pairwise distinct. */
  lemma RegisteredRoutePathsDistinct()
    ensures forall i, j :: 0 <= i < j < |TOOL_ROUTE_PATHS| ==> TOOL_ROUTE_PATHS[i] != TOOL_ROUTE_PATHS[j]
  {
    forall i, j | 0 <= i < j < |TOOL_ROUTE_PATHS|
      ensures TOOL_ROUTE_PATHS[i] != TOOL_ROUTE_PATHS[j]
    {
      var a, b := TOOL_ROUTE_PATHS[i], TOOL_ROUTE_PATHS[j];
      assert a[0] != b[0] || a[1] != b[1] || |a| != |b|;
    }
  }
}
