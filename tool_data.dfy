/** The tool catalogue the management hooks work on: the four built-in tools and the list
    operations over it (append, remove by id, update by id, lookups). */
module ToolData {
  import opened Wrappers
  import Seqs

  /** A catalogue entry; the icon component is a name here, and the optional version,
      date and component fields are left out. */
  datatype CatalogTool = CatalogTool(id: string, name: string, description: string, enabled: bool,
                                     icon: string, category: Option<string>, route: string)

  /** A partial update: the fields that are present overwrite the tool's. */
  datatype ToolUpdate = ToolUpdate(id: Option<string>, name: Option<string>, description: Option<string>,
                                   enabled: Option<bool>, icon: Option<string>, category: Option<string>,
                                   route: Option<string>)

  function EnabledOnly(enabled: bool): ToolUpdate {
    ToolUpdate(None, None, None, Some(enabled), None, None, None)
  }

  const TOOL_ROUTE_PREFIX: string := "/tool/"

  /** A built-in tool, routed at '/tool/' + its id. */
  function Builtin(id: string, name: string, description: string, enabled: bool, icon: string, category: string)
    : CatalogTool
  {
    CatalogTool(id, name, description, enabled, icon, Some(category), TOOL_ROUTE_PREFIX + id)
  }

  function InitialTools(): seq<CatalogTool> {
    [
      Builtin("network-monitor", "网络监控", "监控和分析网络请求", true, "Globe", "网络"),
      Builtin("response-editor", "响应编辑", "编辑和模拟网络响应", false, "Code", "网络"),
      Builtin("performance-monitor", "性能监控", "监控页面性能指标", true, "Activity", "性能"),
      Builtin("automation-script", "自动化脚本", "运行自定义脚本", false, "Zap", "自动化")
    ]
  }

  predicate IdsDistinct(tools: seq<CatalogTool>) {
    forall i, j :: 0 <= i < j < |tools| ==> tools[i].id != tools[j].id
  }

  /** The built-in list has four tools with distinct ids, each routed at '/tool/' + id. */
  lemma InitialToolsWellFormed()
    ensures |InitialTools()| == 4 && IdsDistinct(InitialTools())
    ensures forall i :: 0 <= i < 4 ==> InitialTools()[i].route == TOOL_ROUTE_PREFIX + InitialTools()[i].id
  {
    var t := InitialTools();
    assert t[0].id[0] == 'n' && t[1].id[0] == 'r' && t[2].id[0] == 'p' && t[3].id[0] == 'a';
  }

  /** addTool */
  function AddTool(tools: seq<CatalogTool>, tool: CatalogTool): (r: seq<CatalogTool>)
    ensures |r| == |tools| + 1 && r[..|tools|] == tools && r[|tools|] == tool
  {
    tools + [tool]
  }

  /** removeTool: every tool with the id goes, the rest keep their order. */
  function RemoveTool(tools: seq<CatalogTool>, toolId: string): (r: seq<CatalogTool>)
    ensures forall t :: t in r ==> t in tools && t.id != toolId
    ensures forall i :: 0 <= i < |tools| && tools[i].id != toolId ==> tools[i] in r
    ensures Seqs.IsSubsequence(r, tools)
    ensures forall t :: multiset(r)[t] == if t.id != toolId then multiset(tools)[t] else 0
  {
    Seqs.FilterIsSubsequence((t: CatalogTool) => t.id != toolId, tools);
    Seqs.FilterMultiset((t: CatalogTool) => t.id != toolId, tools);
    Seqs.Filter((t: CatalogTool) => t.id != toolId, tools)
  }

  /** `{...t, ...updates}` */
  function Merged(t: CatalogTool, u: ToolUpdate): CatalogTool {
    CatalogTool(u.id.GetOr(t.id), u.name.GetOr(t.name), u.description.GetOr(t.description),
                u.enabled.GetOr(t.enabled), u.icon.GetOr(t.icon),
                if u.category.Some? then u.category else t.category, u.route.GetOr(t.route))
  }

  /** updateTool: the tools with the id are merged with the update; length, order and all
      other tools are unchanged. */
  function UpdateTool(tools: seq<CatalogTool>, toolId: string, u: ToolUpdate): (r: seq<CatalogTool>)
    ensures |r| == |tools|
    ensures forall i :: 0 <= i < |tools| ==> r[i] == (if tools[i].id == toolId then Merged(tools[i], u) else tools[i])
  {
    if tools == [] then []
    else [if tools[0].id == toolId then Merged(tools[0], u) else tools[0]] + UpdateTool(tools[1..], toolId, u)
  }

  /** An update that leaves ids alone keeps them, and so keeps them distinct. */
  lemma UpdateToolKeepsIds(tools: seq<CatalogTool>, toolId: string, u: ToolUpdate)
    requires u.id.None?
    ensures forall i :: 0 <= i < |tools| ==> UpdateTool(tools, toolId, u)[i].id == tools[i].id
    ensures IdsDistinct(tools) ==> IdsDistinct(UpdateTool(tools, toolId, u))
  {
  }

  /** getToolById: the first tool with the id. */
  function GetToolById(tools: seq<CatalogTool>, toolId: string): (r: Option<CatalogTool>)
    ensures r.None? <==> forall i :: 0 <= i < |tools| ==> tools[i].id != toolId
    ensures r.Some? ==>
      exists i :: (0 <= i < |tools| && tools[i] == r.value && r.value.id == toolId
        && forall j :: 0 <= j < i ==> tools[j].id != toolId)
  {
    if tools == [] then None
    else if tools[0].id == toolId then Some(tools[0])
    else
      var r := GetToolById(tools[1..], toolId);
      if r.Some? then
        var i :| 0 <= i < |tools[1..]| && tools[1..][i] == r.value && r.value.id == toolId
          && forall j :: 0 <= j < i ==> tools[1..][j].id != toolId;
        assert tools[i + 1] == r.value;
        r
      else r
  }

  /** getEnabledTools: the enabled tools, in order. */
  function GetEnabledTools(tools: seq<CatalogTool>): (r: seq<CatalogTool>)
    ensures forall i :: 0 <= i < |tools| ==> (tools[i] in r <==> tools[i].enabled)
    ensures forall t :: t in r ==> t in tools
    ensures Seqs.IsSubsequence(r, tools)
    ensures forall t :: multiset(r)[t] == if t.enabled then multiset(tools)[t] else 0
  {
    Seqs.FilterIsSubsequence((t: CatalogTool) => t.enabled, tools);
    Seqs.FilterMultiset((t: CatalogTool) => t.enabled, tools);
    Seqs.Filter((t: CatalogTool) => t.enabled, tools)
  }
}
