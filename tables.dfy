/**
 * The canonical tables: locations, node rows, arc rows, and the empty table of
 * each kind that `privInitDataframe` (veroviz/_utilities.py) creates. A pandas
 * DataFrame of one kind is modelled as a sequence of row records.
 */
module Tables {
  import opened Wrappers
  import opened Text

  /** One entry of a location list: `[lat, lon]` or `[lat, lon, alt]`. */
  datatype Loc = Loc(lat: real, lon: real, alt: Option<real>)

  /** The altitude `locs2Dict` reports: the third entry, or 0 when there is none. */
  function AltOf(loc: Loc): (a: real)
    ensures loc.alt.Some? ==> a == loc.alt.value
    ensures loc.alt.None? ==> a == 0.0
  {
    loc.alt.GetOr(0.0)
  }

  /** An icon-text cell holds either the text the caller gave or, by default, the row's id. */
  datatype IconText = GivenText(text: string) | IdText(id: int)

  /** A row of a Nodes table, one field per column. */
  datatype NodeRow = NodeRow(
    id: int,
    lat: real,
    lon: real,
    altMeters: real,
    nodeName: Option<string>,
    nodeType: Option<string>,
    leafletIconPrefix: string,
    leafletIconType: string,
    leafletColor: string,
    leafletIconText: IconText,
    cesiumIconType: string,
    cesiumColor: string,
    cesiumIconText: IconText)

  /** A row of an Arcs table, one field per column. */
  datatype ArcRow = ArcRow(
    odID: int,
    startLat: real,
    startLon: real,
    endLat: real,
    endLon: real,
    leafletColor: string,
    leafletWeight: int,
    leafletStyle: string,
    leafletOpacity: real,
    useArrows: bool,
    cesiumColor: string,
    cesiumWeight: int,
    cesiumStyle: string,
    cesiumOpacity: real)

  datatype TableKind = Nodes | Arcs | Assignments

  /** The column list of a Nodes table, in `NodeRow` field order. */
  const NodesColumns: seq<string> := [
    "id", "lat", "lon", "altMeters", "nodeName", "nodeType",
    "leafletIconPrefix", "leafletIconType", "leafletColor", "leafletIconText",
    "cesiumIconType", "cesiumColor", "cesiumIconText"]

  /** The column list of an Arcs table, in `ArcRow` field order. */
  const ArcsColumns: seq<string> := [
    "odID", "startLat", "startLon", "endLat", "endLon",
    "leafletColor", "leafletWeight", "leafletStyle", "leafletOpacity", "useArrows",
    "cesiumColor", "cesiumWeight", "cesiumStyle", "cesiumOpacity"]

  /** The lowercase token `privInitDataframe` accepts for each kind. */
  function KindToken(kind: TableKind): string {
    match kind
    case Nodes => "nodes"
    case Assignments => "assignments"
    case Arcs => "arcs"
  }

  /** An empty table: its kind and its column list, and no rows. */
  datatype EmptyTable = EmptyTable(kind: TableKind, columns: seq<string>)

  /** The column list of each kind; the Assignments list is supplied by the caller. */
  function ColumnList(kind: TableKind, assignmentsColumnList: seq<string>): seq<string> {
    match kind
    case Nodes => NodesColumns
    case Arcs => ArcsColumns
    case Assignments => assignmentsColumnList
  }

  /** The kind named by a case-insensitive token, if any. */
  function ParseTableKind(dataframeType: string): (r: Option<TableKind>)
    ensures r.Some? ==> KindToken(r.value) == ToLower(dataframeType)
    ensures r.None? ==> ToLower(dataframeType) !in {"nodes", "assignments", "arcs"}
  {
    var t := ToLower(dataframeType);
    if t == "nodes" then Some(Nodes)
    else if t == "assignments" then Some(Assignments)
    else if t == "arcs" then Some(Arcs)
    else None
  }

  /**
   * `privInitDataframe`: an empty table with the column list of the kind the token
   * names, or nothing (Python returns `None`) for any other token.
   */
  function InitDataframe(dataframeType: string, assignmentsColumnList: seq<string>): (r: Option<EmptyTable>)
    ensures r.Some? <==> ToLower(dataframeType) in {"nodes", "assignments", "arcs"}
    ensures r.Some? ==> KindToken(r.value.kind) == ToLower(dataframeType)
    ensures r.Some? ==> r.value.columns == ColumnList(r.value.kind, assignmentsColumnList)
  {
    match ParseTableKind(dataframeType)
    case None => None
    case Some(kind) => Some(EmptyTable(kind, ColumnList(kind, assignmentsColumnList)))
  }

  /** Every kind is created from its own token in any case, e.g. `initDataframe('Nodes')`. */
  lemma InitDataframeFromToken(kind: TableKind, assignmentsColumnList: seq<string>)
    ensures InitDataframe(KindToken(kind), assignmentsColumnList)
         == Some(EmptyTable(kind, ColumnList(kind, assignmentsColumnList)))
    ensures InitDataframe(ToUpper(KindToken(kind)), assignmentsColumnList)
         == Some(EmptyTable(kind, ColumnList(kind, assignmentsColumnList)))
  {
    LowerOfLowercase(KindToken(kind));
    LowerOfUpper(KindToken(kind));
  }

  lemma InitNodesTable(assignmentsColumnList: seq<string>)
    ensures InitDataframe("Nodes", assignmentsColumnList) == Some(EmptyTable(Nodes, NodesColumns))
  {
    assert ToLower("Nodes") == "nodes";
  }

  lemma InitArcsTable(assignmentsColumnList: seq<string>)
    ensures InitDataframe("Arcs", assignmentsColumnList) == Some(EmptyTable(Arcs, ArcsColumns))
  {
    assert ToLower("Arcs") == "arcs";
  }
}
