/**
 * The entity builders of veroviz/_createEntitiesFromList.py: a node table from a
 * location list (`privCreateNodesFromLocs`) and an arc table from a location
 * sequence (`privCreateArcsFromLocSeq`). Both number their new rows from a start
 * value that continues above any prior table's ids, and both append the new rows
 * after the prior table's rows.
 *
 * Each builder is a method with the source's loop, proved equal to a table
 * function (`NodeTable`, `ArcTable`); the lemmas below state what that table is.
 */
module Entities {
  import opened Wrappers
  import opened Text
  import opened Tables

  /** Python's `max` of a non-empty list of ids. */
  function MaxInt(xs: seq<int>): (m: int)
    requires |xs| > 0
    ensures forall i :: 0 <= i < |xs| ==> xs[i] <= m
    ensures exists i :: 0 <= i < |xs| && xs[i] == m
  {
    if |xs| == 1 then xs[0]
    else
      var rest := MaxInt(xs[1..]);
      assert forall i :: 1 <= i < |xs| ==> xs[i] == xs[1..][i - 1];
      if xs[0] >= rest then xs[0] else rest
  }

  /** The `id` column of a node table. */
  function NodeIds(rows: seq<NodeRow>): (ids: seq<int>)
    ensures |ids| == |rows| && forall i :: 0 <= i < |rows| ==> ids[i] == rows[i].id
  {
    seq(|rows|, i requires 0 <= i < |rows| => rows[i].id)
  }

  /** The `odID` column of an arc table. */
  function OdIds(rows: seq<ArcRow>): (ids: seq<int>)
    ensures |ids| == |rows| && forall i :: 0 <= i < |rows| ==> ids[i] == rows[i].odID
  {
    seq(|rows|, i requires 0 <= i < |rows| => rows[i].odID)
  }

  /** The rows of an optional prior table (`None` stands for "not a DataFrame"). */
  function PriorRows<T>(init: Option<seq<T>>): seq<T> {
    if init.Some? then init.value else []
  }

  /**
   * The first id of a build: `start` itself when there is no prior table or it is
   * empty, else `max(maxID + 1, start)`. It is the least integer that is at least
   * `start` and above every prior id.
   */
  function ContinueIds(priorIds: Option<seq<int>>, start: int): (s: int)
    ensures s >= start
    ensures priorIds.Some? ==> forall i :: 0 <= i < |priorIds.value| ==> priorIds.value[i] < s
    ensures s == start || (priorIds.Some? && exists i :: 0 <= i < |priorIds.value| && priorIds.value[i] == s - 1)
  {
    if priorIds.Some? && |priorIds.value| > 0 then
      var maxID := MaxInt(priorIds.value);
      if maxID + 1 >= start then maxID + 1 else start
    else start
  }

  /** `range(start, start + n)`: the ids a build hands out. */
  function IdRun(start: int, n: nat): (ids: seq<int>)
    ensures |ids| == n
    ensures forall i :: 0 <= i < n ==> ids[i] == start + i
  {
    seq(n, i requires 0 <= i < n => start + i)
  }

  predicate UniqueIds(ids: seq<int>) {
    forall i, j :: 0 <= i < j < |ids| ==> ids[i] != ids[j]
  }

  /** Ids appended as a run above every earlier id keep a column of unique ids unique. */
  lemma {:induction false} RunAboveKeepsUnique(prior: seq<int>, s: int, n: nat)
    requires UniqueIds(prior)
    requires forall i :: 0 <= i < |prior| ==> prior[i] < s
    ensures UniqueIds(prior + IdRun(s, n))
  {
    var all := prior + IdRun(s, n);
    forall i, j | 0 <= i < j < |all| ensures all[i] != all[j] {
      if j < |prior| {
        assert all[i] == prior[i] && all[j] == prior[j];
      } else if i < |prior| {
        assert all[i] == prior[i] && all[j] == s + (j - |prior|);
      } else {
        assert all[i] == s + (i - |prior|) && all[j] == s + (j - |prior|);
      }
    }
  }

  lemma NodeIdsAppend(a: seq<NodeRow>, b: seq<NodeRow>)
    ensures NodeIds(a + b) == NodeIds(a) + NodeIds(b)
  {
    assert forall k :: 0 <= k < |a + b| ==> NodeIds(a + b)[k] == (NodeIds(a) + NodeIds(b))[k];
  }

  lemma OdIdsAppend(a: seq<ArcRow>, b: seq<ArcRow>)
    ensures OdIds(a + b) == OdIds(a) + OdIds(b)
  {
    assert forall k :: 0 <= k < |a + b| ==> OdIds(a + b)[k] == (OdIds(a) + OdIds(b))[k];
  }

  /** Raised by the source, and modelled as a failed build. */
  datatype BuildError =
    /** `nodeName + "%s" % n` with `nodeName` None: a TypeError. */
    | NameNotText

  /**
   * The `nodeNames` list: `nodeName` followed by the running counter when
   * `incrementName` is set, otherwise `nodeName` on every row. Concatenating a
   * missing name with the counter fails, but only when some row needs a name.
   */
  function NodeNames(nodeName: Option<string>, incrementName: bool, incrementStart: int, n: nat)
    : (r: Result<seq<Option<string>>, BuildError>)
    ensures r.Failure? <==> incrementName && nodeName.None? && n > 0
    ensures r.Success? ==> |r.value| == n
  {
    if incrementName then
      if n == 0 then Success([])
      else if nodeName.None? then Failure(NameNotText)
      else Success(seq(n, i requires 0 <= i < n => Some(nodeName.value + DecimalString(incrementStart + i))))
    else Success(seq(n, i requires 0 <= i < n => nodeName))
  }

  /** Name `i` is `nodeName` followed by `incrementStart + i`, or plain `nodeName` without `incrementName`. */
  lemma NodeNamesRule(nodeName: Option<string>, incrementName: bool, incrementStart: int, n: nat, i: int)
    requires NodeNames(nodeName, incrementName, incrementStart, n).Success?
    requires 0 <= i < n
    ensures NodeNames(nodeName, incrementName, incrementStart, n).value[i]
      == if incrementName then Some(nodeName.value + DecimalString(incrementStart + i)) else nodeName
  {
  }

  /** With `incrementName`, the generated names are pairwise distinct. */
  lemma IncrementedNamesDistinct(nodeName: string, incrementStart: int, n: nat)
    ensures NodeNames(Some(nodeName), true, incrementStart, n).Success?
    ensures var names := NodeNames(Some(nodeName), true, incrementStart, n).value;
      forall i, j :: 0 <= i < j < n ==> names[i] != names[j]
  {
    var names := NodeNames(Some(nodeName), true, incrementStart, n).value;
    forall i, j | 0 <= i < j < n ensures names[i] != names[j] {
      NodeNamesRule(Some(nodeName), true, incrementStart, n, i);
      NodeNamesRule(Some(nodeName), true, incrementStart, n, j);
      PrefixedDecimalInjective(nodeName, incrementStart + i, incrementStart + j);
    }
  }

  // ---------------------------------------------------------------- nodes

  /** The display options every generated node shares (`None` icon text means "use the id"). */
  datatype NodeStyle = NodeStyle(
    leafletIconPrefix: string,
    leafletIconType: string,
    leafletColor: string,
    leafletIconText: Option<string>,
    cesiumIconType: string,
    cesiumColor: string,
    cesiumIconText: Option<string>)

  /** The icon text of a row: the supplied text, or else the row's id. */
  function IconTextFor(supplied: Option<string>, id: int): (t: IconText)
    ensures supplied.Some? ==> t == GivenText(supplied.value)
    ensures supplied.None? ==> t == IdText(id)
  {
    match supplied
    case Some(text) => GivenText(text)
    case None => IdText(id)
  }

  /** The row the loop body appends for one location. */
  function NewNode(id: int, loc: Loc, name: Option<string>, nodeType: Option<string>, style: NodeStyle): NodeRow {
    NodeRow(
      id := id,
      lat := loc.lat,
      lon := loc.lon,
      altMeters := AltOf(loc),
      nodeName := name,
      nodeType := nodeType,
      leafletIconPrefix := style.leafletIconPrefix,
      leafletIconType := style.leafletIconType,
      leafletColor := style.leafletColor,
      leafletIconText := IconTextFor(style.leafletIconText, id),
      cesiumIconType := style.cesiumIconType,
      cesiumColor := style.cesiumColor,
      cesiumIconText := IconTextFor(style.cesiumIconText, id))
  }

  /** The first new node id. */
  function NodeStart(initNodes: Option<seq<NodeRow>>, startNode: int): int {
    ContinueIds(if initNodes.Some? then Some(NodeIds(initNodes.value)) else None, startNode)
  }

  /** The locations the rows take their coordinates from: the snapped ones when snapping. */
  function NodeCoords(locs: seq<Loc>, snapped: Option<seq<Loc>>): seq<Loc> {
    if snapped.Some? then snapped.value else locs
  }

  /** The new rows, one per location, numbered from `s`. */
  function NewNodes(s: int, coords: seq<Loc>, names: seq<Option<string>>, nodeType: Option<string>, style: NodeStyle)
    : (rows: seq<NodeRow>)
    requires |names| == |coords|
    ensures |rows| == |coords|
  {
    seq(|coords|, i requires 0 <= i < |coords| => NewNode(s + i, coords[i], names[i], nodeType, style))
  }

  lemma NewNodesIds(s: int, coords: seq<Loc>, names: seq<Option<string>>, nodeType: Option<string>, style: NodeStyle)
    requires |names| == |coords|
    ensures NodeIds(NewNodes(s, coords, names, nodeType, style)) == IdRun(s, |coords|)
  {
  }

  lemma NewNodesRows(prior: seq<NodeRow>, s: int, coords: seq<Loc>, names: seq<Option<string>>, nodeType: Option<string>, style: NodeStyle)
    requires |names| == |coords|
    ensures
      var nodes := prior + NewNodes(s, coords, names, nodeType, style);
      forall i :: |prior| <= i < |nodes| ==>
        NodeFrom(nodes[i], s + (i - |prior|), coords[i - |prior|], nodeType, style) && nodes[i].nodeName == names[i - |prior|]
  {
  }

  /**
   * The table `privCreateNodesFromLocs` returns. `snapped` stands for
   * `snapToRoad`: when it is `Some(s)`, `s` is what the road-snapping
   * collaborator returned for `locs` (same length, same order).
   */
  function NodeTable(
    locs: seq<Loc>, initNodes: Option<seq<NodeRow>>, nodeType: Option<string>,
    nodeName: Option<string>, startNode: int, incrementName: bool, incrementStart: int,
    snapped: Option<seq<Loc>>, style: NodeStyle)
    : (r: Result<seq<NodeRow>, BuildError>)
    requires snapped.Some? ==> |snapped.value| == |locs|
    // the only failure: a missing name cannot take the counter
    ensures r.Failure? <==> incrementName && nodeName.None? && |locs| > 0
    // the prior rows then one new row per location
    ensures r.Success? ==> |r.value| == |PriorRows(initNodes)| + |locs|
  {
    var names := NodeNames(nodeName, incrementName, incrementStart, |locs|);
    if names.Failure? then Failure(names.error)
    else
      Success(PriorRows(initNodes)
              + NewNodes(NodeStart(initNodes, startNode), NodeCoords(locs, snapped), names.value, nodeType, style))
  }

  /**
   * Row `row` is the node built for `loc`: numbered `id`, at the location's
   * coordinates and altitude (0 when it has none), with the shared type and
   * style, and icon texts that fall back to the id.
   */
  predicate NodeFrom(row: NodeRow, id: int, loc: Loc, nodeType: Option<string>, style: NodeStyle) {
    && row.id == id
    && row.lat == loc.lat && row.lon == loc.lon
    && row.altMeters == (if loc.alt.Some? then loc.alt.value else 0.0)
    && row.nodeType == nodeType
    && row.leafletIconPrefix == style.leafletIconPrefix
    && row.leafletIconType == style.leafletIconType
    && row.leafletColor == style.leafletColor
    && row.leafletIconText == (if style.leafletIconText.Some? then GivenText(style.leafletIconText.value) else IdText(id))
    && row.cesiumIconType == style.cesiumIconType
    && row.cesiumColor == style.cesiumColor
    && row.cesiumIconText == (if style.cesiumIconText.Some? then GivenText(style.cesiumIconText.value) else IdText(id))
  }

  /** A successful build is the prior rows followed by the rows `NewNodes` makes. */
  lemma NodeTableSplit(
    locs: seq<Loc>, initNodes: Option<seq<NodeRow>>, nodeType: Option<string>,
    nodeName: Option<string>, startNode: int, incrementName: bool, incrementStart: int,
    snapped: Option<seq<Loc>>, style: NodeStyle)
    requires snapped.Some? ==> |snapped.value| == |locs|
    requires NodeTable(locs, initNodes, nodeType, nodeName, startNode, incrementName, incrementStart, snapped, style).Success?
    ensures NodeTable(locs, initNodes, nodeType, nodeName, startNode, incrementName, incrementStart, snapped, style).value
      == PriorRows(initNodes) + NewNodes(NodeStart(initNodes, startNode), NodeCoords(locs, snapped),
                                         NodeNames(nodeName, incrementName, incrementStart, |locs|).value, nodeType, style)
  {
  }

  /** A built node table starts with the prior table's rows, unchanged and in order. */
  lemma NodeTableKeepsPrior(
    locs: seq<Loc>, initNodes: Option<seq<NodeRow>>, nodeType: Option<string>,
    nodeName: Option<string>, startNode: int, incrementName: bool, incrementStart: int,
    snapped: Option<seq<Loc>>, style: NodeStyle)
    requires snapped.Some? ==> |snapped.value| == |locs|
    requires NodeTable(locs, initNodes, nodeType, nodeName, startNode, incrementName, incrementStart, snapped, style).Success?
    ensures
      var nodes := NodeTable(locs, initNodes, nodeType, nodeName, startNode, incrementName, incrementStart, snapped, style).value;
      nodes[..|PriorRows(initNodes)|] == PriorRows(initNodes)
  {
    NodeTableSplit(locs, initNodes, nodeType, nodeName, startNode, incrementName, incrementStart, snapped, style);
  }

  /** After the `p` prior rows, row `i` is the node built for (snapped) location `i - p`, numbered `s + (i - p)`. */
  lemma NodeTableRows(
    locs: seq<Loc>, initNodes: Option<seq<NodeRow>>, nodeType: Option<string>,
    nodeName: Option<string>, startNode: int, incrementName: bool, incrementStart: int,
    snapped: Option<seq<Loc>>, style: NodeStyle)
    requires snapped.Some? ==> |snapped.value| == |locs|
    requires NodeTable(locs, initNodes, nodeType, nodeName, startNode, incrementName, incrementStart, snapped, style).Success?
    ensures
      var nodes := NodeTable(locs, initNodes, nodeType, nodeName, startNode, incrementName, incrementStart, snapped, style).value;
      var p := |PriorRows(initNodes)|;
      var s := NodeStart(initNodes, startNode);
      var coords := NodeCoords(locs, snapped);
      forall i :: p <= i < |nodes| ==> NodeFrom(nodes[i], s + (i - p), coords[i - p], nodeType, style)
  {
    var names := NodeNames(nodeName, incrementName, incrementStart, |locs|).value;
    NodeTableSplit(locs, initNodes, nodeType, nodeName, startNode, incrementName, incrementStart, snapped, style);
    NewNodesRows(PriorRows(initNodes), NodeStart(initNodes, startNode), NodeCoords(locs, snapped), names, nodeType, style);
  }

  /**
   * After the `p` prior rows, row `i` is named `nodeName` followed by
   * `incrementStart + (i - p)` when `incrementName` is set, and `nodeName` otherwise.
   */
  lemma NodeTableNames(
    locs: seq<Loc>, initNodes: Option<seq<NodeRow>>, nodeType: Option<string>,
    nodeName: Option<string>, startNode: int, incrementName: bool, incrementStart: int,
    snapped: Option<seq<Loc>>, style: NodeStyle)
    requires snapped.Some? ==> |snapped.value| == |locs|
    requires NodeTable(locs, initNodes, nodeType, nodeName, startNode, incrementName, incrementStart, snapped, style).Success?
    ensures
      var nodes := NodeTable(locs, initNodes, nodeType, nodeName, startNode, incrementName, incrementStart, snapped, style).value;
      var p := |PriorRows(initNodes)|;
      forall i :: p <= i < |nodes| ==>
        nodes[i].nodeName == (if incrementName then Some(nodeName.value + DecimalString(incrementStart + (i - p))) else nodeName)
  {
    var nodes := NodeTable(locs, initNodes, nodeType, nodeName, startNode, incrementName, incrementStart, snapped, style).value;
    var names := NodeNames(nodeName, incrementName, incrementStart, |locs|).value;
    var p := |PriorRows(initNodes)|;
    NodeTableSplit(locs, initNodes, nodeType, nodeName, startNode, incrementName, incrementStart, snapped, style);
    NewNodesRows(PriorRows(initNodes), NodeStart(initNodes, startNode), NodeCoords(locs, snapped), names, nodeType, style);
    forall i | p <= i < |nodes|
      ensures nodes[i].nodeName == (if incrementName then Some(nodeName.value + DecimalString(incrementStart + (i - p))) else nodeName)
    {
      NodeNamesRule(nodeName, incrementName, incrementStart, |locs|, i - p);
    }
  }

  /**
   * The new node ids are `s, s + 1, ...` after the prior ids, so they lie above
   * every prior id and at or above `startNode`, and a prior table with unique
   * ids yields a table with unique ids.
   */
  lemma NodeTableIds(
    locs: seq<Loc>, initNodes: Option<seq<NodeRow>>, nodeType: Option<string>,
    nodeName: Option<string>, startNode: int, incrementName: bool, incrementStart: int,
    snapped: Option<seq<Loc>>, style: NodeStyle)
    requires snapped.Some? ==> |snapped.value| == |locs|
    requires NodeTable(locs, initNodes, nodeType, nodeName, startNode, incrementName, incrementStart, snapped, style).Success?
    ensures
      var nodes := NodeTable(locs, initNodes, nodeType, nodeName, startNode, incrementName, incrementStart, snapped, style).value;
      var prior := PriorRows(initNodes);
      && NodeIds(nodes) == NodeIds(prior) + IdRun(NodeStart(initNodes, startNode), |locs|)
      && (forall j :: |prior| <= j < |nodes| ==> nodes[j].id >= startNode)
      && (forall i, j :: 0 <= i < |prior| <= j < |nodes| ==> nodes[i].id < nodes[j].id)
      && (UniqueIds(NodeIds(prior)) ==> UniqueIds(NodeIds(nodes)))
  {
    var nodes := NodeTable(locs, initNodes, nodeType, nodeName, startNode, incrementName, incrementStart, snapped, style).value;
    var prior := PriorRows(initNodes);
    var p := |prior|;
    var s := NodeStart(initNodes, startNode);
    var names := NodeNames(nodeName, incrementName, incrementStart, |locs|).value;
    var ids := NodeIds(prior) + IdRun(s, |locs|);
    NodeTableSplit(locs, initNodes, nodeType, nodeName, startNode, incrementName, incrementStart, snapped, style);
    NodeIdsAppend(prior, NewNodes(s, NodeCoords(locs, snapped), names, nodeType, style));
    NewNodesIds(s, NodeCoords(locs, snapped), names, nodeType, style);
    assert NodeIds(nodes) == ids;
    forall j | p <= j < |nodes| ensures nodes[j].id >= startNode {
      assert nodes[j].id == ids[j] == s + (j - p);
    }
    forall i, j | 0 <= i < p <= j < |nodes| ensures nodes[i].id < nodes[j].id {
      assert nodes[i].id == NodeIds(prior)[i] < s;
      assert nodes[j].id == ids[j] == s + (j - p);
    }
    if UniqueIds(NodeIds(prior)) {
      RunAboveKeepsUnique(NodeIds(prior), s, |locs|);
    }
  }

  /** With `incrementName`, no two new nodes share a name. */
  lemma NodeTableNamesDistinct(
    locs: seq<Loc>, initNodes: Option<seq<NodeRow>>, nodeType: Option<string>,
    nodeName: Option<string>, startNode: int, incrementStart: int,
    snapped: Option<seq<Loc>>, style: NodeStyle)
    requires snapped.Some? ==> |snapped.value| == |locs|
    requires NodeTable(locs, initNodes, nodeType, nodeName, startNode, true, incrementStart, snapped, style).Success?
    ensures
      var nodes := NodeTable(locs, initNodes, nodeType, nodeName, startNode, true, incrementStart, snapped, style).value;
      var p := |PriorRows(initNodes)|;
      forall i, j :: p <= i < j < |nodes| ==> nodes[i].nodeName != nodes[j].nodeName
  {
    var nodes := NodeTable(locs, initNodes, nodeType, nodeName, startNode, true, incrementStart, snapped, style).value;
    var names := NodeNames(nodeName, true, incrementStart, |locs|).value;
    var p := |PriorRows(initNodes)|;
    NodeTableSplit(locs, initNodes, nodeType, nodeName, startNode, true, incrementStart, snapped, style);
    NewNodesRows(PriorRows(initNodes), NodeStart(initNodes, startNode), NodeCoords(locs, snapped), names, nodeType, style);
    if |locs| > 0 {
      IncrementedNamesDistinct(nodeName.value, incrementStart, |locs|);
    }
    forall i, j | p <= i < j < |nodes| ensures nodes[i].nodeName != nodes[j].nodeName {
      assert names[i - p] != names[j - p];
    }
  }

  /** Two locations named "stop" with a counter from 1 and no prior table: ids 1 and 2, names "stop1" and "stop2". */
  lemma TwoStopsExample(a: Loc, b: Loc, style: NodeStyle)
    ensures NodeTable([a, b], None, None, Some("stop"), 1, true, 1, None, style).Success?
    ensures
      var nodes := NodeTable([a, b], None, None, Some("stop"), 1, true, 1, None, style).value;
      && |nodes| == 2
      && nodes[0].id == 1 && nodes[1].id == 2
      && nodes[0].nodeName == Some("stop1") && nodes[1].nodeName == Some("stop2")
  {
    var nodes := NodeTable([a, b], None, None, Some("stop"), 1, true, 1, None, style).value;
    NodeTableIds([a, b], None, None, Some("stop"), 1, true, 1, None, style);
    NodeTableNames([a, b], None, None, Some("stop"), 1, true, 1, None, style);
    assert NodeIds(nodes)[0] == 1 && NodeIds(nodes)[1] == 2;
    assert "stop" + DecimalString(1) == "stop1";
    assert "stop" + DecimalString(2) == "stop2";
  }

  /** `privCreateNodesFromLocs`, with the source's loop over the locations. */
  method CreateNodesFromLocs(
    locs: seq<Loc>, initNodes: Option<seq<NodeRow>>, nodeType: Option<string>,
    nodeName: Option<string>, startNode: int, incrementName: bool, incrementStart: int,
    snapped: Option<seq<Loc>>, style: NodeStyle)
    returns (r: Result<seq<NodeRow>, BuildError>)
    requires snapped.Some? ==> |snapped.value| == |locs|
    ensures r == NodeTable(locs, initNodes, nodeType, nodeName, startNode, incrementName, incrementStart, snapped, style)
  {
    var numNodes := |locs|;

    var start := startNode;
    if initNodes.Some? && |initNodes.value| > 0 {
      var maxID := MaxInt(NodeIds(initNodes.value));
      start := if maxID + 1 >= start then maxID + 1 else start;
    }
    assert start == NodeStart(initNodes, startNode);
    var ids := IdRun(start, numNodes);
    var names := NodeNames(nodeName, incrementName, incrementStart, numNodes);
    if names.Failure? {
      return Failure(names.error);
    }

    var coords := locs;
    if snapped.Some? {
      coords := snapped.value;
    }

    var nodes: seq<NodeRow> := [];
    var i := 0;
    while i < |coords|
      invariant 0 <= i <= |coords|
      invariant |nodes| == i
      invariant forall k :: 0 <= k < i ==> nodes[k] == NewNode(ids[k], coords[k], names.value[k], nodeType, style)
    {
      nodes := nodes + [NewNode(ids[i], coords[i], names.value[i], nodeType, style)];
      i := i + 1;
    }
    assert nodes == NewNodes(start, coords, names.value, nodeType, style);

    if initNodes.Some? {
      nodes := initNodes.value + nodes;
    } else {
      assert nodes == PriorRows(initNodes) + nodes;
    }
    return Success(nodes);
  }

  // ---------------------------------------------------------------- arcs

  /** The display options every generated arc shares. */
  datatype ArcStyle = ArcStyle(
    leafletColor: string,
    leafletWeight: int,
    leafletStyle: string,
    leafletOpacity: real,
    useArrows: bool,
    cesiumColor: string,
    cesiumWeight: int,
    cesiumStyle: string,
    cesiumOpacity: real)

  /** The row the loop body appends for the pair `from`, `to`. */
  function NewArc(odID: int, from: Loc, to: Loc, style: ArcStyle): ArcRow {
    ArcRow(
      odID := odID,
      startLat := from.lat,
      startLon := from.lon,
      endLat := to.lat,
      endLon := to.lon,
      leafletColor := style.leafletColor,
      leafletWeight := style.leafletWeight,
      leafletStyle := style.leafletStyle,
      leafletOpacity := style.leafletOpacity,
      useArrows := style.useArrows,
      cesiumColor := style.cesiumColor,
      cesiumWeight := style.cesiumWeight,
      cesiumStyle := style.cesiumStyle,
      cesiumOpacity := style.cesiumOpacity)
  }

  /** The number of arcs a sequence of `n` points yields: `len(range(n - 1))`. */
  function ArcCount(n: nat): (c: nat)
    ensures n > 0 ==> c == n - 1
    ensures n == 0 ==> c == 0
  {
    if n == 0 then 0 else n - 1
  }

  /** The first new odID. */
  function ArcStart(initArcs: Option<seq<ArcRow>>, startArc: int): int {
    ContinueIds(if initArcs.Some? then Some(OdIds(initArcs.value)) else None, startArc)
  }

  /** The new arcs, one per pair of consecutive points, numbered from `a`. */
  function NewArcs(a: int, locSeq: seq<Loc>, style: ArcStyle): (rows: seq<ArcRow>)
    ensures |rows| == ArcCount(|locSeq|)
  {
    seq(ArcCount(|locSeq|), i requires 0 <= i < ArcCount(|locSeq|) => NewArc(a + i, locSeq[i], locSeq[i + 1], style))
  }

  lemma NewArcsIds(a: int, locSeq: seq<Loc>, style: ArcStyle)
    ensures OdIds(NewArcs(a, locSeq, style)) == IdRun(a, ArcCount(|locSeq|))
  {
  }

  /** The table `privCreateArcsFromLocSeq` returns. */
  function ArcTable(locSeq: seq<Loc>, initArcs: Option<seq<ArcRow>>, startArc: int, style: ArcStyle)
    : (arcs: seq<ArcRow>)
    // the prior rows then one arc fewer than there are points
    ensures |arcs| == |PriorRows(initArcs)| + ArcCount(|locSeq|)
  {
    PriorRows(initArcs) + NewArcs(ArcStart(initArcs, startArc), locSeq, style)
  }

  /** Arc `arc` is numbered `odID`, runs from `from` to `to` and carries `style`. */
  predicate ArcJoins(arc: ArcRow, odID: int, from: Loc, to: Loc, style: ArcStyle) {
    && arc.odID == odID
    && arc.startLat == from.lat && arc.startLon == from.lon
    && arc.endLat == to.lat && arc.endLon == to.lon
    && arc.leafletColor == style.leafletColor
    && arc.leafletWeight == style.leafletWeight
    && arc.leafletStyle == style.leafletStyle
    && arc.leafletOpacity == style.leafletOpacity
    && arc.useArrows == style.useArrows
    && arc.cesiumColor == style.cesiumColor
    && arc.cesiumWeight == style.cesiumWeight
    && arc.cesiumStyle == style.cesiumStyle
    && arc.cesiumOpacity == style.cesiumOpacity
  }

  /** Row `|prior| + i` of a built arc table is the arc made for points `i` and `i + 1`. */
  lemma ArcTableAt(locSeq: seq<Loc>, initArcs: Option<seq<ArcRow>>, startArc: int, style: ArcStyle, i: int)
    requires 0 <= i < ArcCount(|locSeq|)
    ensures ArcTable(locSeq, initArcs, startArc, style)[|PriorRows(initArcs)| + i]
      == NewArc(ArcStart(initArcs, startArc) + i, locSeq[i], locSeq[i + 1], style)
  {
    var added := NewArcs(ArcStart(initArcs, startArc), locSeq, style);
    assert (PriorRows(initArcs) + added)[|PriorRows(initArcs)| + i] == added[i];
  }

  /** A built arc table starts with the prior table's rows, unchanged and in order. */
  lemma ArcTableKeepsPrior(locSeq: seq<Loc>, initArcs: Option<seq<ArcRow>>, startArc: int, style: ArcStyle)
    ensures ArcTable(locSeq, initArcs, startArc, style)[..|PriorRows(initArcs)|] == PriorRows(initArcs)
  {
    var added := NewArcs(ArcStart(initArcs, startArc), locSeq, style);
    assert ArcTable(locSeq, initArcs, startArc, style) == PriorRows(initArcs) + added;
  }

  /** After the `p` prior rows, arc `i` is numbered `a + (i - p)` and joins point `i - p` to the next point. */
  lemma ArcTableRows(locSeq: seq<Loc>, initArcs: Option<seq<ArcRow>>, startArc: int, style: ArcStyle)
    ensures
      var arcs := ArcTable(locSeq, initArcs, startArc, style);
      var p := |PriorRows(initArcs)|;
      var a := ArcStart(initArcs, startArc);
      forall i :: p <= i < |arcs| ==> ArcJoins(arcs[i], a + (i - p), locSeq[i - p], locSeq[i - p + 1], style)
  {
    var arcs := ArcTable(locSeq, initArcs, startArc, style);
    var p := |PriorRows(initArcs)|;
    var a := ArcStart(initArcs, startArc);
    forall i | p <= i < |arcs| ensures ArcJoins(arcs[i], a + (i - p), locSeq[i - p], locSeq[i - p + 1], style) {
      ArcTableAt(locSeq, initArcs, startArc, style, i - p);
      assert arcs[p + (i - p)] == NewArc(a + (i - p), locSeq[i - p], locSeq[i - p + 1], style);
    }
  }

  /** Consecutive new arcs form a path: each ends where the next one starts. */
  lemma ArcTablePath(locSeq: seq<Loc>, initArcs: Option<seq<ArcRow>>, startArc: int, style: ArcStyle)
    ensures
      var arcs := ArcTable(locSeq, initArcs, startArc, style);
      var p := |PriorRows(initArcs)|;
      forall i :: p <= i && i + 1 < |arcs| ==>
        arcs[i].endLat == arcs[i + 1].startLat && arcs[i].endLon == arcs[i + 1].startLon
  {
    var arcs := ArcTable(locSeq, initArcs, startArc, style);
    var p := |PriorRows(initArcs)|;
    var a := ArcStart(initArcs, startArc);
    forall i | p <= i && i + 1 < |arcs|
      ensures arcs[i].endLat == arcs[i + 1].startLat && arcs[i].endLon == arcs[i + 1].startLon
    {
      ArcTableAt(locSeq, initArcs, startArc, style, i - p);
      ArcTableAt(locSeq, initArcs, startArc, style, i + 1 - p);
      assert arcs[p + (i - p)].endLat == locSeq[i - p + 1].lat;
      assert arcs[p + (i + 1 - p)].startLat == locSeq[i + 1 - p].lat;
    }
  }

  /**
   * The new odIDs are `a, a + 1, ...` after the prior odIDs, so they lie above
   * every prior odID and at or above `startArc`, and a prior table with unique
   * odIDs yields a table with unique odIDs.
   */
  lemma ArcTableIds(locSeq: seq<Loc>, initArcs: Option<seq<ArcRow>>, startArc: int, style: ArcStyle)
    ensures
      var arcs := ArcTable(locSeq, initArcs, startArc, style);
      var prior := PriorRows(initArcs);
      && OdIds(arcs) == OdIds(prior) + IdRun(ArcStart(initArcs, startArc), ArcCount(|locSeq|))
      && (forall j :: |prior| <= j < |arcs| ==> arcs[j].odID >= startArc)
      && (forall i, j :: 0 <= i < |prior| <= j < |arcs| ==> arcs[i].odID < arcs[j].odID)
      && (UniqueIds(OdIds(prior)) ==> UniqueIds(OdIds(arcs)))
  {
    var arcs := ArcTable(locSeq, initArcs, startArc, style);
    var prior := PriorRows(initArcs);
    var p := |prior|;
    var a := ArcStart(initArcs, startArc);
    var n := ArcCount(|locSeq|);
    var ids := OdIds(prior) + IdRun(a, n);
    OdIdsAppend(prior, NewArcs(a, locSeq, style));
    NewArcsIds(a, locSeq, style);
    assert OdIds(arcs) == ids;
    forall j | p <= j < |arcs| ensures arcs[j].odID >= startArc {
      assert arcs[j].odID == ids[j] == a + (j - p);
    }
    forall i, j | 0 <= i < p <= j < |arcs| ensures arcs[i].odID < arcs[j].odID {
      assert arcs[i].odID == OdIds(prior)[i] < a;
      assert arcs[j].odID == ids[j] == a + (j - p);
    }
    if UniqueIds(OdIds(prior)) {
      RunAboveKeepsUnique(OdIds(prior), a, n);
    }
  }

  /** `privCreateArcsFromLocSeq`, with the source's loop over consecutive pairs. */
  method CreateArcsFromLocSeq(locSeq: seq<Loc>, initArcs: Option<seq<ArcRow>>, startArc: int, style: ArcStyle)
    returns (arcs: seq<ArcRow>)
    ensures arcs == ArcTable(locSeq, initArcs, startArc, style)
  {
    var numArcs := |locSeq|;

    var start := startArc;
    if initArcs.Some? && |initArcs.value| > 0 {
      var maxOdID := MaxInt(OdIds(initArcs.value));
      start := if maxOdID + 1 >= start then maxOdID + 1 else start;
    }
    assert start == ArcStart(initArcs, startArc);
    var odIDs := IdRun(start, numArcs);

    var newArcs: seq<ArcRow> := [];
    var i := 0;
    while i < |locSeq| - 1
      invariant 0 <= i <= ArcCount(|locSeq|)
      invariant |newArcs| == i
      invariant forall k {:trigger newArcs[k]} :: 0 <= k < i ==> newArcs[k] == NewArc(odIDs[k], locSeq[k], locSeq[k + 1], style)
    {
      newArcs := newArcs + [NewArc(odIDs[i], locSeq[i], locSeq[i + 1], style)];
      i := i + 1;
    }
    assert newArcs == NewArcs(start, locSeq, style);

    arcs := newArcs;
    if initArcs.Some? {
      arcs := initArcs.value + arcs;
    }
  }
}
