/** The state rules of the `LineageGraph` view: grid positions for the grouped
    nodes, the per-node collapsed flags, the selection and hover highlight, and
    which edges are drawn. Rendering itself is not modelled.
 */
module LineageGraph {
  import opened JsObject
  import opened LineageParser

  const SpacingX: int := 250
  const SpacingY: int := 250
  const GroupSpacingY: int := 400

  datatype Position = Position(x: int, y: int)

  /** The grid cell of the node at `index` within the group at `groupIndex`:
      four columns, 250 apart from x = 200; rows 250 apart; groups 400 apart. */
  function Cell(groupIndex: nat, index: nat): (p: Position)
    ensures p.x in {200, 450, 700, 950}
    ensures p.y >= groupIndex * GroupSpacingY
  {
    var col := index % 4;
    var row := index / 4;
    Position(col * SpacingX + 200, groupIndex * GroupSpacingY + row * SpacingY)
  }

  /** Within one group, different positions get different cells. */
  lemma {:induction false} CellInjectiveInGroup(groupIndex: nat, i: nat, j: nat)
    requires i != j
    ensures Cell(groupIndex, i) != Cell(groupIndex, j)
  {
  }

  /** While no group has more than 32 nodes, no two grouped nodes share a cell. */
  lemma {:induction false} CellsDistinctBelow32(g: nat, i: nat, h: nat, j: nat)
    requires i < 32 && j < 32 && (g, i) != (h, j)
    ensures Cell(g, i) != Cell(h, j)
  {
    var ri, rj := i / 4, j / 4;
    assert i == 4 * ri + i % 4 && j == 4 * rj + j % 4;
    if i % 4 != j % 4 {
      assert Cell(g, i).x != Cell(h, j).x;
    } else {
      assert Cell(g, i).y == 50 * (8 * g + 5 * ri) && Cell(h, j).y == 50 * (8 * h + 5 * rj);
      RowsApart(g, ri, h, rj);
    }
  }

  /** Rows are 5 units of 50 apart and groups 8: below 8 rows no two (group, row) pairs meet. */
  lemma {:induction false} RowsApart(g: int, ri: int, h: int, rj: int)
    requires 0 <= ri < 8 && 0 <= rj < 8 && (g, ri) != (h, rj)
    ensures 8 * g + 5 * ri != 8 * h + 5 * rj
  {
    var k, d := g - h, rj - ri;
    if d == 0 {
      assert k != 0;
    } else {
      assert -7 <= d <= 7;
      assert 8 * k != 5 * d;
    }
  }

  /** From 33 nodes on, a group's cells reach the next groups': node 32 of the
      first group and node 0 of the sixth share a cell. */
  lemma {:induction false} CellsCoincideAcrossGroups()
    ensures Cell(0, 32) == Cell(5, 0)
  {
  }

  /** Writes the cells of one group into `positions`, in list order. */
  function PlaceGroup(positions: map<string, Position>, groupIndex: nat, group: seq<Node>): map<string, Position> {
    if group == [] then positions
    else PlaceGroup(positions, groupIndex, group[..|group| - 1])[group[|group| - 1].id := Cell(groupIndex, |group| - 1)]
  }

  predicate AllGroups(groupedNodes: Obj<seq<Node>>, names: seq<string>) {
    forall i :: 0 <= i < |names| ==> names[i] in groupedNodes.vals
  }

  /** Writes the groups named by `names`, the i-th at group index i. */
  function PlaceGroups(positions: map<string, Position>, groupedNodes: Obj<seq<Node>>, names: seq<string>): map<string, Position>
    requires AllGroups(groupedNodes, names)
  {
    if names == [] then positions
    else
      var n := |names| - 1;
      PlaceGroup(PlaceGroups(positions, groupedNodes, names[..n]), n, groupedNodes.vals[names[n]])
  }

  /** `calculateLayout` over `Object.keys(groupedNodes)`, starting from the stored positions. */
  function Layout(positions: map<string, Position>, groupedNodes: Obj<seq<Node>>): map<string, Position>
    requires Valid(groupedNodes)
  {
    PlaceGroups(positions, groupedNodes, OwnKeys(groupedNodes))
  }

  /** `nodesRef`: the positions the layout writes, keyed by node id. */
  class PositionsRef {
    var current: map<string, Position>

    /** `useRef({})` */
    constructor ()
      ensures current == map[]
    {
      current := map[];
    }

    method CalculateLayout(groupedNodes: Obj<seq<Node>>)
      requires Valid(groupedNodes)
      modifies this
      ensures current == Layout(old(current), groupedNodes)
    {
      var names := OwnKeys(groupedNodes);
      assert AllGroups(groupedNodes, names);
      ghost var start := current;
      var groupIndex := 0;
      while groupIndex < |names|
        invariant 0 <= groupIndex <= |names|
        invariant current == PlaceGroups(start, groupedNodes, names[..groupIndex])
      {
        var group := groupedNodes.vals[names[groupIndex]];
        PlaceGroupsStep(start, groupedNodes, names, groupIndex);
        PlaceGroupInto(groupIndex, group);
        groupIndex := groupIndex + 1;
      }
      assert names[..groupIndex] == names;
    }

    /** The inner `forEach` of `calculateLayout`: node `index` of group
        `groupIndex` goes to column `index % 4`, row `index / 4`. */
    method PlaceGroupInto(groupIndex: nat, group: seq<Node>)
      modifies this
      ensures current == PlaceGroup(old(current), groupIndex, group)
    {
      ghost var before := current;
      var index := 0;
      while index < |group|
        invariant 0 <= index <= |group|
        invariant current == PlaceGroup(before, groupIndex, group[..index])
      {
        var col := index % 4;
        var row := index / 4;
        PlaceGroupStep(before, groupIndex, group, index);
        var cell := Position(col * SpacingX + 200, groupIndex * GroupSpacingY + row * SpacingY);
        assert cell == Cell(groupIndex, index);
        current := current[group[index].id := cell];
        index := index + 1;
      }
      assert group[..index] == group;
    }
  }

  lemma {:induction false} PlaceGroupStep(positions: map<string, Position>, groupIndex: nat, group: seq<Node>, index: nat)
    requires index < |group|
    ensures PlaceGroup(positions, groupIndex, group[..index + 1]) ==
              PlaceGroup(positions, groupIndex, group[..index])[group[index].id := Cell(groupIndex, index)]
  {
    assert group[..index + 1][..index] == group[..index];
  }

  lemma {:induction false} PlaceGroupsStep(positions: map<string, Position>, groupedNodes: Obj<seq<Node>>, names: seq<string>, groupIndex: nat)
    requires AllGroups(groupedNodes, names) && groupIndex < |names|
    ensures PlaceGroups(positions, groupedNodes, names[..groupIndex + 1]) ==
              PlaceGroup(PlaceGroups(positions, groupedNodes, names[..groupIndex]), groupIndex, groupedNodes.vals[names[groupIndex]])
  {
    assert names[..groupIndex + 1][..groupIndex] == names[..groupIndex];
  }

  /** After one group is placed, a node of the group holds the cell of its last
      position in the group; any other id keeps what it had. */
  lemma {:induction false} PlaceGroupAt(positions: map<string, Position>, groupIndex: nat, group: seq<Node>, id: string)
    ensures id in PlaceGroup(positions, groupIndex, group) <==> id in positions || id in Seen(NodeIds(group))
    ensures id in Seen(NodeIds(group)) ==>
              PlaceGroup(positions, groupIndex, group)[id] == Cell(groupIndex, LastAt(NodeIds(group), id))
    ensures id !in Seen(NodeIds(group)) && id in positions ==>
              PlaceGroup(positions, groupIndex, group)[id] == positions[id]
  {
    if group != [] {
      var init := group[..|group| - 1];
      PlaceGroupAt(positions, groupIndex, init, id);
      var ks := NodeIds(group);
      assert NodeIds(init) == ks[..|ks| - 1];
      SeenInit(ks);
    }
  }

  /** The groups in `names` that contain `id`, as keys in group order. */
  function Holding(groupedNodes: Obj<seq<Node>>, names: seq<string>, id: string): (ks: seq<Option<string>>)
    requires AllGroups(groupedNodes, names)
    ensures |ks| == |names|
  {
    seq(|names|, i requires 0 <= i < |names| =>
      if id in Seen(NodeIds(groupedNodes.vals[names[i]])) then Some(id) else None)
  }

  lemma {:induction false} PlaceGroupsAt(positions: map<string, Position>, groupedNodes: Obj<seq<Node>>, names: seq<string>, id: string)
    requires AllGroups(groupedNodes, names)
    ensures id in PlaceGroups(positions, groupedNodes, names) <==> id in positions || id in Seen(Holding(groupedNodes, names, id))
    ensures id in Seen(Holding(groupedNodes, names, id)) ==>
              var g := LastAt(Holding(groupedNodes, names, id), id);
              PlaceGroups(positions, groupedNodes, names)[id] == Cell(g, LastAt(NodeIds(groupedNodes.vals[names[g]]), id))
    ensures id !in Seen(Holding(groupedNodes, names, id)) && id in positions ==>
              PlaceGroups(positions, groupedNodes, names)[id] == positions[id]
  {
    if names != [] {
      var n := |names| - 1;
      var init := names[..n];
      var hs := Holding(groupedNodes, names, id);
      PlaceGroupsAt(positions, groupedNodes, init, id);
      assert Holding(groupedNodes, init, id) == hs[..n];
      SeenInit(hs);
      PlaceGroupAt(PlaceGroups(positions, groupedNodes, init), n, groupedNodes.vals[names[n]], id);
    }
  }

  /** The layout: a grouped id holds the cell of its last occurrence, in the last
      group (in `Object.keys` order) that lists it; an ungrouped id keeps its
      stored position, and no other id gains one. */
  lemma {:induction false} LayoutAt(positions: map<string, Position>, groupedNodes: Obj<seq<Node>>, id: string)
    requires Valid(groupedNodes)
    ensures var hs := Holding(groupedNodes, OwnKeys(groupedNodes), id);
      && (id in Layout(positions, groupedNodes) <==> id in positions || id in Seen(hs))
      && (id in Seen(hs) ==>
            var g := LastAt(hs, id);
            Layout(positions, groupedNodes)[id] == Cell(g, LastAt(NodeIds(groupedNodes.vals[OwnKeys(groupedNodes)[g]]), id)))
      && (id !in Seen(hs) && id in positions ==> Layout(positions, groupedNodes)[id] == positions[id])
  {
    PlaceGroupsAt(positions, groupedNodes, OwnKeys(groupedNodes), id);
  }

  /** Laid out from the mount-time `{}`, exactly the ids of records with a
      non-empty processor name get a position. */
  lemma {:induction false} LayoutCoversGroupedRecords(data: seq<Record>, id: string)
    ensures id in Layout(map[], Build(data).groupedNodes) <==>
              exists j :: 0 <= j < |data| && Truthy(data[j].processorName) && data[j].entityId == id
  {
    var groups := GroupsOf(data);
    LayoutAt(map[], groups, id);
    if exists j :: 0 <= j < |data| && Truthy(data[j].processorName) && data[j].entityId == id {
      var j :| 0 <= j < |data| && Truthy(data[j].processorName) && data[j].entityId == id;
      GroupedRecordHeld(data, j);
    }
    if id in Seen(Holding(groups, OwnKeys(groups), id)) {
      HeldIdGrouped(data, id);
    }
  }

  lemma {:induction false} GroupedRecordHeld(data: seq<Record>, j: nat)
    requires j < |data| && Truthy(data[j].processorName)
    ensures var groups := GroupsOf(data);
      data[j].entityId in Seen(Holding(groups, OwnKeys(groups), data[j].entityId))
  {
    var groups := GroupsOf(data);
    var names := OwnKeys(groups);
    var id, p := data[j].entityId, data[j].processorName.value;
    var hs := Holding(groups, names, id);
    GroupsOfContents(data);
    MembersIds(data, p, id);
    assert id in Seen(NodeIds(Members(data, p)));
    assert p in names;
    var g :| 0 <= g < |names| && names[g] == p;
    assert hs[g] == Some(id);
  }

  lemma {:induction false} HeldIdGrouped(data: seq<Record>, id: string)
    requires var groups := GroupsOf(data); id in Seen(Holding(groups, OwnKeys(groups), id))
    ensures exists j :: 0 <= j < |data| && Truthy(data[j].processorName) && data[j].entityId == id
  {
    var groups := GroupsOf(data);
    var names := OwnKeys(groups);
    var hs := Holding(groups, names, id);
    var g :| 0 <= g < |hs| && hs[g].Some? && hs[g].value == id;
    var p := names[g];
    GroupsOfContents(data);
    MembersIds(data, p, id);
    var j :| 0 <= j < |data| && data[j].processorName == Some(p) && data[j].entityId == id;
    assert Truthy(data[j].processorName);
  }

  // ---------------------------------------------------------------------------
  // Collapsed flags

  /** The truth value of `collapsedNodes[id]`: the own entry if there is one,
      else an inherited Object.prototype member (truthy), else `undefined`. */
  function IsCollapsed(collapsed: map<string, bool>, id: string): (b: bool)
    ensures id in collapsed ==> b == collapsed[id]
    ensures id !in collapsed ==> (b <==> id in InheritedNames)
    ensures b ==> id in collapsed || id in InheritedNames
  {
    if id in collapsed then collapsed[id] else id in InheritedNames
  }

  /** The state at mount: every node id set to true (the assignment
      `initialState["__proto__"] = true` changes nothing). */
  function AllCollapsed(nodes: seq<Node>): (m: map<string, bool>)
    ensures forall id :: id in m <==> id != "__proto__" && exists k :: 0 <= k < |nodes| && nodes[k].id == id
    ensures forall id :: id in m ==> m[id]
    ensures forall k :: 0 <= k < |nodes| ==> IsCollapsed(m, nodes[k].id)
  {
    if nodes == [] then map[]
    else
      var prev, last := AllCollapsed(nodes[..|nodes| - 1]), nodes[|nodes| - 1];
      if last.id == "__proto__" then prev else prev[last.id := true]
  }

  /** The `useState` initializer for `collapsedNodes`. */
  method InitialCollapsedNodes(nodes: seq<Node>) returns (initialState: map<string, bool>)
    ensures initialState == AllCollapsed(nodes)
  {
    initialState := map[];
    var k := 0;
    while k < |nodes|
      invariant 0 <= k <= |nodes|
      invariant initialState == AllCollapsed(nodes[..k])
    {
      assert nodes[..k + 1][..k] == nodes[..k];
      if nodes[k].id != "__proto__" {
        initialState := initialState[nodes[k].id := true];
      }
      k := k + 1;
    }
    assert nodes[..k] == nodes;
  }

  /** `toggleCollapseNode`: `{...prev, [nodeId]: !prev[nodeId]}`. */
  function ToggleCollapseNode(collapsed: map<string, bool>, nodeId: string): (r: map<string, bool>)
    ensures IsCollapsed(r, nodeId) == !IsCollapsed(collapsed, nodeId)
    ensures forall id :: id != nodeId ==> (id in r <==> id in collapsed) && IsCollapsed(r, id) == IsCollapsed(collapsed, id)
    ensures forall id :: id != nodeId && id in collapsed ==> r[id] == collapsed[id]
    ensures nodeId in r
  {
    collapsed[nodeId := !IsCollapsed(collapsed, nodeId)]
  }

  /** Toggling twice restores every flag, and the whole map for an id that had an entry. */
  lemma {:induction false} ToggleTwice(collapsed: map<string, bool>, nodeId: string)
    ensures forall id :: IsCollapsed(ToggleCollapseNode(ToggleCollapseNode(collapsed, nodeId), nodeId), id) == IsCollapsed(collapsed, id)
    ensures nodeId in collapsed ==> ToggleCollapseNode(ToggleCollapseNode(collapsed, nodeId), nodeId) == collapsed
  {
  }

  /** An edge is drawn unless its source or its target reads as collapsed. */
  function EdgeDrawn(collapsed: map<string, bool>, e: Edge): (d: bool)
    ensures d <==> !IsCollapsed(collapsed, e.source) && !IsCollapsed(collapsed, e.target)
    ensures e.source in InheritedNames && e.source !in collapsed ==> !d
    ensures e.target in InheritedNames && e.target !in collapsed ==> !d
  {
    !(IsCollapsed(collapsed, e.source) || IsCollapsed(collapsed, e.target))
  }

  /** Right after mount no edge of the built graph is drawn: each edge touches a
      node, and every node starts collapsed. */
  lemma {:induction false} NothingDrawnAtMount(data: seq<Record>, e: Edge)
    requires e in Build(data).edges
    ensures !EdgeDrawn(AllCollapsed(Build(data).nodes), e)
  {
    var o := NodesOf(data);
    var nodes := Build(data).nodes;
    EdgeTouchesNode(data, e);
    NodesUnderOwnIds(data);
    ValuesOnePerKey(o);
    var id := if e.source in o.vals then e.source else e.target;
    var k :| 0 <= k < |nodes| && nodes[k].id == id;
    assert IsCollapsed(AllCollapsed(nodes), nodes[k].id);
  }

  /** Expanding both ends of an edge whose ends differ makes it drawn. */
  lemma {:induction false} ExpandBothEndsDraws(collapsed: map<string, bool>, e: Edge)
    requires e.source != e.target
    requires IsCollapsed(collapsed, e.source) && IsCollapsed(collapsed, e.target)
    ensures EdgeDrawn(ToggleCollapseNode(ToggleCollapseNode(collapsed, e.source), e.target), e)
  {
  }

  // ---------------------------------------------------------------------------
  // Selection and highlight

  /** A click on a node: deselects it when it is the selected node, else selects it. */
  function ClickNode(selectedNode: Option<string>, nodeId: string): (r: Option<string>)
    ensures r == None <==> selectedNode == Some(nodeId)
    ensures r != None ==> r == Some(nodeId)
  {
    if selectedNode == Some(nodeId) then None else Some(nodeId)
  }

  /** A node is highlighted when it is the hovered or the selected node; with
      nothing hovered or selected, as at mount, no node is. */
  function IsHighlighted(hoveredNode: Option<string>, selectedNode: Option<string>, nodeId: string): (h: bool)
    ensures h <==> hoveredNode == Some(nodeId) || selectedNode == Some(nodeId)
    ensures hoveredNode == None && selectedNode == None ==> !h
  {
    hoveredNode == Some(nodeId) || selectedNode == Some(nodeId)
  }

  /** Two clicks on a node restore the selection exactly when nothing or that node was selected. */
  lemma {:induction false} ClickTwice(selectedNode: Option<string>, nodeId: string)
    ensures ClickNode(ClickNode(selectedNode, nodeId), nodeId) == selectedNode <==>
              selectedNode == None || selectedNode == Some(nodeId)
  {
  }

  /** After a click on a node, it is highlighted iff it is hovered or was not
      the selected node; any other node is highlighted iff it is hovered. */
  lemma {:induction false} ClickHighlight(hoveredNode: Option<string>, selectedNode: Option<string>, nodeId: string, other: string)
    requires other != nodeId
    ensures IsHighlighted(hoveredNode, ClickNode(selectedNode, nodeId), nodeId) <==>
              hoveredNode == Some(nodeId) || selectedNode != Some(nodeId)
    ensures IsHighlighted(hoveredNode, ClickNode(selectedNode, nodeId), other) <==> hoveredNode == Some(other)
  {
  }
}
