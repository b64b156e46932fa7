# Lineage chart: graph builder and viewer state

A model of the core of a React lineage chart. `buildLineageGraph` turns a flat
list of lineage records into a graph. Each record has an entity id, parent ids,
child ids, a component name or type, and an optional processor name. The graph
has three parts:

- one node per entity id;
- one edge per declared parent or child reference;
- an index of nodes grouped by processor name.

The `LineageGraph` view then lays the grouped nodes out on a grid. It keeps
every node collapsed at mount and toggles single nodes. It selects or deselects
a node on click, and highlights the hovered or selected node. It hides every
edge that has a collapsed end.

Files:

- `js_object.dfy` (module `JsObject`): a plain JavaScript object used as a
  dictionary. It keeps its own keys in creation order, next to a value map.
  `Object.keys` and `Object.values` follow the ECMAScript abstract operation
  OrdinaryOwnPropertyKeys: array-index keys first, in ascending order, then the
  other keys in creation order. The module also holds JavaScript truthiness,
  `||`, and the names every object inherits from `Object.prototype`.
- `lineage_parser.dfy` (module `LineageParser`): the builder.
  - `BuildLineageGraph` is a method whose loops update local accumulators, as
    the source does.
  - It is proved equal to `Build`, whose functions `NodesOf`, `EdgesOf` and
    `GroupsOf` describe the accumulators after any prefix of the input.
  - Lemmas state what the nodes, edges and groups mean.
  - The builder as JavaScript actually runs it is modelled separately, for
    the two findings below.
- `lineage_graph.dfy` (module `LineageGraph`): the view's state rules.
  - `PositionsRef` is a class for `nodesRef`, whose `CalculateLayout` writes
    positions in place.
  - The mount-time collapsed map is built by a method with a loop.
  - Toggling, selection, highlight and the edge filter are functions.

The view reads `collapsedNodes[id]` as JavaScript does (`IsCollapsed`). An own
entry gives its value. A name inherited from `Object.prototype` reads as truthy.
Any other missing id reads as `undefined`.

## Model

| member | source | states |
|---|---|---|
| LineageParser.BuildLineageGraph | src/utils/lineageParser.jsx:3-36 | the loop's nodes, edges and groups equal `Build(data)`; empty input gives an empty graph |
| LineageParser.AppendRecordEdges | src/utils/lineageParser.jsx:27-32 | appends exactly the record's edges: its parent edges in order, then its child edges in order |
| LineageParser.PushToGroup | src/utils/lineageParser.jsx:23-24 | the in-loop group update (create when missing, then push) equals `AddToGroup` |
| LineageParser.MakeNode | src/utils/lineageParser.jsx:12-17 | node id is the entity id; name and label are `componentName \|\| componentType`; the name is truthy iff either field is; processor name is copied; children are empty |
| LineageParser.ParentEdge | src/utils/lineageParser.jsx:28 | the edge for a parent id runs from the parent to the entity; its id is `"<source>-<target>"` |
| LineageParser.ChildEdge | src/utils/lineageParser.jsx:31 | the edge for a child id runs from the entity to the child; its id is `"<source>-<target>"` |
| LineageParser.RecordEdges | src/utils/lineageParser.jsx:27-32 | a record contributes one edge per parent id plus one per child id |
| LineageParser.RecordEdgesAt | src/utils/lineageParser.jsx:27-32 | edge i is `parentIds[i]`→entity with id `"<parent>-<entity>"`; after the parent edges, edge i is entity→`childIds[i]` |
| LineageParser.RecordEdgesDeclared | src/utils/lineageParser.jsx:27-32 | an edge belongs to a record's edges iff the record declares it through a parent or a child id |
| LineageParser.ParentEdgeListed | src/utils/lineageParser.jsx:27-29 | every parent id's edge is among the record's edges |
| LineageParser.ChildEdgeListed | src/utils/lineageParser.jsx:30-32 | every child id's edge is among the record's edges |
| LineageParser.EdgeCount | src/utils/lineageParser.jsx:27-32 | the edge list has one edge per reference over all records; duplicates are kept |
| LineageParser.EdgesExactlyDeclared | src/utils/lineageParser.jsx:8-33 | an edge is in the result iff some record declares it; a dangling endpoint is kept |
| LineageParser.EdgeTouchesNode | src/utils/lineageParser.jsx:19-32 | every edge has the id of some node at its source or its target |
| LineageParser.NodesOfContents | src/utils/lineageParser.jsx:12-19 | the node map's keys are exactly the entity ids seen; each holds the node of the last record with that id; keys are in first-seen order |
| LineageParser.NodesOfKeys | src/utils/lineageParser.jsx:19 | an id is a key of the node map iff some record carries it |
| LineageParser.NodesOfValues | src/utils/lineageParser.jsx:19 | each key holds the node built from the last record with that id: a later duplicate overwrites |
| LineageParser.NodesUnderOwnIds | src/utils/lineageParser.jsx:13-19 | every node is stored under its own id |
| LineageParser.NodesOfOrder | src/utils/lineageParser.jsx:19 | node keys are ordered by the first record that carries each id |
| LineageParser.NodesOfKeysStep | src/utils/lineageParser.jsx:19 | one more record either keeps the key list or appends an id that was not seen before |
| LineageParser.NodesOnePerId | src/utils/lineageParser.jsx:19-35 | `Object.values(nodes)` has one node per distinct entity id, all ids distinct, and every seen id present |
| LineageParser.ValuesOnePerKey | src/utils/lineageParser.jsx:35 | the values of a map whose nodes sit under their own ids list each key's node once, with distinct ids |
| LineageParser.NodeIdsAreKeys | src/utils/lineageParser.jsx:35 | the k-th value is the node stored under the k-th enumerated key, and carries that key as its id |
| LineageParser.NodeKeysSeen | src/utils/lineageParser.jsx:19 | the set of node keys equals the set of entity ids seen |
| LineageParser.NodesInFirstSeenOrder | src/utils/lineageParser.jsx:19-35 | when no id is an array index, `Object.values` lists nodes in first-seen order |
| LineageParser.AddToGroup | src/utils/lineageParser.jsx:23-24 | a missing group is created at the end of the key list; the node is appended to the group's list; other groups are unchanged |
| LineageParser.GroupsOfContents | src/utils/lineageParser.jsx:22-25 | a group exists iff some record has that non-empty processor name; it lists those records' nodes in input order; group keys are in first-seen order |
| LineageParser.GroupsOfKeys | src/utils/lineageParser.jsx:22-23 | a name is a group key iff some record carries it as a truthy processor name |
| LineageParser.GroupsOfMembers | src/utils/lineageParser.jsx:22-24 | each group holds exactly the nodes of the records with that processor name, in input order |
| LineageParser.GroupsOfOrder | src/utils/lineageParser.jsx:23 | group keys are ordered by first occurrence of the processor name |
| LineageParser.GroupsInFirstSeenOrder | src/components/LineageGraph.jsx:33 | when no processor name is an array index, `Object.keys(groupedNodes)` is the creation order, so groups are enumerated in first-seen order |
| LineageParser.GroupsOfKeysStep | src/utils/lineageParser.jsx:23 | one more record either keeps the group names or appends a name not seen before |
| LineageParser.MembersAppend | src/utils/lineageParser.jsx:24 | a group's members over two input segments are the first segment's members followed by the second's |
| LineageParser.GroupsTotal | src/utils/lineageParser.jsx:22-25 | the group lists together hold one node per record with a truthy processor name |
| LineageParser.AddToGroupTotal | src/utils/lineageParser.jsx:24 | each push adds exactly one node to the total across groups |
| LineageParser.SumLengthsUpdate | src/utils/lineageParser.jsx:24 | replacing one group's list changes the total by the difference in length |
| LineageParser.StoreNodeAsWritten | src/utils/lineageParser.jsx:19 | as JavaScript runs it: a `"__proto__"` id leaves the object as it was; any other id stores the node as a key; every other key keeps its value |
| LineageParser.PushGroupAsWritten | src/utils/lineageParser.jsx:23-24 | as JavaScript runs it; a push that does not throw yields a well-formed object (when it throws: `PushGroupDiffers`) |
| LineageParser.AccumulateAsWritten | src/utils/lineageParser.jsx:8-33 | the loop as JavaScript runs it; a successful run yields well-formed objects |
| LineageParser.BuildAsWritten | src/utils/lineageParser.jsx:3-36 | the builder as JavaScript runs it throws iff some processor name is inherited from `Object.prototype`; otherwise its edges and groups are the corrected ones |
| LineageParser.PushGroupDiffers | src/utils/lineageParser.jsx:23-24 | the push as written throws iff the name is inherited and has no own group; otherwise it equals `AddToGroup` |
| LineageParser.AsWrittenThrowsIff | src/utils/lineageParser.jsx:22-24 | the builder as written throws iff some processor name is inherited from `Object.prototype`; otherwise its groups and edges are the corrected ones |
| LineageParser.AsWrittenStep | src/utils/lineageParser.jsx:22-24 | one more record after a successful prefix throws iff its processor name is inherited |
| LineageParser.NoInheritedGroups | src/utils/lineageParser.jsx:23 | with no inherited processor name, no group key is an inherited name |
| LineageParser.NodesAsWritten | src/utils/lineageParser.jsx:19 | with no `"__proto__"` id and no inherited processor name, the node map as written is the corrected one |
| LineageParser.NodesAsWrittenDropProto | src/utils/lineageParser.jsx:8-19 | without inherited processor names, the node object as written equals the corrected one built from the records whose id is not `"__proto__"` |
| LineageParser.AsWrittenAgrees | src/utils/lineageParser.jsx:3-36 | with neither quirk in the input, the builder as written returns `Build(data)` |
| LineageParser.InheritedProcessorNameThrows | src/utils/lineageParser.jsx:23-24 | the processor name "toString" makes the builder as written throw; the corrected builder files the node under "toString" |
| LineageParser.ProtoEntityIdLost | src/utils/lineageParser.jsx:19 | the entity id "__proto__": the builder as written returns no node; the corrected builder returns it |
| LineageParser.ProtoKept | src/utils/lineageParser.jsx:19 | a single record with id "__proto__" gives exactly its node in the corrected builder |
| JsObject.Or | src/utils/lineageParser.jsx:14-15 | `a \|\| b` is `a` when truthy, else `b`; it is truthy iff either operand is |
| JsObject.Put | src/utils/lineageParser.jsx:19 | an assignment updates the value; a new key goes last and an existing key keeps its place |
| JsObject.OwnKeys | src/components/LineageGraph.jsx:33 | `Object.keys` lists each own key exactly once |
| JsObject.EnumerationOrder | src/utils/lineageParser.jsx:35 | `Object.keys` is a permutation of the keys: array indices ascending first, the rest in creation order; without array indices it is creation order |
| JsObject.Values | src/utils/lineageParser.jsx:35 | `Object.values` gives the values in `Object.keys` order, one per key |
| LineageGraph.Cell | src/components/LineageGraph.jsx:36-41 | x is one of the four columns 200, 450, 700, 950; y is at least the group's offset `groupIndex * 400` |
| LineageGraph.CellInjectiveInGroup | src/components/LineageGraph.jsx:36-41 | two positions in one group never share a cell |
| LineageGraph.CellsDistinctBelow32 | src/components/LineageGraph.jsx:36-41 | while every group has at most 32 nodes, no two grouped positions share a cell |
| LineageGraph.RowsApart | src/components/LineageGraph.jsx:40 | below eight rows, distinct (group, row) pairs have distinct y |
| LineageGraph.CellsCoincideAcrossGroups | src/components/LineageGraph.jsx:36-41 | node 32 of the first group and node 0 of the sixth share a cell |
| LineageGraph.PositionsRef.constructor | src/components/LineageGraph.jsx:8 | `nodesRef` starts empty |
| LineageGraph.PositionsRef.CalculateLayout | src/components/LineageGraph.jsx:28-43 | the new positions are `Layout` of the old positions and the groups, walked in `Object.keys` order |
| LineageGraph.PositionsRef.PlaceGroupInto | src/components/LineageGraph.jsx:34-42 | node `index` of the group is written at column `index % 4`, row `index / 4`, in list order |
| LineageGraph.PlaceGroupStep | src/components/LineageGraph.jsx:38-41 | one more node of a group writes its cell over the previous map |
| LineageGraph.PlaceGroupsStep | src/components/LineageGraph.jsx:33-35 | one more group places its nodes over the previous map |
| LineageGraph.PlaceGroupAt | src/components/LineageGraph.jsx:35-42 | after a group is placed, a member holds the cell of its last index in the group; any other id keeps its position |
| LineageGraph.PlaceGroupsAt | src/components/LineageGraph.jsx:33-43 | after several groups, an id holds the cell from the last group listing it; ids in no group are untouched |
| LineageGraph.LayoutAt | src/components/LineageGraph.jsx:28-43 | a grouped id holds the cell of its last occurrence in the last group listing it; an ungrouped id keeps its stored position; no other id gains one |
| LineageParser.MembersIds | src/utils/lineageParser.jsx:22-24 | an id is in group p iff some record with processor name p carries it |
| LineageParser.MembersIdsSplit | src/utils/lineageParser.jsx:24 | a group's ids are the head record's id, if it belongs, followed by the tail's |
| LineageParser.MemberHasRecord | src/utils/lineageParser.jsx:24 | every id in group p comes from a record with processor name p |
| LineageParser.RecordIsMember | src/utils/lineageParser.jsx:24 | every record with processor name p puts its id in group p |
| LineageGraph.LayoutCoversGroupedRecords | src/components/LineageGraph.jsx:28-43 | laid out from the empty ref, exactly the ids of records with a truthy processor name get a position |
| LineageGraph.GroupedRecordHeld | src/components/LineageGraph.jsx:33-35 | a record with a truthy processor name has its id in some group |
| LineageGraph.HeldIdGrouped | src/components/LineageGraph.jsx:33-35 | an id found in some group comes from a record with a truthy processor name |
| LineageGraph.IsCollapsed | src/components/LineageGraph.jsx:188 | `collapsedNodes[id]` is the own entry when there is one; otherwise it is truthy iff the id names an `Object.prototype` member |
| LineageGraph.AllCollapsed | src/components/LineageGraph.jsx:10-16 | the mount state has an entry, true, for each node id except "__proto__"; every node reads as collapsed |
| LineageGraph.InitialCollapsedNodes | src/components/LineageGraph.jsx:10-16 | the loop's map equals `AllCollapsed(nodes)` |
| LineageGraph.ToggleCollapseNode | src/components/LineageGraph.jsx:51-56 | the toggled id reads as the negation of its old value and gains an own entry; every other id keeps its entry and its value |
| LineageGraph.ToggleTwice | src/components/LineageGraph.jsx:51-56 | toggling twice restores every flag, and restores the whole map when the id had an entry |
| LineageGraph.EdgeDrawn | src/components/LineageGraph.jsx:188 | an edge is drawn iff neither end reads as collapsed; an end named after an inherited member with no own entry hides it |
| LineageGraph.NothingDrawnAtMount | src/components/LineageGraph.jsx:188 | with the mount-time flags, no edge of the built graph is drawn |
| LineageGraph.ExpandBothEndsDraws | src/components/LineageGraph.jsx:188 | expanding both ends of a collapsed edge with distinct ends makes it drawn |
| LineageGraph.ClickNode | src/components/LineageGraph.jsx:164 | a click clears the selection iff the clicked node was selected; otherwise it selects that node |
| LineageGraph.ClickTwice | src/components/LineageGraph.jsx:164 | two clicks on a node restore the selection iff nothing or that node was selected |
| LineageGraph.IsHighlighted | src/components/LineageGraph.jsx:145 | a node is highlighted iff it is the hovered or the selected node; with nothing hovered or selected (the state at mount, lines 19-20) none is |
| LineageGraph.ClickHighlight | src/components/LineageGraph.jsx:145 | after a click a node is highlighted iff it is hovered or was not selected; other nodes are highlighted iff hovered |

## Left out

- Rendering: the JSX markup, the arrows drawn by `react-xarrows`, dragging by
  `react-draggable` and the node's "Expand"/"Collapse" label. These are not
  state rules.
- Auto-scroll and container growth while dragging (`handleDrag` and
  `stopAutoScrollAndExpand`). They depend on timers and the DOM.
- The `loading` flag and the `useEffect` scheduling around `calculateLayout`.
  `CalculateLayout` is modelled as one call on the stored positions.
- `src/App.jsx`, which only passes the sample data in. It is not part of this
  model.
- Hover enter and leave (lines 162-163) are plain assignments of the id or of
  `null`. `IsHighlighted` takes the hovered node as a parameter instead.
- `null` and `undefined` are one value, `None`, in the model. A JSON record
  with `"componentType": null` gives the node name `null` in the program,
  which the model does not tell apart from a missing field; the same holds for
  `data.processorName`.
- Record fields are strings or absent. Non-string values, such as a number id
  or a missing `parentIds` list, are not modelled.
- Edge ids are built by string concatenation. Whether two different edges can
  share an id is not stated.
- A node object is shared between `nodes` and a group in the source. The
  model's nodes are values, so this sharing is not represented.
- LineageGraph.PositionsRef.CalculateLayout: a node id "__proto__" is stored as
  an ordinary key. JavaScript would replace the prototype of `nodesRef.current`
  instead.
- LineageGraph.CellsDistinctBelow32: only exact cell coincidence is stated.
  Overlap of the 160-pixel node boxes is not modelled.
- LineageParser.RecordEdges: its own contract gives only the edge count. The
  edge contents are stated by `RecordEdgesAt` and `RecordEdgesDeclared`.

## Findings

| source | as written | input that shows it | evidently intended | confidence | as-written member | corrected member |
|---|---|---|---|---|---|---|
| src/utils/lineageParser.jsx:23-24 | `!groupedNodes[processorName]` also finds members inherited from `Object.prototype`. For such a name no group is created, and `push` is called on a function. | one record with processorName "toString" (or "constructor", "valueOf", ...) | the node is filed in a group named after the processor | not executed | LineageParser.InheritedProcessorNameThrows | LineageParser.GroupsOfContents |
| src/utils/lineageParser.jsx:19 | `nodes[entityId] = node` with entityId "__proto__" sets the object's prototype instead of adding an own property, so the node is missing from `Object.values(nodes)` | one record with entityId "__proto__" | every record's node appears in the node list | not executed | LineageParser.ProtoEntityIdLost | LineageParser.NodesOnePerId |
