/** `buildLineageGraph`: one ordered pass over flat lineage records that
    produces the node list, the edge list and the index of nodes grouped by
    processor name.

    The method `BuildLineageGraph` runs the pass with loops and local
    accumulators, as the source does; the functions `NodesOf`, `EdgesOf` and
    `GroupsOf` state what the accumulators hold after any prefix of the input,
    and the lemmas below state what the result means.
 */
module LineageParser {
  import opened JsObject

  /** One input record. The optional fields may be absent (`undefined`). */
  datatype Record = Record(
    entityId: string,
    parentIds: seq<string>,
    childIds: seq<string>,
    componentName: Option<string>,
    componentType: Option<string>,
    processorName: Option<string>)

  /** `data.label` (`label` is a reserved word in Dafny) and `data.processorName`. */
  datatype NodeData = NodeData(labelText: Option<string>, processorName: Option<string>)

  datatype Node = Node(id: string, name: Option<string>, data: NodeData, children: seq<Node>)

  datatype Edge = Edge(id: string, source: string, target: string)

  /** The builder's result: `Object.values(nodes)`, `edges` and the `groupedNodes` object. */
  datatype Graph = Graph(nodes: seq<Node>, edges: seq<Edge>, groupedNodes: Obj<seq<Node>>)

  /** The node built from one record. */
  function MakeNode(item: Record): (n: Node)
    ensures n.id == item.entityId
    ensures n.name == n.data.labelText
    ensures Truthy(item.componentName) ==> n.name == item.componentName
    ensures !Truthy(item.componentName) ==> n.name == item.componentType
    ensures Truthy(n.name) <==> Truthy(item.componentName) || Truthy(item.componentType)
    ensures n.data.processorName == item.processorName
    ensures n.children == []
  {
    var text := Or(item.componentName, item.componentType);
    Node(item.entityId, text, NodeData(text, item.processorName), [])
  }

  /** The edge for a parent id: id `"<parentId>-<entityId>"`, from the parent to the entity. */
  function ParentEdge(parentId: string, entityId: string): (e: Edge)
    ensures e.source == parentId && e.target == entityId
    ensures e.id == e.source + "-" + e.target
  {
    Edge(parentId + "-" + entityId, parentId, entityId)
  }

  /** The edge for a child id: id `"<entityId>-<childId>"`, from the entity to the child. */
  function ChildEdge(entityId: string, childId: string): (e: Edge)
    ensures e.source == entityId && e.target == childId
    ensures e.id == e.source + "-" + e.target
  {
    Edge(entityId + "-" + childId, entityId, childId)
  }

  function ParentEdges(item: Record): seq<Edge> {
    seq(|item.parentIds|, i requires 0 <= i < |item.parentIds| => ParentEdge(item.parentIds[i], item.entityId))
  }

  function ChildEdges(item: Record): seq<Edge> {
    seq(|item.childIds|, i requires 0 <= i < |item.childIds| => ChildEdge(item.entityId, item.childIds[i]))
  }

  /** The edges one record contributes: one per parent id, then one per child id. */
  function RecordEdges(item: Record): (es: seq<Edge>)
    ensures |es| == |item.parentIds| + |item.childIds|
  {
    ParentEdges(item) + ChildEdges(item)
  }

  // ---------------------------------------------------------------------------
  // What the accumulators hold after a prefix of the input

  function Last(data: seq<Record>): Record
    requires data != []
  {
    data[|data| - 1]
  }

  function Init(data: seq<Record>): seq<Record>
    requires data != []
  {
    data[..|data| - 1]
  }

  /** The `nodes` object: keyed by entity id, each write overwriting the last. */
  function NodesOf(data: seq<Record>): (o: Obj<Node>)
    ensures Valid(o)
  {
    if data == [] then Empty()
    else Put(NodesOf(Init(data)), Last(data).entityId, MakeNode(Last(data)))
  }

  function EdgesOf(data: seq<Record>): seq<Edge> {
    if data == [] then [] else EdgesOf(Init(data)) + RecordEdges(Last(data))
  }

  /** Lines 23-24 with own-property lookup: create the group when missing, then append. */
  function AddToGroup(o: Obj<seq<Node>>, p: string, n: Node): (r: Obj<seq<Node>>)
    requires Valid(o)
    ensures Valid(r)
    ensures r.keys == if p in o.vals then o.keys else o.keys + [p]
    ensures r.vals == o.vals[p := (if p in o.vals then o.vals[p] else []) + [n]]
  {
    var created := if p in o.vals then o else Put(o, p, []);
    Put(created, p, created.vals[p] + [n])
  }

  /** The `groupedNodes` object. */
  function GroupsOf(data: seq<Record>): (o: Obj<seq<Node>>)
    ensures Valid(o)
  {
    if data == [] then Empty()
    else
      var item := Last(data);
      if Truthy(item.processorName) then AddToGroup(GroupsOf(Init(data)), item.processorName.value, MakeNode(item))
      else GroupsOf(Init(data))
  }

  function Build(data: seq<Record>): Graph {
    Graph(Values(NodesOf(data)), EdgesOf(data), GroupsOf(data))
  }

  // ---------------------------------------------------------------------------
  // The builder

  method BuildLineageGraph(data: seq<Record>) returns (g: Graph)
    ensures g == Build(data)
    ensures data == [] ==> g.nodes == [] && g.edges == [] && g.groupedNodes.keys == []
  {
    var nodes: Obj<Node> := Empty();
    var edges: seq<Edge> := [];
    var groupedNodes: Obj<seq<Node>> := Empty();
    var i := 0;
    while i < |data|
      invariant 0 <= i <= |data|
      invariant nodes == NodesOf(data[..i])
      invariant edges == EdgesOf(data[..i])
      invariant groupedNodes == GroupsOf(data[..i])
    {
      var item := data[i];
      BuildStep(data, i);
      var node := MakeNode(item);
      nodes := Put(nodes, item.entityId, node);
      if Truthy(item.processorName) {
        groupedNodes := PushToGroup(groupedNodes, item.processorName.value, node);
      }
      edges := AppendRecordEdges(edges, item);
      i := i + 1;
    }
    assert data[..i] == data;
    g := Graph(Values(nodes), edges, groupedNodes);
  }

  /** Lines 23-24: create the group when it is missing, then push the node. */
  method PushToGroup(groupedNodes: Obj<seq<Node>>, p: string, node: Node) returns (r: Obj<seq<Node>>)
    requires Valid(groupedNodes)
    ensures r == AddToGroup(groupedNodes, p, node)
  {
    r := groupedNodes;
    if p !in r.vals {
      r := Put(r, p, []);
    }
    r := Put(r, p, r.vals[p] + [node]);
  }

  /** Lines 27-32: one edge per parent id, then one per child id, appended in list order. */
  method AppendRecordEdges(edges: seq<Edge>, item: Record) returns (r: seq<Edge>)
    ensures r == edges + RecordEdges(item)
  {
    r := edges;
    var j := 0;
    while j < |item.parentIds|
      invariant 0 <= j <= |item.parentIds|
      invariant r == edges + ParentEdges(item)[..j]
    {
      assert ParentEdges(item)[..j + 1] == ParentEdges(item)[..j] + [ParentEdge(item.parentIds[j], item.entityId)];
      r := r + [ParentEdge(item.parentIds[j], item.entityId)];
      j := j + 1;
    }
    assert ParentEdges(item)[..j] == ParentEdges(item);
    j := 0;
    while j < |item.childIds|
      invariant 0 <= j <= |item.childIds|
      invariant r == edges + ParentEdges(item) + ChildEdges(item)[..j]
    {
      assert ChildEdges(item)[..j + 1] == ChildEdges(item)[..j] + [ChildEdge(item.entityId, item.childIds[j])];
      r := r + [ChildEdge(item.entityId, item.childIds[j])];
      j := j + 1;
    }
    assert ChildEdges(item)[..j] == ChildEdges(item);
  }

  /** What one more record does to the accumulators. */
  lemma {:induction false} BuildStep(data: seq<Record>, i: nat)
    requires i < |data|
    ensures NodesOf(data[..i + 1]) == Put(NodesOf(data[..i]), data[i].entityId, MakeNode(data[i]))
    ensures EdgesOf(data[..i + 1]) == EdgesOf(data[..i]) + RecordEdges(data[i])
    ensures GroupsOf(data[..i + 1]) ==
              if Truthy(data[i].processorName)
              then AddToGroup(GroupsOf(data[..i]), data[i].processorName.value, MakeNode(data[i]))
              else GroupsOf(data[..i])
  {
    var done := data[..i + 1];
    assert done != [] && Init(done) == data[..i] && Last(done) == data[i];
  }

  // ---------------------------------------------------------------------------
  // Keys in input order: first and last occurrences

  /** The key each record writes: its id into `nodes`. */
  function IdKeys(data: seq<Record>): (ks: seq<Option<string>>)
    ensures |ks| == |data|
  {
    seq(|data|, i requires 0 <= i < |data| => Some(data[i].entityId))
  }

  /** The key each record appends under in `groupedNodes`, if its processor name is truthy. */
  function GroupKeys(data: seq<Record>): (ks: seq<Option<string>>)
    ensures |ks| == |data|
  {
    seq(|data|, i requires 0 <= i < |data| =>
      if Truthy(data[i].processorName) then data[i].processorName else None)
  }

  function Seen(ks: seq<Option<string>>): set<string> {
    set i | 0 <= i < |ks| && ks[i].Some? :: ks[i].value
  }

  lemma {:induction false} SeenInit(ks: seq<Option<string>>)
    requires ks != []
    ensures Seen(ks) == Seen(ks[..|ks| - 1]) + (if ks[|ks| - 1].Some? then {ks[|ks| - 1].value} else {})
  {
    var init := ks[..|ks| - 1];
    forall k | k in Seen(ks) ensures k in Seen(init) || (ks[|ks| - 1].Some? && k == ks[|ks| - 1].value) {
      var i :| 0 <= i < |ks| && ks[i].Some? && ks[i].value == k;
      if i < |ks| - 1 { assert init[i] == ks[i]; }
    }
    forall k | k in Seen(init) ensures k in Seen(ks) {
      var i :| 0 <= i < |init| && init[i].Some? && init[i].value == k;
      assert ks[i] == init[i];
    }
  }

  /** The index of the first occurrence of `k`. */
  function FirstAt(ks: seq<Option<string>>, k: string): (j: nat)
    requires k in Seen(ks)
    ensures j < |ks| && ks[j] == Some(k)
    ensures forall i :: 0 <= i < j ==> ks[i] != Some(k)
  {
    SeenInit(ks);
    var init := ks[..|ks| - 1];
    if k in Seen(init) then FirstAt(init, k) else |ks| - 1
  }

  /** The index of the last occurrence of `k`. */
  function LastAt(ks: seq<Option<string>>, k: string): (j: nat)
    requires k in Seen(ks)
    ensures j < |ks| && ks[j] == Some(k)
    ensures forall i :: j < i < |ks| ==> ks[i] != Some(k)
  {
    SeenInit(ks);
    if ks[|ks| - 1] == Some(k) then |ks| - 1 else LastAt(ks[..|ks| - 1], k)
  }

  lemma {:induction false} InitKeys(data: seq<Record>)
    requires data != []
    ensures IdKeys(Init(data)) == IdKeys(data)[..|data| - 1]
    ensures GroupKeys(Init(data)) == GroupKeys(data)[..|data| - 1]
  {
  }

  /** Appending a key not seen before keeps a key list in first-seen order. */
  lemma {:induction false} FirstSeenStep(ks: seq<Option<string>>, before: seq<string>, after: seq<string>)
    requires ks != []
    requires forall i :: 0 <= i < |before| ==> before[i] in Seen(ks[..|ks| - 1])
    requires forall i, j :: 0 <= i < j < |before| ==>
               FirstAt(ks[..|ks| - 1], before[i]) < FirstAt(ks[..|ks| - 1], before[j])
    requires after == before || (ks[|ks| - 1].Some? && ks[|ks| - 1].value !in Seen(ks[..|ks| - 1])
                                 && after == before + [ks[|ks| - 1].value])
    ensures forall i :: 0 <= i < |after| ==> after[i] in Seen(ks)
    ensures forall i, j :: 0 <= i < j < |after| ==> FirstAt(ks, after[i]) < FirstAt(ks, after[j])
  {
    var init := ks[..|ks| - 1];
    SeenInit(ks);
    forall i | 0 <= i < |before| ensures FirstAt(ks, before[i]) == FirstAt(init, before[i]) {
    }
    forall i, j | 0 <= i < j < |after| ensures FirstAt(ks, after[i]) < FirstAt(ks, after[j]) {
      if j == |before| {
        assert after[i] == before[i];
      } else {
        assert after[i] == before[i] && after[j] == before[j];
      }
    }
  }

  // ---------------------------------------------------------------------------
  // Properties of the node map

  lemma {:induction false} NodesOfContents(data: seq<Record>)
    ensures forall id :: id in NodesOf(data).vals <==> id in Seen(IdKeys(data))
    ensures forall id :: id in NodesOf(data).vals ==>
              NodesOf(data).vals[id] == MakeNode(data[LastAt(IdKeys(data), id)])
    ensures forall i, j :: 0 <= i < j < |NodesOf(data).keys| ==>
              FirstAt(IdKeys(data), NodesOf(data).keys[i]) < FirstAt(IdKeys(data), NodesOf(data).keys[j])
  {
    NodesOfKeys(data);
    NodesOfValues(data);
    NodesOfOrder(data);
  }

  lemma {:induction false} NodesOfKeys(data: seq<Record>)
    ensures forall id :: id in NodesOf(data).vals <==> id in Seen(IdKeys(data))
  {
    if data != [] {
      NodesOfKeys(Init(data));
      InitKeys(data);
      SeenInit(IdKeys(data));
    }
  }

  lemma {:induction false} NodesOfValues(data: seq<Record>)
    ensures forall id :: id in NodesOf(data).vals ==>
              (id in Seen(IdKeys(data)) && NodesOf(data).vals[id] == MakeNode(data[LastAt(IdKeys(data), id)]))
  {
    NodesOfKeys(data);
    if data != [] {
      var init, item := Init(data), Last(data);
      NodesOfValues(init);
      InitKeys(data);
      var ks := IdKeys(data);
      assert ks[|ks| - 1] == Some(item.entityId);
      forall id | id in NodesOf(data).vals
        ensures NodesOf(data).vals[id] == MakeNode(data[LastAt(ks, id)])
      {
        if id != item.entityId {
          assert LastAt(ks, id) == LastAt(IdKeys(init), id);
        }
      }
    }
  }

  /** Every node sits under its own id. */
  lemma {:induction false} NodesUnderOwnIds(data: seq<Record>)
    ensures forall id :: id in NodesOf(data).vals ==> NodesOf(data).vals[id].id == id
  {
    if data != [] {
      NodesUnderOwnIds(Init(data));
    }
  }

  lemma {:induction false} NodesOfOrder(data: seq<Record>)
    ensures forall i :: 0 <= i < |NodesOf(data).keys| ==> NodesOf(data).keys[i] in Seen(IdKeys(data))
    ensures forall i, j :: 0 <= i < j < |NodesOf(data).keys| ==>
              FirstAt(IdKeys(data), NodesOf(data).keys[i]) < FirstAt(IdKeys(data), NodesOf(data).keys[j])
  {
    if data != [] {
      var init := Init(data);
      var ks := IdKeys(data);
      NodesOfOrder(init);
      InitKeys(data);
      assert IdKeys(init) == ks[..|ks| - 1];
      NodesOfKeysStep(data);
      FirstSeenStep(ks, NodesOf(init).keys, NodesOf(data).keys);
    }
  }

  /** One more record leaves the node keys as they were or appends an id not seen before. */
  lemma {:induction false} NodesOfKeysStep(data: seq<Record>)
    requires data != []
    ensures var ks, before := IdKeys(data), NodesOf(Init(data)).keys;
      || NodesOf(data).keys == before
      || (ks[|ks| - 1].Some? && ks[|ks| - 1].value !in Seen(ks[..|ks| - 1])
          && NodesOf(data).keys == before + [ks[|ks| - 1].value])
  {
    NodesOfKeys(Init(data));
    InitKeys(data);
    var ks := IdKeys(data);
    assert ks[|ks| - 1] == Some(Last(data).entityId);
  }

  lemma {:induction false} DistinctSize(s: seq<string>)
    requires Distinct(s)
    ensures |set k | k in s| == |s|
  {
    if s != [] {
      var init := s[..|s| - 1];
      DistinctSize(init);
      assert (set k | k in s) == (set k | k in init) + {s[|s| - 1]};
    }
  }

  /** Object.values(nodes) holds one node per distinct entity id. */
  lemma {:induction false} NodesOnePerId(data: seq<Record>)
    ensures |Build(data).nodes| == |Seen(IdKeys(data))|
    ensures forall k, l :: 0 <= k < l < |Build(data).nodes| ==> Build(data).nodes[k].id != Build(data).nodes[l].id
    ensures forall id :: id in Seen(IdKeys(data)) <==> exists k :: 0 <= k < |Build(data).nodes| && Build(data).nodes[k].id == id
  {
    var o := NodesOf(data);
    assert Build(data).nodes == Values(o);
    NodesUnderOwnIds(data);
    NodesOfKeys(data);
    NodeKeysSeen(data);
    ValuesOnePerKey(o);
  }

  lemma {:induction false} NodeKeysSeen(data: seq<Record>)
    ensures (set k | k in NodesOf(data).keys) == Seen(IdKeys(data))
  {
    NodesOfKeys(data);
  }

  /** A node map whose every node sits under its own id lists each key once. */
  lemma {:induction false} ValuesOnePerKey(o: Obj<Node>)
    requires Valid(o)
    requires forall id :: id in o.vals ==> o.vals[id].id == id
    ensures |Values(o)| == |set k | k in o.keys|
    ensures forall k, l :: 0 <= k < l < |Values(o)| ==> Values(o)[k].id != Values(o)[l].id
    ensures forall id :: id in o.vals <==> exists k :: 0 <= k < |Values(o)| && Values(o)[k].id == id
  {
    var nodes, ks := Values(o), OwnKeys(o);
    NodeIdsAreKeys(o);
    DistinctSize(o.keys);
    forall id | id in o.vals
      ensures exists k :: 0 <= k < |nodes| && nodes[k].id == id
    {
      assert id in ks;
      var k :| 0 <= k < |ks| && ks[k] == id;
      assert nodes[k].id == id;
    }
  }

  /** In the node map every node sits under its own id. */
  lemma {:induction false} NodeIdsAreKeys(o: Obj<Node>)
    requires Valid(o)
    requires forall id :: id in o.vals ==> o.vals[id].id == id
    ensures forall k :: 0 <= k < |Values(o)| ==> Values(o)[k] == o.vals[OwnKeys(o)[k]] && Values(o)[k].id == OwnKeys(o)[k]
  {
  }

  /** When no entity id is an array index, Object.values lists the nodes in
      the order their ids were first seen. */
  lemma {:induction false} NodesInFirstSeenOrder(data: seq<Record>)
    requires forall j :: 0 <= j < |data| ==> !IsArrayIndex(data[j].entityId)
    ensures forall k, l :: 0 <= k < l < |Build(data).nodes| ==>
              && Build(data).nodes[k].id in Seen(IdKeys(data))
              && Build(data).nodes[l].id in Seen(IdKeys(data))
              && FirstAt(IdKeys(data), Build(data).nodes[k].id) < FirstAt(IdKeys(data), Build(data).nodes[l].id)
  {
    var o := NodesOf(data);
    var ks := IdKeys(data);
    NodesOfOrder(data);
    NodesUnderOwnIds(data);
    NodeIdsAreKeys(o);
    forall i | 0 <= i < |o.keys| ensures !IsArrayIndex(o.keys[i]) {
      var j := FirstAt(ks, o.keys[i]);
      assert data[j].entityId == o.keys[i];
    }
    EnumerationOrder(o);
    assert OwnKeys(o) == o.keys;
    var nodes := Values(o);
    assert Build(data).nodes == nodes;
    forall k, l | 0 <= k < l < |nodes|
      ensures && nodes[k].id in Seen(ks) && nodes[l].id in Seen(ks)
              && FirstAt(ks, nodes[k].id) < FirstAt(ks, nodes[l].id)
    {
      assert nodes[k].id == o.keys[k] && nodes[l].id == o.keys[l];
    }
  }

  // ---------------------------------------------------------------------------
  // Properties of the edge list

  /** The number of parent and child references over all records. */
  function RefCount(data: seq<Record>): nat {
    if data == [] then 0 else RefCount(Init(data)) + |Last(data).parentIds| + |Last(data).childIds|
  }

  /** One edge per reference: no deduplication. */
  lemma {:induction false} EdgeCount(data: seq<Record>)
    ensures |EdgesOf(data)| == RefCount(data)
  {
    if data != [] {
      EdgeCount(Init(data));
    }
  }

  /** `e` is one of the edges `item` declares through a parent or a child id. */
  predicate Declares(item: Record, e: Edge) {
    || (exists i :: 0 <= i < |item.parentIds| && e == ParentEdge(item.parentIds[i], item.entityId))
    || (exists i :: 0 <= i < |item.childIds| && e == ChildEdge(item.entityId, item.childIds[i]))
  }

  lemma {:induction false} RecordEdgesDeclared(item: Record, e: Edge)
    ensures e in RecordEdges(item) <==> Declares(item, e)
  {
    if e in RecordEdges(item) {
      RecordEdgeDeclared(item, e);
    }
    if Declares(item, e) {
      DeclaredRecordEdge(item, e);
    }
  }

  /** The record's edges: one per parent id, in order, then one per child id, in order. */
  lemma {:induction false} RecordEdgesAt(item: Record)
    ensures forall i :: 0 <= i < |item.parentIds| ==>
              RecordEdges(item)[i] == ParentEdge(item.parentIds[i], item.entityId)
    ensures forall i :: 0 <= i < |item.childIds| ==>
              RecordEdges(item)[|item.parentIds| + i] == ChildEdge(item.entityId, item.childIds[i])
  {
  }

  lemma {:induction false} RecordEdgeDeclared(item: Record, e: Edge)
    requires e in RecordEdges(item)
    ensures Declares(item, e)
  {
    var es, np := RecordEdges(item), |item.parentIds|;
    RecordEdgesAt(item);
    var k :| 0 <= k < |es| && es[k] == e;
    if k < np {
      assert e == ParentEdge(item.parentIds[k], item.entityId);
    } else {
      var i := k - np;
      assert es[np + i] == e;
      assert e == ChildEdge(item.entityId, item.childIds[i]);
    }
  }

  lemma {:induction false} DeclaredRecordEdge(item: Record, e: Edge)
    requires Declares(item, e)
    ensures e in RecordEdges(item)
  {
    if exists i :: 0 <= i < |item.parentIds| && e == ParentEdge(item.parentIds[i], item.entityId) {
      var i :| 0 <= i < |item.parentIds| && e == ParentEdge(item.parentIds[i], item.entityId);
      ParentEdgeListed(item, i);
    } else {
      var i :| 0 <= i < |item.childIds| && e == ChildEdge(item.entityId, item.childIds[i]);
      ChildEdgeListed(item, i);
    }
  }

  lemma {:induction false} ParentEdgeListed(item: Record, i: nat)
    requires i < |item.parentIds|
    ensures ParentEdge(item.parentIds[i], item.entityId) in RecordEdges(item)
  {
    RecordEdgesAt(item);
    assert RecordEdges(item)[i] == ParentEdge(item.parentIds[i], item.entityId);
  }

  lemma {:induction false} ChildEdgeListed(item: Record, i: nat)
    requires i < |item.childIds|
    ensures ChildEdge(item.entityId, item.childIds[i]) in RecordEdges(item)
  {
    RecordEdgesAt(item);
    assert RecordEdges(item)[|item.parentIds| + i] == ChildEdge(item.entityId, item.childIds[i]);
  }

  /** Every edge comes from a reference some record declares, and every declared
      reference yields an edge, whether or not its other end is any record's id. */
  lemma {:induction false} EdgesExactlyDeclared(data: seq<Record>, e: Edge)
    ensures e in EdgesOf(data) <==> exists j :: 0 <= j < |data| && Declares(data[j], e)
  {
    if data != [] {
      var init := Init(data);
      EdgesExactlyDeclared(init, e);
      RecordEdgesDeclared(Last(data), e);
      if exists j :: 0 <= j < |data| && Declares(data[j], e) {
        var j :| 0 <= j < |data| && Declares(data[j], e);
        if j < |data| - 1 {
          assert init[j] == data[j];
        }
      }
      if exists j :: 0 <= j < |init| && Declares(init[j], e) {
        var j :| 0 <= j < |init| && Declares(init[j], e);
        assert data[j] == init[j];
      }
    }
  }

  /** Each edge has a record's own id at one end, so it touches a node. */
  lemma {:induction false} EdgeTouchesNode(data: seq<Record>, e: Edge)
    requires e in EdgesOf(data)
    ensures e.source in NodesOf(data).vals || e.target in NodesOf(data).vals
  {
    EdgesExactlyDeclared(data, e);
    var j :| 0 <= j < |data| && Declares(data[j], e);
    var id := data[j].entityId;
    assert e.source == id || e.target == id;
    assert IdKeys(data)[j] == Some(id);
    assert id in Seen(IdKeys(data));
    NodesOfKeys(data);
  }

  // ---------------------------------------------------------------------------
  // Properties of the group index

  /** The nodes of the records whose processor name is `p`, in input order. */
  function Members(data: seq<Record>, p: string): seq<Node> {
    if data == [] then []
    else (if data[0].processorName == Some(p) then [MakeNode(data[0])] else []) + Members(data[1..], p)
  }

  lemma {:induction false} MembersAppend(a: seq<Record>, b: seq<Record>, p: string)
    ensures Members(a + b, p) == Members(a, p) + Members(b, p)
  {
    if a != [] {
      MembersAppend(a[1..], b, p);
      assert (a + b)[1..] == a[1..] + b;
    } else {
      assert a + b == b;
    }
  }

  /** The ids of a node list, as keys in list order. */
  function NodeIds(group: seq<Node>): (ks: seq<Option<string>>)
    ensures |ks| == |group|
  {
    seq(|group|, i requires 0 <= i < |group| => Some(group[i].id))
  }

  /** An id is in group `p` iff some record with processor name `p` carries it. */
  lemma {:induction false} MembersIds(data: seq<Record>, p: string, id: string)
    ensures id in Seen(NodeIds(Members(data, p))) <==>
              exists j :: 0 <= j < |data| && data[j].processorName == Some(p) && data[j].entityId == id
  {
    if id in Seen(NodeIds(Members(data, p))) {
      MemberHasRecord(data, p, id);
    }
    if exists j :: 0 <= j < |data| && data[j].processorName == Some(p) && data[j].entityId == id {
      var j :| 0 <= j < |data| && data[j].processorName == Some(p) && data[j].entityId == id;
      RecordIsMember(data, p, j);
    }
  }

  /** The head record's node comes first, then the tail's. */
  lemma {:induction false} MembersIdsSplit(data: seq<Record>, p: string)
    requires data != []
    ensures var hit := data[0].processorName == Some(p);
      NodeIds(Members(data, p)) == (if hit then [Some(data[0].entityId)] else []) + NodeIds(Members(data[1..], p))
  {
    var hit := data[0].processorName == Some(p);
    var head := if hit then [MakeNode(data[0])] else [];
    assert Members(data, p) == head + Members(data[1..], p);
  }

  lemma {:induction false} MemberHasRecord(data: seq<Record>, p: string, id: string)
    requires id in Seen(NodeIds(Members(data, p)))
    ensures exists j :: 0 <= j < |data| && data[j].processorName == Some(p) && data[j].entityId == id
  {
    var tail := data[1..];
    MembersIdsSplit(data, p);
    var ks, tk := NodeIds(Members(data, p)), NodeIds(Members(tail, p));
    var hit := data[0].processorName == Some(p);
    var i :| 0 <= i < |ks| && ks[i].Some? && ks[i].value == id;
    if hit && i == 0 {
      assert data[0].entityId == id;
    } else {
      var n := if hit then 1 else 0;
      assert tk[i - n] == ks[i];
      MemberHasRecord(tail, p, id);
      var j :| 0 <= j < |tail| && tail[j].processorName == Some(p) && tail[j].entityId == id;
      assert data[j + 1] == tail[j];
    }
  }

  lemma {:induction false} RecordIsMember(data: seq<Record>, p: string, j: nat)
    requires j < |data| && data[j].processorName == Some(p)
    ensures data[j].entityId in Seen(NodeIds(Members(data, p)))
  {
    MembersIdsSplit(data, p);
    var ks := NodeIds(Members(data, p));
    if j == 0 {
      assert ks[0] == Some(data[0].entityId);
    } else {
      var tail := data[1..];
      assert tail[j - 1] == data[j];
      RecordIsMember(tail, p, j - 1);
      var tk := NodeIds(Members(tail, p));
      var i :| 0 <= i < |tk| && tk[i].Some? && tk[i].value == data[j].entityId;
      var n := if data[0].processorName == Some(p) then 1 else 0;
      assert ks[n + i] == tk[i];
    }
  }

  /** A name is a group key iff some record carries it as a non-empty processor name. */
  lemma {:induction false} GroupsOfKeys(data: seq<Record>)
    ensures forall p :: p in GroupsOf(data).vals <==> p in Seen(GroupKeys(data))
  {
    if data != [] {
      GroupsOfKeys(Init(data));
      InitKeys(data);
      SeenInit(GroupKeys(data));
    }
  }

  /** A key is a group iff some record carries it as a non-empty processor name;
      the group lists exactly those records' nodes, in input order (a repeated id
      appears again). Group keys are listed in first-seen order. */
  lemma {:induction false} GroupsOfContents(data: seq<Record>)
    ensures forall p :: p in GroupsOf(data).vals <==> p in Seen(GroupKeys(data))
    ensures forall p :: p in GroupsOf(data).vals <==> p != "" && Members(data, p) != []
    ensures forall p :: p in GroupsOf(data).vals ==> GroupsOf(data).vals[p] == Members(data, p)
    ensures forall i, j :: 0 <= i < j < |GroupsOf(data).keys| ==>
              FirstAt(GroupKeys(data), GroupsOf(data).keys[i]) < FirstAt(GroupKeys(data), GroupsOf(data).keys[j])
  {
    GroupsOfKeys(data);
    GroupsOfMembers(data);
    GroupsOfOrder(data);
  }

  lemma {:induction false} GroupsOfMembers(data: seq<Record>)
    ensures forall p :: p in GroupsOf(data).vals <==> p != "" && Members(data, p) != []
    ensures forall p :: p in GroupsOf(data).vals ==> GroupsOf(data).vals[p] == Members(data, p)
  {
    if data != [] {
      var init, item := Init(data), Last(data);
      GroupsOfMembers(init);
      assert data == init + [item];
      forall p ensures Members(data, p) == Members(init, p) + (if item.processorName == Some(p) then [MakeNode(item)] else []) {
        MembersAppend(init, [item], p);
      }
    }
  }

  lemma {:induction false} GroupsOfOrder(data: seq<Record>)
    ensures forall i :: 0 <= i < |GroupsOf(data).keys| ==> GroupsOf(data).keys[i] in Seen(GroupKeys(data))
    ensures forall i, j :: 0 <= i < j < |GroupsOf(data).keys| ==>
              FirstAt(GroupKeys(data), GroupsOf(data).keys[i]) < FirstAt(GroupKeys(data), GroupsOf(data).keys[j])
  {
    if data != [] {
      var init := Init(data);
      var ks := GroupKeys(data);
      GroupsOfOrder(init);
      InitKeys(data);
      assert GroupKeys(init) == ks[..|ks| - 1];
      GroupsOfKeysStep(data);
      FirstSeenStep(ks, GroupsOf(init).keys, GroupsOf(data).keys);
    }
  }

  /** When no processor name is an array index, `Object.keys(groupedNodes)` is
      the creation order, so the groups are enumerated in first-seen order. */
  lemma {:induction false} GroupsInFirstSeenOrder(data: seq<Record>)
    requires forall j :: 0 <= j < |data| && Truthy(data[j].processorName) ==> !IsArrayIndex(data[j].processorName.value)
    ensures OwnKeys(GroupsOf(data)) == GroupsOf(data).keys
    ensures forall i :: 0 <= i < |OwnKeys(GroupsOf(data))| ==> OwnKeys(GroupsOf(data))[i] in Seen(GroupKeys(data))
    ensures forall i, j :: 0 <= i < j < |OwnKeys(GroupsOf(data))| ==>
              FirstAt(GroupKeys(data), OwnKeys(GroupsOf(data))[i]) < FirstAt(GroupKeys(data), OwnKeys(GroupsOf(data))[j])
  {
    var o := GroupsOf(data);
    var ks := GroupKeys(data);
    GroupsOfOrder(data);
    forall i | 0 <= i < |o.keys| ensures !IsArrayIndex(o.keys[i]) {
      var j := FirstAt(ks, o.keys[i]);
      assert ks[j] == Some(o.keys[i]);
    }
    EnumerationOrder(o);
  }

  /** One more record leaves the group names as they were or appends a name not seen before. */
  lemma {:induction false} GroupsOfKeysStep(data: seq<Record>)
    requires data != []
    ensures var ks, before := GroupKeys(data), GroupsOf(Init(data)).keys;
      || GroupsOf(data).keys == before
      || (ks[|ks| - 1].Some? && ks[|ks| - 1].value !in Seen(ks[..|ks| - 1])
          && GroupsOf(data).keys == before + [ks[|ks| - 1].value])
  {
    var init, item := Init(data), Last(data);
    GroupsOfKeys(init);
    InitKeys(data);
    var ks := GroupKeys(data);
    assert ks[|ks| - 1] == if Truthy(item.processorName) then item.processorName else None;
  }

  /** The number of records with a non-empty processor name. */
  function GroupedCount(data: seq<Record>): nat {
    if data == [] then 0 else GroupedCount(Init(data)) + (if Truthy(Last(data).processorName) then 1 else 0)
  }

  /** The total length of the lists stored under `ks`. */
  function SumLengths(ks: seq<string>, m: map<string, seq<Node>>): nat
    requires forall i :: 0 <= i < |ks| ==> ks[i] in m
  {
    if ks == [] then 0 else SumLengths(ks[..|ks| - 1], m) + |m[ks[|ks| - 1]]|
  }

  lemma {:induction false} SumLengthsFrame(ks: seq<string>, m: map<string, seq<Node>>, p: string, v: seq<Node>)
    requires forall i :: 0 <= i < |ks| ==> ks[i] in m && ks[i] != p
    ensures SumLengths(ks, m[p := v]) == SumLengths(ks, m)
  {
    if ks != [] {
      SumLengthsFrame(ks[..|ks| - 1], m, p, v);
    }
  }

  lemma {:induction false} SumLengthsUpdate(ks: seq<string>, m: map<string, seq<Node>>, p: string, v: seq<Node>)
    requires Distinct(ks) && p in ks && p in m
    requires forall i :: 0 <= i < |ks| ==> ks[i] in m
    ensures SumLengths(ks, m[p := v]) == SumLengths(ks, m) - |m[p]| + |v|
  {
    var init := ks[..|ks| - 1];
    if ks[|ks| - 1] == p {
      SumLengthsFrame(init, m, p, v);
    } else {
      assert p in init;
      SumLengthsUpdate(init, m, p, v);
    }
  }

  /** Appending a node to a group adds one to the total. */
  lemma {:induction false} AddToGroupTotal(o: Obj<seq<Node>>, p: string, n: Node)
    requires Valid(o)
    ensures var r := AddToGroup(o, p, n); SumLengths(r.keys, r.vals) == SumLengths(o.keys, o.vals) + 1
  {
    var r := AddToGroup(o, p, n);
    var v := (if p in o.vals then o.vals[p] else []) + [n];
    if p in o.vals {
      SumLengthsUpdate(o.keys, o.vals, p, v);
    } else {
      SumLengthsFrame(o.keys, o.vals, p, v);
      assert r.keys[..|o.keys|] == o.keys;
    }
  }

  /** The group lists together hold one node per record with a non-empty processor name. */
  lemma {:induction false} GroupsTotal(data: seq<Record>)
    ensures SumLengths(GroupsOf(data).keys, GroupsOf(data).vals) == GroupedCount(data)
  {
    if data != [] {
      var init, item := Init(data), Last(data);
      GroupsTotal(init);
      if Truthy(item.processorName) {
        AddToGroupTotal(GroupsOf(init), item.processorName.value, MakeNode(item));
      }
    }
  }

  // ---------------------------------------------------------------------------
  // The builder as written, with JavaScript's inherited properties

  /** Line 19 as JavaScript runs it: `nodes["__proto__"] = node` replaces the
      object's prototype and creates no own property. */
  function StoreNodeAsWritten(nodes: Obj<Node>, id: string, n: Node): (r: Obj<Node>)
    requires Valid(nodes)
    ensures Valid(r)
    ensures id in r.vals <==> id != "__proto__" || id in nodes.vals
    ensures id != "__proto__" ==> r.vals[id] == n
    ensures forall k :: k != id ==> (k in r.vals <==> k in nodes.vals)
    ensures forall k :: k != id && k in nodes.vals ==> r.vals[k] == nodes.vals[k]
    ensures id == "__proto__" ==> r == nodes
  {
    if id == "__proto__" then nodes else Put(nodes, id, n)
  }

  /** Lines 23-24 as JavaScript runs them: the lookup also finds the members
      inherited from Object.prototype, which are truthy, so no group is created
      for such a name, and `push` is then not a function. */
  function PushGroupAsWritten(groups: Obj<seq<Node>>, p: string, n: Node): (r: Outcome<Obj<seq<Node>>>)
    requires Valid(groups)
    ensures r.Ok? ==> Valid(r.value)
  {
    var created := if p in groups.vals || p in InheritedNames then groups else Put(groups, p, []);
    if p in created.vals then Ok(Put(created, p, created.vals[p] + [n]))
    else Thrown("groupedNodes[processorName].push is not a function")
  }

  datatype Accumulators = Accumulators(nodes: Obj<Node>, edges: seq<Edge>, groupedNodes: Obj<seq<Node>>)

  function AccumulateAsWritten(data: seq<Record>): (r: Outcome<Accumulators>)
    ensures r.Ok? ==> Valid(r.value.nodes) && Valid(r.value.groupedNodes)
  {
    if data == [] then Ok(Accumulators(Empty(), [], Empty()))
    else
      match AccumulateAsWritten(Init(data))
      case Thrown(e) => Thrown(e)
      case Ok(acc) =>
        var item := Last(data);
        var node := MakeNode(item);
        var nodes := StoreNodeAsWritten(acc.nodes, item.entityId, node);
        var grouped := if Truthy(item.processorName)
          then PushGroupAsWritten(acc.groupedNodes, item.processorName.value, node)
          else Ok(acc.groupedNodes);
        match grouped
        case Thrown(e) => Thrown(e)
        case Ok(groups) => Ok(Accumulators(nodes, acc.edges + RecordEdges(item), groups))
  }

  /** `buildLineageGraph` as JavaScript runs it: it throws exactly when some
      processor name is inherited, and otherwise returns the corrected edges and
      groups, with the nodes of the as-written node object. */
  function BuildAsWritten(data: seq<Record>): (r: Outcome<Graph>)
    ensures r.Thrown? <==> exists j :: 0 <= j < |data| && InheritedGroupName(data[j])
    ensures r.Ok? ==> r.value.edges == EdgesOf(data) && r.value.groupedNodes == GroupsOf(data)
  {
    AsWrittenThrowsIff(data);
    match AccumulateAsWritten(data)
    case Thrown(e) => Thrown(e)
    case Ok(acc) => Ok(Graph(Values(acc.nodes), acc.edges, acc.groupedNodes))
  }

  /** The record's processor name is one JavaScript finds on Object.prototype. */
  predicate InheritedGroupName(item: Record) {
    Truthy(item.processorName) && item.processorName.value in InheritedNames
  }

  /** The lookup as written and the own-property lookup differ only for an
      inherited name with no group of its own, where the push throws. */
  lemma {:induction false} PushGroupDiffers(groups: Obj<seq<Node>>, p: string, n: Node)
    requires Valid(groups)
    ensures PushGroupAsWritten(groups, p, n).Thrown? <==> p in InheritedNames && p !in groups.vals
    ensures PushGroupAsWritten(groups, p, n).Ok? ==> PushGroupAsWritten(groups, p, n).value == AddToGroup(groups, p, n)
  {
    if p !in groups.vals && p !in InheritedNames {
      var created := Put(groups, p, []);
      assert created.vals[p] + [n] == [n];
    }
  }

  /** Without inherited processor names, no group is named after an inherited member. */
  lemma {:induction false} NoInheritedGroups(data: seq<Record>)
    requires forall j :: 0 <= j < |data| ==> !InheritedGroupName(data[j])
    ensures forall p :: p in GroupsOf(data).vals ==> p !in InheritedNames
  {
    GroupsOfKeys(data);
    forall p | p in GroupsOf(data).vals ensures p !in InheritedNames {
      var ks := GroupKeys(data);
      var j :| 0 <= j < |ks| && ks[j].Some? && ks[j].value == p;
      assert !InheritedGroupName(data[j]);
    }
  }

  /** As written, the builder throws exactly when some processor name is an
      inherited member name; otherwise its group index is the corrected one. */
  lemma {:induction false} AsWrittenThrowsIff(data: seq<Record>)
    ensures AccumulateAsWritten(data).Thrown? <==> exists j :: 0 <= j < |data| && InheritedGroupName(data[j])
    ensures AccumulateAsWritten(data).Ok? ==>
              AccumulateAsWritten(data).value.groupedNodes == GroupsOf(data)
              && AccumulateAsWritten(data).value.edges == EdgesOf(data)
  {
    if data != [] {
      var init, item := Init(data), Last(data);
      AsWrittenThrowsIff(init);
      if exists j :: 0 <= j < |init| && InheritedGroupName(init[j]) {
        var j :| 0 <= j < |init| && InheritedGroupName(init[j]);
        assert data[j] == init[j];
      } else {
        forall j | 0 <= j < |init| ensures !InheritedGroupName(data[j]) {
          assert data[j] == init[j];
        }
        assert item == data[|data| - 1];
        if exists j :: 0 <= j < |data| && InheritedGroupName(data[j]) {
          var j :| 0 <= j < |data| && InheritedGroupName(data[j]);
          assert j == |data| - 1;
        }
        NoInheritedGroups(init);
        AsWrittenStep(data);
      }
    }
  }

  /** One more record, after a prefix the builder as written got through with
      the corrected group index: it throws exactly for an inherited name. */
  lemma {:induction false} AsWrittenStep(data: seq<Record>)
    requires data != []
    requires AccumulateAsWritten(Init(data)).Ok?
    requires AccumulateAsWritten(Init(data)).value.groupedNodes == GroupsOf(Init(data))
    requires AccumulateAsWritten(Init(data)).value.edges == EdgesOf(Init(data))
    requires forall p :: p in GroupsOf(Init(data)).vals ==> p !in InheritedNames
    ensures AccumulateAsWritten(data).Thrown? <==> InheritedGroupName(Last(data))
    ensures AccumulateAsWritten(data).Ok? ==>
              AccumulateAsWritten(data).value.groupedNodes == GroupsOf(data)
              && AccumulateAsWritten(data).value.edges == EdgesOf(data)
  {
    var item := Last(data);
    if Truthy(item.processorName) {
      PushGroupDiffers(GroupsOf(Init(data)), item.processorName.value, MakeNode(item));
    }
  }

  /** Without the two inherited-property quirks, the builder as written and the
      corrected builder agree. */
  lemma {:induction false} AsWrittenAgrees(data: seq<Record>)
    requires forall j :: 0 <= j < |data| ==> data[j].entityId != "__proto__" && !InheritedGroupName(data[j])
    ensures BuildAsWritten(data) == Ok(Build(data))
  {
    AsWrittenThrowsIff(data);
    NodesAsWritten(data);
  }

  lemma {:induction false} NodesAsWritten(data: seq<Record>)
    requires forall j :: 0 <= j < |data| ==> data[j].entityId != "__proto__" && !InheritedGroupName(data[j])
    ensures AccumulateAsWritten(data).Ok? && AccumulateAsWritten(data).value.nodes == NodesOf(data)
  {
    if data != [] {
      NodesAsWritten(Init(data));
      AsWrittenThrowsIff(data);
      assert Last(data) == data[|data| - 1];
    }
  }

  /** The records whose id is not "__proto__", in input order. */
  function WithoutProto(data: seq<Record>): (r: seq<Record>)
    ensures |r| <= |data|
    ensures forall j :: 0 <= j < |r| ==> r[j].entityId != "__proto__"
  {
    if data == [] then []
    else if Last(data).entityId == "__proto__" then WithoutProto(Init(data))
    else WithoutProto(Init(data)) + [Last(data)]
  }

  /** Without inherited processor names, the node object as written is the
      corrected one built from the records whose id is not "__proto__": those
      records' nodes are dropped and every other record is kept. */
  lemma {:induction false} NodesAsWrittenDropProto(data: seq<Record>)
    requires forall j :: 0 <= j < |data| ==> !InheritedGroupName(data[j])
    ensures AccumulateAsWritten(data).Ok?
    ensures AccumulateAsWritten(data).value.nodes == NodesOf(WithoutProto(data))
  {
    AsWrittenThrowsIff(data);
    if data != [] {
      var init, item := Init(data), Last(data);
      assert forall j :: 0 <= j < |init| ==> init[j] == data[j];
      NodesAsWrittenDropProto(init);
      var kept := WithoutProto(data);
      if item.entityId != "__proto__" {
        assert kept != [] && Init(kept) == WithoutProto(init) && Last(kept) == item;
      }
    }
  }

  /** A record whose processor name is "toString": the source throws a TypeError,
      the corrected builder files the node under "toString". */
  lemma {:induction false} InheritedProcessorNameThrows()
    ensures var data := [Record("a", [], [], Some("Fetch"), None, Some("toString"))];
      && BuildAsWritten(data).Thrown?
      && Build(data).groupedNodes.keys == ["toString"]
      && Build(data).groupedNodes.vals["toString"] == [MakeNode(data[0])]
  {
    var data := [Record("a", [], [], Some("Fetch"), None, Some("toString"))];
    AsWrittenThrowsIff(data);
    assert InheritedGroupName(data[0]);
    assert Init(data) == [];
  }

  /** A record whose id is "__proto__": the source loses its node, the corrected
      builder keeps it. */
  lemma {:induction false} ProtoEntityIdLost()
    ensures var data := [Record("__proto__", [], [], Some("Fetch"), None, None)];
      && BuildAsWritten(data).Ok?
      && BuildAsWritten(data).value.nodes == []
      && Build(data).nodes == [MakeNode(data[0])]
  {
    var data := [Record("__proto__", [], [], Some("Fetch"), None, None)];
    ProtoAccumulated(data[0]);
    ProtoKept(data[0]);
  }

  lemma {:induction false} ProtoAccumulated(item: Record)
    requires item.entityId == "__proto__" && item.parentIds == [] && item.childIds == [] && !Truthy(item.processorName)
    ensures AccumulateAsWritten([item]) == Ok(Accumulators(Empty(), [], Empty()))
    ensures BuildAsWritten([item]).Ok? && BuildAsWritten([item]).value.nodes == []
  {
    assert Init([item]) == [] && Last([item]) == item;
    assert RecordEdges(item) == [];
  }

  lemma {:induction false} ProtoKept(item: Record)
    requires item.entityId == "__proto__"
    ensures Build([item]).nodes == [MakeNode(item)]
  {
    assert Init([item]) == [] && Last([item]) == item;
    var o := NodesOf([item]);
    assert o == Put(NodesOf([]), item.entityId, MakeNode(item));
    assert NodesOf([]) == Empty();
    assert o.keys == ["__proto__"] && o.vals["__proto__"] == MakeNode(item);
    assert !IsArrayIndex(o.keys[0]) by {
      assert !IsDigit(o.keys[0][0]);
    }
    SingleKeyValues(o);
  }
}
