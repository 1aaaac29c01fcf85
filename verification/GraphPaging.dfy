/** One page of the memory graph, and what following the pages gives. */
module GraphPaging {
  import opened Wrappers

  const GRAPH_MAX_LIMIT := 2000
  const GRAPH_MAX_OFFSET := 10000
  const GRAPH_MAX_NODES := 10000
  const GRAPH_MAX_EDGES := 25000

  datatype Memory = Memory(
    id: string, title: string, path: string, memoryType: string, scope: string, project: string, tags: seq<string>, content: string)

  /** Outside computations: the normal form of a label inside an identifier, the memory identifiers that a
      text mentions, and sorting. */
  datatype Tools = Tools(clean: string -> string, mentioned: string -> set<string>, sorted: set<string> -> seq<string>)

  ghost predicate Sorts(tools: Tools) {
    forall s, x :: x in tools.sorted(s) <==> x in s
  }

  datatype Kind = MemoryNode(memory: Memory) | TypeNode | ScopeNode | ProjectNode | TagNode

  datatype Node = Node(id: string, name: string, kind: Kind)

  datatype Relation = HasType | HasScope | BelongsToProject | Tagged | References

  datatype Edge = Edge(source: string, target: string, relation: Relation)

  datatype Graph = Graph(nodes: map<string, Node>, edges: set<Edge>)

  datatype Item = AddNode(node: Node) | AddEdge(edge: Edge)

  function StableId(tools: Tools, kind: string, value: string): string {
    kind + ":" + tools.clean(value)
  }

  // ---------------------------------------------------------------------------------------------
  // What a memory contributes
  // ---------------------------------------------------------------------------------------------

  /** A node for a property of the memory, and the edge to it. */
  function Linked(tools: Tools, m: Memory, kind: string, value: string, node: Kind, relation: Relation): seq<Item> {
    var id := StableId(tools, kind, value);
    [AddNode(Node(id, value, node)), AddEdge(Edge(m.id, id, relation))]
  }

  function LinkedTags(tools: Tools, m: Memory, tags: seq<string>): seq<Item> {
    if tags == [] then []
    else LinkedTags(tools, m, tags[..|tags| - 1]) + Linked(tools, m, "tag", tags[|tags| - 1], TagNode, Tagged)
  }

  function Referred(m: Memory, ids: seq<string>): seq<Item> {
    if ids == [] then []
    else
      var id := ids[|ids| - 1];
      Referred(m, ids[..|ids| - 1]) + if id != m.id then [AddEdge(Edge(m.id, id, References))] else []
  }

  function ItemsOf(tools: Tools, m: Memory, ids: set<string>): seq<Item> {
    [AddNode(Node(m.id, m.title, MemoryNode(m)))]
    + Linked(tools, m, "type", m.memoryType, TypeNode, HasType)
    + Linked(tools, m, "scope", m.scope, ScopeNode, HasScope)
    + (if m.project != "" then Linked(tools, m, "project", m.project, ProjectNode, BelongsToProject) else [])
    + LinkedTags(tools, m, m.tags)
    + Referred(m, tools.sorted(tools.mentioned(m.content) * ids))
  }

  function Ids(memories: seq<Memory>): set<string> {
    set m | m in memories :: m.id
  }

  function Items(tools: Tools, memories: seq<Memory>, ids: set<string>): seq<Item> {
    if memories == [] then []
    else Items(tools, memories[..|memories| - 1], ids) + ItemsOf(tools, memories[|memories| - 1], ids)
  }

  // ---------------------------------------------------------------------------------------------
  // Building
  // ---------------------------------------------------------------------------------------------

  /** The first node of an identifier stays, an edge is kept once. */
  function Grown(g: Graph, item: Item): Graph {
    match item
    case AddNode(n) => if n.id in g.nodes then g else Graph(g.nodes[n.id := n], g.edges)
    case AddEdge(e) => Graph(g.nodes, g.edges + {e})
  }

  function Built(items: seq<Item>): Graph {
    if items == [] then Graph(map[], {}) else Grown(Built(items[..|items| - 1]), items[|items| - 1])
  }

  predicate WithinCaps(g: Graph) {
    |g.nodes| <= GRAPH_MAX_NODES && |g.edges| <= GRAPH_MAX_EDGES
  }

  lemma OneKeyMore(nodes: map<string, Node>, n: Node)
    requires n.id !in nodes
    ensures |nodes[n.id := n]| == |nodes| + 1
  {
    assert nodes[n.id := n].Keys == nodes.Keys + {n.id};
    assert |nodes[n.id := n].Keys| == |nodes.Keys| + 1;
  }

  lemma GrownLarger(g: Graph, item: Item)
    ensures |g.nodes| <= |Grown(g, item).nodes| && |g.edges| <= |Grown(g, item).edges|
    ensures item.AddNode? ==>
              Grown(g, item).edges == g.edges
              && |Grown(g, item).nodes| == if item.node.id in g.nodes then |g.nodes| else |g.nodes| + 1
    ensures item.AddEdge? ==>
              Grown(g, item).nodes == g.nodes
              && |Grown(g, item).edges| == if item.edge in g.edges then |g.edges| else |g.edges| + 1
  {
    match item
    case AddNode(n) =>
      if n.id !in g.nodes {
        OneKeyMore(g.nodes, n);
      }
    case AddEdge(e) =>
      assert e in g.edges ==> g.edges + {e} == g.edges;
  }

  lemma {:induction false} BuiltGrows(items: seq<Item>, k: nat)
    requires k <= |items|
    ensures |Built(items[..k]).nodes| <= |Built(items).nodes| && |Built(items[..k]).edges| <= |Built(items).edges|
    decreases |items|
  {
    if k == |items| {
      assert items[..k] == items;
    } else {
      hide Grown;
      var n := |items| - 1;
      BuiltGrows(items[..n], k);
      assert items[..n][..k] == items[..k];
      GrownLarger(Built(items[..n]), items[n]);
    }
  }

  lemma BuiltMore(items: seq<Item>, item: Item)
    ensures Built(items + [item]) == Grown(Built(items), item)
  {
    hide Grown;
    assert (items + [item])[..|items|] == items;
  }

  /** One more item fits exactly if the graph with it is within the caps. */
  method AddOne(g: Graph, item: Item) returns (r: Option<Graph>)
    requires WithinCaps(g)
    ensures r == if WithinCaps(Grown(g, item)) then Some(Grown(g, item)) else None
  {
    GrownLarger(g, item);
    match item {
      case AddNode(n) =>
        if n.id !in g.nodes && |g.nodes| >= GRAPH_MAX_NODES {
          return None;
        }
      case AddEdge(e) =>
        if e !in g.edges && |g.edges| >= GRAPH_MAX_EDGES {
          return None;
        }
    }
    return Some(Grown(g, item));
  }

  /** Items added one after the other, refusing the one that would exceed a cap. */
  method AddItems(graph: Graph, ghost before: seq<Item>, items: seq<Item>) returns (r: Option<Graph>)
    requires graph == Built(before) && WithinCaps(graph)
    ensures r == if WithinCaps(Built(before + items)) then Some(Built(before + items)) else None
  {
    hide Built, Grown;
    r := Some(graph);
    assert before + items[..0] == before;
    for k := 0 to |items|
      invariant r == Some(Built(before + items[..k])) && WithinCaps(r.value)
    {
      BuiltMore(before + items[..k], items[k]);
      assert before + items[..k + 1] == before + items[..k] + [items[k]];
      r := AddOne(r.value, items[k]);
      if r.None? {
        BuiltGrows(before + items, |before| + k + 1);
        assert (before + items)[..|before| + k + 1] == before + items[..k + 1];
        return;
      }
    }
    assert before + items[..|items|] == before + items;
  }

  /** The graph of a list of memories; it is refused exactly when it would exceed a cap. */
  method GraphFromMemories(tools: Tools, memories: seq<Memory>) returns (r: Option<Graph>)
    ensures var whole := Built(Items(tools, memories, Ids(memories)));
            r == if WithinCaps(whole) then Some(whole) else None
  {
    var ids := Ids(memories);
    r := Some(Graph(map[], {}));
    assert r.value == Built([]) && WithinCaps(r.value);
    hide Built, ItemsOf, Ids, WithinCaps;
    for k := 0 to |memories|
      invariant r == Some(Built(Items(tools, memories[..k], ids))) && WithinCaps(r.value)
    {
      assert memories[..k + 1][..k] == memories[..k];
      r := AddItems(r.value, Items(tools, memories[..k], ids), ItemsOf(tools, memories[k], ids));
      if r.None? {
        TooMuchAlready(tools, memories, ids, k + 1);
        return;
      }
    }
    assert memories[..|memories|] == memories;
  }

  lemma TooMuchAlready(tools: Tools, memories: seq<Memory>, ids: set<string>, k: nat)
    requires k <= |memories| && !WithinCaps(Built(Items(tools, memories[..k], ids)))
    ensures !WithinCaps(Built(Items(tools, memories, ids)))
  {
    hide Built;
    ItemsPrefix(tools, memories, ids, k);
    var some := Items(tools, memories[..k], ids);
    assert Items(tools, memories, ids)[..|some|] == some;
    BuiltGrows(Items(tools, memories, ids), |some|);
  }

  lemma {:induction false} ItemsPrefix(tools: Tools, memories: seq<Memory>, ids: set<string>, k: nat)
    requires k <= |memories|
    ensures Items(tools, memories[..k], ids) <= Items(tools, memories, ids)
    decreases |memories|
  {
    hide ItemsOf;
    if k == |memories| {
      assert memories[..k] == memories;
    } else {
      ItemsPrefix(tools, memories[..|memories| - 1], ids, k);
      assert memories[..|memories| - 1][..k] == memories[..k];
    }
  }

  // ---------------------------------------------------------------------------------------------
  // What is in the graph
  // ---------------------------------------------------------------------------------------------

  lemma {:induction false} BuiltHas(items: seq<Item>)
    ensures forall e :: e in Built(items).edges <==> AddEdge(e) in items
    ensures forall id :: id in Built(items).nodes <==> exists n: Node :: AddNode(n) in items && n.id == id
    decreases |items|
  {
    if items != [] {
      var n := |items| - 1;
      BuiltHas(items[..n]);
      assert items == items[..n] + [items[n]];
      forall x: Item
        ensures x in items <==> x in items[..n] || x == items[n]
      {
      }
      forall id
        ensures id in Built(items).nodes <==> exists n: Node :: AddNode(n) in items && n.id == id
      {
        if id in Built(items[..n]).nodes {
          var m: Node :| AddNode(m) in items[..n] && m.id == id;
          assert AddNode(m) in items;
        }
      }
    }
  }

  lemma {:induction false} InItems(tools: Tools, memories: seq<Memory>, ids: set<string>, item: Item)
    ensures item in Items(tools, memories, ids) <==> exists m :: m in memories && item in ItemsOf(tools, m, ids)
    decreases |memories|
  {
    hide ItemsOf;
    if memories != [] {
      var n := |memories| - 1;
      InItems(tools, memories[..n], ids, item);
      assert forall m :: m in memories <==> m in memories[..n] || m == memories[n];
    }
  }

  /** An edge to a property of the memory: its type, its scope, its project, one of its tags. */
  ghost predicate PropertyEdge(tools: Tools, m: Memory, e: Edge) {
    && e.source == m.id
    && match e.relation
       case HasType => e.target == "type:" + tools.clean(m.memoryType)
       case HasScope => e.target == "scope:" + tools.clean(m.scope)
       case BelongsToProject => m.project != "" && e.target == "project:" + tools.clean(m.project)
       case Tagged => exists tag :: tag in m.tags && e.target == "tag:" + tools.clean(tag)
       case References => false
  }

  ghost predicate ReferenceEdge(tools: Tools, m: Memory, ids: set<string>, e: Edge) {
    e.source == m.id && e.relation == References && e.target in tools.mentioned(m.content) && e.target in ids && e.target != m.id
  }

  lemma {:induction false} InLinkedTags(tools: Tools, m: Memory, tags: seq<string>)
    ensures forall e :: AddEdge(e) in LinkedTags(tools, m, tags) <==>
              exists tag :: tag in tags && e == Edge(m.id, StableId(tools, "tag", tag), Tagged)
    ensures forall tag | tag in tags :: AddNode(Node(StableId(tools, "tag", tag), tag, TagNode)) in LinkedTags(tools, m, tags)
    decreases |tags|
  {
    hide StableId;
    if tags != [] {
      var n := |tags| - 1;
      InLinkedTags(tools, m, tags[..n]);
      assert forall tag :: tag in tags <==> tag in tags[..n] || tag == tags[n];
    }
  }

  lemma {:induction false} InReferred(m: Memory, ids: seq<string>)
    ensures forall e :: AddEdge(e) in Referred(m, ids) <==> e.target in ids && e.target != m.id && e == Edge(m.id, e.target, References)
    decreases |ids|
  {
    if ids != [] {
      var n := |ids| - 1;
      InReferred(m, ids[..n]);
      assert forall id :: id in ids <==> id in ids[..n] || id == ids[n];
    }
  }

  lemma StableIds(tools: Tools)
    ensures forall value :: StableId(tools, "type", value) == "type:" + tools.clean(value)
    ensures forall value :: StableId(tools, "scope", value) == "scope:" + tools.clean(value)
    ensures forall value :: StableId(tools, "project", value) == "project:" + tools.clean(value)
    ensures forall value :: StableId(tools, "tag", value) == "tag:" + tools.clean(value)
  {
    assert "type" + ":" == "type:" && "scope" + ":" == "scope:" && "project" + ":" == "project:" && "tag" + ":" == "tag:";
  }

  lemma InItemsOf(tools: Tools, m: Memory, ids: set<string>, e: Edge)
    requires Sorts(tools)
    ensures AddEdge(e) in ItemsOf(tools, m, ids) <==> PropertyEdge(tools, m, e) || ReferenceEdge(tools, m, ids, e)
  {
    StableIds(tools);
    InLinkedTags(tools, m, m.tags);
    InReferred(m, tools.sorted(tools.mentioned(m.content) * ids));
    hide StableId, LinkedTags, Referred;
  }

  /** Every property an edge leads to gets a node. */
  lemma PropertyHasNode(tools: Tools, m: Memory, ids: set<string>, e: Edge) returns (n: Node)
    requires PropertyEdge(tools, m, e)
    ensures AddNode(n) in ItemsOf(tools, m, ids) && n.id == e.target
  {
    StableIds(tools);
    InLinkedTags(tools, m, m.tags);
    hide StableId, LinkedTags, Referred;
    match e.relation
    case HasType => n := Node(StableId(tools, "type", m.memoryType), m.memoryType, TypeNode);
    case HasScope => n := Node(StableId(tools, "scope", m.scope), m.scope, ScopeNode);
    case BelongsToProject => n := Node(StableId(tools, "project", m.project), m.project, ProjectNode);
    case Tagged =>
      var tag :| tag in m.tags && e.target == "tag:" + tools.clean(tag);
      n := Node(StableId(tools, "tag", tag), tag, TagNode);
  }

  ghost function GraphOf(tools: Tools, memories: seq<Memory>): Graph {
    Built(Items(tools, memories, Ids(memories)))
  }

  lemma EdgesExactly(tools: Tools, memories: seq<Memory>, e: Edge)
    requires Sorts(tools)
    ensures e in GraphOf(tools, memories).edges <==>
              exists m :: m in memories && (PropertyEdge(tools, m, e) || ReferenceEdge(tools, m, Ids(memories), e))
  {
    hide Built, ItemsOf, Items, PropertyEdge, ReferenceEdge, Ids;
    BuiltHas(Items(tools, memories, Ids(memories)));
    InItems(tools, memories, Ids(memories), AddEdge(e));
    forall m: Memory
      ensures AddEdge(e) in ItemsOf(tools, m, Ids(memories)) <==> PropertyEdge(tools, m, e) || ReferenceEdge(tools, m, Ids(memories), e)
    {
      InItemsOf(tools, m, Ids(memories), e);
    }
  }

  /** Every end of an edge is a node of the same graph. */
  lemma EndpointsAreNodes(tools: Tools, memories: seq<Memory>, e: Edge)
    requires Sorts(tools) && e in GraphOf(tools, memories).edges
    ensures e.source in GraphOf(tools, memories).nodes && e.target in GraphOf(tools, memories).nodes
  {
    EdgesExactly(tools, memories, e);
    var ids := Ids(memories);
    var m :| m in memories && (PropertyEdge(tools, m, e) || ReferenceEdge(tools, m, ids, e));
    MemoryHasNode(tools, memories, ids, m);
    if PropertyEdge(tools, m, e) {
      var n := PropertyHasNode(tools, m, ids, e);
      InItems(tools, memories, ids, AddNode(n));
      hide Built, ItemsOf, Items, PropertyEdge;
      BuiltHas(Items(tools, memories, ids));
    } else {
      var other :| other in memories && other.id == e.target;
      MemoryHasNode(tools, memories, ids, other);
    }
  }

  /** The nodes that a memory offers, in this order: itself under its title, its type, its scope, its project if it has one,
      and its tags. */
  function Offers(tools: Tools, m: Memory): seq<Node> {
    [Node(m.id, m.title, MemoryNode(m)),
     Node("type:" + tools.clean(m.memoryType), m.memoryType, TypeNode),
     Node("scope:" + tools.clean(m.scope), m.scope, ScopeNode)]
    + (if m.project != "" then [Node("project:" + tools.clean(m.project), m.project, ProjectNode)] else [])
    + seq(|m.tags|, k requires 0 <= k < |m.tags| => Node("tag:" + tools.clean(m.tags[k]), m.tags[k], TagNode))
  }

  function AllOffers(tools: Tools, memories: seq<Memory>): seq<Node> {
    if memories == [] then [] else AllOffers(tools, memories[..|memories| - 1]) + Offers(tools, memories[|memories| - 1])
  }

  function Nodes(items: seq<Item>): seq<Node> {
    if items == [] then []
    else Nodes(items[..|items| - 1]) + match items[|items| - 1] case AddNode(n) => [n] case AddEdge(_) => []
  }

  lemma {:induction false} NodesConcat(a: seq<Item>, b: seq<Item>)
    ensures Nodes(a + b) == Nodes(a) + Nodes(b)
    decreases |b|
  {
    if b == [] {
      assert a + b == a;
    } else {
      var n := |b| - 1;
      assert (a + b)[..|a + b| - 1] == a + b[..n];
      NodesConcat(a, b[..n]);
    }
  }

  lemma NodesOfLinked(tools: Tools, m: Memory, kind: string, value: string, node: Kind, relation: Relation)
    ensures Nodes(Linked(tools, m, kind, value, node, relation)) == [Node(StableId(tools, kind, value), value, node)]
  {
    hide StableId;
    var items := Linked(tools, m, kind, value, node, relation);
    assert items[..1] == [items[0]] && items[..1][..0] == [];
    assert Nodes(items[..1]) == [] + [items[0].node];
  }

  lemma {:induction false} NodesOfTags(tools: Tools, m: Memory, tags: seq<string>)
    ensures Nodes(LinkedTags(tools, m, tags)) ==
            seq(|tags|, k requires 0 <= k < |tags| => Node(StableId(tools, "tag", tags[k]), tags[k], TagNode))
    decreases |tags|
  {
    hide StableId, Linked;
    if tags != [] {
      var n := |tags| - 1;
      NodesOfTags(tools, m, tags[..n]);
      NodesOfLinked(tools, m, "tag", tags[n], TagNode, Tagged);
      NodesConcat(LinkedTags(tools, m, tags[..n]), Linked(tools, m, "tag", tags[n], TagNode, Tagged));
    }
  }

  lemma {:induction false} NodesOfReferred(m: Memory, ids: seq<string>)
    ensures Nodes(Referred(m, ids)) == []
    decreases |ids|
  {
    if ids != [] {
      var n := |ids| - 1;
      NodesOfReferred(m, ids[..n]);
      var last := if ids[n] != m.id then [AddEdge(Edge(m.id, ids[n], References))] else [];
      assert last != [] ==> last[..0] == [];
      assert Nodes(last) == [];
      NodesConcat(Referred(m, ids[..n]), last);
    }
  }

  lemma NodesOfItems(tools: Tools, m: Memory, ids: set<string>)
    ensures Nodes(ItemsOf(tools, m, ids)) == Offers(tools, m)
  {
    hide StableId, LinkedTags, Referred, Linked, Nodes;
    var own := [AddNode(Node(m.id, m.title, MemoryNode(m)))];
    var type' := Linked(tools, m, "type", m.memoryType, TypeNode, HasType);
    var scope := Linked(tools, m, "scope", m.scope, ScopeNode, HasScope);
    var project := if m.project != "" then Linked(tools, m, "project", m.project, ProjectNode, BelongsToProject) else [];
    var tags := LinkedTags(tools, m, m.tags);
    var refs := Referred(m, tools.sorted(tools.mentioned(m.content) * ids));
    NodesConcat(own + type' + scope + project + tags, refs);
    NodesConcat(own + type' + scope + project, tags);
    NodesConcat(own + type' + scope, project);
    NodesConcat(own + type', scope);
    NodesConcat(own, type');
    OneNode(own[0].node);
    NodesOfLinked(tools, m, "type", m.memoryType, TypeNode, HasType);
    NodesOfLinked(tools, m, "scope", m.scope, ScopeNode, HasScope);
    NodesOfLinked(tools, m, "project", m.project, ProjectNode, BelongsToProject);
    NodesOfTags(tools, m, m.tags);
    NodesOfReferred(m, tools.sorted(tools.mentioned(m.content) * ids));
    NoNodes();
    StableIds(tools);
  }

  lemma NoNodes()
    ensures Nodes([]) == []
  {
  }

  lemma OneNode(n: Node)
    ensures Nodes([AddNode(n)]) == [n]
  {
    assert [AddNode(n)][..0] == [];
  }

  lemma {:induction false} NodesOfAll(tools: Tools, memories: seq<Memory>, ids: set<string>)
    ensures Nodes(Items(tools, memories, ids)) == AllOffers(tools, memories)
    decreases |memories|
  {
    hide ItemsOf, Offers;
    if memories != [] {
      var n := |memories| - 1;
      NodesOfAll(tools, memories[..n], ids);
      NodesOfItems(tools, memories[n], ids);
      NodesConcat(Items(tools, memories[..n], ids), ItemsOf(tools, memories[n], ids));
    }
  }

  /** The first of these nodes with its identifier, at position `k`. */
  ghost predicate FirstOffer(offers: seq<Node>, n: Node, k: nat) {
    k < |offers| && offers[k] == n && forall j | 0 <= j < k :: offers[j].id != n.id
  }

  lemma {:induction false} BuiltKeepsFirst(items: seq<Item>)
    ensures forall id | id in Built(items).nodes ::
              Built(items).nodes[id].id == id && exists k :: FirstOffer(Nodes(items), Built(items).nodes[id], k)
    ensures forall k | 0 <= k < |Nodes(items)| :: Nodes(items)[k].id in Built(items).nodes
    decreases |items|
  {
    if items != [] {
      var n := |items| - 1;
      BuiltKeepsFirst(items[..n]);
      var before := Nodes(items[..n]);
      forall id | id in Built(items).nodes
        ensures Built(items).nodes[id].id == id && exists k :: FirstOffer(Nodes(items), Built(items).nodes[id], k)
      {
        if id in Built(items[..n]).nodes {
          var k :| FirstOffer(before, Built(items[..n]).nodes[id], k);
          assert FirstOffer(Nodes(items), Built(items).nodes[id], k);
        } else {
          assert FirstOffer(Nodes(items), Built(items).nodes[id], |before|);
        }
      }
    }
  }

  /** The nodes of a graph: the first that is offered under each identifier, by the memories in their order. */
  lemma NodesExactly(tools: Tools, memories: seq<Memory>, n: Node)
    ensures n.id in GraphOf(tools, memories).nodes && GraphOf(tools, memories).nodes[n.id] == n <==>
              exists k :: FirstOffer(AllOffers(tools, memories), n, k)
  {
    hide Built, Items, Offers, AllOffers;
    var items := Items(tools, memories, Ids(memories));
    NodesOfAll(tools, memories, Ids(memories));
    BuiltKeepsFirst(items);
    var offers := Nodes(items);
    if k: nat :| FirstOffer(offers, n, k) {
      assert offers[k].id in Built(items).nodes;
      var j: nat :| FirstOffer(offers, Built(items).nodes[n.id], j);
    }
  }

  lemma MemoryHasNode(tools: Tools, memories: seq<Memory>, ids: set<string>, m: Memory)
    requires m in memories
    ensures m.id in Built(Items(tools, memories, ids)).nodes
  {
    var n := Node(m.id, m.title, MemoryNode(m));
    assert AddNode(n) == ItemsOf(tools, m, ids)[0];
    hide Built, ItemsOf, Items;
    InItems(tools, memories, ids, AddNode(n));
    BuiltHas(Items(tools, memories, ids));
  }

  ghost predicate DistinctIds(memories: seq<Memory>) {
    forall a, b | a in memories && b in memories && a.id == b.id :: a == b
  }

  /** A page's edges are exactly the edges of the whole graph that start in the page and, if they refer to
      another memory, end in it. */
  lemma PageEdgesExactly(tools: Tools, all: seq<Memory>, page: seq<Memory>, e: Edge)
    requires Sorts(tools) && DistinctIds(all) && forall m | m in page :: m in all
    ensures e in GraphOf(tools, page).edges <==>
              e in GraphOf(tools, all).edges && e.source in Ids(page) && (e.relation == References ==> e.target in Ids(page))
  {
    EdgesExactly(tools, all, e);
    EdgesExactly(tools, page, e);
    hide GraphOf;
    if e in GraphOf(tools, page).edges {
      var m :| m in page && (PropertyEdge(tools, m, e) || ReferenceEdge(tools, m, Ids(page), e));
      assert m in all;
    }
    if e in GraphOf(tools, all).edges && e.source in Ids(page) && (e.relation == References ==> e.target in Ids(page)) {
      var m :| m in all && (PropertyEdge(tools, m, e) || ReferenceEdge(tools, m, Ids(all), e));
      var p :| p in page && p.id == e.source;
      assert p == m;
    }
  }

  // ---------------------------------------------------------------------------------------------
  // Following the pages
  // ---------------------------------------------------------------------------------------------

  datatype Page = Page(graph: Graph, memories: seq<Memory>, nextOffset: Option<nat>)

  function Min(a: nat, b: nat): nat {
    if a < b then a else b
  }

  /** One page of the eligible memories. The loader stops as soon as it has one memory more than the page needs. */
  method BuildGraph(tools: Tools, eligible: seq<Memory>, limit: int, offset: int) returns (r: Option<Page>)
    ensures r.Some? <==> 1 <= limit <= GRAPH_MAX_LIMIT && 0 <= offset <= GRAPH_MAX_OFFSET
                         && WithinCaps(GraphOf(tools, PageAt(eligible, limit, offset).0))
    ensures r.Some? ==> r.value == Page(GraphOf(tools, PageAt(eligible, limit, offset).0),
                                        PageAt(eligible, limit, offset).0, PageAt(eligible, limit, offset).1)
  {
    hide Built, Items, Ids, WithinCaps, PageAt;
    if !(1 <= limit <= GRAPH_MAX_LIMIT) || !(0 <= offset <= GRAPH_MAX_OFFSET) {
      return None;
    }
    LoadedPage(eligible, limit, offset);
    var memories := eligible[..Min(offset + limit + 1, |eligible|)];
    var pageMemories := memories[Min(offset, |memories|)..Min(offset + limit, |memories|)];
    var graph := GraphFromMemories(tools, pageMemories);
    if graph.None? {
      return None;
    }
    var hasMore := |memories| > offset + limit;
    return Some(Page(graph.value, pageMemories, if hasMore then Some(offset + |pageMemories|) else None));
  }

  /** The memories of a page, and where the next page starts, if there is one. */
  function PageAt(eligible: seq<Memory>, limit: int, offset: int): (seq<Memory>, Option<nat>)
  {
    if limit < 1 || offset < 0 || offset >= |eligible| then ([], None)
    else if offset + limit < |eligible| then (eligible[offset..offset + limit], Some(offset + limit))
    else (eligible[offset..], None)
  }

  lemma LoadedPage(eligible: seq<Memory>, limit: nat, offset: nat)
    requires limit >= 1
    ensures var memories := eligible[..Min(offset + limit + 1, |eligible|)];
            var page := memories[Min(offset, |memories|)..Min(offset + limit, |memories|)];
            PageAt(eligible, limit, offset) == (page, if |memories| > offset + limit then Some(offset + |page|) else None)
  {
    var memories := eligible[..Min(offset + limit + 1, |eligible|)];
    if offset >= |eligible| {
      assert memories[|memories|..|memories|] == [];
    } else if offset + limit < |eligible| {
      assert memories[offset..offset + limit] == eligible[offset..offset + limit];
    } else {
      assert memories == eligible && memories[offset..|memories|] == eligible[offset..];
    }
  }

  /** All pages from an offset on, following `next_offset`; none if a page is refused, because its offset is too
      large to ask for or its graph too large to build. */
  ghost function Follow(tools: Tools, eligible: seq<Memory>, limit: nat, offset: nat): Option<seq<seq<Memory>>>
    requires limit >= 1
    decreases |eligible| - offset
  {
    var (page, next) := PageAt(eligible, limit, offset);
    if offset > GRAPH_MAX_OFFSET || !WithinCaps(GraphOf(tools, page)) then None
    else
      match next
      case None => Some([page])
      case Some(n) =>
        match Follow(tools, eligible, limit, n)
        case None => None
        case Some(rest) => Some([page] + rest)
  }

  /** The graph of a page, by its number, can be built. */
  ghost predicate PageFits(tools: Tools, eligible: seq<Memory>, limit: nat, number: nat) {
    WithinCaps(GraphOf(tools, PageAt(eligible, limit, number * limit).0))
  }

  function Flatten(pages: seq<seq<Memory>>): seq<Memory> {
    if pages == [] then [] else pages[0] + Flatten(pages[1..])
  }

  function PageCount(n: nat, limit: nat): nat
    requires limit >= 1
  {
    if n == 0 then 1 else (n + limit - 1) / limit
  }

  lemma JoinPages(eligible: seq<Memory>, page: seq<Memory>, rest: seq<seq<Memory>>, offset: nat, next: nat)
    requires offset <= next <= |eligible| && page == eligible[offset..next] && Flatten(rest) == eligible[next..]
    ensures Flatten([page] + rest) == eligible[offset..]
  {
    assert ([page] + rest)[1..] == rest;
  }

  /** From page `number` to the last of `k` pages. */
  lemma {:induction false} FollowFrom(tools: Tools, eligible: seq<Memory>, limit: nat, number: nat, k: nat)
    requires limit >= 1 && number < k && (k - 1) * limit < (if eligible == [] then 1 else |eligible|) <= k * limit
    ensures number * limit <= |eligible|
    ensures var pages := Follow(tools, eligible, limit, number * limit);
            && (pages.Some? <==>
                  (k - 1) * limit <= GRAPH_MAX_OFFSET && forall j | number <= j < k :: PageFits(tools, eligible, limit, j))
            && (pages.Some? ==> |pages.value| == k - number && Flatten(pages.value) == eligible[number * limit..]
                                && forall j | 0 <= j < k - number :: |pages.value[j]| <= limit)
    decreases k - number
  {
    hide GraphOf, WithinCaps, Flatten, PageFits;
    Multiples(limit, number, k);
    if number == k - 1 {
      LastPage(tools, eligible, limit, number);
    } else {
      FollowFrom(tools, eligible, limit, number + 1, k);
      InnerPage(tools, eligible, limit, number);
      var offset, next := number * limit, (number + 1) * limit;
      var rest := Follow(tools, eligible, limit, next);
      if rest.Some? {
        JoinPages(eligible, eligible[offset..next], rest.value, offset, next);
      }
    }
  }

  lemma Multiples(limit: nat, number: nat, k: nat)
    requires limit >= 1 && number < k
    ensures (number + 1) * limit == number * limit + limit && number * limit <= (k - 1) * limit
    ensures k * limit == (k - 1) * limit + limit
    ensures number < k - 1 ==> (number + 1) * limit <= (k - 1) * limit
  {
  }

  lemma InnerPage(tools: Tools, eligible: seq<Memory>, limit: nat, number: nat)
    requires limit >= 1 && number * limit + limit == (number + 1) * limit < |eligible|
    ensures var offset, next := number * limit, (number + 1) * limit;
            Follow(tools, eligible, limit, offset) ==
            if offset > GRAPH_MAX_OFFSET || !PageFits(tools, eligible, limit, number) then None
            else match Follow(tools, eligible, limit, next)
                 case None => None
                 case Some(rest) => Some([eligible[offset..next]] + rest)
  {
    hide GraphOf, WithinCaps;
  }

  lemma LastPage(tools: Tools, eligible: seq<Memory>, limit: nat, number: nat)
    requires var offset := number * limit;
             limit >= 1 && offset <= |eligible| <= offset + limit && (offset < |eligible| || offset == 0)
    ensures var offset := number * limit;
            && Follow(tools, eligible, limit, offset) ==
               (if offset > GRAPH_MAX_OFFSET || !PageFits(tools, eligible, limit, number) then None else Some([eligible[offset..]]))
            && Flatten([eligible[offset..]]) == eligible[offset..]
  {
    hide GraphOf, WithinCaps;
    var page := eligible[number * limit..];
    assert [page][1..] == [] && page + [] == page;
    assert PageAt(eligible, limit, number * limit) == (page, None);
  }

  lemma CountBounds(n: nat, limit: nat)
    requires limit >= 1
    ensures var k := PageCount(n, limit); k >= 1 && (k - 1) * limit < (if n == 0 then 1 else n) <= k * limit
  {
    var m := if n == 0 then 1 else n;
    var k := (m + limit - 1) / limit;
    assert m + limit - 1 == k * limit + (m + limit - 1) % limit;
    assert (k - 1) * limit == k * limit - limit;
    if n == 0 {
      assert k == 1;
    }
  }

  /** Following the pages from the start visits every eligible memory exactly once and in order, in as few pages
      as possible; it succeeds if and only if the last page can still be asked for and the graph of every page
      stays within the caps. */
  lemma PagingIsExact(tools: Tools, eligible: seq<Memory>, limit: nat)
    requires 1 <= limit <= GRAPH_MAX_LIMIT
    ensures var pages, k := Follow(tools, eligible, limit, 0), PageCount(|eligible|, limit);
            && (pages.Some? <==>
                  && (k - 1) * limit <= GRAPH_MAX_OFFSET
                  && forall j | 0 <= j < k :: PageFits(tools, eligible, limit, j))
            && (pages.Some? ==> |pages.value| == k && Flatten(pages.value) == eligible
                                && forall j | 0 <= j < k :: |pages.value[j]| <= limit)
  {
    hide Flatten, PageFits, Follow;
    CountBounds(|eligible|, limit);
    FollowFrom(tools, eligible, limit, 0, PageCount(|eligible|, limit));
    assert 0 * limit == 0 && eligible[0..] == eligible;
  }

  /** A page whose memory has more tags than a graph may have nodes is refused, at whatever offset: here the first. */
  lemma CrowdedPage(tools: Tools, m: Memory, limit: nat)
    requires 1 <= limit <= GRAPH_MAX_LIMIT && |m.tags| > GRAPH_MAX_NODES
    requires forall a, b | 0 <= a < b < |m.tags| :: StableId(tools, "tag", m.tags[a]) != StableId(tools, "tag", m.tags[b])
    ensures Follow(tools, [m], limit, 0) == None && (PageCount(1, limit) - 1) * limit == 0
  {
    hide Built, Items, ItemsOf, StableId;
    var items := Items(tools, [m], Ids([m]));
    TagsAreNodes(tools, m);
    TagIdsDiffer(tools, m.tags);
    SubsetSize(TagIds(tools, m.tags), Built(items).nodes.Keys);
    assert |Built(items).nodes| == |Built(items).nodes.Keys|;
    assert PageAt([m], limit, 0) == ([m], None);
    CountBounds(1, limit);
  }

  function TagIds(tools: Tools, tags: seq<string>): set<string> {
    if tags == [] then {} else TagIds(tools, tags[..|tags| - 1]) + {StableId(tools, "tag", tags[|tags| - 1])}
  }

  lemma {:induction false} TagIdsDiffer(tools: Tools, tags: seq<string>)
    requires forall a, b | 0 <= a < b < |tags| :: StableId(tools, "tag", tags[a]) != StableId(tools, "tag", tags[b])
    ensures |TagIds(tools, tags)| == |tags|
    decreases |tags|
  {
    hide StableId;
    if tags != [] {
      var n := |tags| - 1;
      TagIdsDiffer(tools, tags[..n]);
      TagIdsAre(tools, tags[..n]);
      assert forall k | 0 <= k < n :: tags[..n][k] == tags[k];
      assert StableId(tools, "tag", tags[n]) !in TagIds(tools, tags[..n]);
    }
  }

  lemma {:induction false} SubsetSize(a: set<string>, b: set<string>)
    requires a <= b
    ensures |a| <= |b|
    decreases |a|
  {
    if a != {} {
      var x :| x in a;
      SubsetSize(a - {x}, b - {x});
    }
  }

  lemma TagsAreNodes(tools: Tools, m: Memory)
    ensures TagIds(tools, m.tags) <= Built(Items(tools, [m], Ids([m]))).nodes.Keys
  {
    hide Built, StableId, LinkedTags, ItemsOf;
    var items := Items(tools, [m], Ids([m]));
    BuiltHas(items);
    InLinkedTags(tools, m, m.tags);
    assert items == [] + ItemsOf(tools, m, Ids([m])) by {
      assert [m][..0] == [] && [m][0] == m;
      assert Items(tools, [], Ids([m])) == [];
    }
    TagsAmongItems(tools, m, Ids([m]));
    TagIdsAre(tools, m.tags);
    forall id | id in TagIds(tools, m.tags)
      ensures id in Built(items).nodes
    {
      var k :| 0 <= k < |m.tags| && StableId(tools, "tag", m.tags[k]) == id;
      var n := Node(StableId(tools, "tag", m.tags[k]), m.tags[k], TagNode);
      assert m.tags[k] in m.tags && AddNode(n) in LinkedTags(tools, m, m.tags);
      assert AddNode(n) in items;
    }
  }

  lemma TagsAmongItems(tools: Tools, m: Memory, ids: set<string>)
    ensures forall item | item in LinkedTags(tools, m, m.tags) :: item in ItemsOf(tools, m, ids)
  {
    hide StableId, LinkedTags, Referred, Linked;
  }

  lemma {:induction false} TagIdsAre(tools: Tools, tags: seq<string>)
    ensures forall id | id in TagIds(tools, tags) :: exists k :: 0 <= k < |tags| && StableId(tools, "tag", tags[k]) == id
    decreases |tags|
  {
    hide StableId;
    if tags != [] {
      var n := |tags| - 1;
      TagIdsAre(tools, tags[..n]);
      forall id | id in TagIds(tools, tags)
        ensures exists k :: 0 <= k < |tags| && StableId(tools, "tag", tags[k]) == id
      {
        if id in TagIds(tools, tags[..n]) {
          var k :| 0 <= k < n && StableId(tools, "tag", tags[..n][k]) == id;
          assert tags[k] == tags[..n][k];
        }
      }
    }
  }
}
