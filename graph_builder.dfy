/**
 * The CRUD graph of `graph_builder.py`: the finalised lineage maps become
 * namespaced nodes (`PGM::`, `FILE::`, `TABLE::`) and program -> resource
 * edges labelled with the subject's operations; a query resolves an element
 * name to a node and returns the induced subgraph of its undirected
 * neighbourhood within a radius.
 *
 * A `networkx.DiGraph` is a class here with its node order, node attributes
 * and edge attributes as fields.
 */
module GraphBuilder {
  import opened Wrappers
  import opened Text
  import opened Ordering
  import opened Lineage

  // ----- Node ids and labels -----

  const ProgramPrefix: string := "PGM::"
  const FilePrefix: string := "FILE::"
  const TablePrefix: string := "TABLE::"

  /** The `type` attribute of a node; `Untyped` is a node added without one. */
  datatype NodeKind = Program | File | Table | Untyped

  /** The attributes of a node: `Plain` for one `add_edge` created without any. */
  datatype NodeAttrs = Attrs(nodeLabel: string, kind: NodeKind) | Plain

  /** The `color` attribute `build_crud_graph` gives each kind of node. */
  function Color(kind: NodeKind): Option<string> {
    match kind
    case Program => Some("#A3A3A3")
    case File => Some("#60A5FA")
    case Table => Some("#34D399")
    case Untyped => None
  }

  /** The `shape` attribute `build_crud_graph` gives each kind of node. */
  function Shape(kind: NodeKind): Option<string> {
    match kind
    case Program => Some("box")
    case File => Some("ellipse")
    case Table => Some("ellipse")
    case Untyped => None
  }

  /** The attributes of an edge: its operation summary and its group. */
  datatype EdgeAttrs = EdgeAttrs(opLabel: string, group: string)

  /** One element of the `edges` list of `_lineage_to_edges`. */
  datatype Edge = Edge(source: string, target: string, attrs: EdgeAttrs)

  /** The index of the first `::` in `s`, or `|s|` when there is none. */
  function SepIndex(s: string): (n: nat)
    ensures n <= |s|
    ensures n < |s| ==> n + 2 <= |s| && s[n] == ':' && s[n + 1] == ':'
    decreases |s|
  {
    if |s| < 2 then |s|
    else if s[0] == ':' && s[1] == ':' then 0
    else
      var n := SepIndex(s[1..]);
      if n < |s[1..]| then n + 1 else |s|
  }

  /** `n.split("::", 1)[1]`, for a node id that has a `::`. */
  function AfterSep(s: string): string {
    var n := SepIndex(s);
    if n < |s| then s[n + 2..] else ""
  }

  /** A name prefix with its `::` at the end, and no `:` before it. */
  lemma {:induction false} SepOfPrefix(head: string, rest: string)
    requires forall i :: 0 <= i < |head| ==> head[i] != ':'
    ensures SepIndex(head + "::" + rest) == |head|
    decreases |head|
  {
    var s := head + "::" + rest;
    if head != [] {
      assert s[1..] == head[1..] + "::" + rest;
      SepOfPrefix(head[1..], rest);
    }
  }

  /** The label of a namespaced id is the name it was built from, whatever `::` it contains. */
  lemma AfterSepOfId(prefix: string, name: string)
    requires prefix in {ProgramPrefix, FilePrefix, TablePrefix}
    ensures AfterSep(prefix + name) == name
  {
    var head := prefix[..|prefix| - 2];
    assert prefix == head + "::";
    assert prefix + name == head + "::" + name;
    SepOfPrefix(head, name);
  }

  /** The attributes `build_crud_graph` gives node `n`, by its prefix. */
  function NodeAttrsOf(n: string): NodeAttrs {
    if StartsWith(n, ProgramPrefix) then Attrs(AfterSep(n), Program)
    else if StartsWith(n, FilePrefix) then Attrs(AfterSep(n), File)
    else if StartsWith(n, TablePrefix) then Attrs(AfterSep(n), Table)
    else Attrs(n, Untyped)
  }

  /** Each namespaced id is labelled with its name and typed by its namespace. */
  lemma NodeAttrsOfIds(name: string)
    ensures NodeAttrsOf(ProgramPrefix + name) == Attrs(name, Program)
    ensures NodeAttrsOf(FilePrefix + name) == Attrs(name, File)
    ensures NodeAttrsOf(TablePrefix + name) == Attrs(name, Table)
  {
    AfterSepOfId(ProgramPrefix, name);
    AfterSepOfId(FilePrefix, name);
    AfterSepOfId(TablePrefix, name);
    assert (ProgramPrefix + name)[..|ProgramPrefix|] == ProgramPrefix;
    assert (FilePrefix + name)[..|FilePrefix|] == FilePrefix;
    assert (FilePrefix + name)[0] == 'F';
    assert (TablePrefix + name)[..|TablePrefix|] == TablePrefix;
    assert (TablePrefix + name)[0] == 'T';
  }

  /** Ids of different namespaces never meet: a file and a table of the same name are two nodes. */
  lemma NamespacesDiffer(a: string, b: string)
    ensures ProgramPrefix + a != FilePrefix + b
    ensures ProgramPrefix + a != TablePrefix + b
    ensures FilePrefix + a != TablePrefix + b
  {
    assert (ProgramPrefix + a)[0] == 'P';
    assert (FilePrefix + b)[0] == 'F';
    assert (FilePrefix + a)[0] == 'F';
    assert (TablePrefix + b)[0] == 'T';
  }

  /** Within one namespace the id determines the name. */
  lemma IdInjective(prefix: string, a: string, b: string)
    requires prefix + a == prefix + b
    ensures a == b
  {
    assert a == (prefix + a)[|prefix|..];
    assert b == (prefix + b)[|prefix|..];
  }

  // ----- _lineage_to_edges -----

  /** The `lineage` argument: the items of its `files` and `tables` dictionaries, in dictionary order. */
  datatype LineageDict = LineageDict(files: seq<(string, FinalEntry)>, tables: seq<(string, FinalEntry)>)

  /** The items of a dictionary have distinct keys. */
  predicate DistinctKeys(items: seq<(string, FinalEntry)>) {
    forall i, j :: 0 <= i < j < |items| ==> items[i].0 != items[j].0
  }

  /** `",".join(sorted(meta["ops"].keys()))` */
  ghost function OpLabel(ops: map<string, nat>): string {
    Join(SortedSet(ops.Keys), ",")
  }

  /** The edges of one subject: one per listed program, all with the subject's label. */
  ghost function SubjectEdges(prefix: string, group: string, item: (string, FinalEntry)): (r: seq<Edge>)
    ensures |r| == |item.1.programs|
  {
    seq(|item.1.programs|, j requires 0 <= j < |item.1.programs| =>
      Edge(ProgramPrefix + item.1.programs[j], prefix + item.0, EdgeAttrs(OpLabel(item.1.ops), group)))
  }

  /** The edges of one dictionary, subject after subject. */
  ghost function GroupEdges(prefix: string, group: string, items: seq<(string, FinalEntry)>): seq<Edge>
    decreases |items|
  {
    if items == [] then []
    else GroupEdges(prefix, group, items[..|items| - 1]) + SubjectEdges(prefix, group, items[|items| - 1])
  }

  /** The nodes of one dictionary: each subject in its namespace and each listed program. */
  function GroupNodes(prefix: string, items: seq<(string, FinalEntry)>): set<string>
    decreases |items|
  {
    if items == [] then {}
    else
      var item := items[|items| - 1];
      GroupNodes(prefix, items[..|items| - 1]) + {prefix + item.0} + set p | p in item.1.programs :: ProgramPrefix + p
  }

  /** The `edges` list of `_lineage_to_edges`: files first, then tables. */
  ghost function LineageEdges(lin: LineageDict): seq<Edge> {
    GroupEdges(FilePrefix, "file", lin.files) + GroupEdges(TablePrefix, "table", lin.tables)
  }

  /** The `nodes` set of `_lineage_to_edges`. */
  function LineageNodes(lin: LineageDict): set<string> {
    GroupNodes(FilePrefix, lin.files) + GroupNodes(TablePrefix, lin.tables)
  }

  /** `_lineage_to_edges(lineage)`: the edges in iteration order and the node list. */
  method LineageToEdges(lin: LineageDict) returns (edges: seq<Edge>, nodes: seq<string>)
    ensures edges == LineageEdges(lin)
    ensures SetOf(nodes) == LineageNodes(lin)
    ensures forall i, j :: 0 <= i < j < |nodes| ==> nodes[i] != nodes[j]
  {
    var nodeSet: set<string> := {};
    edges := [];
    edges, nodeSet := AddGroup(FilePrefix, "file", lin.files, edges, nodeSet);
    edges, nodeSet := AddGroup(TablePrefix, "table", lin.tables, edges, nodeSet);
    FromEmpty(GroupEdges(FilePrefix, "file", lin.files), GroupEdges(TablePrefix, "table", lin.tables));
    nodes := ListOf(nodeSet);
  }

  lemma FromEmpty<T>(a: seq<T>, b: seq<T>)
    ensures [] + a + b == a + b
  {
  }

  /** One of the two loops of `_lineage_to_edges`, over the items of one dictionary. */
  method AddGroup(prefix: string, group: string, items: seq<(string, FinalEntry)>, edges0: seq<Edge>, nodes0: set<string>)
    returns (edges: seq<Edge>, nodes: set<string>)
    ensures edges == edges0 + GroupEdges(prefix, group, items)
    ensures nodes == nodes0 + GroupNodes(prefix, items)
  {
    edges, nodes := edges0, nodes0;
    var i := 0;
    while i < |items|
      invariant 0 <= i <= |items|
      invariant edges == edges0 + GroupEdges(prefix, group, items[..i])
      invariant nodes == nodes0 + GroupNodes(prefix, items[..i])
    {
      GroupStep(prefix, group, items, i);
      edges, nodes := AddSubject(prefix, group, items[i], edges, nodes);
      i := i + 1;
    }
    assert items[..|items|] == items;
  }

  /** The body of that loop for one subject: its node, then one program node and one edge per program. */
  method AddSubject(prefix: string, group: string, item: (string, FinalEntry), edges0: seq<Edge>, nodes0: set<string>)
    returns (edges: seq<Edge>, nodes: set<string>)
    ensures edges == edges0 + SubjectEdges(prefix, group, item)
    ensures nodes == nodes0 + {prefix + item.0} + set p | p in item.1.programs :: ProgramPrefix + p
  {
    var name := item.0;
    var meta := item.1;
    edges := edges0;
    nodes := nodes0 + {prefix + name};
    var j := 0;
    while j < |meta.programs|
      invariant 0 <= j <= |meta.programs|
      invariant edges == edges0 + SubjectEdges(prefix, group, item)[..j]
      invariant nodes == nodes0 + {prefix + name} + set p | p in meta.programs[..j] :: ProgramPrefix + p
    {
      var prog := meta.programs[j];
      SubjectStep(prefix, group, item, j, edges0, edges, nodes0, nodes);
      nodes := nodes + {ProgramPrefix + prog};
      var sorted := SortSet(meta.ops.Keys);
      var opLabel := Join(sorted, ",");
      edges := edges + [Edge(ProgramPrefix + prog, prefix + name, EdgeAttrs(opLabel, group))];
      j := j + 1;
    }
    assert SubjectEdges(prefix, group, item)[..j] == SubjectEdges(prefix, group, item);
    assert meta.programs[..j] == meta.programs;
  }

  /** The invariant of the loop in `AddSubject` survives one program. */
  lemma SubjectStep(prefix: string, group: string, item: (string, FinalEntry), j: nat,
                    edges0: seq<Edge>, edges: seq<Edge>, nodes0: set<string>, nodes: set<string>)
    requires j < |item.1.programs|
    requires edges == edges0 + SubjectEdges(prefix, group, item)[..j]
    requires nodes == nodes0 + {prefix + item.0} + set p | p in item.1.programs[..j] :: ProgramPrefix + p
    ensures edges + [Edge(ProgramPrefix + item.1.programs[j], prefix + item.0, EdgeAttrs(OpLabel(item.1.ops), group))]
      == edges0 + SubjectEdges(prefix, group, item)[..j + 1]
    ensures nodes + {ProgramPrefix + item.1.programs[j]}
      == nodes0 + {prefix + item.0} + set p | p in item.1.programs[..j + 1] :: ProgramPrefix + p
  {
    ProgramStep(prefix, group, item, j);
  }

  lemma ProgramStep(prefix: string, group: string, item: (string, FinalEntry), j: nat)
    requires j < |item.1.programs|
    ensures SubjectEdges(prefix, group, item)[..j + 1]
      == SubjectEdges(prefix, group, item)[..j]
         + [Edge(ProgramPrefix + item.1.programs[j], prefix + item.0, EdgeAttrs(OpLabel(item.1.ops), group))]
    ensures (set p | p in item.1.programs[..j + 1] :: ProgramPrefix + p)
      == (set p | p in item.1.programs[..j] :: ProgramPrefix + p) + {ProgramPrefix + item.1.programs[j]}
  {
    assert item.1.programs[..j + 1] == item.1.programs[..j] + [item.1.programs[j]];
  }

  lemma GroupStep(prefix: string, group: string, items: seq<(string, FinalEntry)>, i: nat)
    requires i < |items|
    ensures GroupEdges(prefix, group, items[..i + 1]) == GroupEdges(prefix, group, items[..i]) + SubjectEdges(prefix, group, items[i])
    ensures GroupNodes(prefix, items[..i + 1])
      == GroupNodes(prefix, items[..i]) + {prefix + items[i].0} + set p | p in items[i].1.programs :: ProgramPrefix + p
  {
    assert items[..i + 1][..i] == items[..i];
  }

  /** `list(s)`: the elements of a set in some order, each once. */
  method ListOf(s: set<string>) returns (xs: seq<string>)
    ensures SetOf(xs) == s
    ensures forall i, j :: 0 <= i < j < |xs| ==> xs[i] != xs[j]
  {
    xs := [];
    var todo := s;
    while todo != {}
      invariant todo <= s
      invariant SetOf(xs) == s - todo
      invariant forall i, j :: 0 <= i < j < |xs| ==> xs[i] != xs[j]
      decreases |todo|
    {
      var x :| x in todo;
      assert SetOf(xs + [x]) == SetOf(xs) + {x};
      xs := xs + [x];
      todo := todo - {x};
    }
  }

  // ----- Properties of the edges -----

  /** `e` is an edge of subject `item`: from one of its programs to the subject, with its label and the group. */
  ghost predicate EdgeOfItem(prefix: string, group: string, item: (string, FinalEntry), e: Edge) {
    && StartsWith(e.source, ProgramPrefix) && e.source[|ProgramPrefix|..] in item.1.programs
    && e.target == prefix + item.0
    && e.attrs == EdgeAttrs(OpLabel(item.1.ops), group)
  }

  /** Every edge of a dictionary belongs to one of its subjects. */
  lemma {:induction false} GroupEdgesSound(prefix: string, group: string, items: seq<(string, FinalEntry)>, e: Edge)
    requires e in GroupEdges(prefix, group, items)
    ensures exists i :: 0 <= i < |items| && EdgeOfItem(prefix, group, items[i], e)
    decreases |items|
  {
    var init := items[..|items| - 1];
    var last := items[|items| - 1];
    assert GroupEdges(prefix, group, items) == GroupEdges(prefix, group, init) + SubjectEdges(prefix, group, last);
    if e in GroupEdges(prefix, group, init) {
      GroupEdgesSound(prefix, group, init, e);
      var i :| 0 <= i < |init| && EdgeOfItem(prefix, group, init[i], e);
      assert items[i] == init[i];
    } else {
      SubjectEdgesSpec(prefix, group, last);
      assert EdgeOfItem(prefix, group, items[|items| - 1], e);
    }
  }

  /** Every (subject, program) pair of a dictionary has its edge. */
  lemma {:induction false} GroupEdgesComplete(prefix: string, group: string, items: seq<(string, FinalEntry)>, i: nat, j: nat)
    requires i < |items| && j < |items[i].1.programs|
    ensures Edge(ProgramPrefix + items[i].1.programs[j], prefix + items[i].0, EdgeAttrs(OpLabel(items[i].1.ops), group))
      in GroupEdges(prefix, group, items)
    decreases |items|
  {
    var init := items[..|items| - 1];
    var last := items[|items| - 1];
    assert GroupEdges(prefix, group, items) == GroupEdges(prefix, group, init) + SubjectEdges(prefix, group, last);
    if i < |init| {
      assert items[i] == init[i];
      GroupEdgesComplete(prefix, group, init, i, j);
    } else {
      SubjectEdgesSpec(prefix, group, last);
    }
  }

  /** The same two facts for the edges of one subject. */
  lemma SubjectEdgesSpec(prefix: string, group: string, item: (string, FinalEntry))
    ensures forall e :: e in SubjectEdges(prefix, group, item) ==> EdgeOfItem(prefix, group, item, e)
    ensures forall j :: 0 <= j < |item.1.programs| ==>
      Edge(ProgramPrefix + item.1.programs[j], prefix + item.0, EdgeAttrs(OpLabel(item.1.ops), group))
        in SubjectEdges(prefix, group, item)
  {
    var r := SubjectEdges(prefix, group, item);
    forall e | e in r ensures EdgeOfItem(prefix, group, item, e) {
      var j :| 0 <= j < |r| && r[j] == e;
      var p := item.1.programs[j];
      assert e.source == ProgramPrefix + p;
      assert e.source[..|ProgramPrefix|] == ProgramPrefix;
      assert e.source[|ProgramPrefix|..] == p;
    }
    forall j | 0 <= j < |item.1.programs|
      ensures Edge(ProgramPrefix + item.1.programs[j], prefix + item.0, EdgeAttrs(OpLabel(item.1.ops), group)) in r
    {
      assert r[j] == Edge(ProgramPrefix + item.1.programs[j], prefix + item.0, EdgeAttrs(OpLabel(item.1.ops), group));
    }
  }

  /** The subject and program nodes of every item are nodes of its dictionary. */
  lemma {:induction false} GroupNodesHas(prefix: string, items: seq<(string, FinalEntry)>, i: nat, p: string)
    requires i < |items|
    ensures prefix + items[i].0 in GroupNodes(prefix, items)
    ensures p in items[i].1.programs ==> ProgramPrefix + p in GroupNodes(prefix, items)
    decreases |items|
  {
    if i < |items| - 1 {
      var init := items[..|items| - 1];
      assert items[i] == init[i];
      GroupNodesHas(prefix, init, i, p);
    }
  }

  /** Every node of a dictionary is in its namespace or the program namespace. */
  lemma {:induction false} GroupNodesShape(prefix: string, items: seq<(string, FinalEntry)>, n: string)
    requires n in GroupNodes(prefix, items)
    ensures StartsWith(n, prefix) || StartsWith(n, ProgramPrefix)
    decreases |items|
  {
    var init := items[..|items| - 1];
    var item := items[|items| - 1];
    if n in GroupNodes(prefix, init) {
      GroupNodesShape(prefix, init, n);
    } else if n == prefix + item.0 {
      assert n[..|prefix|] == prefix;
    } else {
      var p :| p in item.1.programs && n == ProgramPrefix + p;
      assert n[..|ProgramPrefix|] == ProgramPrefix;
    }
  }

  /** `e` starts at a program and ends at a file (group `file`) or a table (group `table`). */
  ghost predicate WellShaped(e: Edge) {
    && StartsWith(e.source, ProgramPrefix)
    && ((StartsWith(e.target, FilePrefix) && e.attrs.group == "file")
        || (StartsWith(e.target, TablePrefix) && e.attrs.group == "table"))
  }

  /**
   * Every edge runs from a `PGM::` node to a `FILE::` or `TABLE::` node,
   * both of them nodes of the graph, so there is no self-loop and no
   * program -> program edge.
   */
  lemma LineageEdgeShape(lin: LineageDict, e: Edge)
    requires e in LineageEdges(lin)
    ensures WellShaped(e)
    ensures e.source != e.target
    ensures e.source in LineageNodes(lin) && e.target in LineageNodes(lin)
  {
    var inFiles := e in GroupEdges(FilePrefix, "file", lin.files);
    var prefix := if inFiles then FilePrefix else TablePrefix;
    var group := if inFiles then "file" else "table";
    var items := if inFiles then lin.files else lin.tables;
    GroupEdgesSound(prefix, group, items, e);
    var i :| 0 <= i < |items| && EdgeOfItem(prefix, group, items[i], e);
    var p := e.source[|ProgramPrefix|..];
    StartsWithSplit(e.source, ProgramPrefix);
    GroupNodesHas(prefix, items, i, p);
    NamespacesDiffer(p, items[i].0);
    assert e.target[..|prefix|] == prefix;
  }

  /** Every node is a program, file or table id. */
  lemma LineageNodeShape(lin: LineageDict, n: string)
    requires n in LineageNodes(lin)
    ensures StartsWith(n, ProgramPrefix) || StartsWith(n, FilePrefix) || StartsWith(n, TablePrefix)
  {
    if n in GroupNodes(FilePrefix, lin.files) {
      GroupNodesShape(FilePrefix, lin.files, n);
    } else {
      GroupNodesShape(TablePrefix, lin.tables, n);
    }
  }

  /**
   * Two edges between the same two nodes carry the same label and group,
   * since the target names one subject: every program of a subject gets the
   * subject's one label.
   */
  lemma EdgeEndsDetermineAttrs(lin: LineageDict, e1: Edge, e2: Edge)
    requires DistinctKeys(lin.files) && DistinctKeys(lin.tables)
    requires e1 in LineageEdges(lin) && e2 in LineageEdges(lin)
    requires e1.source == e2.source && e1.target == e2.target
    ensures e1 == e2
  {
    var inFiles1 := e1 in GroupEdges(FilePrefix, "file", lin.files);
    var prefix1 := if inFiles1 then FilePrefix else TablePrefix;
    var group1 := if inFiles1 then "file" else "table";
    var items1 := if inFiles1 then lin.files else lin.tables;
    var inFiles2 := e2 in GroupEdges(FilePrefix, "file", lin.files);
    var prefix2 := if inFiles2 then FilePrefix else TablePrefix;
    var group2 := if inFiles2 then "file" else "table";
    var items2 := if inFiles2 then lin.files else lin.tables;
    GroupEdgesSound(prefix1, group1, items1, e1);
    GroupEdgesSound(prefix2, group2, items2, e2);
    var i1 :| 0 <= i1 < |items1| && EdgeOfItem(prefix1, group1, items1[i1], e1);
    var i2 :| 0 <= i2 < |items2| && EdgeOfItem(prefix2, group2, items2[i2], e2);
    NamespacesDiffer(items1[i1].0, items2[i2].0);
    NamespacesDiffer(items2[i2].0, items1[i1].0);
    assert prefix1 == prefix2;
    IdInjective(prefix1, items1[i1].0, items2[i2].0);
    assert i1 == i2;
  }

  // ----- The graph -----

  /** `networkx.DiGraph`: nodes in insertion order with their attributes, and edges with theirs. */
  class DiGraph {
    var order: seq<string>
    var nodes: map<string, NodeAttrs>
    var edges: map<(string, string), EdgeAttrs>

    /** Each node is listed once, and every edge joins two nodes. */
    ghost predicate Valid()
      reads this
    {
      && (forall i, j :: 0 <= i < j < |order| ==> order[i] != order[j])
      && SetOf(order) == nodes.Keys
      && forall e :: e in edges ==> e.0 in nodes && e.1 in nodes
    }

    /** `nx.DiGraph()` */
    constructor ()
      ensures Valid() && order == [] && nodes == map[] && edges == map[]
    {
      order, nodes, edges := [], map[], map[];
    }

    /** `G.add_node(n, **attrs)`: a new node goes to the end of the order. */
    method AddNode(n: string, attrs: NodeAttrs)
      requires Valid()
      modifies this
      ensures Valid()
      ensures order == if n in old(nodes) then old(order) else old(order) + [n]
      ensures nodes == old(nodes)[n := attrs] && edges == old(edges)
    {
      if n !in nodes {
        assert SetOf(order + [n]) == SetOf(order) + {n};
        order := order + [n];
      }
      nodes := nodes[n := attrs];
    }

    /** `G.add_edge(u, v, **attrs)`: missing end nodes are added without attributes. */
    method AddEdge(u: string, v: string, attrs: EdgeAttrs)
      requires Valid()
      modifies this
      ensures Valid()
      ensures nodes == WithPlain(WithPlain(old(nodes), u), v)
      ensures order == old(order) + (if u in old(nodes) then [] else [u])
        + (if v in old(nodes) || v == u then [] else [v])
      ensures edges == old(edges)[(u, v) := attrs]
    {
      if u !in nodes {
        AddNode(u, Plain);
      }
      if v !in nodes {
        AddNode(v, Plain);
      }
      edges := edges[(u, v) := attrs];
    }
  }

  /** `m` with `n` added without attributes if it is missing; a node already there keeps its own. */
  function WithPlain(m: map<string, NodeAttrs>, n: string): (r: map<string, NodeAttrs>)
    ensures r.Keys == m.Keys + {n}
    ensures forall k :: k in m ==> r[k] == m[k]
    ensures n !in m ==> r[n] == Plain
  {
    if n in m then m else m[n := Plain]
  }

  /** The edge attributes after adding `es` in order: a later edge between the same nodes replaces the earlier. */
  function EdgeMap(es: seq<Edge>): map<(string, string), EdgeAttrs>
    decreases |es|
  {
    if es == [] then map[]
    else
      var e := es[|es| - 1];
      EdgeMap(es[..|es| - 1])[(e.source, e.target) := e.attrs]
  }

  /** The node attributes `build_crud_graph` gives the nodes of a lineage dictionary. */
  function CrudNodes(lin: LineageDict): map<string, NodeAttrs> {
    map n | n in LineageNodes(lin) :: NodeAttrsOf(n)
  }

  /** `build_crud_graph(lineage)`, with the node list of `_lineage_to_edges` in the order it comes in. */
  method BuildCrudGraph(lin: LineageDict) returns (g: DiGraph)
    ensures fresh(g) && g.Valid()
    ensures g.nodes == CrudNodes(lin)
    ensures g.edges == EdgeMap(LineageEdges(lin))
  {
    g := new DiGraph();
    var edges, nodes := LineageToEdges(lin);
    AddCrudNodes(g, nodes);
    assert g.nodes == CrudNodes(lin);
    forall e | e in edges ensures e.source in g.nodes && e.target in g.nodes {
      LineageEdgeShape(lin, e);
    }
    AddCrudEdges(g, edges);
  }

  /** The first loop of `build_crud_graph`: every node with the attributes of its namespace. */
  method AddCrudNodes(g: DiGraph, nodes: seq<string>)
    requires g.Valid() && g.nodes == map[] && g.edges == map[]
    requires forall i, j :: 0 <= i < j < |nodes| ==> nodes[i] != nodes[j]
    modifies g
    ensures g.Valid() && g.edges == map[]
    ensures g.nodes == map n | n in SetOf(nodes) :: NodeAttrsOf(n)
  {
    var i := 0;
    while i < |nodes|
      invariant 0 <= i <= |nodes|
      invariant g.Valid() && g.edges == map[]
      invariant g.nodes == map n | n in SetOf(nodes[..i]) :: NodeAttrsOf(n)
    {
      var n := nodes[i];
      assert SetOf(nodes[..i + 1]) == SetOf(nodes[..i]) + {n} by {
        assert nodes[..i + 1] == nodes[..i] + [n];
      }
      g.AddNode(n, NodeAttrsOf(n));
      i := i + 1;
    }
    assert nodes[..|nodes|] == nodes;
  }

  /** The second loop of `build_crud_graph`: every edge, in list order. */
  method AddCrudEdges(g: DiGraph, edges: seq<Edge>)
    requires g.Valid() && g.edges == map[]
    requires forall e :: e in edges ==> e.source in g.nodes && e.target in g.nodes
    modifies g
    ensures g.Valid() && g.nodes == old(g.nodes) && g.order == old(g.order)
    ensures g.edges == EdgeMap(edges)
  {
    var j := 0;
    while j < |edges|
      invariant 0 <= j <= |edges|
      invariant g.Valid() && g.nodes == old(g.nodes) && g.order == old(g.order)
      invariant g.edges == EdgeMap(edges[..j])
    {
      var e := edges[j];
      assert edges[..j + 1][..j] == edges[..j];
      g.AddEdge(e.source, e.target, e.attrs);
      j := j + 1;
    }
    assert edges[..|edges|] == edges;
  }

  /** The edges of the CRUD graph are exactly the pairs of the edge list, each with its own attributes. */
  lemma CrudGraphEdges(lin: LineageDict, e: Edge)
    requires DistinctKeys(lin.files) && DistinctKeys(lin.tables)
    requires e in LineageEdges(lin)
    ensures (e.source, e.target) in EdgeMap(LineageEdges(lin))
    ensures EdgeMap(LineageEdges(lin))[(e.source, e.target)] == e.attrs
  {
    var es := LineageEdges(lin);
    forall e' | e' in es && e'.source == e.source && e'.target == e.target ensures e' == e {
      EdgeEndsDetermineAttrs(lin, e', e);
    }
    EdgeMapValue(es, e);
  }

  /** With every edge between two nodes alike, the map holds that edge's attributes. */
  lemma {:induction false} EdgeMapValue(es: seq<Edge>, e: Edge)
    requires e in es
    requires forall e' :: e' in es && e'.source == e.source && e'.target == e.target ==> e' == e
    ensures (e.source, e.target) in EdgeMap(es) && EdgeMap(es)[(e.source, e.target)] == e.attrs
    decreases |es|
  {
    var last := es[|es| - 1];
    var init := es[..|es| - 1];
    assert es == init + [last];
    if last != e {
      assert e in init;
      EdgeMapValue(init, e);
    }
  }

  /** Every pair in the map comes from an edge of the list. */
  lemma {:induction false} EdgeMapKeys(es: seq<Edge>, k: (string, string))
    requires k in EdgeMap(es)
    ensures exists e :: e in es && (e.source, e.target) == k
    decreases |es|
  {
    var last := es[|es| - 1];
    var init := es[..|es| - 1];
    assert es == init + [last];
    if k != (last.source, last.target) {
      EdgeMapKeys(init, k);
      var e :| e in init && (e.source, e.target) == k;
      assert e in es;
    }
  }

  /** The CRUD graph has no self-loop and every edge leaves a program for a file or a table. */
  lemma CrudGraphShape(lin: LineageDict, k: (string, string))
    requires k in EdgeMap(LineageEdges(lin))
    ensures StartsWith(k.0, ProgramPrefix) && (StartsWith(k.1, FilePrefix) || StartsWith(k.1, TablePrefix))
    ensures k.0 != k.1
  {
    EdgeMapKeys(LineageEdges(lin), k);
    var e :| e in LineageEdges(lin) && (e.source, e.target) == k;
    LineageEdgeShape(lin, e);
  }

  // ----- neighborhood_subgraph -----

  /** The exact test of `neighborhood_subgraph`: the id itself, or an id whose name after `::` is `element`. */
  predicate ExactOrSuffix(n: string, element: string) {
    n == element || EndsWith(n, "::" + element)
  }

  /** The fuzzy test: `element.lower() in n.lower()`. */
  predicate Fuzzy(n: string, element: string) {
    Contains(Lower(n), Lower(element))
  }

  /** The position of the first node that passes the exact test, or `|order|`. */
  function FirstExact(order: seq<string>, element: string): (i: nat)
    ensures i <= |order|
    ensures forall j :: 0 <= j < i ==> !ExactOrSuffix(order[j], element)
    ensures i < |order| ==> ExactOrSuffix(order[i], element)
  {
    if order == [] || ExactOrSuffix(order[0], element) then 0
    else 1 + FirstExact(order[1..], element)
  }

  /** The position of the first node that passes the fuzzy test, or `|order|`. */
  function FirstFuzzy(order: seq<string>, element: string): (i: nat)
    ensures i <= |order|
    ensures forall j :: 0 <= j < i ==> !Fuzzy(order[j], element)
    ensures i < |order| ==> Fuzzy(order[i], element)
  {
    if order == [] || Fuzzy(order[0], element) then 0
    else 1 + FirstFuzzy(order[1..], element)
  }

  /** The node `neighborhood_subgraph` centres on: the first exact match, else the first fuzzy one. */
  function Target(order: seq<string>, element: string): Option<string> {
    var i := FirstExact(order, element);
    if i < |order| then Some(order[i])
    else
      var j := FirstFuzzy(order, element);
      if j < |order| then Some(order[j]) else None
  }

  /** An exact match is also a fuzzy one, so the fuzzy pass is the wider of the two. */
  lemma ExactImpliesFuzzy(n: string, element: string)
    requires ExactOrSuffix(n, element)
    ensures Fuzzy(n, element)
  {
    var ln, le := Lower(n), Lower(element);
    var i := |n| - |element|;
    assert ln[i..i + |le|] == le by {
      if n != element {
        var suffix := "::" + element;
        assert n[|n| - |suffix|..] == suffix;
        forall k | 0 <= k < |le| ensures ln[i + k] == le[k] {
          assert n[i + k] == suffix[k + 2];
        }
      }
    }
    assert OccursAt(ln, le, i);
  }

  /** The centre is a node, chosen by the exact test when any node passes it. */
  lemma TargetChoice(order: seq<string>, element: string)
    ensures Target(order, element).Some? ==> Target(order, element).value in order
    ensures (exists i :: 0 <= i < |order| && ExactOrSuffix(order[i], element)) ==>
      Target(order, element).Some? && ExactOrSuffix(Target(order, element).value, element)
    ensures Target(order, element).Some? ==> Fuzzy(Target(order, element).value, element)
  {
    var i := FirstExact(order, element);
    if i < |order| {
      ExactImpliesFuzzy(order[i], element);
    }
  }

  /** There is no centre exactly when no node contains `element`, ignoring case. */
  lemma TargetNone(order: seq<string>, element: string)
    ensures Target(order, element).None? <==> forall i :: 0 <= i < |order| ==> !Fuzzy(order[i], element)
  {
    var i := FirstExact(order, element);
    if i < |order| {
      ExactImpliesFuzzy(order[i], element);
    }
  }

  /** The target lookup of `neighborhood_subgraph`: two passes over the nodes, each stopping at its first match. */
  method FindTarget(g: DiGraph, element: string) returns (target: Option<string>)
    ensures target == Target(g.order, element)
  {
    var order := g.order;
    target := None;
    var i := 0;
    while i < |order|
      invariant 0 <= i <= |order|
      invariant forall j :: 0 <= j < i ==> !ExactOrSuffix(order[j], element)
    {
      if ExactOrSuffix(order[i], element) {
        target := Some(order[i]);
        break;
      }
      i := i + 1;
    }
    if target.None? {
      var j := 0;
      while j < |order|
        invariant 0 <= j <= |order|
        invariant forall k :: 0 <= k < j ==> !Fuzzy(order[k], element)
      {
        if Fuzzy(order[j], element) {
          target := Some(order[j]);
          break;
        }
        j := j + 1;
      }
    }
  }

  /** `G.successors(u)` */
  function Successors(es: set<(string, string)>, u: string): set<string> {
    set k | k in es && k.0 == u :: k.1
  }

  /** `G.predecessors(u)` */
  function Predecessors(es: set<(string, string)>, u: string): set<string> {
    set k | k in es && k.1 == u :: k.0
  }

  /** The nodes joined to some node of `s` by an edge in either direction. */
  function Neighbors(es: set<(string, string)>, s: set<string>): set<string> {
    (set k | k in es && k.0 in s :: k.1) + (set k | k in es && k.1 in s :: k.0)
  }

  /** The frontier after `k` rounds of the search from `t`. */
  function Layer(es: set<(string, string)>, t: string, k: nat): set<string> {
    if k == 0 then {t} else Neighbors(es, Layer(es, t, k - 1))
  }

  /** The nodes collected after `k` rounds: the union of the first `k + 1` frontiers. */
  function Ball(es: set<(string, string)>, t: string, k: nat): set<string> {
    if k == 0 then {t} else Ball(es, t, k - 1) + Layer(es, t, k)
  }

  /** One more node in the frontier adds its successors and predecessors. */
  lemma NeighborsAdd(es: set<(string, string)>, s: set<string>, u: string)
    ensures Neighbors(es, s + {u}) == Neighbors(es, s) + Successors(es, u) + Predecessors(es, u)
  {
  }

  /** The inner loop of the search: every successor and predecessor of the frontier. */
  method Expand(g: DiGraph, frontier: set<string>) returns (next: set<string>)
    ensures next == Neighbors(g.edges.Keys, frontier)
  {
    var es := g.edges.Keys;
    next := {};
    var todo := frontier;
    while todo != {}
      invariant todo <= frontier
      invariant next == Neighbors(es, frontier - todo)
      decreases |todo|
    {
      var u :| u in todo;
      NeighborsAdd(es, frontier - todo, u);
      assert (frontier - todo) + {u} == frontier - (todo - {u});
      next := next + Successors(es, u) + Predecessors(es, u);
      todo := todo - {u};
    }
  }

  /** `range(radius)` runs no round for a negative radius. */
  function Rounds(radius: int): nat {
    if radius < 0 then 0 else radius
  }

  /** The node set `neighborhood_subgraph` keeps: empty without a centre, else the ball around it. */
  function NeighborhoodNodes(g: DiGraph, element: string, radius: int): set<string>
    reads g
  {
    match Target(g.order, element)
    case None => {}
    case Some(t) => Ball(g.edges.Keys, t, Rounds(radius))
  }

  /** The nodes of `order` that are in `s`, in the same order. */
  function Filter(order: seq<string>, s: set<string>): (r: seq<string>)
    ensures SetOf(r) == SetOf(order) * s
    ensures forall i :: 0 <= i < |r| ==> exists j :: 0 <= j < |order| && order[j] == r[i]
    decreases |order|
  {
    if order == [] then []
    else
      var rest := Filter(order[..|order| - 1], s);
      var last := order[|order| - 1];
      assert order == order[..|order| - 1] + [last];
      if last in s then
        assert SetOf(rest + [last]) == SetOf(rest) + {last};
        rest + [last]
      else rest
  }

  /** Filtering by the empty set leaves nothing. */
  lemma {:induction false} FilterNothing(order: seq<string>)
    ensures Filter(order, {}) == []
    decreases |order|
  {
    if order != [] {
      FilterNothing(order[..|order| - 1]);
    }
  }

  /** Filtering a list without duplicates leaves none. */
  lemma {:induction false} FilterDistinct(order: seq<string>, s: set<string>)
    requires forall i, j :: 0 <= i < j < |order| ==> order[i] != order[j]
    ensures forall i, j :: 0 <= i < j < |Filter(order, s)| ==> Filter(order, s)[i] != Filter(order, s)[j]
    decreases |order|
  {
    if order != [] {
      var init := order[..|order| - 1];
      var last := order[|order| - 1];
      FilterDistinct(init, s);
      if last in s {
        assert last !in SetOf(init);
        assert last !in SetOf(Filter(init, s));
      }
    }
  }

  /** The attributes of the nodes of `g` that are in `s`. */
  function InducedNodes(g: DiGraph, s: set<string>): map<string, NodeAttrs>
    reads g
  {
    map n | n in g.nodes && n in s :: g.nodes[n]
  }

  /** The edges of `g` whose two ends are in `s`, with their attributes. */
  function InducedEdges(g: DiGraph, s: set<string>): map<(string, string), EdgeAttrs>
    reads g
  {
    map k | k in g.edges && k.0 in s && k.1 in s :: g.edges[k]
  }

  /** The induced parts form a well-formed graph. */
  lemma InducedValid(g: DiGraph, s: set<string>)
    requires g.Valid()
    ensures forall i, j :: 0 <= i < j < |Filter(g.order, s)| ==> Filter(g.order, s)[i] != Filter(g.order, s)[j]
    ensures SetOf(Filter(g.order, s)) == InducedNodes(g, s).Keys
    ensures forall k :: k in InducedEdges(g, s) ==> k.0 in InducedNodes(g, s) && k.1 in InducedNodes(g, s)
  {
    FilterDistinct(g.order, s);
  }

  /** `G.subgraph(s).copy()`: the nodes of `s` in the graph's order, their attributes, and the edges among them. */
  method Subgraph(g: DiGraph, s: set<string>) returns (h: DiGraph)
    requires g.Valid()
    ensures fresh(h) && h.Valid()
    ensures h.order == Filter(g.order, s)
    ensures h.nodes == InducedNodes(g, s) && h.edges == InducedEdges(g, s)
  {
    InducedValid(g, s);
    h := new DiGraph();
    h.order := Filter(g.order, s);
    h.nodes := InducedNodes(g, s);
    h.edges := InducedEdges(g, s);
  }

  /** The search loop of `neighborhood_subgraph`: `radius` rounds from `t`, collecting every frontier. */
  method Search(g: DiGraph, t: string, radius: int) returns (nodes: set<string>)
    ensures nodes == Ball(g.edges.Keys, t, Rounds(radius))
  {
    var es := g.edges.Keys;
    nodes := {t};
    var frontier := {t};
    var step := 0;
    while step < radius
      invariant 0 <= step <= Rounds(radius)
      invariant frontier == Layer(es, t, step) && nodes == Ball(es, t, step)
    {
      var next := Expand(g, frontier);
      nodes := nodes + next;
      frontier := next;
      step := step + 1;
    }
  }

  /** `neighborhood_subgraph(G, element, radius)` */
  method NeighborhoodSubgraph(g: DiGraph, element: string, radius: int) returns (h: DiGraph)
    requires g.Valid()
    ensures fresh(h) && h.Valid()
    ensures h.order == Filter(g.order, NeighborhoodNodes(g, element, radius))
    ensures h.nodes == InducedNodes(g, NeighborhoodNodes(g, element, radius))
    ensures h.edges == InducedEdges(g, NeighborhoodNodes(g, element, radius))
  {
    var target := FindTarget(g, element);
    if target.None? {
      h := new DiGraph();
      FilterNothing(g.order);
      assert h.nodes == InducedNodes(g, {});
      assert h.edges == InducedEdges(g, {});
      return;
    }
    var nodes := Search(g, target.value, radius);
    h := Subgraph(g, nodes);
  }

  // ----- What the search reaches -----

  /** `a` and `b` are joined by an edge, whichever way it points. */
  predicate Adjacent(es: set<(string, string)>, a: string, b: string) {
    (a, b) in es || (b, a) in es
  }

  /** A walk that may follow each edge in either direction. */
  predicate IsWalk(es: set<(string, string)>, p: seq<string>) {
    |p| >= 1 && forall i :: 0 <= i < |p| - 1 ==> Adjacent(es, p[i], p[i + 1])
  }

  /** Every node of the `k`-th frontier ends a walk of `k` steps from `t`. */
  lemma {:induction false} LayerWalk(es: set<(string, string)>, t: string, k: nat, v: string) returns (p: seq<string>)
    requires v in Layer(es, t, k)
    ensures IsWalk(es, p) && |p| == k + 1 && p[0] == t && p[k] == v
  {
    if k == 0 {
      p := [t];
    } else {
      var prev := Layer(es, t, k - 1);
      var u: string;
      if v in (set e | e in es && e.0 in prev :: e.1) {
        var e :| e in es && e.0 in prev && e.1 == v;
        u := e.0;
      } else {
        var e :| e in es && e.1 in prev && e.0 == v;
        u := e.1;
      }
      assert Adjacent(es, u, v);
      var q := LayerWalk(es, t, k - 1, u);
      p := q + [v];
      assert forall i :: 0 <= i < |q| ==> p[i] == q[i];
    }
  }

  /** The end of every walk of `k` steps from `t` is in the `k`-th frontier. */
  lemma {:induction false} WalkLayer(es: set<(string, string)>, p: seq<string>)
    requires IsWalk(es, p)
    ensures p[|p| - 1] in Layer(es, p[0], |p| - 1)
    decreases |p|
  {
    if |p| > 1 {
      var q := p[..|p| - 1];
      assert IsWalk(es, q);
      WalkLayer(es, q);
      var u, v := p[|p| - 2], p[|p| - 1];
      assert Adjacent(es, u, v);
      if (u, v) in es {
        assert v == (u, v).1;
      } else {
        assert v == (v, u).0;
      }
    }
  }

  /** Each collected node came in with one of the frontiers so far. */
  lemma {:induction false} BallLayer(es: set<(string, string)>, t: string, k: nat, v: string) returns (j: nat)
    requires v in Ball(es, t, k)
    ensures j <= k && v in Layer(es, t, j)
  {
    if k == 0 || v in Layer(es, t, k) {
      j := k;
    } else {
      j := BallLayer(es, t, k - 1, v);
    }
  }

  /** Each frontier so far is collected. */
  lemma {:induction false} LayerInBall(es: set<(string, string)>, t: string, j: nat, k: nat)
    requires j <= k
    ensures Layer(es, t, j) <= Ball(es, t, k)
    decreases k
  {
    if j < k {
      LayerInBall(es, t, j, k - 1);
    }
  }

  /**
   * The neighbourhood of radius `k` is every node within `k` steps of the centre,
   * following edges either way: a walk of at most `k` steps reaches each, and
   * each node such a walk reaches is in it.
   */
  lemma BallIsReach(es: set<(string, string)>, t: string, k: nat, v: string)
    ensures v in Ball(es, t, k) <==>
      exists p :: IsWalk(es, p) && |p| <= k + 1 && p[0] == t && p[|p| - 1] == v
  {
    if v in Ball(es, t, k) {
      var j := BallLayer(es, t, k, v);
      var p := LayerWalk(es, t, j, v);
      assert IsWalk(es, p) && |p| <= k + 1 && p[0] == t && p[|p| - 1] == v;
    }
    if exists p :: IsWalk(es, p) && |p| <= k + 1 && p[0] == t && p[|p| - 1] == v {
      var p :| IsWalk(es, p) && |p| <= k + 1 && p[0] == t && p[|p| - 1] == v;
      WalkLayer(es, p);
      LayerInBall(es, t, |p| - 1, k);
    }
  }

  /** A wider radius never loses a node. */
  lemma {:induction false} BallMonotone(es: set<(string, string)>, t: string, j: nat, k: nat)
    requires j <= k
    ensures Ball(es, t, j) <= Ball(es, t, k)
    decreases k
  {
    if j < k {
      BallMonotone(es, t, j, k - 1);
    }
  }

  /** The neighbourhood holds its centre, and radius 0 or below keeps the centre alone. */
  lemma NeighborhoodCentre(g: DiGraph, element: string, radius: int)
    requires g.Valid() && Target(g.order, element).Some?
    ensures Target(g.order, element).value in NeighborhoodNodes(g, element, radius)
    ensures radius <= 0 ==> NeighborhoodNodes(g, element, radius) == {Target(g.order, element).value}
  {
    BallMonotone(g.edges.Keys, Target(g.order, element).value, 0, Rounds(radius));
  }

  /** Every node the search collects is a node of the graph, so the subgraph keeps all of them. */
  lemma {:induction false} BallInGraph(g: DiGraph, t: string, k: nat)
    requires g.Valid() && t in g.nodes
    ensures Ball(g.edges.Keys, t, k) <= g.nodes.Keys
  {
    if k > 0 {
      BallInGraph(g, t, k - 1);
      assert Layer(g.edges.Keys, t, k) <= g.nodes.Keys by {
        LayerInGraph(g, t, k);
      }
    }
  }

  lemma {:induction false} LayerInGraph(g: DiGraph, t: string, k: nat)
    requires g.Valid() && t in g.nodes
    ensures Layer(g.edges.Keys, t, k) <= g.nodes.Keys
  {
    if k > 0 {
      LayerInGraph(g, t, k - 1);
    }
  }

  /** The subgraph's nodes are exactly the collected set when there is a centre. */
  lemma NeighborhoodIsInduced(g: DiGraph, element: string, radius: int)
    requires g.Valid()
    ensures InducedNodes(g, NeighborhoodNodes(g, element, radius)).Keys == NeighborhoodNodes(g, element, radius)
  {
    TargetChoice(g.order, element);
    match Target(g.order, element)
    case None =>
    case Some(t) =>
      assert t in SetOf(g.order);
      BallInGraph(g, t, Rounds(radius));
  }
}

