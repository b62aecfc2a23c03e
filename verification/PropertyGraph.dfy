/** The property graph that generated Cypher acts on, and the write statements it is sent.
    A node is identified by its base label (Resource or BlankNode) together with its uri, which is
    what every generated MERGE matches on; an edge by its two ends, its type and its predicate. */
module PropertyGraph {
  datatype NodeKey = NodeKey(blank: bool, uri: string)

  /** A property value: the text of a Cypher literal, a flag, or an array of literal texts. */
  datatype Value = Text(repr: string) | Flag(b: bool) | Array(items: seq<string>)

  datatype Node = Node(labels: set<string>, props: map<string, Value>)

  datatype Edge = Edge(source: NodeKey, etype: string, pred: string, target: NodeKey)

  datatype Graph = Graph(nodes: map<NodeKey, Node>, edges: set<Edge>)

  const EMPTY := Graph(map[], {})

  // ----- statements

  datatype SetItem = SetLabel(name: string) | SetProp(name: string, value: Value)

  /** The clauses of one statement; variables are bound by MergeNode and shared by what follows. */
  datatype Clause =
    | MergeNode(v: string, key: NodeKey, sets: seq<SetItem>)
    | SetOn(v: string, item: SetItem)
    | MergeEdge(source: string, etype: string, pred: string, target: string)

  type Statement = seq<Clause>

  // ----- effects

  /** What a clause does once its variables are resolved. */
  datatype Op =
    | Ensure(key: NodeKey)
    | AddLabel(key: NodeKey, name: string)
    | PutProp(key: NodeKey, name: string, value: Value)
    | Link(edge: Edge)

  function SetOp(key: NodeKey, item: SetItem): Op {
    match item
    case SetLabel(l) => AddLabel(key, l)
    case SetProp(n, v) => PutProp(key, n, v)
  }

  function SetOps(key: NodeKey, items: seq<SetItem>): seq<Op> {
    seq(|items|, i requires 0 <= i < |items| => SetOp(key, items[i]))
  }

  /** SET and edge MERGE on a variable that no MergeNode has bound do nothing here;
      the generators never write one. */
  function Resolve(env: map<string, NodeKey>, s: Statement): seq<Op>
    decreases |s|
  {
    if s == [] then []
    else match s[0]
      case MergeNode(v, key, sets) => [Ensure(key)] + SetOps(key, sets) + Resolve(env[v := key], s[1..])
      case SetOn(v, item) =>
        (if v in env then [SetOp(env[v], item)] else []) + Resolve(env, s[1..])
      case MergeEdge(a, etype, pred, b) =>
        (if a in env && b in env then [Link(Edge(env[a], etype, pred, env[b]))] else [])
        + Resolve(env, s[1..])
  }

  function BaseLabel(key: NodeKey): string {
    if key.blank then "BlankNode" else "Resource"
  }

  /** MERGE returns the node that is there, or a new one with only its base label. */
  function NodeAt(g: Graph, key: NodeKey): Node {
    if key in g.nodes then g.nodes[key] else Node({BaseLabel(key)}, map[])
  }

  function Apply(g: Graph, op: Op): Graph {
    match op
    case Ensure(k) => g.(nodes := g.nodes[k := NodeAt(g, k)])
    case AddLabel(k, l) =>
      var n := NodeAt(g, k);
      g.(nodes := g.nodes[k := n.(labels := n.labels + {l})])
    case PutProp(k, name, v) =>
      var n := NodeAt(g, k);
      g.(nodes := g.nodes[k := n.(props := n.props[name := v])])
    case Link(e) => g.(edges := g.edges + {e})
  }

  function ApplyAll(g: Graph, ops: seq<Op>): Graph {
    if ops == [] then g else Apply(ApplyAll(g, ops[..|ops| - 1]), ops[|ops| - 1])
  }

  function Execute(g: Graph, s: Statement): Graph {
    ApplyAll(g, Resolve(map[], s))
  }

  function ExecuteAll(g: Graph, stmts: seq<Statement>): Graph
    decreases |stmts|
  {
    if stmts == [] then g else ExecuteAll(Execute(g, stmts[0]), stmts[1..])
  }

  lemma {:induction false} ApplyAllConcat(g: Graph, a: seq<Op>, b: seq<Op>)
    ensures ApplyAll(g, a + b) == ApplyAll(ApplyAll(g, a), b)
  {
    if b == [] {
      assert a + b == a;
    } else {
      assert (a + b)[..|a + b| - 1] == a + b[..|b| - 1];
      ApplyAllConcat(g, a, b[..|b| - 1]);
    }
  }

  lemma {:induction false} ExecuteAllConcat(g: Graph, a: seq<Statement>, b: seq<Statement>)
    ensures ExecuteAll(g, a + b) == ExecuteAll(ExecuteAll(g, a), b)
    decreases |a|
  {
    if a == [] {
      assert a + b == b;
    } else {
      assert (a + b)[1..] == a[1..] + b;
      ExecuteAllConcat(Execute(g, a[0]), a[1..], b);
    }
  }

  // ----- what a list of effects leaves behind, whatever graph it starts from

  function Touches(op: Op): set<NodeKey> {
    if op.Link? then {} else {op.key}
  }

  ghost function Touched(ops: seq<Op>): set<NodeKey> {
    set i | 0 <= i < |ops| && !ops[i].Link? :: ops[i].key
  }

  ghost function Links(ops: seq<Op>): set<Edge> {
    set i | 0 <= i < |ops| && ops[i].Link? :: ops[i].edge
  }

  ghost function LabelsAt(ops: seq<Op>, k: NodeKey): set<string> {
    set i | 0 <= i < |ops| && ops[i].AddLabel? && ops[i].key == k :: ops[i].name
  }

  /** The last value written to each property of k. */
  function WritesTo(ops: seq<Op>, k: NodeKey): map<string, Value> {
    if ops == [] then map[]
    else
      var op, before := ops[|ops| - 1], WritesTo(ops[..|ops| - 1], k);
      if op.PutProp? && op.key == k then before[op.name := op.value] else before
  }

  /** Two lists of effects that no starting graph can tell apart. */
  ghost predicate SameEffect(a: seq<Op>, b: seq<Op>) {
    && Touched(a) == Touched(b)
    && Links(a) == Links(b)
    && (forall k :: LabelsAt(a, k) == LabelsAt(b, k))
    && (forall k :: WritesTo(a, k) == WritesTo(b, k))
  }

  lemma TouchedConcat(a: seq<Op>, b: seq<Op>)
    ensures Touched(a + b) == Touched(a) + Touched(b)
    ensures Links(a + b) == Links(a) + Links(b)
  {
    var c := a + b;
    assert forall i :: 0 <= i < |b| ==> c[|a| + i] == b[i];
    assert forall i :: 0 <= i < |a| ==> c[i] == a[i];
    forall x | x in Touched(a) + Touched(b) ensures x in Touched(c) {
      if x in Touched(a) {
        var i :| 0 <= i < |a| && !a[i].Link? && a[i].key == x;
        assert !c[i].Link? && c[i].key == x;
      } else {
        var i :| 0 <= i < |b| && !b[i].Link? && b[i].key == x;
        assert !c[|a| + i].Link? && c[|a| + i].key == x;
      }
    }
    forall x | x in Links(a) + Links(b) ensures x in Links(c) {
      if x in Links(a) {
        var i :| 0 <= i < |a| && a[i].Link? && a[i].edge == x;
        assert c[i].Link? && c[i].edge == x;
      } else {
        var i :| 0 <= i < |b| && b[i].Link? && b[i].edge == x;
        assert c[|a| + i].Link? && c[|a| + i].edge == x;
      }
    }
  }

  lemma LabelsConcat(a: seq<Op>, b: seq<Op>, k: NodeKey)
    ensures LabelsAt(a + b, k) == LabelsAt(a, k) + LabelsAt(b, k)
  {
    var c := a + b;
    forall x | x in LabelsAt(a, k) + LabelsAt(b, k) ensures x in LabelsAt(c, k) {
      if x in LabelsAt(a, k) {
        var i :| 0 <= i < |a| && a[i].AddLabel? && a[i].key == k && a[i].name == x;
        assert c[i].AddLabel? && c[i].key == k && c[i].name == x;
      } else {
        var i :| 0 <= i < |b| && b[i].AddLabel? && b[i].key == k && b[i].name == x;
        assert c[|a| + i] == b[i];
      }
    }
  }

  lemma {:induction false} WritesConcat(a: seq<Op>, b: seq<Op>, k: NodeKey)
    ensures WritesTo(a + b, k) == WritesTo(a, k) + WritesTo(b, k)
  {
    if b == [] {
      assert a + b == a;
    } else {
      assert (a + b)[..|a + b| - 1] == a + b[..|b| - 1];
      WritesConcat(a, b[..|b| - 1], k);
    }
  }

  lemma SameEffectConcat(a: seq<Op>, a': seq<Op>, b: seq<Op>, b': seq<Op>)
    requires SameEffect(a, a') && SameEffect(b, b')
    ensures SameEffect(a + b, a' + b')
  {
    TouchedConcat(a, b);
    TouchedConcat(a', b');
    forall k ensures LabelsAt(a + b, k) == LabelsAt(a' + b', k) && WritesTo(a + b, k) == WritesTo(a' + b', k) {
      LabelsConcat(a, b, k);
      LabelsConcat(a', b', k);
      WritesConcat(a, b, k);
      WritesConcat(a', b', k);
    }
  }

  lemma ApplyFields(g: Graph, op: Op, k: NodeKey)
    ensures NodeAt(Apply(g, op), k).labels == NodeAt(g, k).labels + LabelsAt([op], k)
    ensures NodeAt(Apply(g, op), k).props == NodeAt(g, k).props + WritesTo([op], k)
  {
    assert [op][0] == op;
    assert LabelsAt([op], k) == if op.AddLabel? && op.key == k then {op.name} else {};
    assert WritesTo([op], k) == if op.PutProp? && op.key == k then map[op.name := op.value] else map[] by {
      assert [op][..0] == [];
    }
  }

  /** The graph after a list of effects: which nodes and edges it has ... */
  lemma {:induction false} ApplyAllShape(g: Graph, ops: seq<Op>)
    ensures ApplyAll(g, ops).nodes.Keys == g.nodes.Keys + Touched(ops)
    ensures ApplyAll(g, ops).edges == g.edges + Links(ops)
  {
    if ops != [] {
      var before, op := ops[..|ops| - 1], ops[|ops| - 1];
      ApplyAllShape(g, before);
      TouchedConcat(before, [op]);
      assert ops == before + [op];
      assert Touched([op]) == Touches(op) && Links([op]) == if op.Link? then {op.edge} else {} by {
        assert [op][0] == op;
      }
    }
  }

  /** ... and what each node holds. */
  lemma {:induction false} ApplyAllFields(g: Graph, ops: seq<Op>, k: NodeKey)
    ensures NodeAt(ApplyAll(g, ops), k).labels == NodeAt(g, k).labels + LabelsAt(ops, k)
    ensures NodeAt(ApplyAll(g, ops), k).props == NodeAt(g, k).props + WritesTo(ops, k)
  {
    if ops != [] {
      var before, op := ops[..|ops| - 1], ops[|ops| - 1];
      ApplyAllFields(g, before, k);
      ApplyFields(ApplyAll(g, before), op, k);
      assert ops == before + [op];
      FieldsSnoc(NodeAt(g, k), NodeAt(ApplyAll(g, before), k), NodeAt(ApplyAll(g, ops), k), before, op, k);
    }
  }

  lemma FieldsSnoc(start: Node, mid: Node, end: Node, before: seq<Op>, op: Op, k: NodeKey)
    requires mid.labels == start.labels + LabelsAt(before, k) && mid.props == start.props + WritesTo(before, k)
    requires end.labels == mid.labels + LabelsAt([op], k) && end.props == mid.props + WritesTo([op], k)
    ensures end.labels == start.labels + LabelsAt(before + [op], k)
    ensures end.props == start.props + WritesTo(before + [op], k)
  {
    LabelsConcat(before, [op], k);
    WritesConcat(before, [op], k);
  }

  lemma SameEffectSameGraph(g: Graph, a: seq<Op>, b: seq<Op>)
    requires SameEffect(a, b)
    ensures ApplyAll(g, a) == ApplyAll(g, b)
  {
    var x, y := ApplyAll(g, a), ApplyAll(g, b);
    ApplyAllShape(g, a);
    ApplyAllShape(g, b);
    forall k | k in x.nodes ensures x.nodes[k] == y.nodes[k] {
      ApplyAllFields(g, a, k);
      ApplyAllFields(g, b, k);
      assert NodeAt(x, k) == NodeAt(y, k);
    }
    assert x.nodes == y.nodes;
  }
}
