/**
 Nodes, edges and metadata of the lineage graph
 (crates/phlo-transform-core/src/lineage.rs).
 */
module Lineage {
  import opened Wrappers
  import opened Collections
  import opened Ordering
  import opened Identity

  // -- Nodes ---------------------------------------------------------------------------------

  /** A dataset is named by its parts, a column by its dataset and name. */
  datatype LineageNode =
    | Model(id: ModelId)
    | Dataset(parts: seq<string>)
    | Column(parts: seq<string>, name: string)
    | Test(test: string)

  datatype DatasetKind = ModelData | SourceData | SeedData | ExternalData

  datatype NodeMeta = NodeMeta(
    path: Option<string>,
    version: Option<string>,
    datasetKind: Option<DatasetKind>,
    target: Option<string>,
    dataType: Option<string>,
    nullability: Option<string>,
    confidence: Option<Confidence>,
    generated: bool,
    materialization: Option<string>,
    workflow: Option<string>)

  const EMPTY_META := NodeMeta(None, None, None, None, None, None, None, false, None, None)

  function Later<T>(known: Option<T>, found: Option<T>): Option<T> {
    if found.Some? then found else known
  }

  /** Later metadata wins field by field; a generated test stays generated. */
  function Merged(meta: NodeMeta, other: NodeMeta): NodeMeta {
    NodeMeta(
      Later(meta.path, other.path), Later(meta.version, other.version), Later(meta.datasetKind, other.datasetKind),
      Later(meta.target, other.target), Later(meta.dataType, other.dataType),
      Later(meta.nullability, other.nullability), Later(meta.confidence, other.confidence),
      meta.generated || other.generated, Later(meta.materialization, other.materialization),
      Later(meta.workflow, other.workflow))
  }

  function DatasetUri(parts: seq<string>): string {
    "dataset://" + Join(parts, '/')
  }

  function Uri(node: LineageNode): string {
    match node
    case Model(id) => ModelUri(id)
    case Dataset(parts) => DatasetUri(parts)
    case Column(parts, name) => DatasetUri(parts) + "#" + name
    case Test(test) => "test://" + Replace(test, '.', '/')
  }

  function Kind(node: LineageNode): string {
    match node
    case Model(_) => "model"
    case Dataset(_) => "dataset"
    case Column(_, _) => "column"
    case Test(_) => "test"
  }

  function Label(node: LineageNode): string {
    match node
    case Model(id) => LogicalName(id)
    case Dataset(parts) => Join(parts, '.')
    case Column(parts, name) => Join(parts, '.') + "." + name
    case Test(test) => test
  }

  function NodeRank(node: LineageNode): nat {
    match node
    case Model(_) => 0
    case Dataset(_) => 1
    case Column(_, _) => 2
    case Test(_) => 3
  }

  /** The derived order of nodes. */
  predicate NodeLess(a: LineageNode, b: LineageNode) {
    if NodeRank(a) != NodeRank(b) then NodeRank(a) < NodeRank(b)
    else
      match a
      case Model(id) => ModelLess(id, b.id)
      case Dataset(parts) => PathLess(parts, b.parts)
      case Column(parts, name) => PathLess(parts, b.parts) || (parts == b.parts && StringLess(name, b.name))
      case Test(test) => StringLess(test, b.test)
  }

  lemma NodeLessTotal()
    ensures StrictTotal(NodeLess)
  {
    ModelLessTotal();
    PathLessTotal();
    StringLessTotal();
  }

  // -- Edges -------------------------------------------------------------------------------------

  datatype EdgeKind = Input | Output | Derives | Contains | Tests

  datatype Directness = Direct | Indirect

  datatype Transformation =
    | Identity | Transformed | Aggregation | JoinKey | Filter | GroupBy | SortKey | Window | Conditional

  datatype Confidence = Exact | Inferred | Declared | Runtime | Unknown

  datatype Edge = Edge(
    kind: EdgeKind,
    directness: Option<Directness>,
    transformation: Option<Transformation>,
    confidence: Option<Confidence>,
    expression: Option<string>)

  datatype GraphEdge = GraphEdge(from: LineageNode, to: LineageNode, edge: Edge)

  function Plain(kind: EdgeKind): Edge {
    Edge(kind, None, None, None, None)
  }

  function KindRank(kind: EdgeKind): nat {
    match kind
    case Input => 0
    case Output => 1
    case Derives => 2
    case Contains => 3
    case Tests => 4
  }

  function DirectnessRank(directness: Option<Directness>): nat {
    match directness
    case None => 0
    case Some(Direct) => 1
    case Some(Indirect) => 2
  }

  function TransformationRank(transformation: Option<Transformation>): nat {
    match transformation
    case None => 0
    case Some(Identity) => 1
    case Some(Transformed) => 2
    case Some(Aggregation) => 3
    case Some(JoinKey) => 4
    case Some(Filter) => 5
    case Some(GroupBy) => 6
    case Some(SortKey) => 7
    case Some(Window) => 8
    case Some(Conditional) => 9
  }

  function ConfidenceRank(confidence: Option<Confidence>): nat {
    match confidence
    case None => 0
    case Some(Exact) => 1
    case Some(Inferred) => 2
    case Some(Declared) => 3
    case Some(Runtime) => 4
    case Some(Unknown) => 5
  }

  predicate TextLess(a: Option<string>, b: Option<string>) {
    match (a, b)
    case (_, None) => false
    case (None, Some(_)) => true
    case (Some(x), Some(y)) => StringLess(x, y)
  }

  /** Kind, directness, transformation, confidence, expression. Within one kind this is the sort key of edge bags. */
  predicate EdgeLess(a: Edge, b: Edge) {
    if a.kind != b.kind then KindRank(a.kind) < KindRank(b.kind)
    else if a.directness != b.directness then DirectnessRank(a.directness) < DirectnessRank(b.directness)
    else if a.transformation != b.transformation then
      TransformationRank(a.transformation) < TransformationRank(b.transformation)
    else if a.confidence != b.confidence then ConfidenceRank(a.confidence) < ConfidenceRank(b.confidence)
    else TextLess(a.expression, b.expression)
  }

  lemma EdgeLessTotal()
    ensures StrictTotal(EdgeLess)
  {
    StringLessTotal();
  }

  // -- Graphs ------------------------------------------------------------------------------------

  /** A graph as its readers see it: nodes in their order, their metadata, edges in insertion order. */
  datatype GraphView = GraphView(nodes: seq<LineageNode>, meta: map<LineageNode, NodeMeta>, edges: seq<GraphEdge>)

  ghost predicate IsView(g: GraphView) {
    Distinct(g.nodes) && Sorted(NodeLess, g.nodes) && Elements(g.nodes) == g.meta.Keys
  }
}
