/**
 The canonical document of a lineage graph and its fingerprint
 (crates/phlo-transform-core/src/lineage.rs).

 Serialisation and SHA-256 are parameters that are assumed not to collide.
 */
module Fingerprint {
  import opened Collections
  import opened Ordering
  import opened Identity
  import opened Lineage
  import opened LineageDiff

  datatype NodeJson = NodeJson(uri: string, kind: string, name: string, meta: NodeMeta)

  datatype EdgeJson = EdgeJson(from: string, to: string, edge: Edge)

  datatype Document = Document(nodes: seq<NodeJson>, edges: seq<EdgeJson>)

  function NodeJsons(nodes: seq<LineageNode>, meta: map<LineageNode, NodeMeta>): (r: seq<NodeJson>)
    requires Elements(nodes) <= meta.Keys
    ensures |r| == |nodes|
    ensures forall i :: 0 <= i < |nodes| ==>
              nodes[i] in meta && r[i] == NodeJson(Uri(nodes[i]), Kind(nodes[i]), Label(nodes[i]), meta[nodes[i]])
  {
    if nodes == [] then []
    else
      assert nodes[0] in Elements(nodes) && Elements(nodes[1..]) <= Elements(nodes);
      [NodeJson(Uri(nodes[0]), Kind(nodes[0]), Label(nodes[0]), meta[nodes[0]])] + NodeJsons(nodes[1..], meta)
  }

  function ToJson(e: GraphEdge): EdgeJson {
    EdgeJson(Uri(e.from), Uri(e.to), e.edge)
  }

  function EdgeJsons(edges: seq<GraphEdge>): seq<EdgeJson> {
    if edges == [] then [] else [ToJson(edges[0])] + EdgeJsons(edges[1..])
  }

  /** The document's own order of edges; parallel edges are not ordered by it. */
  predicate EndsLess(a: EdgeJson, b: EdgeJson) {
    StringLess(a.from, b.from) || (a.from == b.from && StringLess(a.to, b.to))
  }

  /** The fingerprint's order of edges. */
  predicate JsonLess(a: EdgeJson, b: EdgeJson) {
    EndsLess(a, b) || (a.from == b.from && a.to == b.to && EdgeLess(a.edge, b.edge))
  }

  lemma JsonLessTotal()
    ensures StrictTotal(JsonLess)
  {
    StringLessTotal();
    EdgeLessTotal();
  }

  function DocumentOf(g: GraphView): Document
    requires Elements(g.nodes) <= g.meta.Keys
  {
    Document(NodeJsons(g.nodes, g.meta), Sort(EndsLess, EdgeJsons(g.edges)))
  }

  function Canonical(g: GraphView): Document
    requires Elements(g.nodes) <= g.meta.Keys
  {
    var document := DocumentOf(g);
    document.(edges := Sort(JsonLess, document.edges))
  }

  function FingerprintOf(g: GraphView, json: Document -> string, sha: string -> string): string
    requires Elements(g.nodes) <= g.meta.Keys
  {
    sha(json(Canonical(g)))
  }

  // -- URIs identify nodes ------------------------------------------------------------------------------

  /** Names a URI can be read back from: valid identities, and parts free of the URI's own punctuation. */
  ghost predicate PlainNode(node: LineageNode) {
    match node
    case Model(id) => IsModelId(id)
    case Dataset(parts) => PlainParts(parts)
    case Column(parts, _) => PlainParts(parts)
    case Test(test) => Free(test, '/')
  }

  ghost predicate PlainParts(parts: seq<string>) {
    parts != [] && forall i :: 0 <= i < |parts| ==> Free(parts[i], '/') && Free(parts[i], '#')
  }

  lemma {:induction false} JoinFree(parts: seq<string>, separator: char, c: char)
    requires c != separator && forall i :: 0 <= i < |parts| ==> Free(parts[i], c)
    ensures Free(Join(parts, separator), c)
  {
    if |parts| > 1 {
      JoinFree(parts[1..], separator, c);
    }
  }

  lemma DatasetUriInjective(a: seq<string>, b: seq<string>)
    requires PlainParts(a) && PlainParts(b) && DatasetUri(a) == DatasetUri(b)
    ensures a == b
  {
    var scheme := "dataset://";
    assert Join(a, '/') == DatasetUri(a)[|scheme|..] && Join(b, '/') == DatasetUri(b)[|scheme|..];
    JoinInjective(a, b, '/');
  }

  lemma DatasetUriFree(parts: seq<string>)
    requires PlainParts(parts)
    ensures Free(DatasetUri(parts), '#')
  {
    JoinFree(parts, '/', '#');
    var scheme := "dataset://";
    assert Free(scheme, '#');
    var uri := DatasetUri(parts);
    forall i | 0 <= i < |uri| ensures uri[i] != '#' {
      assert uri[i] == if i < |scheme| then scheme[i] else Join(parts, '/')[i - |scheme|];
    }
  }

  lemma FirstHash(a: string, b: string, x: string, y: string)
    requires Free(a, '#') && Free(b, '#') && a + "#" + x == b + "#" + y
    ensures a == b && x == y
  {
    SplitHead(a, x, '#');
    SplitHead(b, y, '#');
    assert a == Split(a + "#" + x, '#')[0] && b == Split(b + "#" + y, '#')[0];
    assert x == (a + "#" + x)[|a| + 1..] && y == (b + "#" + y)[|b| + 1..];
  }

  lemma ColumnUriInjective(a: seq<string>, x: string, b: seq<string>, y: string)
    requires PlainParts(a) && PlainParts(b) && DatasetUri(a) + "#" + x == DatasetUri(b) + "#" + y
    ensures a == b && x == y
  {
    DatasetUriFree(a);
    DatasetUriFree(b);
    FirstHash(DatasetUri(a), DatasetUri(b), x, y);
    DatasetUriInjective(a, b);
  }

  lemma ColumnIsNoDataset(a: seq<string>, b: seq<string>, y: string)
    requires PlainParts(a)
    ensures DatasetUri(a) != DatasetUri(b) + "#" + y
  {
    DatasetUriFree(a);
    var column := DatasetUri(b) + "#" + y;
    assert column[|DatasetUri(b)|] == '#';
  }

  lemma {:induction false} ReplaceInjective(a: string, b: string)
    requires Free(a, '/') && Free(b, '/') && Replace(a, '.', '/') == Replace(b, '.', '/')
    ensures a == b
  {
    assert |a| == |Replace(a, '.', '/')| == |Replace(b, '.', '/')| == |b|;
    forall i | 0 <= i < |a| ensures a[i] == b[i] {
      assert Replace(a, '.', '/')[i] == Replace(b, '.', '/')[i];
    }
  }

  lemma ModelUriInjective(a: ModelId, b: ModelId)
    requires IsModelId(a) && IsModelId(b) && ModelUri(a) == ModelUri(b)
    ensures a == b
  {
    ParseRoundTrip(a);
    ParseRoundTrip(b);
  }

  lemma TestUriInjective(a: string, b: string)
    requires Free(a, '/') && Free(b, '/') && Uri(Test(a)) == Uri(Test(b))
    ensures a == b
  {
    var scheme := "test://";
    assert Replace(a, '.', '/') == Uri(Test(a))[|scheme|..] && Replace(b, '.', '/') == Uri(Test(b))[|scheme|..];
    ReplaceInjective(a, b);
  }

  lemma SchemesDiffer(a: LineageNode, b: LineageNode)
    requires Uri(a) == Uri(b)
    ensures a.Model? <==> b.Model?
    ensures a.Test? <==> b.Test?
  {
    assert Uri(a)[0] == if a.Model? then 'm' else if a.Test? then 't' else 'd';
    assert Uri(b)[0] == if b.Model? then 'm' else if b.Test? then 't' else 'd';
  }

  /** Nodes with plain names have one URI each. */
  lemma UrisIdentify(a: LineageNode, b: LineageNode)
    requires PlainNode(a) && PlainNode(b) && Uri(a) == Uri(b)
    ensures a == b
  {
    SchemesDiffer(a, b);
    match a
    case Model(id) => ModelUriInjective(id, b.id);
    case Test(test) => TestUriInjective(test, b.test);
    case Dataset(parts) =>
      if b.Dataset? {
        DatasetUriInjective(parts, b.parts);
      } else {
        ColumnIsNoDataset(parts, b.parts, b.name);
      }
    case Column(parts, name) =>
      if b.Column? {
        ColumnUriInjective(parts, name, b.parts, b.name);
      } else {
        ColumnIsNoDataset(b.parts, parts, name);
      }
  }

  // -- Equal fingerprints mean equal graphs -----------------------------------------------------------------

  ghost predicate PlainGraph(g: GraphView) {
    && IsView(g)
    && (forall node :: node in g.meta ==> PlainNode(node))
    && forall e :: e in g.edges ==> PlainNode(e.from) && PlainNode(e.to)
  }

  ghost predicate DoesNotCollide(json: Document -> string, sha: string -> string) {
    exists parse: string -> Document :: Parses(parse, json, sha)
  }

  ghost predicate Parses(parse: string -> Document, json: Document -> string, sha: string -> string) {
    forall document :: parse(sha(json(document))) == document
  }

  ghost predicate AllPlain(nodes: seq<LineageNode>) {
    forall i :: 0 <= i < |nodes| ==> PlainNode(nodes[i])
  }

  lemma SameNodes(
    a: seq<LineageNode>, m: map<LineageNode, NodeMeta>, b: seq<LineageNode>, n: map<LineageNode, NodeMeta>)
    requires AllPlain(a) && AllPlain(b) && Elements(a) <= m.Keys && Elements(b) <= n.Keys
    requires NodeJsons(a, m) == NodeJsons(b, n)
    ensures a == b
  {
    assert |a| == |NodeJsons(a, m)| == |NodeJsons(b, n)| == |b|;
    forall i | 0 <= i < |a| ensures a[i] == b[i] {
      assert Uri(a[i]) == NodeJsons(a, m)[i].uri == NodeJsons(b, n)[i].uri == Uri(b[i]);
      UrisIdentify(a[i], b[i]);
    }
  }

  lemma SameMeta(nodes: seq<LineageNode>, m: map<LineageNode, NodeMeta>, n: map<LineageNode, NodeMeta>)
    requires Elements(nodes) == m.Keys == n.Keys && NodeJsons(nodes, m) == NodeJsons(nodes, n)
    ensures m == n
  {
    forall node | node in m ensures m[node] == n[node] {
      assert node in Elements(nodes);
      var i :| 0 <= i < |nodes| && nodes[i] == node;
      assert NodeJsons(nodes, m)[i].meta == m[node] && NodeJsons(nodes, n)[i].meta == n[node];
    }
  }

  lemma SameOrder(g: GraphView, h: GraphView)
    requires IsView(g) && IsView(h) && g.meta == h.meta
    ensures g.nodes == h.nodes
  {
    NodeLessTotal();
    DistinctBag(g.nodes, h.nodes);
    SortedUnique(NodeLess, g.nodes, h.nodes);
  }

  lemma NodesTold(g: GraphView, h: GraphView)
    requires PlainGraph(g) && PlainGraph(h)
    ensures NodeJsons(g.nodes, g.meta) == NodeJsons(h.nodes, h.meta) <==> g.meta == h.meta
  {
    if NodeJsons(g.nodes, g.meta) == NodeJsons(h.nodes, h.meta) {
      forall i | 0 <= i < |g.nodes| ensures PlainNode(g.nodes[i]) {
        assert g.nodes[i] in Elements(g.nodes);
      }
      forall i | 0 <= i < |h.nodes| ensures PlainNode(h.nodes[i]) {
        assert h.nodes[i] in Elements(h.nodes);
      }
      SameNodes(g.nodes, g.meta, h.nodes, h.meta);
      SameMeta(g.nodes, g.meta, h.meta);
    } else if g.meta == h.meta {
      SameOrder(g, h);
    }
  }

  lemma {:induction false} JsonCount(edges: seq<GraphEdge>, e: GraphEdge)
    requires PlainNode(e.from) && PlainNode(e.to)
    requires forall x :: x in edges ==> PlainNode(x.from) && PlainNode(x.to)
    ensures multiset(EdgeJsons(edges))[ToJson(e)] == multiset(edges)[e]
  {
    if edges != [] {
      JsonCount(edges[1..], e);
      SplitBag(edges);
      SplitBag(EdgeJsons(edges));
      assert edges[0] in edges;
      if ToJson(edges[0]) == ToJson(e) {
        UrisIdentify(edges[0].from, e.from);
        UrisIdentify(edges[0].to, e.to);
      }
    }
  }

  lemma {:induction false} JsonMember(edges: seq<GraphEdge>, j: EdgeJson)
    requires j in EdgeJsons(edges)
    ensures exists e :: e in edges && ToJson(e) == j
  {
    if ToJson(edges[0]) == j {
      assert edges[0] in edges;
    } else {
      JsonMember(edges[1..], j);
      var e :| e in edges[1..] && ToJson(e) == j;
      assert e in edges;
    }
  }

  lemma JsonCountsAgree(g: GraphView, h: GraphView, j: EdgeJson)
    requires PlainGraph(g) && PlainGraph(h) && multiset(g.edges) == multiset(h.edges) && j in EdgeJsons(g.edges)
    ensures multiset(EdgeJsons(g.edges))[j] == multiset(EdgeJsons(h.edges))[j]
  {
    JsonMember(g.edges, j);
    var e :| e in g.edges && ToJson(e) == j;
    JsonCount(g.edges, e);
    JsonCount(h.edges, e);
  }

  lemma JsonsOfEqualBags(g: GraphView, h: GraphView)
    requires PlainGraph(g) && PlainGraph(h) && multiset(g.edges) == multiset(h.edges)
    ensures multiset(EdgeJsons(g.edges)) == multiset(EdgeJsons(h.edges))
  {
    var a, b := multiset(EdgeJsons(g.edges)), multiset(EdgeJsons(h.edges));
    forall j ensures a[j] == b[j] {
      if j in EdgeJsons(g.edges) {
        JsonCountsAgree(g, h, j);
      } else if j in EdgeJsons(h.edges) {
        JsonCountsAgree(h, g, j);
      }
    }
    SameCounts(a, b);
  }

  lemma EdgesTold(g: GraphView, h: GraphView)
    requires PlainGraph(g) && PlainGraph(h)
    ensures Canonical(g).edges == Canonical(h).edges <==> multiset(g.edges) == multiset(h.edges)
  {
    var a, b := EdgeJsons(g.edges), EdgeJsons(h.edges);
    JsonLessTotal();
    SortSorted(JsonLess, Sort(EndsLess, a));
    SortSorted(JsonLess, Sort(EndsLess, b));
    if Canonical(g).edges == Canonical(h).edges {
      assert multiset(a) == multiset(b);
      forall e ensures multiset(g.edges)[e] == multiset(h.edges)[e] {
        EdgeCountTold(g, h, e);
      }
      SameCounts(multiset(g.edges), multiset(h.edges));
    } else if multiset(g.edges) == multiset(h.edges) {
      JsonsOfEqualBags(g, h);
      SortedUnique(JsonLess, Canonical(g).edges, Canonical(h).edges);
    }
  }

  lemma EdgeCountTold(g: GraphView, h: GraphView, e: GraphEdge)
    requires PlainGraph(g) && PlainGraph(h) && multiset(EdgeJsons(g.edges)) == multiset(EdgeJsons(h.edges))
    ensures multiset(g.edges)[e] == multiset(h.edges)[e]
  {
    if PlainNode(e.from) && PlainNode(e.to) {
      JsonCount(g.edges, e);
      JsonCount(h.edges, e);
    } else {
      assert e !in g.edges && e !in h.edges;
    }
  }

  /** Fingerprints agree exactly when the diff is empty, whatever the order edges were added in. */
  lemma FingerprintExactly(g: GraphView, h: GraphView, json: Document -> string, sha: string -> string)
    requires PlainGraph(g) && PlainGraph(h) && DoesNotCollide(json, sha)
    ensures FingerprintOf(g, json, sha) == FingerprintOf(h, json, sha) <==> IsEmpty(DiffOf(g, h))
  {
    NodesTold(g, h);
    EdgesTold(g, h);
    EmptyExactly(g, h);
  }
}
