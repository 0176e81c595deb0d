/** Trails along edges of the lineage graph, with or against their direction. */
module LineageWalk {
  import opened Collections
  import opened Lineage

  type Link = (LineageNode, LineageNode)

  /** Steps a walk can take. */
  function Links(edges: seq<GraphEdge>, incoming: bool): set<Link> {
    set e | e in edges :: if incoming then (e.to, e.from) else (e.from, e.to)
  }

  lemma LinksNext(edges: seq<GraphEdge>, i: nat, incoming: bool)
    requires i < |edges|
    ensures Links(edges[..i + 1], incoming)
         == Links(edges[..i], incoming)
            + {if incoming then (edges[i].to, edges[i].from) else (edges[i].from, edges[i].to)}
  {
    TakeOneMore(edges, i);
    forall e ensures e in edges[..i + 1] <==> e in edges[..i] || e == edges[i] {
      assert e in Elements(edges[..i + 1]) <==> e in Elements(edges[..i]) || e == edges[i];
    }
  }

  function Next(links: set<Link>, node: LineageNode): set<LineageNode> {
    set l | l in links && l.0 == node :: l.1
  }

  ghost predicate IsTrail(links: set<Link>, trail: seq<LineageNode>) {
    && |trail| >= 2
    && forall i, j :: 0 <= i < |trail| && 0 <= j < |trail| && j == i + 1 ==> (trail[i], trail[j]) in links
  }

  /** `b` is at least one step away from `a`; a node leads to itself only around a cycle. */
  ghost predicate Leads(links: set<Link>, a: LineageNode, b: LineageNode) {
    exists trail :: IsTrail(links, trail) && trail[0] == a && trail[|trail| - 1] == b
  }

  ghost function Reached(links: set<Link>, a: LineageNode): set<LineageNode> {
    set l | l in links && Leads(links, a, l.1) :: l.1
  }

  lemma LeadsIsReached(links: set<Link>, a: LineageNode, b: LineageNode)
    ensures b in Reached(links, a) <==> Leads(links, a, b)
  {
    if Leads(links, a, b) {
      var trail :| IsTrail(links, trail) && trail[0] == a && trail[|trail| - 1] == b;
      var last := (trail[|trail| - 2], trail[|trail| - 1]);
      assert last in links && last.1 == b;
    }
  }

  lemma LeadsByOne(links: set<Link>, a: LineageNode, b: LineageNode)
    requires (a, b) in links
    ensures Leads(links, a, b)
  {
    assert IsTrail(links, [a, b]);
  }

  lemma LeadsFurther(links: set<Link>, a: LineageNode, b: LineageNode, next: LineageNode)
    requires Leads(links, a, b) && (b, next) in links
    ensures Leads(links, a, next)
  {
    var trail :| IsTrail(links, trail) && trail[0] == a && trail[|trail| - 1] == b;
    assert IsTrail(links, trail + [next]);
  }

  /** What the next nodes of the start lie in, and links do not leave, contains all a walk can reach. */
  lemma {:induction false} TrailStays(links: set<Link>, inside: set<LineageNode>, trail: seq<LineageNode>)
    requires IsTrail(links, trail) && Next(links, trail[0]) <= inside
    requires forall n :: n in inside ==> Next(links, n) <= inside
    ensures trail[|trail| - 1] in inside
  {
    assert (trail[0], trail[1]) in links;
    assert trail[1] in Next(links, trail[0]);
    if |trail| > 2 {
      TrailStays(links, inside, trail[1..]);
    }
  }

  ghost function Backwards(trail: seq<LineageNode>): (r: seq<LineageNode>) {
    seq(|trail|, i requires 0 <= i < |trail| => trail[|trail| - 1 - i])
  }

  lemma LeadsBack(edges: seq<GraphEdge>, incoming: bool, a: LineageNode, b: LineageNode)
    requires Leads(Links(edges, incoming), a, b)
    ensures Leads(Links(edges, !incoming), b, a)
  {
    var links, back := Links(edges, incoming), Links(edges, !incoming);
    var trail :| IsTrail(links, trail) && trail[0] == a && trail[|trail| - 1] == b;
    var r := Backwards(trail);
    forall i, j | 0 <= i < |r| && 0 <= j < |r| && j == i + 1 ensures (r[i], r[j]) in back {
      var l := (trail[|trail| - 1 - j], trail[|trail| - 1 - i]);
      assert l in links;
      var e :| e in edges && l == if incoming then (e.to, e.from) else (e.from, e.to);
      assert (r[i], r[j]) == if !incoming then (e.to, e.from) else (e.from, e.to);
    }
    assert IsTrail(back, r);
  }

  /** What is downstream of a node has that node upstream, and the other way round. */
  lemma WalksAreConverse(edges: seq<GraphEdge>, a: LineageNode, b: LineageNode)
    ensures b in Reached(Links(edges, false), a) <==> a in Reached(Links(edges, true), b)
  {
    LeadsIsReached(Links(edges, false), a, b);
    LeadsIsReached(Links(edges, true), b, a);
    if Leads(Links(edges, false), a, b) {
      LeadsBack(edges, false, a, b);
    }
    if Leads(Links(edges, true), b, a) {
      LeadsBack(edges, true, b, a);
    }
  }

  // -- The worklist ----------------------------------------------------------------------------------

  /** Only nodes still queued may have neighbours not yet visited. */
  ghost predicate Settled(
    links: set<Link>, start: LineageNode, visited: set<LineageNode>, queued: set<LineageNode>)
  {
    forall n :: (n == start || n in visited) && n !in queued ==> Next(links, n) <= visited
  }

  lemma NextIsReached(links: set<Link>, start: LineageNode, n: LineageNode)
    requires n == start || n in Reached(links, start)
    ensures Next(links, n) <= Reached(links, start)
  {
    forall next | next in Next(links, n) ensures next in Reached(links, start) {
      assert (n, next) in links;
      if n != start {
        LeadsIsReached(links, start, n);
        LeadsFurther(links, start, n, next);
      } else {
        LeadsByOne(links, start, next);
      }
      LeadsIsReached(links, start, next);
    }
  }

  lemma SettledIsAll(links: set<Link>, start: LineageNode, visited: set<LineageNode>)
    requires Settled(links, start, visited, {})
    ensures Reached(links, start) <= visited
  {
    forall b | b in Reached(links, start) ensures b in visited {
      LeadsIsReached(links, start, b);
      var trail :| IsTrail(links, trail) && trail[0] == start && trail[|trail| - 1] == b;
      TrailStays(links, visited, trail);
    }
  }
}
