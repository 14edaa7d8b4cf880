/** Directed graphs over names, and where their chains lead in a circle. */
module Chains {

  type Graph = map<string, set<string>>

  predicate Edge(g: Graph, a: string, b: string) {
    a in g && b in g[a]
  }

  /** A nonempty chain of edges. */
  predicate Chain(g: Graph, p: seq<string>) {
    && p != []
    && (forall i | 0 <= i < |p| :: p[i] in g)
    && (forall i | 0 <= i < |p| - 1 :: Edge(g, p[i], p[i + 1]))
  }

  ghost predicate Reaches(g: Graph, a: string, b: string) {
    exists p :: Chain(g, p) && p[0] == a && p[|p| - 1] == b
  }

  predicate Repeats(p: seq<string>) {
    exists i, j | 0 <= i < j < |p| :: p[i] == p[j]
  }

  /** Some chain from `a` visits a name twice. */
  ghost predicate ReachesCycle(g: Graph, a: string) {
    exists p :: Chain(g, p) && p[0] == a && Repeats(p)
  }

  lemma ReachesSelf(g: Graph, a: string)
    requires a in g
    ensures Reaches(g, a, a)
  {
    assert Chain(g, [a]);
  }

  lemma ReachesNext(g: Graph, a: string, b: string, c: string)
    requires c in g && Reaches(g, a, b) && Edge(g, b, c)
    ensures Reaches(g, a, c)
  {
    var p :| Chain(g, p) && p[0] == a && p[|p| - 1] == b;
    var q := p + [c];
    assert forall i | 0 <= i < |q| - 1 :: i < |p| - 1 ==> Edge(g, p[i], p[i + 1]);
    assert Chain(g, q);
  }

  /** An edge that leads back is a cycle. */
  lemma BackEdgeIsCycle(g: Graph, u: string, v: string)
    requires Edge(g, u, v) && Reaches(g, v, u)
    ensures ReachesCycle(g, u)
  {
    var p :| Chain(g, p) && p[0] == v && p[|p| - 1] == u;
    var q := [u] + p;
    assert Chain(g, q) && q[0] == q[|q| - 1];
  }

  lemma CycleBehind(g: Graph, u: string, v: string)
    requires Edge(g, u, v) && ReachesCycle(g, v)
    ensures ReachesCycle(g, u)
  {
    var p :| Chain(g, p) && p[0] == v && Repeats(p);
    var q := [u] + p;
    var i, j :| 0 <= i < j < |p| && p[i] == p[j];
    assert q[i + 1] == q[j + 1];
    assert Chain(g, q);
  }

  lemma {:induction false} DistinctFits(p: seq<string>, s: set<string>)
    requires !Repeats(p) && forall i | 0 <= i < |p| :: p[i] in s
    ensures |p| <= |s|
  {
    if p != [] {
      var last := p[|p| - 1];
      forall i | 0 <= i < |p| - 1
        ensures p[i] in s - {last}
      {
        assert p[i] != p[|p| - 1];
      }
      DistinctFits(p[..|p| - 1], s - {last});
    }
  }
}
