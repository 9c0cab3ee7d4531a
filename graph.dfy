/**
 * The directed graph a genome's links span, and the reachability facts the
 * structural mutations rely on. The graph counts every link, enabled or not:
 * the cycle test of `mutate_add_link` looks at all of them.
 */
module LinkGraph {
  import opened Genes

  /** The edges of a link list, in order. */
  function Edges(links: seq<LinkGene>): seq<LinkId> {
    seq(|links|, k requires 0 <= k < |links| => links[k].id)
  }

  /** Step `i` of `p` follows an edge of `e`. */
  predicate Step(e: seq<LinkId>, p: seq<int>, i: int)
    requires 0 <= i < |p| - 1
  {
    LinkId(p[i], p[i + 1]) in e
  }

  /** `p` is a non-empty walk along the edges of `e`. */
  predicate IsPath(e: seq<LinkId>, p: seq<int>) {
    |p| > 0 && forall i :: 0 <= i < |p| - 1 ==> Step(e, p, i)
  }

  ghost predicate Reachable(e: seq<LinkId>, a: int, b: int) {
    exists p :: IsPath(e, p) && p[0] == a && p[|p| - 1] == b
  }

  /** No edge closes a cycle: the source of an edge is never reachable from its target. */
  ghost predicate Acyclic(e: seq<LinkId>) {
    forall k :: 0 <= k < |e| ==> !Reachable(e, e[k].outId, e[k].inId)
  }

  lemma ReachRefl(e: seq<LinkId>, a: int)
    ensures Reachable(e, a, a)
  {
    assert IsPath(e, [a]);
  }

  lemma ReachPrepend(e: seq<LinkId>, a: int, b: int, c: int)
    requires LinkId(a, b) in e && Reachable(e, b, c)
    ensures Reachable(e, a, c)
  {
    var p :| IsPath(e, p) && p[0] == b && p[|p| - 1] == c;
    var q := [a] + p;
    forall i | 0 <= i < |q| - 1
      ensures Step(e, q, i)
    {
      if i > 0 {
        assert Step(e, p, i - 1);
      }
    }
    assert IsPath(e, q);
  }

  lemma PathEnds(e: seq<LinkId>, p: seq<int>)
    requires IsPath(e, p) && |p| > 1
    ensures LinkId(p[0], p[1]) in e && LinkId(p[|p| - 2], p[|p| - 1]) in e
  {
    assert Step(e, p, 0);
    assert Step(e, p, |p| - 2);
  }

  lemma ReachEdge(e: seq<LinkId>, a: int, b: int)
    requires LinkId(a, b) in e
    ensures Reachable(e, a, b)
  {
    ReachRefl(e, b);
    ReachPrepend(e, a, b, b);
  }

  lemma {:induction false} ReachAlongPath(e: seq<LinkId>, p: seq<int>, c: int)
    requires IsPath(e, p) && Reachable(e, p[|p| - 1], c)
    ensures Reachable(e, p[0], c)
    decreases |p|
  {
    if |p| > 1 {
      var rest := p[1..];
      forall i | 0 <= i < |rest| - 1
        ensures Step(e, rest, i)
      {
        assert Step(e, p, i + 1);
      }
      ReachAlongPath(e, rest, c);
      assert Step(e, p, 0);
      ReachPrepend(e, p[0], p[1], c);
    }
  }

  lemma ReachTrans(e: seq<LinkId>, a: int, b: int, c: int)
    requires Reachable(e, a, b) && Reachable(e, b, c)
    ensures Reachable(e, a, c)
  {
    var p :| IsPath(e, p) && p[0] == a && p[|p| - 1] == b;
    ReachAlongPath(e, p, c);
  }

  /** A walk that starts inside a set closed under successors never leaves it. */
  lemma {:induction false} PathStaysInClosed(e: seq<LinkId>, s: set<int>, p: seq<int>)
    requires IsPath(e, p) && p[0] in s
    requires forall k :: 0 <= k < |e| && e[k].inId in s ==> e[k].outId in s
    ensures p[|p| - 1] in s
    decreases |p|
  {
    if |p| > 1 {
      assert Step(e, p, 0);
      var k :| 0 <= k < |e| && e[k] == LinkId(p[0], p[1]);
      var rest := p[1..];
      forall i | 0 <= i < |rest| - 1
        ensures Step(e, rest, i)
      {
        assert Step(e, p, i + 1);
      }
      PathStaysInClosed(e, s, rest);
    }
  }

  lemma ClosedBlocks(e: seq<LinkId>, s: set<int>, a: int, b: int)
    requires a in s && b !in s
    requires forall k :: 0 <= k < |e| && e[k].inId in s ==> e[k].outId in s
    ensures !Reachable(e, a, b)
  {
    if p :| IsPath(e, p) && p[0] == a && p[|p| - 1] == b {
      PathStaysInClosed(e, s, p);
    }
  }

  /** Reachability only grows with the edge set. */
  lemma Subgraph(e1: seq<LinkId>, e2: seq<LinkId>, a: int, b: int)
    requires forall x :: x in e1 ==> x in e2
    requires Reachable(e1, a, b)
    ensures Reachable(e2, a, b)
  {
    var p :| IsPath(e1, p) && p[0] == a && p[|p| - 1] == b;
    forall i | 0 <= i < |p| - 1
      ensures Step(e2, p, i)
    {
      assert Step(e1, p, i);
    }
    assert IsPath(e2, p);
  }

  /** Removing edges (keeping any sub-collection of them) cannot create a cycle. */
  lemma AcyclicSubgraph(e1: seq<LinkId>, e2: seq<LinkId>)
    requires forall x :: x in e1 ==> x in e2
    requires Acyclic(e2)
    ensures Acyclic(e1)
  {
    forall k | 0 <= k < |e1|
      ensures !Reachable(e1, e1[k].outId, e1[k].inId)
    {
      var x := e1[k];
      assert x in e2;
      var j :| 0 <= j < |e2| && e2[j] == x;
      if Reachable(e1, x.outId, x.inId) {
        Subgraph(e1, e2, x.outId, x.inId);
      }
    }
  }

  lemma RemoveEdgeAcyclic(e: seq<LinkId>, k: int)
    requires Acyclic(e) && 0 <= k < |e|
    ensures Acyclic(e[..k] + e[k + 1..])
  {
    var e' := e[..k] + e[k + 1..];
    forall x | x in e'
      ensures x in e
    {
      var j :| 0 <= j < |e'| && e'[j] == x;
      if j < k {
        assert e[j] == x;
      } else {
        assert e[j + 1] == x;
      }
    }
    AcyclicSubgraph(e', e);
  }

  /** A walk over `e` plus the edge a->b either avoids that edge or passes through a and then b. */
  lemma {:induction false} PathWithAddedEdge(e: seq<LinkId>, a: int, b: int, p: seq<int>)
    requires IsPath(e + [LinkId(a, b)], p)
    ensures Reachable(e, p[0], p[|p| - 1]) ||
            (Reachable(e, p[0], a) && Reachable(e, b, p[|p| - 1]))
    decreases |p|
  {
    var e' := e + [LinkId(a, b)];
    if |p| == 1 {
      ReachRefl(e, p[0]);
    } else {
      var rest := p[1..];
      forall i | 0 <= i < |rest| - 1
        ensures Step(e', rest, i)
      {
        assert Step(e', p, i + 1);
      }
      PathWithAddedEdge(e, a, b, rest);
      assert Step(e', p, 0);
      if LinkId(p[0], p[1]) in e {
        if Reachable(e, p[1], p[|p| - 1]) {
          ReachPrepend(e, p[0], p[1], p[|p| - 1]);
        } else {
          ReachPrepend(e, p[0], p[1], a);
        }
      } else {
        assert p[0] == a && p[1] == b;
        ReachRefl(e, a);
      }
    }
  }

  lemma ReachWithAddedEdge(e: seq<LinkId>, a: int, b: int, x: int, y: int)
    requires Reachable(e + [LinkId(a, b)], x, y)
    ensures Reachable(e, x, y) || (Reachable(e, x, a) && Reachable(e, b, y))
  {
    var p :| IsPath(e + [LinkId(a, b)], p) && p[0] == x && p[|p| - 1] == y;
    PathWithAddedEdge(e, a, b, p);
  }

  /**
   * The feed-forward rule of `mutate_add_link`: appending a->b to an acyclic
   * graph keeps it acyclic exactly when a is not reachable from b.
   */
  lemma AddEdgeAcyclic(e: seq<LinkId>, a: int, b: int)
    requires Acyclic(e)
    ensures Acyclic(e + [LinkId(a, b)]) <==> !Reachable(e, b, a)
  {
    var e' := e + [LinkId(a, b)];
    if Reachable(e, b, a) {
      Subgraph(e, e', b, a);
      assert e'[|e|] == LinkId(a, b);
    } else {
      forall k | 0 <= k < |e'|
        ensures !Reachable(e', e'[k].outId, e'[k].inId)
      {
        var x, y := e'[k].inId, e'[k].outId;
        if Reachable(e', y, x) {
          ReachWithAddedEdge(e, a, b, y, x);
          if k < |e| {
            assert e[k] == LinkId(x, y);
            if Reachable(e, y, a) && Reachable(e, b, x) {
              ReachEdge(e, x, y);
              ReachTrans(e, b, x, y);
              ReachTrans(e, b, y, a);
            }
          }
        }
      }
    }
  }

  /** Nothing but `n` itself is reachable from a node `n` without outgoing edges. */
  lemma NoOutgoing(e: seq<LinkId>, n: int, x: int)
    requires forall k :: 0 <= k < |e| ==> e[k].inId != n
    requires x != n
    ensures !Reachable(e, n, x)
  {
    ClosedBlocks(e, {n}, n, x);
  }

  /** A node `n` without incoming edges is reachable from nothing but itself. */
  lemma NoIncoming(e: seq<LinkId>, n: int, x: int)
    requires forall k :: 0 <= k < |e| ==> e[k].outId != n
    requires x != n
    ensures !Reachable(e, x, n)
  {
    if p :| IsPath(e, p) && p[0] == x && p[|p| - 1] == n {
      PathEnds(e, p);
    }
  }

  /**
   * Splitting edge `k` through a node `n` that no edge mentions yet (the
   * shape `mutate_add_neuron` appends) keeps an acyclic graph acyclic.
   */
  lemma SplitEdgeAcyclic(e: seq<LinkId>, k: int, n: int)
    requires Acyclic(e) && 0 <= k < |e|
    requires forall j :: 0 <= j < |e| ==> e[j].inId != n && e[j].outId != n
    ensures Acyclic(e + [LinkId(e[k].inId, n), LinkId(n, e[k].outId)])
  {
    var a, b := e[k].inId, e[k].outId;
    NoOutgoing(e, n, a);
    AddEdgeAcyclic(e, a, n);
    var e1 := e + [LinkId(a, n)];
    if Reachable(e1, b, n) {
      ReachWithAddedEdge(e, a, n, b, n);
      NoIncoming(e, n, b);
    }
    AddEdgeAcyclic(e1, n, b);
    assert e1 + [LinkId(n, b)] == e + [LinkId(a, n), LinkId(n, b)];
  }
}
