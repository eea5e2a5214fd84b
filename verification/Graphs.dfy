/** Undirected graphs as sets of pairs, and the connectivity they define. */
module Graphs {

  ghost predicate Linked<T(!new)>(edges: set<(T, T)>, x: T, y: T) {
    (x, y) in edges || (y, x) in edges
  }

  ghost predicate IsPath<T(!new)>(edges: set<(T, T)>, p: seq<T>, x: T, y: T) {
    && 0 < |p| && p[0] == x && p[|p| - 1] == y
    && forall i | 0 <= i < |p| - 1 :: Linked(edges, p[i], p[i + 1])
  }

  /** The equivalence closure of the edges. */
  ghost predicate Connected<T(!new)>(edges: set<(T, T)>, x: T, y: T) {
    exists p :: IsPath(edges, p, x, y)
  }

  lemma ConnectedSelf<T(!new)>(edges: set<(T, T)>, x: T)
    ensures Connected(edges, x, x)
  {
    assert IsPath(edges, [x], x, x);
  }

  lemma ConnectedEdge<T(!new)>(edges: set<(T, T)>, x: T, y: T)
    requires Linked(edges, x, y)
    ensures Connected(edges, x, y)
  {
    assert IsPath(edges, [x, y], x, y);
  }

  lemma ConnectedMore<T(!new)>(edges: set<(T, T)>, more: set<(T, T)>, x: T, y: T)
    requires edges <= more && Connected(edges, x, y)
    ensures Connected(more, x, y)
  {
    var p :| IsPath(edges, p, x, y);
    assert IsPath(more, p, x, y);
  }

  lemma ConnectedJoin<T(!new)>(edges: set<(T, T)>, x: T, y: T, z: T)
    requires Connected(edges, x, y) && Connected(edges, y, z)
    ensures Connected(edges, x, z)
  {
    var p :| IsPath(edges, p, x, y);
    var q :| IsPath(edges, q, y, z);
    var r := p + q[1..];
    forall i | 0 <= i < |r| - 1
      ensures Linked(edges, r[i], r[i + 1])
    {
      if i < |p| - 1 {
        assert r[i] == p[i] && r[i + 1] == p[i + 1];
      } else {
        assert r[i] == q[i - |p| + 1] && r[i + 1] == q[i - |p| + 2];
      }
    }
    assert IsPath(edges, r, x, z);
  }

  lemma {:induction false} PathBack<T(!new)>(edges: set<(T, T)>, p: seq<T>, x: T, y: T)
    requires IsPath(edges, p, x, y)
    ensures Connected(edges, y, x)
    decreases |p|
  {
    if |p| == 1 {
      ConnectedSelf(edges, x);
    } else {
      assert Linked(edges, p[0], p[1]);
      ConnectedEdge(edges, p[1], x);
      PathBack(edges, p[1..], p[1], y);
      ConnectedJoin(edges, y, p[1], x);
    }
  }

  lemma ConnectedBack<T(!new)>(edges: set<(T, T)>, x: T, y: T)
    requires Connected(edges, x, y)
    ensures Connected(edges, y, x)
  {
    var p :| IsPath(edges, p, x, y);
    PathBack(edges, p, x, y);
  }

  /** A labelling that agrees along every edge agrees along every path. */
  lemma {:induction false} PathSame<T(!new), U>(edges: set<(T, T)>, f: T -> U, p: seq<T>, x: T, y: T)
    requires IsPath(edges, p, x, y) && forall e | e in edges :: f(e.0) == f(e.1)
    ensures f(x) == f(y)
    decreases |p|
  {
    if 1 < |p| {
      assert Linked(edges, p[0], p[1]);
      assert f(p[0]) == f(p[1]) by {
        if (p[0], p[1]) in edges { assert f((p[0], p[1]).0) == f((p[0], p[1]).1); }
        else { assert f((p[1], p[0]).0) == f((p[1], p[0]).1); }
      }
      PathSame(edges, f, p[1..], p[1], y);
    }
  }

  lemma ConnectedSame<T(!new), U>(edges: set<(T, T)>, f: T -> U, x: T, y: T)
    requires Connected(edges, x, y) && forall e | e in edges :: f(e.0) == f(e.1)
    ensures f(x) == f(y)
  {
    var p :| IsPath(edges, p, x, y);
    PathSame(edges, f, p, x, y);
  }

  /** Every edge of one graph is a connection of the other: the closure can only be coarser. */
  lemma {:induction false} PathWithin<T(!new)>(edges: set<(T, T)>, other: set<(T, T)>, p: seq<T>, x: T, y: T)
    requires IsPath(edges, p, x, y) && forall e | e in edges :: Connected(other, e.0, e.1)
    ensures Connected(other, x, y)
    decreases |p|
  {
    if |p| == 1 {
      ConnectedSelf(other, x);
    } else {
      assert Linked(edges, p[0], p[1]);
      if (p[0], p[1]) in edges {
        assert Connected(other, (p[0], p[1]).0, (p[0], p[1]).1);
      } else {
        assert Connected(other, (p[1], p[0]).0, (p[1], p[0]).1);
        ConnectedBack(other, p[1], p[0]);
      }
      PathWithin(edges, other, p[1..], p[1], y);
      ConnectedJoin(other, x, p[1], y);
    }
  }

  lemma ConnectedWithin<T(!new)>(edges: set<(T, T)>, other: set<(T, T)>, x: T, y: T)
    requires Connected(edges, x, y) && forall e | e in edges :: Connected(other, e.0, e.1)
    ensures Connected(other, x, y)
  {
    var p :| IsPath(edges, p, x, y);
    PathWithin(edges, other, p, x, y);
  }

  /** Two graphs with the same closure. */
  ghost predicate SameClosure<T(!new)>(edges: set<(T, T)>, other: set<(T, T)>) {
    forall x, y :: Connected(edges, x, y) <==> Connected(other, x, y)
  }

  lemma SameClosureIf<T(!new)>(edges: set<(T, T)>, other: set<(T, T)>)
    requires forall e | e in edges :: Connected(other, e.0, e.1)
    requires forall e | e in other :: Connected(edges, e.0, e.1)
    ensures SameClosure(edges, other)
  {
    forall x, y
      ensures Connected(edges, x, y) <==> Connected(other, x, y)
    {
      if Connected(edges, x, y) { ConnectedWithin(edges, other, x, y); }
      if Connected(other, x, y) { ConnectedWithin(other, edges, x, y); }
    }
  }

  /** A connection between different vertices starts with an edge at its first one. */
  lemma FirstEdge<T(!new)>(edges: set<(T, T)>, x: T, y: T) returns (z: T)
    requires Connected(edges, x, y) && x != y
    ensures Linked(edges, x, z)
  {
    var p :| IsPath(edges, p, x, y);
    z := p[1];
    assert Linked(edges, p[0], p[1]);
  }

  /** A map that takes every edge to an edge takes connected elements to connected ones. */
  lemma {:induction false} PathImage<T(!new), U(!new)>(edges: set<(T, T)>, other: set<(U, U)>, f: T -> U, p: seq<T>,
                                                       x: T, y: T)
    requires IsPath(edges, p, x, y) && forall e | e in edges :: (f(e.0), f(e.1)) in other
    ensures Connected(other, f(x), f(y))
    decreases |p|
  {
    if |p| == 1 {
      ConnectedSelf(other, f(x));
    } else {
      assert Linked(edges, p[0], p[0 + 1]);
      ConnectedEdge(other, f(x), f(p[1]));
      assert IsPath(edges, p[1..], p[1], y);
      PathImage(edges, other, f, p[1..], p[1], y);
      ConnectedJoin(other, f(x), f(p[1]), f(y));
    }
  }

  lemma ConnectedImage<T(!new), U(!new)>(edges: set<(T, T)>, other: set<(U, U)>, f: T -> U, x: T, y: T)
    requires Connected(edges, x, y) && forall e | e in edges :: (f(e.0), f(e.1)) in other
    ensures Connected(other, f(x), f(y))
  {
    var p :| IsPath(edges, p, x, y);
    PathImage(edges, other, f, p, x, y);
  }
}
