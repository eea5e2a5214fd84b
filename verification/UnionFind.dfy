/**
 The union-find that check_dataset_duplicates.py and build_review_pool_dedup_manifest.py repeat: a
 dictionary of parents, a `find` that halves paths as it climbs, and a `union` that hangs one root
 under the other. The ghost fields say what the dictionary means: the root of every element, a depth
 that falls along every parent link, and the edges united so far.
 */
module UnionFinds {
  import opened Graphs

  /** Two elements have the same root exactly when the united edges connect them. */
  ghost predicate Represents<T(!new)>(root: map<T, T>, edges: set<(T, T)>) {
    && (forall e | e in edges :: e.0 in root && e.1 in root)
    && forall x, y {:trigger Connected(edges, x, y)} | x in root && y in root ::
         root[x] == root[y] <==> Connected(edges, x, y)
  }

  lemma RootsDecide<T(!new)>(root: map<T, T>, edges: set<(T, T)>, x: T, y: T)
    requires Represents(root, edges) && x in root && y in root
    ensures root[x] == root[y] <==> Connected(edges, x, y)
  {
  }

  /** What the dictionary of parents means at one element. */
  ghost predicate Placed<T(!new)>(parent: map<T, T>, root: map<T, T>, depth: map<T, nat>, x: T)
    requires x in parent && root.Keys == parent.Keys && depth.Keys == parent.Keys
  {
    && parent[x] in parent && root[x] in parent
    && root[parent[x]] == root[x] && parent[root[x]] == root[x]
    && (parent[x] == x <==> root[x] == x)
    && (parent[x] != x ==> depth[parent[x]] < depth[x])
  }

  ghost predicate Forest<T(!new)>(parent: map<T, T>, root: map<T, T>, depth: map<T, nat>) {
    && root.Keys == parent.Keys && depth.Keys == parent.Keys
    && forall x {:trigger Placed(parent, root, depth, x)} | x in parent :: Placed(parent, root, depth, x)
  }

  /** `parent[x] = parent[parent[x]]` changes no root. */
  lemma HalvingKeeps<T(!new)>(parent: map<T, T>, root: map<T, T>, depth: map<T, nat>, x: T)
    requires Forest(parent, root, depth) && x in parent
    ensures Placed(parent, root, depth, x) && parent[x] in parent
    ensures Forest(parent[x := parent[parent[x]]], root, depth)
    ensures parent[parent[x]] in parent && (parent[x] != x ==> depth[parent[parent[x]]] < depth[x])
  {
    assert Placed(parent, root, depth, x) && Placed(parent, root, depth, parent[x]);
    var next := parent[x := parent[parent[x]]];
    assert Placed(parent, root, depth, parent[parent[x]]);
    forall y | y in next
      ensures Placed(next, root, depth, y)
    {
      assert Placed(parent, root, depth, y) && Placed(parent, root, depth, root[y]);
    }
  }

  /** `parent[rb] = ra`, for two different roots, changes rb's roots to ra and nothing else. */
  lemma HangingKeeps<T(!new)>(parent: map<T, T>, root: map<T, T>, depth: map<T, nat>, a: T, b: T)
    requires Forest(parent, root, depth) && a in parent && b in parent && root[a] != root[b]
    ensures root[a] in parent && root[b] in parent
    ensures Forest(parent[root[b] := root[a]], Merged(root, a, b), Deepened(root, depth, a, b))
  {
    assert Placed(parent, root, depth, a) && Placed(parent, root, depth, b);
    var ra, rb := root[a], root[b];
    assert Placed(parent, root, depth, ra) && Placed(parent, root, depth, rb);
    var next, root', depth' := parent[rb := ra], Merged(root, a, b), Deepened(root, depth, a, b);
    forall y | y in next
      ensures Placed(next, root', depth', y)
    {
      assert Placed(parent, root, depth, y) && Placed(parent, root, depth, parent[y]);
    }
  }

  ghost function Deepened<T(!new)>(root: map<T, T>, depth: map<T, nat>, a: T, b: T): (d: map<T, nat>)
    requires root.Keys == depth.Keys && a in root && b in root && root[a] in depth
    ensures d.Keys == depth.Keys
  {
    map x | x in depth :: if root[x] == root[b] then depth[x] + depth[root[a]] + 1 else depth[x]
  }


  ghost function Merged<T(!new)>(root: map<T, T>, a: T, b: T): (r: map<T, T>)
    requires a in root && b in root
    ensures r.Keys == root.Keys
  {
    map x | x in root :: if root[x] == root[b] then root[a] else root[x]
  }

  /** Replacing one root by another adds exactly one edge to the closure. */
  lemma MergedRepresents<T(!new)>(root: map<T, T>, edges: set<(T, T)>, a: T, b: T)
    requires Represents(root, edges) && a in root && b in root
    ensures Represents(Merged(root, a, b), edges + {(a, b)})
  {
    var root', edges' := Merged(root, a, b), edges + {(a, b)};
    forall x, y | x in root && y in root
      ensures root'[x] == root'[y] <==> Connected(edges', x, y)
    {
      if root'[x] == root'[y] {
        MergedConnects(root, edges, a, b, x, y);
      }
      if Connected(edges', x, y) {
        MergedAgrees(root, edges, a, b, x, y);
      }
    }
  }

  lemma MergedConnects<T(!new)>(root: map<T, T>, edges: set<(T, T)>, a: T, b: T, x: T, y: T)
    requires Represents(root, edges) && a in root && b in root && x in root && y in root
    requires Merged(root, a, b)[x] == Merged(root, a, b)[y]
    ensures Connected(edges + {(a, b)}, x, y)
  {
    var edges' := edges + {(a, b)};
    ConnectedEdge(edges', a, b);
    ConnectedEdge(edges', b, a);
    RootsDecide(root, edges, x, y);
    RootsDecide(root, edges, x, b);
    RootsDecide(root, edges, a, y);
    RootsDecide(root, edges, x, a);
    RootsDecide(root, edges, b, y);
    if root[x] == root[y] {
      ConnectedMore(edges, edges', x, y);
    } else if root[x] == root[b] {
      assert root[y] == root[a];
      ConnectedMore(edges, edges', x, b);
      ConnectedMore(edges, edges', a, y);
      ConnectedJoin(edges', x, b, a);
      ConnectedJoin(edges', x, a, y);
    } else {
      assert root[y] == root[b] && root[x] == root[a];
      ConnectedMore(edges, edges', x, a);
      ConnectedMore(edges, edges', b, y);
      ConnectedJoin(edges', x, a, b);
      ConnectedJoin(edges', x, b, y);
    }
  }

  lemma MergedAgrees<T(!new)>(root: map<T, T>, edges: set<(T, T)>, a: T, b: T, x: T, y: T)
    requires Represents(root, edges) && a in root && b in root && x in root && y in root
    requires Connected(edges + {(a, b)}, x, y)
    ensures Merged(root, a, b)[x] == Merged(root, a, b)[y]
  {
    var root', edges' := Merged(root, a, b), edges + {(a, b)};
    var f := z => if z in root' then root'[z] else z;
    forall e | e in edges'
      ensures f(e.0) == f(e.1)
    {
      if e in edges {
        ConnectedEdge(edges, e.0, e.1);
      }
    }
    ConnectedSame(edges', f, x, y);
  }

  lemma IdentityRepresents<T(!new)>(root: map<T, T>)
    requires forall x | x in root :: root[x] == x
    ensures Represents(root, {})
  {
    forall x, y | x in root && y in root
      ensures root[x] == root[y] <==> Connected({}, x, y)
    {
      ConnectedSelf<T>({}, x);
      if Connected({}, x, y) && x != y {
        var z := FirstEdge<T>({}, x, y);
      }
    }
  }

  class UnionFind<T(==, !new)> {
    var parent: map<T, T>
    ghost var root: map<T, T>
    ghost var depth: map<T, nat>
    ghost var edges: set<(T, T)>

    ghost predicate Valid()
      reads this
    {
      Forest(parent, root, depth) && Represents(root, edges)
    }

    /** `parent = {sid: sid for ...}`. */
    constructor (ids: set<T>)
      ensures Valid() && parent.Keys == ids && edges == {}
    {
      parent := map x | x in ids :: x;
      root := map x | x in ids :: x;
      depth := map x | x in ids :: 0;
      edges := {};
      new;
      IdentityRepresents(root);
    }

    /** `find` with path halving: it terminates at the root and leaves the partition as it was. */
    method Find(x: T) returns (r: T)
      requires Valid() && x in parent
      modifies this`parent
      ensures Valid() && parent.Keys == old(parent.Keys) && r in parent && r == root[x]
    {
      r := x;
      HalvingKeeps(parent, root, depth, r);
      while parent[r] != r
        invariant Forest(parent, root, depth) && parent.Keys == old(parent.Keys) && r in parent && root[r] == root[x]
        decreases depth[r]
      {
        HalvingKeeps(parent, root, depth, r);
        assert Placed(parent, root, depth, parent[r]);
        parent := parent[r := parent[parent[r]]];
        r := parent[r];
      }
      assert Placed(parent, root, depth, r);
    }

    /** `union`: afterwards the partition is the closure with one more edge. */
    method Union(a: T, b: T)
      requires Valid() && a in parent && b in parent
      modifies this
      ensures Valid() && parent.Keys == old(parent.Keys) && edges == old(edges) + {(a, b)}
    {
      var ra := Find(a);
      var rb := Find(b);
      MergedRepresents(root, edges, a, b);
      if ra != rb {
        HangingKeeps(parent, root, depth, a, b);
        parent := parent[rb := ra];
        depth := Deepened(root, depth, a, b);
        root := Merged(root, a, b);
      } else {
        assert root == Merged(root, a, b);
      }
      edges := edges + {(a, b)};
    }
  }
}
