/**
 * A union-find forest over string keys with path compression; `Union` hangs the first
 * representative under the second. The ghost `rank` only measures distance to the root.
 * The representative map `root` and the `rank` map are ghost: they exist to state
 * what the `parent` links mean.
 */
module DisjointSets {
  /**
   * One element of a union-find forest: `parent` links, a representative `root` and a
   * `rank` that strictly increases along parent links up to the representative.
   */
  ghost predicate NodeOk(parent: map<string, string>, root: map<string, string>, rank: map<string, nat>, x: string)
  {
    x in parent && x in root && x in rank &&
    parent[x] in parent && parent[x] in root && parent[x] in rank &&
    root[x] in parent && root[x] in root && root[x] in rank &&
    parent[root[x]] == root[x] && root[parent[x]] == root[x] &&
    (parent[x] == x <==> root[x] == x) &&
    (parent[x] != x ==> rank[x] < rank[parent[x]]) &&
    rank[x] <= rank[root[x]]
  }

  ghost predicate Forest(parent: map<string, string>, root: map<string, string>, rank: map<string, nat>)
  {
    parent.Keys == root.Keys && parent.Keys == rank.Keys &&
    forall x {:trigger NodeOk(parent, root, rank, x)} :: x in parent ==> NodeOk(parent, root, rank, x)
  }

  /** Pointing any element straight at its representative keeps the forest valid. */
  lemma Compress(parent: map<string, string>, root: map<string, string>, rank: map<string, nat>, x: string)
    requires Forest(parent, root, rank) && x in parent
    ensures Forest(parent[x := root[x]], root, rank)
  {
    var p := parent[x := root[x]];
    assert NodeOk(parent, root, rank, x);
    assert NodeOk(parent, root, rank, root[x]);
    assert NodeOk(parent, root, rank, parent[x]);
    forall y | y in p ensures NodeOk(p, root, rank, y) {
      assert NodeOk(parent, root, rank, y);
      assert NodeOk(parent, root, rank, root[y]);
    }
  }

  /** Adding a fresh element as its own representative keeps the forest valid. */
  lemma AddSingleton(parent: map<string, string>, root: map<string, string>, rank: map<string, nat>, x: string)
    requires Forest(parent, root, rank) && x !in parent
    ensures Forest(parent[x := x], root[x := x], rank[x := 0])
  {
    var p, r, k := parent[x := x], root[x := x], rank[x := 0];
    forall y | y in p ensures NodeOk(p, r, k, y) {
      if y != x {
        assert NodeOk(parent, root, rank, y);
      }
    }
  }

  ghost function Relinked(root: map<string, string>, px: string, py: string): map<string, string>
  {
    map z | z in root :: if root[z] == px then py else root[z]
  }

  ghost function Reranked(rank: map<string, nat>, px: string, py: string): map<string, nat>
  {
    if px in rank && py in rank then rank[py := if rank[py] > rank[px] then rank[py] else rank[px] + 1] else rank
  }

  /** Hanging one representative under another keeps the forest valid. */
  lemma Link(parent: map<string, string>, root: map<string, string>, rank: map<string, nat>, px: string, py: string)
    requires Forest(parent, root, rank) && px in parent && py in parent
    requires root[px] == px && root[py] == py && px != py
    ensures Forest(parent[px := py], Relinked(root, px, py), Reranked(rank, px, py))
    ensures parent[px := py].Keys == parent.Keys && Relinked(root, px, py).Keys == root.Keys
  {
    var p, r, k := parent[px := py], Relinked(root, px, py), Reranked(rank, px, py);
    assert NodeOk(parent, root, rank, px);
    assert NodeOk(parent, root, rank, py);
    assert p.Keys == parent.Keys && r.Keys == root.Keys && k.Keys == rank.Keys;
    forall y | y in p ensures NodeOk(p, r, k, y) {
      assert NodeOk(parent, root, rank, y);
      if y == px {
        assert r[px] == py && r[py] == py && p[py] == py;
      } else if root[y] == px {
        assert NodeOk(parent, root, rank, parent[y]);
        assert r[y] == py && p[y] == parent[y] && r[parent[y]] == py;
      } else {
        assert NodeOk(parent, root, rank, parent[y]);
        assert NodeOk(parent, root, rank, root[y]);
        assert r[y] == root[y] && p[y] == parent[y] && r[parent[y]] == root[y];
        assert p[root[y]] == root[y];
      }
    }
  }

  /** Every pair that shares a representative under `root0` still shares one under `root1`. */
  ghost predicate Coarser(root0: map<string, string>, root1: map<string, string>)
  {
    root0.Keys == root1.Keys &&
    forall a, b :: a in root0 && b in root0 && root0[a] == root0[b] ==> root1[a] == root1[b]
  }

  /** Hanging the representative of `x` under that of `y` keeps the forest and joins the two sets. */
  lemma LinkRoots(parent: map<string, string>, root: map<string, string>, rank: map<string, nat>, x: string, y: string)
    requires Forest(parent, root, rank) && x in parent && y in parent && root[x] != root[y]
    ensures var px, py := root[x], root[y];
      Forest(parent[px := py], Relinked(root, px, py), Reranked(rank, px, py)) &&
      parent[px := py].Keys == parent.Keys && Relinked(root, px, py).Keys == root.Keys &&
      Coarser(root, Relinked(root, px, py)) && Relinked(root, px, py)[x] == Relinked(root, px, py)[y]
  {
    assert NodeOk(parent, root, rank, x) && NodeOk(parent, root, rank, y);
    var px, py := root[x], root[y];
    assert NodeOk(parent, root, rank, px) && NodeOk(parent, root, rank, py);
    Link(parent, root, rank, px, py);
  }

  lemma CoarserRefl(root: map<string, string>)
    ensures Coarser(root, root)
  {
  }

  /**
   * `root1` is `root0` with exactly the sets of `x` and `y` merged: two elements share a
   * representative afterwards iff they did before, or one was with `x` and the other with `y`.
   */
  ghost predicate Merged(root0: map<string, string>, root1: map<string, string>, x: string, y: string)
    requires x in root0 && y in root0
  {
    root0.Keys == root1.Keys &&
    forall a, b :: a in root0 && b in root0 ==>
      (root1[a] == root1[b] <==>
        root0[a] == root0[b] ||
        (root0[a] == root0[x] && root0[b] == root0[y]) ||
        (root0[a] == root0[y] && root0[b] == root0[x]))
  }

  /** Relinking the representative of `x` to that of `y` merges exactly their two sets. */
  lemma RelinkedMerges(root: map<string, string>, x: string, y: string)
    requires x in root && y in root && root[x] != root[y]
    ensures Merged(root, Relinked(root, root[x], root[y]), x, y)
  {
  }

  /** When `x` and `y` already share a representative, nothing needs merging. */
  lemma MergedSame(root: map<string, string>, x: string, y: string)
    requires x in root && y in root && root[x] == root[y]
    ensures Merged(root, root, x, y)
  {
  }

  /**
   * The `find` of the Go code, without its path compression (which changes no result):
   * a parent entry of "" is read as "not yet registered", that is, as the element itself.
   * `fuel` bounds the walk; the Go recursion is unbounded.
   */
  function SentinelFind(parent: map<string, string>, x: string, fuel: nat): (r: string)
    ensures r == "" ==> x == ""
    decreases fuel
  {
    var p := if x in parent && parent[x] != "" then parent[x] else x;
    if p == x || fuel == 0 then x else SentinelFind(parent, p, fuel - 1)
  }

  /** The `union` of the Go code, as written: the first representative is pointed at the second. */
  function SentinelUnion(parent: map<string, string>, x: string, y: string, fuel: nat): map<string, string>
  {
    var px, py := SentinelFind(parent, x, fuel), SentinelFind(parent, y, fuel);
    if px != py then parent[px := py] else parent
  }

  /**
   * As written, uniting an issue with an issue whose ID is "" and which is still its own
   * representative writes "" as a parent, which the next `find` reads as unset: the two stay
   * apart. `UnionFind.Union` below joins them.
   */
  lemma EmptyRootDropsUnion()
    ensures var parent := SentinelUnion(map["a" := "a", "" := ""], "a", "", 2);
      parent == map["a" := "", "" := ""] &&
      SentinelFind(parent, "a", 2) == "a" && SentinelFind(parent, "", 2) == ""
  {
    var p0 := map["a" := "a", "" := ""];
    assert SentinelFind(p0, "a", 2) == "a";
    assert SentinelFind(p0, "", 2) == "";
    var p1 := p0["a" := ""];
    assert SentinelFind(p1, "a", 2) == "a";
  }

  /** The union-find of `FindConnectedComponents`, over a `parent` map of issue IDs. */
  class UnionFind {
    var parent: map<string, string>
    ghost var root: map<string, string>
    ghost var rank: map<string, nat>

    ghost predicate Valid()
      reads this
    {
      Forest(parent, root, rank)
    }

    ghost predicate Joined(a: string, b: string)
      reads this
      requires a in root && b in root
    {
      root[a] == root[b]
    }

    constructor ()
      ensures Valid() && parent == map[]
    {
      parent, root, rank := map[], map[], map[];
    }

    /** Registers `x` as a singleton set. */
    method MakeSet(x: string)
      requires Valid() && x !in parent
      modifies this
      ensures Valid() && parent.Keys == old(parent.Keys) + {x}
      ensures root == old(root)[x := x]
    {
      AddSingleton(parent, root, rank, x);
      parent, root, rank := parent[x := x], root[x := x], rank[x := 0];
    }

    ghost function Height(x: string): nat
      reads this
    {
      if x in rank && x in root && root[x] in rank && rank[x] <= rank[root[x]] then rank[root[x]] - rank[x] else 0
    }

    /** The representative of `x`; compresses the path from `x` to it. */
    method Find(x: string) returns (r: string)
      requires Valid() && x in parent
      modifies this
      ensures Valid() && x in root && r == root[x]
      ensures root == old(root) && parent.Keys == old(parent.Keys) && rank == old(rank)
      decreases Height(x)
    {
      assert NodeOk(parent, root, rank, x);
      if parent[x] != x {
        assert NodeOk(parent, root, rank, parent[x]);
        var p := Find(parent[x]);
        Compress(parent, root, rank, x);
        parent := parent[x := p];
      }
      assert NodeOk(parent, root, rank, x);
      r := parent[x];
    }

    /** Merges the sets of `x` and `y`, and no others; sets already merged stay merged. */
    method Union(x: string, y: string)
      requires Valid() && x in parent && y in parent
      modifies this
      ensures Valid() && parent.Keys == old(parent.Keys) && root.Keys == old(root.Keys)
      ensures x in root && y in root && Joined(x, y)
      ensures Coarser(old(root), root)
      ensures x in old(root) && y in old(root) && Merged(old(root), root, x, y)
    {
      var px := Find(x);
      var py := Find(y);
      if px != py {
        LinkRoots(parent, root, rank, x, y);
        RelinkedMerges(root, x, y);
        parent, root, rank := parent[px := py], Relinked(root, px, py), Reranked(rank, px, py);
      } else {
        CoarserRefl(root);
        MergedSame(root, x, y);
      }
    }
  }
}
