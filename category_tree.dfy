/** The category hierarchy: the parent relation, what "descendant" means, the acyclicity
    invariant, and the depth-first `isChildCategory` walk the update procedure runs before it
    changes a parent. */
module CategoryTree {
  import opened Outcomes
  import opened Entities

  /** Some category with id `c` names `p` as its parent. */
  predicate ChildOf(rows: seq<Category>, c: Id, p: Id) {
    exists i :: 0 <= i < |rows| && rows[i].id == c && rows[i].parentId == Some(p)
  }

  /** `path` climbs the tree: each element is a child of the next one. */
  ghost predicate UpwardPath(rows: seq<Category>, path: seq<Id>) {
    forall k :: 0 <= k < |path| - 1 ==> ChildOf(rows, path[k], path[k + 1])
  }

  /** `a` is reached from `b` by following parent links at least once. */
  ghost predicate IsProperAncestor(rows: seq<Category>, a: Id, b: Id) {
    exists path: seq<Id> :: |path| >= 2 && path[0] == b && path[|path| - 1] == a && UpwardPath(rows, path)
  }

  /** `b` lies in the subtree rooted at `a`: it is `a` or one of its descendants. */
  ghost predicate InSubtree(rows: seq<Category>, a: Id, b: Id) {
    a == b || IsProperAncestor(rows, a, b)
  }

  /** `rank` gives every category a number larger than each of its children's. */
  ghost predicate Ranked(rows: seq<Category>, rank: map<Id, nat>) {
    (forall i :: 0 <= i < |rows| ==> rows[i].id in rank) &&
    (forall i :: 0 <= i < |rows| && rows[i].parentId.Some? ==>
       rows[i].parentId.value in rank && rank[rows[i].id] < rank[rows[i].parentId.value])
  }

  /** The invariant the category procedures defend: parent links can be ranked, so they
      never close a cycle (see NoCategoryIsItsOwnAncestor). */
  ghost predicate Acyclic(rows: seq<Category>) {
    exists rank :: Ranked(rows, rank)
  }

  ghost function SomeRank(rows: seq<Category>): (rank: map<Id, nat>)
    requires Acyclic(rows)
    ensures Ranked(rows, rank)
  {
    var rank :| Ranked(rows, rank); rank
  }

  /** The termination measure of the walk: strictly smaller for a child than for its parent. */
  ghost function Height(rows: seq<Category>, x: Id): nat
    requires Acyclic(rows)
  {
    var rank := SomeRank(rows); if x in rank then rank[x] else 0
  }

  lemma ChildIsLower(rows: seq<Category>, c: Id, p: Id)
    requires Acyclic(rows) && ChildOf(rows, c, p)
    ensures Height(rows, c) < Height(rows, p)
  {
    var i :| 0 <= i < |rows| && rows[i].id == c && rows[i].parentId == Some(p);
    var rank := SomeRank(rows);
    assert rows[i].id in rank;
  }

  /** Along an upward path the rank strictly grows. */
  lemma {:induction false} RankGrowsUpward(rows: seq<Category>, rank: map<Id, nat>, path: seq<Id>)
    requires Ranked(rows, rank) && UpwardPath(rows, path) && |path| >= 2
    ensures path[0] in rank && path[|path| - 1] in rank && rank[path[0]] < rank[path[|path| - 1]]
  {
    assert ChildOf(rows, path[0], path[1]);
    var i :| 0 <= i < |rows| && rows[i].id == path[0] && rows[i].parentId == Some(path[1]);
    assert rows[i].id in rank;
    if |path| > 2 {
      var tail := path[1..];
      assert UpwardPath(rows, tail) by {
        forall k | 0 <= k < |tail| - 1 ensures ChildOf(rows, tail[k], tail[k + 1]) {
          assert tail[k] == path[k + 1] && tail[k + 1] == path[k + 2];
        }
      }
      RankGrowsUpward(rows, rank, tail);
    }
  }

  /** The meaning of the invariant: no category is its own ancestor. */
  lemma NoCategoryIsItsOwnAncestor(rows: seq<Category>, x: Id)
    requires Acyclic(rows)
    ensures !IsProperAncestor(rows, x, x)
  {
    if IsProperAncestor(rows, x, x) {
      var path :| |path| >= 2 && path[0] == x && path[|path| - 1] == x && UpwardPath(rows, path);
      RankGrowsUpward(rows, SomeRank(rows), path);
    }
  }

  /** A child's subtree lies inside its parent's subtree. */
  lemma DescendThroughChild(rows: seq<Category>, a: Id, c: Id, b: Id)
    requires ChildOf(rows, c, a) && InSubtree(rows, c, b)
    ensures IsProperAncestor(rows, a, b)
  {
    if c == b {
      var path := [b, a];
      assert UpwardPath(rows, path);
    } else {
      var path :| |path| >= 2 && path[0] == b && path[|path| - 1] == c && UpwardPath(rows, path);
      var longer := path + [a];
      assert UpwardPath(rows, longer) by {
        forall k | 0 <= k < |longer| - 1 ensures ChildOf(rows, longer[k], longer[k + 1]) {
          if k < |path| - 1 {
            assert longer[k] == path[k] && longer[k + 1] == path[k + 1];
          }
        }
      }
    }
  }

  /** Every proper descendant of `a` lies in the subtree of one of `a`'s children. */
  lemma ThroughSomeChild(rows: seq<Category>, a: Id, b: Id) returns (c: Id)
    requires IsProperAncestor(rows, a, b)
    ensures ChildOf(rows, c, a) && InSubtree(rows, c, b)
  {
    var path :| |path| >= 2 && path[0] == b && path[|path| - 1] == a && UpwardPath(rows, path);
    var n := |path|;
    c := path[n - 2];
    assert ChildOf(rows, path[n - 2], path[n - 1]);
    if n > 2 {
      var prefix := path[..n - 1];
      assert UpwardPath(rows, prefix) by {
        forall k | 0 <= k < |prefix| - 1 ensures ChildOf(rows, prefix[k], prefix[k + 1]) {
          assert prefix[k] == path[k] && prefix[k + 1] == path[k + 1];
        }
      }
      assert prefix[0] == b && prefix[|prefix| - 1] == c;
    }
  }

  /** The ids of the children of `p` in storage order (`findMany({ where: { parentId } })`). */
  function ChildIds(rows: seq<Category>, p: Id): (ids: seq<Id>)
    ensures forall c :: c in ids <==> ChildOf(rows, c, p)
  {
    if rows == [] then []
    else
      var rest := ChildIds(rows[1..], p);
      assert forall c :: ChildOf(rows[1..], c, p) ==> ChildOf(rows, c, p) by {
        forall c | ChildOf(rows[1..], c, p) ensures ChildOf(rows, c, p) {
          var i :| 0 <= i < |rows[1..]| && rows[1..][i].id == c && rows[1..][i].parentId == Some(p);
          assert rows[i + 1] == rows[1..][i];
        }
      }
      assert forall c :: ChildOf(rows, c, p) ==> (rows[0].id == c && rows[0].parentId == Some(p)) || ChildOf(rows[1..], c, p) by {
        forall c | ChildOf(rows, c, p)
          ensures (rows[0].id == c && rows[0].parentId == Some(p)) || ChildOf(rows[1..], c, p)
        {
          var i :| 0 <= i < |rows| && rows[i].id == c && rows[i].parentId == Some(p);
          if i > 0 { assert rows[1..][i - 1] == rows[i]; }
        }
      }
      (if rows[0].parentId == Some(p) then [rows[0].id] else []) + rest
  }

  /** The recursive walk of category.ts: is `potentialChildId` equal to `parentId` or one of
      its descendants? It visits the children in storage order and stops at the first hit.
      It terminates because the tree is acyclic. */
  method IsChildCategory(rows: seq<Category>, parentId: Id, potentialChildId: Id) returns (r: bool)
    requires Acyclic(rows)
    ensures r <==> InSubtree(rows, parentId, potentialChildId)
    decreases Height(rows, parentId)
  {
    if parentId == potentialChildId {
      return true;
    }
    var children := ChildIds(rows, parentId);
    for k := 0 to |children|
      invariant forall j :: 0 <= j < k ==> !InSubtree(rows, children[j], potentialChildId)
    {
      ChildIsLower(rows, children[k], parentId);
      var found := IsChildCategory(rows, children[k], potentialChildId);
      if found {
        DescendThroughChild(rows, parentId, children[k], potentialChildId);
        return true;
      }
    }
    if IsProperAncestor(rows, parentId, potentialChildId) {
      var c := ThroughSomeChild(rows, parentId, potentialChildId);
      assert false;
    }
    return false;
  }

  // ----- What the category procedures do to the tree keeps it acyclic. -----

  /** Adding a category with a fresh id whose parent exists (or that has none), and whose id
      no category names as its parent, keeps the tree acyclic. */
  lemma AddLeafKeepsAcyclic(rows: seq<Category>, c: Category)
    requires Acyclic(rows)
    requires forall i :: 0 <= i < |rows| ==> rows[i].id != c.id
    requires c.parentId.Some? ==> exists j :: 0 <= j < |rows| && rows[j].id == c.parentId.value
    requires forall i :: 0 <= i < |rows| ==> rows[i].parentId != Some(c.id)
    ensures Acyclic(rows + [c])
  {
    var rank := SomeRank(rows);
    var lifted := (map x | x in rank :: rank[x] + 1)[c.id := 0];
    var after := rows + [c];
    forall i | 0 <= i < |after| && after[i].parentId.Some?
      ensures after[i].parentId.value in lifted && lifted[after[i].id] < lifted[after[i].parentId.value]
    {
      if i == |rows| {
        var j :| 0 <= j < |rows| && rows[j].id == c.parentId.value;
        assert rows[j].id in rank && rows[j].id != c.id;
      } else {
        assert after[i] == rows[i];
        assert rows[i].id in rank && rows[i].parentId.value in rank;
        assert rows[i].parentId.value != c.id;
      }
    }
    assert Ranked(after, lifted);
  }

  /** Removing any category keeps the tree acyclic. */
  lemma RemoveKeepsAcyclic(rows: seq<Category>, i: nat)
    requires Acyclic(rows) && i < |rows|
    ensures Acyclic(rows[..i] + rows[i + 1..])
  {
    var rank := SomeRank(rows);
    var after := rows[..i] + rows[i + 1..];
    forall k | 0 <= k < |after| ensures after[k] == rows[if k < i then k else k + 1] { }
    assert Ranked(after, rank);
  }

  /** Rewriting a category without giving it a new parent keeps the tree acyclic. */
  lemma ReplaceKeepingParentKeepsAcyclic(rows: seq<Category>, i: nat, c: Category)
    requires Acyclic(rows) && i < |rows| && c.id == rows[i].id
    requires c.parentId == rows[i].parentId || c.parentId.None?
    ensures Acyclic(rows[i := c])
  {
    var rank := SomeRank(rows);
    assert rows[i].id in rank;
    assert Ranked(rows[i := c], rank);
  }

  /** Moving category `rows[i]` under an existing category `p` outside its own subtree keeps
      the tree acyclic: the ancestors of `p`, and `p` itself, are lifted above the moved
      subtree. */
  lemma ReparentKeepsAcyclic(rows: seq<Category>, i: nat, c: Category, p: Id)
    requires Acyclic(rows) && i < |rows| && c.id == rows[i].id && c.parentId == Some(p)
    requires exists j :: 0 <= j < |rows| && rows[j].id == p
    requires !InSubtree(rows, rows[i].id, p)
    ensures Acyclic(rows[i := c])
  {
    var rank := SomeRank(rows);
    var id := rows[i].id;
    assert id in rank;
    var j :| 0 <= j < |rows| && rows[j].id == p;
    assert p in rank;
    var shift := if rank[id] + 1 > rank[p] then rank[id] + 1 - rank[p] else 0;
    var lifted := map x | x in rank :: if InSubtree(rows, x, p) then rank[x] + shift else rank[x];
    var after := rows[i := c];
    forall k | 0 <= k < |after| && after[k].parentId.Some?
      ensures after[k].parentId.value in lifted && lifted[after[k].id] < lifted[after[k].parentId.value]
    {
      if k == i {
        assert InSubtree(rows, p, p);
      } else {
        var x, q := rows[k].id, rows[k].parentId.value;
        assert x in rank;
        assert ChildOf(rows, x, q);
        if InSubtree(rows, x, p) {
          DescendThroughChild(rows, q, x, p);
        }
      }
    }
    assert Ranked(after, lifted);
  }
}
