/** _addTreeBackrefs (libori/tree.cc): records a parent-to-child reference
    for every child of a tree and, through the store, of all its subtrees. */
module Backrefs {
  import opened Wrappers
  import opened LexOrder
  import opened Entries
  import opened TreeCodec
  import opened Store

  type Edge = (string, string)

  /** The edges child `n` of the tree stored under `h` contributes: the edge
      to it, and the edges of its subtree when it is a fetchable directory. */
  ghost function ChildEdges(objects: Objs, rank: map<string, nat>, h: string, t: Tree,
                            n: string, bound: nat): set<Edge>
    requires n in t
    decreases bound, 0
  {
    {(h, t[n].hash)}
    + if t[n].kind == EntryType.Tree && Reachable(objects, rank, t[n], bound)
      then Edges(objects, rank, t[n].hash, Child(objects, t[n]), rank[t[n].hash])
      else {}
  }

  /** The edges of the children `names` of `t`. */
  ghost function EdgesIn(objects: Objs, rank: map<string, nat>, h: string, t: Tree,
                         names: set<string>, bound: nat): set<Edge>
    decreases bound, 1
  {
    set n, p | n in names && n in t && p in ChildEdges(objects, rank, h, t, n, bound) :: p
  }

  /** Every parent-to-child edge reachable from the tree `t` stored under `h`. */
  ghost function Edges(objects: Objs, rank: map<string, nat>, h: string, t: Tree, bound: nat): set<Edge>
    decreases bound, 2
  {
    EdgesIn(objects, rank, h, t, t.Keys, bound)
  }

  lemma EdgesInStep(objects: Objs, rank: map<string, nat>, h: string, t: Tree,
                    names: set<string>, n: string, bound: nat)
    requires n in t
    ensures EdgesIn(objects, rank, h, t, names + {n}, bound)
            == EdgesIn(objects, rank, h, t, names, bound) + ChildEdges(objects, rank, h, t, n, bound)
  {
  }

  /** _addTreeBackrefs: an edge from `thash` to every child, then the same
      for every directory child's subtree. It fails exactly when a subtree
      cannot be fetched, having recorded only edges of the tree. */
  method AddTreeBackrefs(r: Repo, thash: string, t: Tree, ghost bound: nat) returns (res: Result<(), RepoError>)
    requires r.Valid() && r.ChildrenBelow(t, bound)
    modifies r
    decreases bound, 1
    ensures r.Valid()
    ensures r.objects == old(r.objects) && r.rank == old(r.rank) && r.height == old(r.height)
    ensures res.Ok? <==> Resolvable(r.objects, r.rank, t, bound)
    ensures res.Ok? ==> r.backrefs == old(r.backrefs) + Edges(r.objects, r.rank, thash, t, bound)
    ensures old(r.backrefs) <= r.backrefs <= old(r.backrefs) + Edges(r.objects, r.rank, thash, t, bound)
  {
    var rem := t.Keys;
    ghost var done: set<string> := {};
    while rem != {}
      invariant done !! rem && done + rem == t.Keys
      invariant r.Valid()
      invariant r.objects == old(r.objects) && r.rank == old(r.rank) && r.height == old(r.height)
      invariant forall n :: n in done ==> ChildResolvable(r.objects, r.rank, t, n, bound)
      invariant r.backrefs == old(r.backrefs) + EdgesIn(r.objects, r.rank, thash, t, done, bound)
      decreases rem
    {
      LeastExists(rem);
      var n :| IsLeast(n, rem);
      EdgesInStep(r.objects, r.rank, thash, t, done, n, bound);
      var step := ChildBackrefs(r, thash, t, n, bound);
      if step.Err? {
        ResolvableByChildren(r.objects, r.rank, t, bound);
        EdgesInSub(r.objects, r.rank, thash, t, done + {n}, bound);
        return Err(step.error);
      }
      done := done + {n};
      rem := rem - {n};
    }
    ResolvableByChildren(r.objects, r.rank, t, bound);
    assert done == t.Keys;
    return Ok(());
  }

  /** The edges of some children are among the edges of the tree. */
  lemma EdgesInSub(objects: Objs, rank: map<string, nat>, h: string, t: Tree, names: set<string>, bound: nat)
    requires names <= t.Keys
    ensures EdgesIn(objects, rank, h, t, names, bound) <= Edges(objects, rank, h, t, bound)
  {
  }

  /** One turn of the loop of _addTreeBackrefs. */
  method ChildBackrefs(r: Repo, thash: string, t: Tree, n: string, ghost bound: nat) returns (res: Result<(), RepoError>)
    requires r.Valid() && r.ChildrenBelow(t, bound) && n in t
    modifies r
    decreases bound, 0
    ensures r.Valid()
    ensures r.objects == old(r.objects) && r.rank == old(r.rank) && r.height == old(r.height)
    ensures res.Ok? <==> ChildResolvable(r.objects, r.rank, t, n, bound)
    ensures res.Ok? ==> r.backrefs == old(r.backrefs) + ChildEdges(r.objects, r.rank, thash, t, n, bound)
    ensures old(r.backrefs) <= r.backrefs <= old(r.backrefs) + ChildEdges(r.objects, r.rank, thash, t, n, bound)
  {
    var e := t[n];
    r.AddBackref(thash, e.hash);
    if e.kind != EntryType.Tree {
      return Ok(());
    }
    var sub := r.GetTree(e.hash);
    if sub.Err? {
      return Err(sub.error);
    }
    assert Closed(r.objects, r.rank, e.hash);
    var down := AddTreeBackrefs(r, e.hash, sub.value, r.rank[e.hash]);
    if down.Err? {
      return Err(down.error);
    }
    return Ok(());
  }
}
