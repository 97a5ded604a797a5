/** Object types of the repository (Object::Type). */
module Objects {
  datatype ObjectType = Null | Commit | Tree | Blob | LargeBlob | Purged
}

/** The object store as the tree code uses it: content-addressed objects,
    getTree, addBlob and addBackref. The hash function Util_HashString is
    the store's parameter `H`. */
module Store {
  import opened Wrappers
  import opened Entries
  import opened TreeCodec
  import opened Objects

  datatype StoredObject = StoredObject(kind: ObjectType, payload: string)

  datatype RepoError =
    | NotFound(hash: string)
    | NotATree(hash: string)
    | Corrupt(hash: string, cause: CodecError)

  type Objs = map<string, StoredObject>

  /** Repo::getTree: the object under `h`, read back with Tree::fromBlob. */
  function LookupTree(objects: Objs, h: string): (r: Result<Tree, RepoError>)
    ensures h !in objects ==> r == Err(NotFound(h))
    ensures h in objects && objects[h].kind != ObjectType.Tree ==> r == Err(NotATree(h))
    ensures r.Ok? <==> h in objects && objects[h].kind == ObjectType.Tree
                       && DecodeTree(objects[h].payload, map[]).Ok?
    ensures r.Ok? ==> r.value == DecodeTree(objects[h].payload, map[]).value && NoNull(r.value)
  {
    if h !in objects then Err(NotFound(h))
    else if objects[h].kind != ObjectType.Tree then Err(NotATree(h))
    else match DecodeTree(objects[h].payload, map[])
      case Ok(t) => Ok(t)
      case Err(e) => Err(Corrupt(h, e))
  }

  /** The subtree a Tree-kind entry names can be fetched, and it was stored
      before any tree at rank `bound`. */
  ghost predicate Reachable(objects: Objs, rank: map<string, nat>, e: TreeEntry, bound: nat)
  {
    e.hash in rank && rank[e.hash] < bound && LookupTree(objects, e.hash).Ok?
  }

  /** The subtree of a reachable entry. */
  function Child(objects: Objs, e: TreeEntry): Tree
    requires LookupTree(objects, e.hash).Ok?
  {
    LookupTree(objects, e.hash).value
  }

  /** Every subtree below `t` can be fetched from the store. */
  ghost predicate Resolvable(objects: Objs, rank: map<string, nat>, t: Tree, bound: nat)
    decreases bound
  {
    forall n :: n in t && t[n].kind == EntryType.Tree ==>
      && Reachable(objects, rank, t[n], bound)
      && Resolvable(objects, rank, Child(objects, t[n]), rank[t[n].hash])
  }

  /** Whether the subtree of child `n`, if it is a directory, can be fetched
      in full. */
  ghost predicate ChildResolvable(objects: Objs, rank: map<string, nat>, t: Tree, n: string, bound: nat)
    requires n in t
  {
    t[n].kind == EntryType.Tree ==>
      && Reachable(objects, rank, t[n], bound)
      && Resolvable(objects, rank, Child(objects, t[n]), rank[t[n].hash])
  }

  lemma ResolvableByChildren(objects: Objs, rank: map<string, nat>, t: Tree, bound: nat)
    ensures Resolvable(objects, rank, t, bound) <==>
              forall n :: n in t ==> ChildResolvable(objects, rank, t, n, bound)
  {
  }

  /** If `h` holds a tree, every subtree it names is stored at a lower rank. */
  ghost predicate Closed(objects: Objs, rank: map<string, nat>, h: string)
  {
    h in rank && LookupTree(objects, h).Ok? ==>
      var t := LookupTree(objects, h).value;
      forall n :: n in t && t[n].kind == EntryType.Tree ==>
        t[n].hash in objects && t[n].hash in rank && rank[t[n].hash] < rank[h]
  }

  /** Every rank recorded before is recorded still, and the height has not
      dropped: the store's history only grows. */
  ghost predicate RanksKept(rank: map<string, nat>, height: nat, rank': map<string, nat>, height': nat)
  {
    height <= height' && forall x :: x in rank ==> x in rank' && rank'[x] == rank[x]
  }

  class Repo {
    const H: string -> string
    var objects: Objs
    var backrefs: set<(string, string)>
    /** The order in which objects were stored; a stored tree's subtrees
        were stored before it. */
    ghost var rank: map<string, nat>
    ghost var height: nat

    /** Objects sit under the hash of their payload, and the subtrees of a
        stored tree are stored, and were stored before it. */
    ghost predicate Valid()
      reads this
    {
      && rank.Keys == objects.Keys
      && (forall h :: h in rank ==> rank[h] < height)
      && (forall h :: h in objects ==> H(objects[h].payload) == h)
      && (forall h :: h in objects ==> Closed(objects, rank, h))
    }

    /** Every Tree-kind child of `t` that is stored was stored before rank `bound`. */
    ghost predicate ChildrenBelow(t: Tree, bound: nat)
      reads this
    {
      forall n :: n in t && t[n].kind == EntryType.Tree && t[n].hash in objects ==>
        t[n].hash in rank && rank[t[n].hash] < bound
    }

    /** Every Tree-kind child of `t` is stored. */
    ghost predicate ChildrenStored(t: Tree)
      reads this
    {
      forall n :: n in t && t[n].kind == EntryType.Tree ==> t[n].hash in objects
    }

    constructor (hash: string -> string)
      ensures Valid()
      ensures H == hash && objects == map[] && backrefs == {}
    {
      H := hash;
      objects := map[];
      backrefs := {};
      rank := map[];
      height := 0;
    }

    /** Repo::getTree. */
    method GetTree(h: string) returns (r: Result<Tree, RepoError>)
      ensures r == LookupTree(objects, h)
    {
      if h !in objects {
        return Err(NotFound(h));
      }
      var obj := objects[h];
      if obj.kind != ObjectType.Tree {
        return Err(NotATree(h));
      }
      var t := FromBlob(obj.payload, map[]);
      if t.Err? {
        return Err(Corrupt(h, t.error));
      }
      return Ok(t.value);
    }

    /** Repo::addBlob: stores `payload` under its hash unless that hash is
        already present, and returns the hash. The model stores a tree
        only once the subtrees it names are, to keep the store closed;
        Repo::addBlob itself does not check this. */
    method AddBlob(kind: ObjectType, payload: string) returns (h: string)
      requires Valid()
      requires kind == ObjectType.Tree && DecodeTree(payload, map[]).Ok? ==>
                 ChildrenStored(DecodeTree(payload, map[]).value)
      modifies this
      ensures Valid()
      ensures h == H(payload)
      ensures h in old(objects) ==> objects == old(objects)
      ensures h !in old(objects) ==> objects == old(objects)[h := StoredObject(kind, payload)]
      ensures backrefs == old(backrefs)
      ensures RanksKept(old(rank), old(height), rank, height)
    {
      h := H(payload);
      if h !in objects {
        objects := objects[h := StoredObject(kind, payload)];
        rank := rank[h := height];
        height := height + 1;
        forall x | x in objects
          ensures Closed(objects, rank, x)
        {
          if x != h {
            assert LookupTree(objects, x) == LookupTree(old(objects), x);
            assert Closed(old(objects), old(rank), x);
          }
        }
      }
    }

    /** Repo::addBackref: records the edge; recording it again changes nothing. */
    method AddBackref(from: string, to: string)
      modifies this
      ensures backrefs == old(backrefs) + {(from, to)}
      ensures objects == old(objects) && rank == old(rank) && height == old(height)
    {
      backrefs := backrefs + {(from, to)};
    }
  }
}
