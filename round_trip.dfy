/** Tree::unflatten undoes Tree::flattened (libori/tree.cc): the tree
    unflatten builds from the flattening of a stored tree is that tree, so
    both have the same encoding and the same hash. */
module RoundTrip {
  import opened Wrappers
  import opened Attrs
  import opened Entries
  import opened TreeCodec
  import opened Store
  import opened Paths
  import opened Flatten
  import opened Unflatten

  /** What `flat` holds under the path `k`. */
  function At(flat: Flat, k: string): Option<TreeEntry>
  {
    if k in flat then Some(flat[k]) else None
  }

  /** Every object sits under the hash of its payload (a part of Repo.Valid). */
  ghost predicate Hashed(H: string -> string, objects: Objs)
  {
    forall h :: h in objects ==> H(objects[h].payload) == h
  }

  /** Every stored tree was written by getBlob: encoding what it decodes to
      gives the payload back. */
  ghost predicate CanonicalStore(objects: Objs)
  {
    forall h :: h in objects && LookupTree(objects, h).Ok? ==>
      TreeBlob(LookupTree(objects, h).value) == objects[h].payload
  }

  /** Under `d + "/"`, `flat` holds exactly the flattening of `s`. */
  ghost predicate FlatBelow(objects: Objs, rank: map<string, nat>, flat: Flat, d: string, s: Tree, bound: nat)
  {
    forall k :: HasPrefix(k, d + "/") ==> At(flat, k) == FlatLookup(objects, rank, d + "/", s, s.Keys, bound, k)
  }

  /** The premises of the induction: `s` is the tree flattened below `d`. */
  ghost predicate Located(H: string -> string, objects: Objs, rank: map<string, nat>, flat: Flat,
                          d: string, s: Tree, bound: nat)
  {
    && Hashed(H, objects) && CanonicalStore(objects)
    && NoNull(s) && Resolvable(objects, rank, s, bound) && DeepSlashFree(objects, rank, s, bound)
    && FlatBelow(objects, rank, flat, d, s, bound)
  }

  /** The flat map holds a child's own path exactly when the child exists. */
  lemma FlatAtChild(objects: Objs, rank: map<string, nat>, flat: Flat, d: string, s: Tree, bound: nat, b: string)
    requires FlatBelow(objects, rank, flat, d, s, bound) && '/' !in b
    ensures At(flat, d + "/" + b) == if b in s then Some(s[b]) else None
  {
    HeadExact(d + "/", b);
  }

  /** A path below `prefix + b + "/"` is flattened only from the subtree of
      the child `b`. */
  lemma LookupBelow(objects: Objs, rank: map<string, nat>, prefix: string, s: Tree, bound: nat,
                    b: string, k: string)
    requires '/' !in b && HasPrefix(k, prefix + b + "/")
    ensures FlatLookup(objects, rank, prefix, s, s.Keys, bound, k)
            == if b in s then SubLookup(objects, rank, prefix, s, b, bound, k) else None
  {
    HeadUnder(prefix, b, k);
  }

  /** A path whose directory is `c` lies under `c + "/"`. */
  lemma UnderDirname(k: string, c: string)
    requires Dirname(k) == c && c != ""
    ensures HasPrefix(k, c + "/")
  {
    SplitPath(k);
    assert k == (c + "/") + Basename(k);
  }

  /** unflatten builds a tree for `d + "/" + b` only when `b` is a directory
      child of `s`. */
  lemma PendingChild(objects: Objs, rank: map<string, nat>, flat: Flat, d: string, s: Tree, bound: nat, b: string)
    requires FlatBelow(objects, rank, flat, d, s, bound) && '/' !in b
    ensures d + "/" + b in Pending(flat) ==> b in s && s[b].kind == EntryType.Tree
  {
    var c := d + "/" + b;
    FlatAtChild(objects, rank, flat, d, s, bound, b);
    if c in Pending(flat) && !(c in flat && flat[c].kind == EntryType.Tree) {
      var k :| k in flat && IsFile(flat[k]) && Dirname(k) == c;
      UnderDirname(k, c);
      HeadUnder(d + "/", b, k);
      assert At(flat, k) == FlatLookup(objects, rank, d + "/", s, s.Keys, bound, k);
      LookupBelow(objects, rank, d + "/", s, bound, b, k);
    }
  }

  /** Below a directory child, the flat map holds the flattening of its subtree. */
  lemma ChildFlatBelow(objects: Objs, rank: map<string, nat>, flat: Flat, d: string, s: Tree, bound: nat, b: string)
    requires FlatBelow(objects, rank, flat, d, s, bound) && '/' !in b
    requires b in s && s[b].kind == EntryType.Tree && Reachable(objects, rank, s[b], bound)
    ensures FlatBelow(objects, rank, flat, d + "/" + b, Child(objects, s[b]), rank[s[b].hash])
  {
    forall k | HasPrefix(k, d + "/" + b + "/")
      ensures At(flat, k) == FlatLookup(objects, rank, d + "/" + b + "/", Child(objects, s[b]),
                                        Child(objects, s[b]).Keys, rank[s[b].hash], k)
    {
      HeadUnder(d + "/", b, k);
      FlatSubtree(objects, rank, d + "/", s, bound, b, k);
    }
  }

  /** unflatten enters a directory child under the entry it had. */
  lemma ChildFinal(H: string -> string, objects: Objs, rank: map<string, nat>, flat: Flat,
                   d: string, s: Tree, bound: nat, b: string)
    requires Located(H, objects, rank, flat, d, s, bound) && '/' !in b
    requires b in s && s[b].kind == EntryType.Tree && At(flat, d + "/" + b) == Some(s[b])
    ensures FinalEntry(H, flat, d + "/" + b) == s[b]
    decreases bound, 0
  {
    var e := s[b];
    var child := Child(objects, e);
    ChildFlatBelow(objects, rank, flat, d, s, bound, b);
    BuiltIsSubtree(H, objects, rank, flat, d + "/" + b, child, rank[e.hash]);
    assert H(TreeBlob(child)) == e.hash;
  }

  /** The child `b` of the tree unflatten builds for `d` is the child `b` of `s`. */
  lemma BuiltAt(H: string -> string, objects: Objs, rank: map<string, nat>, flat: Flat,
                d: string, s: Tree, bound: nat, b: string)
    requires Located(H, objects, rank, flat, d, s, bound)
    ensures b in Built(H, flat, d) <==> b in s
    ensures b in s ==> Built(H, flat, d)[b] == s[b]
    decreases bound, 1
  {
    var files, dirs := FilesIn(flat, flat.Keys, d), DirsIn(H, flat, Pending(flat), d);
    assert Built(H, flat, d) == files + dirs;
    if '/' in b {
      assert b !in s;
      assert b !in files && b !in dirs;
    } else {
      var c := d + "/" + b;
      FlatAtChild(objects, rank, flat, d, s, bound, b);
      PendingChild(objects, rank, flat, d, s, bound, b);
      JoinSplit(d, b);
      if b !in s {
        assert b !in files && b !in dirs;
      } else {
        BasenamesHas(flat.Keys + Pending(flat), c);
        if s[b].kind == EntryType.Tree {
          assert c in Pending(flat);
          ChildFinal(H, objects, rank, flat, d, s, bound, b);
          assert b !in files && dirs[b] == s[b];
        } else {
          assert files[b] == s[b];
          assert b !in dirs;
        }
      }
    }
  }

  /** The tree unflatten builds for `d` is the tree flattened below `d`. */
  lemma {:induction false} BuiltIsSubtree(H: string -> string, objects: Objs, rank: map<string, nat>, flat: Flat,
                                          d: string, s: Tree, bound: nat)
    requires Located(H, objects, rank, flat, d, s, bound)
    ensures Built(H, flat, d) == s
    decreases bound, 2
  {
    var built := Built(H, flat, d);
    forall b
      ensures (b in built <==> b in s) && (b in s ==> built[b] == s[b])
    {
      BuiltAt(H, objects, rank, flat, d, s, bound, b);
    }
    assert built.Keys == s.Keys;
  }

  /** `flat` maps a path to an entry exactly when the flattening of `t`
      under "/" does: the result Flatten.Flattened describes. */
  ghost predicate IsFlattening(objects: Objs, rank: map<string, nat>, t: Tree, bound: nat, flat: Flat)
  {
    forall k :: (k in flat <==> FlatLookup(objects, rank, "/", t, t.Keys, bound, k).Some?)
                && (k in flat ==> FlatLookup(objects, rank, "/", t, t.Keys, bound, k) == Some(flat[k]))
  }

  /** Every path of a flattening starts with '/'. */
  lemma FlatteningAbsolute(objects: Objs, rank: map<string, nat>, t: Tree, bound: nat, flat: Flat)
    requires IsFlattening(objects, rank, t, bound, flat)
    ensures Absolute(flat)
  {
    forall k | k in flat
      ensures |k| > 0 && k[0] == '/'
    {
      FlatLookupPrefix(objects, rank, "/", t, t.Keys, bound, k);
    }
  }

  /** A flattening holds the whole tree below the root directory "". */
  lemma FlatteningBelowRoot(objects: Objs, rank: map<string, nat>, t: Tree, bound: nat, flat: Flat)
    requires IsFlattening(objects, rank, t, bound, flat)
    ensures FlatBelow(objects, rank, flat, "", t, bound)
  {
    assert "" + "/" == "/";
    forall k | HasPrefix(k, "" + "/")
      ensures At(flat, k) == FlatLookup(objects, rank, "" + "/", t, t.Keys, bound, k)
    {
      assert k in flat <==> FlatLookup(objects, rank, "/", t, t.Keys, bound, k).Some?;
    }
  }

  /** Tree::unflatten after Tree::flattened: the paths `flattened` gives for
      a tree of the store are absolute, and the tree unflatten builds from
      them is that tree again. */
  lemma FlattenedUnflattens(H: string -> string, objects: Objs, rank: map<string, nat>, height: nat,
                            t: Tree, flat: Flat)
    requires Hashed(H, objects) && CanonicalStore(objects)
    requires NoNull(t) && Resolvable(objects, rank, t, height) && DeepSlashFree(objects, rank, t, height)
    requires IsFlattening(objects, rank, t, height, flat)
    ensures Absolute(flat)
    ensures Built(H, flat, "") == t
  {
    FlatteningAbsolute(objects, rank, t, height, flat);
    FlatteningBelowRoot(objects, rank, t, height, flat);
    BuiltIsSubtree(H, objects, rank, flat, "", t, height);
  }

  // ------------------------------------------- unflatten succeeds on a flattening

  /** Every directory entry anywhere below `t` carries the six basic
      attributes, which Tree::unflatten asserts of each directory. */
  ghost predicate DirsBasic(objects: Objs, rank: map<string, nat>, t: Tree, bound: nat)
    decreases bound
  {
    forall n :: n in t && t[n].kind == EntryType.Tree ==>
      && BasicComplete(t[n].attrs)
      && (Reachable(objects, rank, t[n], bound) ==>
            DirsBasic(objects, rank, Child(objects, t[n]), rank[t[n].hash]))
  }

  /** The flattening of a tree without Null children names no Null entry:
      the subtrees fetched from the store hold none either. */
  lemma {:induction false} FlatLookupNoNull(objects: Objs, rank: map<string, nat>, prefix: string, t: Tree,
                                            names: set<string>, bound: nat, k: string)
    requires NoNull(t) && FlatLookup(objects, rank, prefix, t, names, bound, k).Some?
    ensures FlatLookup(objects, rank, prefix, t, names, bound, k).value.kind != EntryType.Null
    decreases bound
  {
    var rest := k[|prefix|..];
    var i := FirstSlash(rest);
    var n := rest[..i];
    if i < |rest| {
      var c := Child(objects, t[n]);
      FlatLookupNoNull(objects, rank, prefix + n + "/", c, c.Keys, rank[t[n].hash], k);
    }
  }

  /** A path a prefix of which lies under `q` lies under `q` too. */
  lemma PrefixTrans(k: string, c: string, q: string)
    requires HasPrefix(c, q) && (k == c || HasPrefix(k, c + "/"))
    ensures HasPrefix(k, q)
  {
    if k != c {
      assert k[..|c| + 1] == c + "/";
      assert k[..|c|] == c;
      assert k[..|q|] == k[..|c|][..|q|];
    }
  }

  /** A pending directory is a Tree path of the map, or holds a file of it. */
  lemma PendingWitness(flat: Flat, c: string) returns (k: string)
    requires c in Pending(flat) && c != ""
    ensures k in flat && (k == c || HasPrefix(k, c + "/"))
  {
    if c in flat && flat[c].kind == EntryType.Tree {
      k := c;
    } else {
      k :| k in flat && IsFile(flat[k]) && Dirname(k) == c;
      UnderDirname(k, c);
    }
  }

  /** Below `d`, every directory unflatten creates has an entry of its own
      in the flat map, with the basic attributes. */
  lemma {:induction false} PendingComplete(objects: Objs, rank: map<string, nat>, flat: Flat,
                                           d: string, s: Tree, bound: nat, c: string)
    requires FlatBelow(objects, rank, flat, d, s, bound) && DirsBasic(objects, rank, s, bound)
    requires HasPrefix(c, d + "/") && c in Pending(flat)
    ensures c in flat && BasicComplete(flat[c].attrs)
    decreases bound
  {
    var p := d + "/";
    var rest := c[|p|..];
    var b := rest[..FirstSlash(rest)];
    assert forall j :: 0 <= j < |b| ==> b[j] == rest[j];
    assert '/' !in b;
    HeadIs(p, b, c);
    if c == p + b {
      PendingChild(objects, rank, flat, d, s, bound, b);
      FlatAtChild(objects, rank, flat, d, s, bound, b);
    } else {
      var k := PendingWitness(flat, c);
      PrefixTrans(k, c, p + b + "/");
      PrefixTrans(k, c, p);
      assert At(flat, k) == FlatLookup(objects, rank, p, s, s.Keys, bound, k);
      LookupBelow(objects, rank, p, s, bound, b, k);
      var e := s[b];
      ChildFlatBelow(objects, rank, flat, d, s, bound, b);
      assert p + b + "/" == (d + "/" + b) + "/";
      PendingComplete(objects, rank, flat, d + "/" + b, Child(objects, e), rank[e.hash], c);
    }
  }

  /** A flattening of a tree without Null children holds no Null entry. */
  lemma FlatteningNoNull(objects: Objs, rank: map<string, nat>, t: Tree, bound: nat, flat: Flat)
    requires IsFlattening(objects, rank, t, bound, flat) && NoNull(t)
    ensures NoNull(flat)
  {
    forall k | k in flat
      ensures flat[k].kind != EntryType.Null
    {
      FlatLookupNoNull(objects, rank, "/", t, t.Keys, bound, k);
    }
  }

  /** In a flattening whose directory entries carry the basic attributes,
      every directory unflatten creates, but the root, has its own entry
      with those attributes: the assertion of Tree::unflatten holds. */
  lemma FlatteningDirsComplete(objects: Objs, rank: map<string, nat>, t: Tree, bound: nat, flat: Flat)
    requires IsFlattening(objects, rank, t, bound, flat) && DirsBasic(objects, rank, t, bound)
    ensures DirsComplete(flat)
  {
    FlatteningAbsolute(objects, rank, t, bound, flat);
    FlatteningBelowRoot(objects, rank, t, bound, flat);
    forall c | c in Pending(flat) && c != ""
      ensures c in flat && BasicComplete(flat[c].attrs)
    {
      var k := PendingWitness(flat, c);
      if k != c {
        assert k[..|c| + 1] == c + "/";
        assert c[0] == k[0];
      }
      assert HasPrefix(c, "" + "/");
      PendingComplete(objects, rank, flat, "", t, bound, c);
    }
  }

  /** Tree::unflatten applied to the flattening of a stored tree whose
      directory entries carry the basic attributes succeeds, gives back that
      tree, and leaves it stored under its own hash. */
  method UnflattenFlattening(r: Repo, t: Tree, flat: Flat) returns (res: Result<Tree, UnflattenError>)
    requires r.Valid() && FlatFits(flat) && HashFits(r.H) && CanonicalStore(r.objects)
    requires NoNull(t) && Resolvable(r.objects, r.rank, t, r.height)
    requires DeepSlashFree(r.objects, r.rank, t, r.height) && DirsBasic(r.objects, r.rank, t, r.height)
    requires IsFlattening(r.objects, r.rank, t, r.height, flat)
    modifies r
    ensures res == Ok(t)
    ensures r.H(TreeBlob(t)) in r.objects
  {
    FlattenedUnflattens(r.H, r.objects, r.rank, r.height, t, flat);
    FlatteningNoNull(r.objects, r.rank, t, r.height, flat);
    FlatteningDirsComplete(r.objects, r.rank, t, r.height, flat);
    res := Unflatten.Unflatten(flat, r);
  }
}
