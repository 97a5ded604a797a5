/** Tree::unflatten (libori/tree.cc): rebuilds a directory tree from a flat
    path-to-entry map. Files are grouped by directory, every directory's
    tree is encoded and stored deepest first so that each parent is encoded
    only after all its subdirectories, the root tree is stored last, and
    the backreferences of the whole tree are recorded. */
module Unflatten {
  import opened Wrappers
  import opened LexOrder
  import opened Attrs
  import opened Entries
  import opened FixedWidth
  import opened TreeCodec
  import opened Objects
  import opened Store
  import opened Backrefs
  import opened Paths
  import opened Flatten

  /** The failures of unflatten: a Null entry (an assertion in the source),
      a directory with no entry of its own in the flat map (a dereference
      of flat.end() in the source), a directory entry without the basic
      attributes (an assertion), and a subtree the store cannot return
      while backreferences are recorded. */
  datatype UnflattenError =
    | NullEntryAt(path: string)
    | MissingDir(path: string)
    | MissingAttrs(path: string)
    | StoreError(cause: RepoError)

  predicate IsFile(e: TreeEntry)
  {
    e.kind == EntryType.Blob || e.kind == EntryType.LargeBlob
  }

  /** The directories the entries `keys` make unflatten build a tree for:
      every Tree entry, and the directory of every file. */
  function PendingIn(flat: Flat, keys: set<string>): set<string>
    requires keys <= flat.Keys
  {
    (set k | k in keys && flat[k].kind == EntryType.Tree)
    + (set k | k in keys && IsFile(flat[k]) :: Dirname(k))
  }

  function Pending(flat: Flat): set<string>
  {
    PendingIn(flat, flat.Keys)
  }

  /** Some element of a non-empty set. */
  ghost function Pick(paths: set<string>): (p: string)
    requires paths != {}
    ensures p in paths
  {
    var p :| p in paths; p
  }

  /** The last components of the paths `paths`. */
  ghost function Basenames(paths: set<string>): set<string>
    decreases paths
  {
    if paths == {} then {}
    else {Basename(Pick(paths))} + Basenames(paths - {Pick(paths)})
  }

  lemma {:induction false} BasenamesHas(paths: set<string>, p: string)
    requires p in paths
    ensures Basename(p) in Basenames(paths)
    decreases paths
  {
    var q := Pick(paths);
    if q != p {
      BasenamesHas(paths - {q}, p);
    }
  }

  lemma {:induction false} BasenamesFrom(paths: set<string>, b: string) returns (p: string)
    requires b in Basenames(paths)
    ensures p in paths && Basename(p) == b
    decreases paths
  {
    var q := Pick(paths);
    if b == Basename(q) {
      p := q;
    } else {
      p := BasenamesFrom(paths - {q}, b);
    }
  }

  /** Every name a tree built from `flat` can hold. */
  ghost function Names(flat: Flat): set<string>
  {
    Basenames(flat.Keys + Pending(flat))
  }

  /** Every path begins with '/', as Tree::flattened writes them. */
  predicate Absolute(flat: Flat)
  {
    forall k :: k in flat ==> |k| > 0 && k[0] == '/'
  }

  /** Every length and count of every tree unflatten encodes fits its
      eight-byte field. */
  ghost predicate FlatFits(flat: Flat)
  {
    && (forall k :: k in flat ==> EntryFits(k, flat[k]))
    && |Names(flat)| < Pow256(SIZE_BYTES)
  }

  /** The hashes the store computes fit a length field. */
  ghost predicate HashFits(H: string -> string)
  {
    forall s :: StrFits(H(s))
  }

  /** Every directory below the root has an entry of its own, with the
      basic attributes. */
  predicate DirsComplete(flat: Flat)
  {
    forall c :: c in Pending(flat) && c != "" ==> c in flat && BasicComplete(flat[c].attrs)
  }

  /** The tree under `d`, empty when there is none (operator[] of std::map). */
  function Get(trees: map<string, Tree>, d: string): Tree
  {
    if d in trees then trees[d] else map[]
  }

  // ------------------------------------------------- what unflatten builds

  /** The pending directories deeper than `d`. */
  ghost function Deeper(flat: Flat, d: string): set<string>
  {
    set x | x in Pending(flat) && Depth(x) > Depth(d)
  }

  lemma DeeperShrinks(flat: Flat, d: string, b: string)
    requires '/' !in b && d + "/" + b in Pending(flat)
    ensures Deeper(flat, d + "/" + b) < Deeper(flat, d)
  {
    DepthJoin(d, b);
    assert d + "/" + b in Deeper(flat, d);
  }

  /** The files of `keys` that lie directly in `d`, by last component. */
  ghost function FilesIn(flat: Flat, keys: set<string>, d: string): (t: Tree)
    requires keys <= flat.Keys
    ensures forall b :: b in t ==> IsFile(t[b])
  {
    map b | b in Names(flat) && '/' !in b && d + "/" + b in keys && IsFile(flat[d + "/" + b])
      :: flat[d + "/" + b]
  }

  /** The tree of `d` once the subdirectories in `done` are finished: its
      files, and an entry for each finished subdirectory. */
  ghost function Partial(H: string -> string, flat: Flat, done: set<string>, d: string): (t: Tree)
    ensures NoNull(t)
    decreases Deeper(flat, d), 2
  {
    FilesIn(flat, flat.Keys, d) + DirsIn(H, flat, done, d)
  }

  /** The entries of the finished subdirectories of `d`. */
  ghost function DirsIn(H: string -> string, flat: Flat, done: set<string>, d: string): (t: Tree)
    ensures forall b :: b in t ==> t[b].kind == EntryType.Tree
    decreases Deeper(flat, d), 1
  {
    map b | b in Names(flat) && '/' !in b && d + "/" + b in done && d + "/" + b in Pending(flat)
      :: (DeeperShrinks(flat, d, b); FinalEntry(H, flat, d + "/" + b))
  }

  /** The tree unflatten builds for directory `d`. */
  ghost function Built(H: string -> string, flat: Flat, d: string): (t: Tree)
    ensures NoNull(t)
    decreases Deeper(flat, d), 3
  {
    Partial(H, flat, Pending(flat), d)
  }

  /** The entry of a finished directory `c` in its parent: its own flat
      entry, turned into a Tree entry naming the hash of its tree. */
  ghost function FinalEntry(H: string -> string, flat: Flat, c: string): (e: TreeEntry)
    ensures e.kind == EntryType.Tree
    decreases Deeper(flat, c), 4
  {
    var e := if c in flat then flat[c] else EMPTY_ENTRY;
    e.(hash := H(TreeBlob(Built(H, flat, c))), kind := EntryType.Tree)
  }

  // ----------------------------------------------------------- path facts

  /** Every pending directory other than the root contains a '/'. */
  lemma PendingShape(flat: Flat, c: string)
    requires Absolute(flat) && c in Pending(flat) && c != ""
    ensures '/' in c
  {
    if c in flat {
      assert c[0] in c;
    } else {
      var k :| k in flat && IsFile(flat[k]) && Dirname(k) == c;
      var i := LastSlash(k);
      assert c == k[..i];
      assert c[0] == k[0] && c[0] in c;
    }
  }

  /** A pending directory other than the root is its directory, a '/' and
      its last component. */
  lemma PendingSplit(flat: Flat, c: string)
    requires Absolute(flat) && c in Pending(flat) && c != ""
    ensures c == Dirname(c) + "/" + Basename(c) && '/' !in Basename(c)
    ensures Basename(c) in Names(flat)
  {
    PendingShape(flat, c);
    SplitPath(c);
    BasenameSlashFree(c);
    BasenamesHas(flat.Keys + Pending(flat), c);
  }

  lemma StrFitsShorter(x: string, y: string)
    requires |x| <= |y| && StrFits(y)
    ensures StrFits(x)
  {
  }

  lemma PendingFits(flat: Flat, c: string)
    requires FlatFits(flat) && c in Pending(flat)
    ensures StrFits(c)
  {
    if c !in flat {
      var k :| k in flat && IsFile(flat[k]) && Dirname(k) == c;
      assert EntryFits(k, flat[k]);
      StrFitsShorter(c, k);
    } else {
      assert EntryFits(c, flat[c]);
    }
  }

  /** Every name a built tree can hold fits a length field. */
  lemma NamesFit(flat: Flat, b: string)
    requires FlatFits(flat) && b in Names(flat)
    ensures StrFits(b)
  {
    var k := BasenamesFrom(flat.Keys + Pending(flat), b);
    KeyOrPendingFits(flat, k);
    StrFitsShorter(b, k);
  }

  lemma KeyOrPendingFits(flat: Flat, k: string)
    requires FlatFits(flat) && k in flat.Keys + Pending(flat)
    ensures StrFits(k)
  {
    if k in flat {
      assert EntryFits(k, flat[k]);
    } else {
      PendingFits(flat, k);
    }
  }

  // -------------------------------------------- trees awaiting encoding

  /** A tree under construction: its names are names of the flat map, its
      entries are not Null and fit their fields, and every directory it
      names is already stored. */
  ghost predicate Ready(flat: Flat, objects: Objs, t: Tree)
  {
    && t.Keys <= Names(flat)
    && forall b :: b in t ==>
         && t[b].kind != EntryType.Null
         && EntryFits(b, t[b])
         && (t[b].kind == EntryType.Tree ==> t[b].hash in objects)
  }

  lemma SubsetCard(a: set<string>, b: set<string>)
    requires a <= b
    ensures |a| <= |b|
  {
    assert b == a + (b - a);
  }

  lemma ReadyFits(flat: Flat, objects: Objs, t: Tree)
    requires FlatFits(flat) && Ready(flat, objects, t)
    ensures NoNull(t) && TreeFits(t)
  {
    SubsetCard(t.Keys, Names(flat));
  }

  /** A ready tree encodes, and reads back as a tree whose directories are
      stored. */
  lemma ReadyDecodes(flat: Flat, objects: Objs, t: Tree)
    requires FlatFits(flat) && Ready(flat, objects, t)
    ensures NoNull(t)
    ensures DecodeTree(TreeBlob(t), map[]).Ok?
    ensures forall n :: n in DecodeTree(TreeBlob(t), map[]).value
                        && DecodeTree(TreeBlob(t), map[]).value[n].kind == EntryType.Tree
                        ==> DecodeTree(TreeBlob(t), map[]).value[n].hash in objects
  {
    ReadyFits(flat, objects, t);
    TreeRoundTrip(t, map[]);
    NormalizedStored(flat, objects, t);
  }

  /** Normalising a ready tree keeps its directories and their hashes. */
  lemma NormalizedStored(flat: Flat, objects: Objs, t: Tree)
    requires Ready(flat, objects, t)
    ensures forall n :: n in (map[] + NormalizedIn(t, t.Keys)) && (map[] + NormalizedIn(t, t.Keys))[n].kind == EntryType.Tree
                        ==> (map[] + NormalizedIn(t, t.Keys))[n].hash in objects
  {
    assert map[] + NormalizedIn(t, t.Keys) == NormalizedIn(t, t.Keys);
  }

  lemma ReadyGrow(flat: Flat, objects: Objs, objects': Objs, t: Tree)
    requires Ready(flat, objects, t) && objects.Keys <= objects'.Keys
    ensures Ready(flat, objects', t)
  {
  }

  /** Adding a fitting entry under a name of the flat map keeps a tree ready. */
  lemma ReadyUpdate(flat: Flat, objects: Objs, t: Tree, b: string, e: TreeEntry)
    requires Ready(flat, objects, t) && b in Names(flat)
    requires e.kind != EntryType.Null && EntryFits(b, e)
    requires e.kind == EntryType.Tree ==> e.hash in objects
    ensures Ready(flat, objects, t[b := e])
  {
  }

  /** The trees of the partition are ready: they hold only files of the flat map. */
  ghost predicate FilesOnly(flat: Flat, t: Tree)
  {
    forall b :: b in t ==> b in Names(flat) && IsFile(t[b]) && t[b] in flat.Values
  }

  /** A flat entry fits under any name of the flat map. */
  lemma FlatEntryFits(flat: Flat, b: string, e: TreeEntry)
    requires FlatFits(flat) && b in Names(flat) && e in flat.Values
    ensures EntryFits(b, e)
  {
    var k :| k in flat && flat[k] == e;
    assert EntryFits(k, flat[k]);
    NamesFit(flat, b);
  }

  lemma FilesOnlyReady(flat: Flat, objects: Objs, t: Tree)
    requires FlatFits(flat) && FilesOnly(flat, t)
    ensures Ready(flat, objects, t)
  {
    forall b | b in t ensures EntryFits(b, t[b]) {
      FlatEntryFits(flat, b, t[b]);
    }
  }

  // ------------------------------------------------------------ partition

  lemma PendingInStep(flat: Flat, done: set<string>, k: string)
    requires done <= flat.Keys && k in flat
    ensures PendingIn(flat, done + {k}) ==
              PendingIn(flat, done)
              + (if flat[k].kind == EntryType.Tree then {k} else {})
              + (if IsFile(flat[k]) then {Dirname(k)} else {})
  {
  }

  lemma NameOfKey(flat: Flat, k: string)
    requires k in flat
    ensures Basename(k) in Names(flat)
  {
    BasenamesHas(flat.Keys + Pending(flat), k);
  }

  /** Adding the file `k` to the files seen adds it to its own directory only. */
  lemma FilesInStep(flat: Flat, done: set<string>, k: string, d: string)
    requires Absolute(flat) && done <= flat.Keys && k in flat && IsFile(flat[k])
    ensures d == Dirname(k) ==> FilesIn(flat, done + {k}, d) == FilesIn(flat, done, d)[Basename(k) := flat[k]]
    ensures d != Dirname(k) ==> FilesIn(flat, done + {k}, d) == FilesIn(flat, done, d)
  {
    assert k[0] in k;
    SplitPath(k);
    BasenameSlashFree(k);
    NameOfKey(flat, k);
    forall b | '/' !in b && d + "/" + b == k ensures d == Dirname(k) && b == Basename(k) {
      JoinSplit(d, b);
    }
  }

  /** Seeing a directory entry adds no file. */
  lemma FilesInSkip(flat: Flat, done: set<string>, k: string, d: string)
    requires done <= flat.Keys && k in flat && !IsFile(flat[k])
    ensures FilesIn(flat, done + {k}, d) == FilesIn(flat, done, d)
  {
  }

  /** A directory no file lies in holds no file. */
  lemma FilesInOutside(flat: Flat, done: set<string>, d: string)
    requires Absolute(flat) && done <= flat.Keys && d !in PendingIn(flat, done)
    ensures FilesIn(flat, done, d) == map[]
  {
    forall b | b in Names(flat) && '/' !in b && d + "/" + b in done && IsFile(flat[d + "/" + b])
      ensures false
    {
      JoinSplit(d, b);
    }
  }

  /** What the first loop keeps: a tree for every pending directory of the
      keys seen, holding files only, and under absolute keys exactly the
      files seen in it. */
  ghost predicate Partitioned(flat: Flat, trees: map<string, Tree>, done: set<string>)
    requires done <= flat.Keys
  {
    && trees.Keys == PendingIn(flat, done)
    && (forall d :: d in trees ==> FilesOnly(flat, trees[d]))
    && (Absolute(flat) ==> forall d :: d in trees ==> trees[d] == FilesIn(flat, done, d))
  }

  /** One turn of the first loop, on values: a directory entry gets a tree,
      a file goes into the tree of its directory. */
  function Place(trees: map<string, Tree>, k: string, e: TreeEntry): map<string, Tree>
  {
    if e.kind == EntryType.Tree then
      (if k in trees then trees else trees[k := map[]])
    else
      trees[Dirname(k) := Get(trees, Dirname(k))[Basename(k) := e]]
  }

  lemma PlaceDir(flat: Flat, trees: map<string, Tree>, done: set<string>, k: string)
    requires done <= flat.Keys && k in flat && flat[k].kind == EntryType.Tree
    requires Partitioned(flat, trees, done)
    ensures Partitioned(flat, Place(trees, k, flat[k]), done + {k})
  {
    PendingInStep(flat, done, k);
    var next := Place(trees, k, flat[k]);
    if Absolute(flat) {
      if k !in trees {
        FilesInOutside(flat, done, k);
      }
      forall d | d in next ensures next[d] == FilesIn(flat, done + {k}, d) {
        FilesInSkip(flat, done, k, d);
      }
    }
  }

  lemma PlaceFile(flat: Flat, trees: map<string, Tree>, done: set<string>, k: string)
    requires done <= flat.Keys && k in flat && IsFile(flat[k])
    requires Partitioned(flat, trees, done)
    ensures Partitioned(flat, Place(trees, k, flat[k]), done + {k})
  {
    PendingInStep(flat, done, k);
    PlaceFilesOnly(flat, trees, k);
    if Absolute(flat) {
      PlaceFileAbsolute(flat, trees, done, k);
    }
  }

  lemma PlaceFilesOnly(flat: Flat, trees: map<string, Tree>, k: string)
    requires k in flat && IsFile(flat[k])
    requires forall d :: d in trees ==> FilesOnly(flat, trees[d])
    ensures forall d :: d in Place(trees, k, flat[k]) ==> FilesOnly(flat, Place(trees, k, flat[k])[d])
  {
    NameOfKey(flat, k);
    var next := Place(trees, k, flat[k]);
    var t := Get(trees, Dirname(k));
    assert FilesOnly(flat, t);
    assert next[Dirname(k)] == t[Basename(k) := flat[k]];
  }

  lemma PlaceFileAbsolute(flat: Flat, trees: map<string, Tree>, done: set<string>, k: string)
    requires done <= flat.Keys && k in flat && IsFile(flat[k]) && Absolute(flat)
    requires trees.Keys == PendingIn(flat, done)
    requires forall d :: d in trees ==> trees[d] == FilesIn(flat, done, d)
    ensures forall d :: d in Place(trees, k, flat[k]) ==>
              Place(trees, k, flat[k])[d] == FilesIn(flat, done + {k}, d)
  {
    var next := Place(trees, k, flat[k]);
    if Dirname(k) !in trees {
      FilesInOutside(flat, done, Dirname(k));
    }
    forall d | d in next ensures next[d] == FilesIn(flat, done + {k}, d) {
      FilesInStep(flat, done, k, d);
    }
  }

  lemma PlaceStep(flat: Flat, trees: map<string, Tree>, done: set<string>, k: string)
    requires done <= flat.Keys && k in flat && flat[k].kind != EntryType.Null
    requires Partitioned(flat, trees, done)
    ensures Partitioned(flat, Place(trees, k, flat[k]), done + {k})
  {
    if flat[k].kind == EntryType.Tree {
      PlaceDir(flat, trees, done, k);
    } else {
      PlaceFile(flat, trees, done, k);
    }
  }

  /** The first loop of Tree::unflatten: walks the flat map in key order,
      creating a tree for every Tree entry and putting every file into the
      tree of its directory. A Null entry is the assertion of the source. */
  method Partition(flat: Flat) returns (res: Result<map<string, Tree>, UnflattenError>)
    ensures res.Err? <==> !NoNull(flat)
    ensures res.Err? ==> res.error.NullEntryAt? && res.error.path in flat
                         && flat[res.error.path].kind == EntryType.Null
    ensures res.Ok? ==> res.value.Keys == Pending(flat)
    ensures res.Ok? ==> forall d :: d in res.value ==> FilesOnly(flat, res.value[d])
    ensures res.Ok? && Absolute(flat) ==>
              forall d :: d in res.value ==> res.value[d] == FilesIn(flat, flat.Keys, d)
  {
    var trees: map<string, Tree> := map[];
    var rem := flat.Keys;
    ghost var done: set<string> := {};
    while rem != {}
      invariant done !! rem && done + rem == flat.Keys
      invariant forall k :: k in done ==> flat[k].kind != EntryType.Null
      invariant Partitioned(flat, trees, done)
      decreases rem
    {
      LeastExists(rem);
      var k :| IsLeast(k, rem);
      var te := flat[k];
      if te.kind == EntryType.Null {
        return Err(NullEntryAt(k));
      }
      PlaceStep(flat, trees, done, k);
      if te.kind == EntryType.Tree {
        if k !in trees {
          trees := trees[k := map[]];
        }
      } else {
        var treename := Dirname(k);
        var tree := if treename in trees then trees[treename] else map[];
        trees := trees[treename := tree[Basename(k) := te]];
      }
      done := done + {k};
      rem := rem - {k};
    }
    PartitionedAll(flat, trees);
    return Ok(trees);
  }

  /** Once every key is seen, the trees are those of the pending directories. */
  lemma PartitionedAll(flat: Flat, trees: map<string, Tree>)
    requires Partitioned(flat, trees, flat.Keys)
    ensures trees.Keys == Pending(flat)
    ensures forall d :: d in trees ==> FilesOnly(flat, trees[d])
    ensures Absolute(flat) ==> forall d :: d in trees ==> trees[d] == FilesIn(flat, flat.Keys, d)
  {
  }

  /** The second loop of Tree::unflatten: the names of the trees, in map order. */
  method TreeNames(trees: map<string, Tree>) returns (names: seq<string>)
    ensures names == Ascending(trees.Keys)
  {
    names := [];
    var rem := trees.Keys;
    while rem != {}
      invariant rem <= trees.Keys
      invariant names + Ascending(rem) == Ascending(trees.Keys)
      decreases rem
    {
      LeastExists(rem);
      var n :| IsLeast(n, rem);
      LeastUnique(n, Least(rem), rem);
      assert Ascending(rem) == [n] + Ascending(rem - {n});
      names := names + [n];
      rem := rem - {n};
    }
  }

  // -------------------------------------------------------- finalisation

  /** Every pending directory deeper than `order[i]` lies before it. */
  lemma DeeperBefore(order: seq<string>, i: nat, x: string)
    requires DeepestFirst(order) && i < |order| && x in order && Depth(x) > Depth(order[i])
    ensures x in order[..i]
  {
    var j :| 0 <= j < |order| && order[j] == x;
    assert j < i;
    assert order[..i][j] == x;
  }

  /** The subdirectory entries of `d` depend only on which of its
      subdirectories are finished. */
  lemma DirsInSame(H: string -> string, flat: Flat, done1: set<string>, done2: set<string>, d: string)
    requires forall b :: '/' !in b && d + "/" + b in Pending(flat) ==> (d + "/" + b in done1 <==> d + "/" + b in done2)
    ensures DirsIn(H, flat, done1, d) == DirsIn(H, flat, done2, d)
  {
    var m1 := DirsIn(H, flat, done1, d);
    var m2 := DirsIn(H, flat, done2, d);
    forall b ensures b in m1 <==> b in m2 {
    }
    assert m1.Keys == m2.Keys;
  }

  /** Once all subdirectories of `c` are finished, its tree is the one
      unflatten builds for it. */
  lemma PartialComplete(H: string -> string, flat: Flat, done: set<string>, c: string)
    requires forall x :: x in Pending(flat) && Depth(x) > Depth(c) ==> x in done
    ensures Partial(H, flat, done, c) == Built(H, flat, c)
  {
    forall b | '/' !in b && c + "/" + b in Pending(flat) ensures c + "/" + b in done {
      DepthJoin(c, b);
    }
    DirsInSame(H, flat, done, Pending(flat), c);
  }

  /** Finishing `c` adds its entry to its parent. */
  lemma DirsInStep(H: string -> string, flat: Flat, done: set<string>, c: string)
    requires Absolute(flat) && c in Pending(flat) && c != ""
    ensures DirsIn(H, flat, done + {c}, Dirname(c))
              == DirsIn(H, flat, done, Dirname(c))[Basename(c) := FinalEntry(H, flat, c)]
  {
    PendingSplit(flat, c);
    var d := Dirname(c);
    forall b | '/' !in b && d + "/" + b == c ensures b == Basename(c) {
      JoinSplit(d, b);
    }
    DirsInStepKeys(H, flat, done, c, d, Basename(c));
    DirsInStepValues(H, flat, done, c, d, Basename(c));
  }

  lemma DirsInStepKeys(H: string -> string, flat: Flat, done: set<string>, c: string, d: string, bc: string)
    requires c == d + "/" + bc && '/' !in bc && bc in Names(flat) && c in Pending(flat)
    requires forall b :: '/' !in b && d + "/" + b == c ==> b == bc
    ensures DirsIn(H, flat, done + {c}, d).Keys == DirsIn(H, flat, done, d).Keys + {bc}
  {
    var m1 := DirsIn(H, flat, done + {c}, d);
    var m0 := DirsIn(H, flat, done, d);
    forall b ensures b in m1 <==> b in m0 || b == bc {
      if b == bc {
        assert d + "/" + b == c;
      }
    }
  }

  lemma DirsInStepValues(H: string -> string, flat: Flat, done: set<string>, c: string, d: string, bc: string)
    requires c == d + "/" + bc
    requires DirsIn(H, flat, done + {c}, d).Keys == DirsIn(H, flat, done, d).Keys + {bc}
    ensures DirsIn(H, flat, done + {c}, d) == DirsIn(H, flat, done, d)[bc := FinalEntry(H, flat, c)]
  {
    var m1 := DirsIn(H, flat, done + {c}, d);
    var m0 := DirsIn(H, flat, done, d);
    forall b | b in m1 && b != bc ensures m1[b] == m0[b] {
      assert b in m0;
    }
    UpdateExt(m1, m0, bc, FinalEntry(H, flat, c));
  }

  /** A map that agrees with `m0` except at `k`, where it holds `v`. */
  lemma UpdateExt<V>(m1: map<string, V>, m0: map<string, V>, k: string, v: V)
    requires m1.Keys == m0.Keys + {k} && k in m1 && m1[k] == v
    requires forall b :: b in m1 && b != k ==> m1[b] == m0[b]
    ensures m1 == m0[k := v]
  {
    assert m1.Keys == m0[k := v].Keys;
  }

  lemma UnionUpdate(a: Tree, b: Tree, k: string, v: TreeEntry)
    ensures a + b[k := v] == (a + b)[k := v]
  {
    assert (a + b[k := v]).Keys == (a + b)[k := v].Keys;
  }

  /** Finishing `c` adds its entry to its parent and changes no other tree. */
  lemma PartialStep(H: string -> string, flat: Flat, done: set<string>, c: string, d: string)
    requires Absolute(flat) && c in Pending(flat) && c != ""
    ensures d == Dirname(c) ==>
              Partial(H, flat, done + {c}, d) == Partial(H, flat, done, d)[Basename(c) := FinalEntry(H, flat, c)]
    ensures d != Dirname(c) ==> Partial(H, flat, done + {c}, d) == Partial(H, flat, done, d)
  {
    if d == Dirname(c) {
      DirsInStep(H, flat, done, c);
      UnionUpdate(FilesIn(flat, flat.Keys, d), DirsIn(H, flat, done, d), Basename(c), FinalEntry(H, flat, c));
    } else {
      PendingSplit(flat, c);
      forall b | '/' !in b && d + "/" + b in Pending(flat)
        ensures d + "/" + b in done + {c} <==> d + "/" + b in done
      {
        JoinSplit(d, b);
      }
      DirsInSame(H, flat, done + {c}, done, d);
    }
  }

  /** Skipping the root changes no tree. */
  lemma PartialSkipRoot(H: string -> string, flat: Flat, done: set<string>, d: string)
    ensures Partial(H, flat, done + {""}, d) == Partial(H, flat, done, d)
  {
    forall b | '/' !in b && d + "/" + b in Pending(flat)
      ensures d + "/" + b in done + {""} <==> d + "/" + b in done
    {
      assert |d + "/" + b| > 0;
    }
    DirsInSame(H, flat, done + {""}, done, d);
  }

  /** The invariant of the finalisation loop for the trees of interest. */
  ghost predicate Tracks(H: string -> string, flat: Flat, trees: map<string, Tree>, done: set<string>)
  {
    forall d {:trigger Get(trees, d)} :: d in Pending(flat) + {""} ==> Get(trees, d) == Partial(H, flat, done, d)
  }

  /** What the third loop keeps: every pending directory has a tree, the
      trees are ready, the finished directories exist with basic attributes,
      and under absolute keys each tree holds its files and finished
      subdirectories and each finished tree is stored. */
  ghost predicate Finishing(H: string -> string, flat: Flat, objects: Objs,
                            trees: map<string, Tree>, done: set<string>)
  {
    && Pending(flat) <= trees.Keys
    && (forall d :: d in trees ==> Ready(flat, objects, trees[d]))
    && (forall c :: c in done && c != "" ==> c in flat && BasicComplete(flat[c].attrs))
    && (Absolute(flat) ==> Tracks(H, flat, trees, done))
    && (Absolute(flat) ==> forall c :: c in done && c != "" ==> H(TreeBlob(Built(H, flat, c))) in objects)
  }

  /** Before the third loop, the trees hold exactly the files. */
  lemma FinishingInitially(H: string -> string, flat: Flat, objects: Objs, trees: map<string, Tree>)
    requires trees.Keys == Pending(flat)
    requires forall d :: d in trees ==> Ready(flat, objects, trees[d])
    requires Absolute(flat) ==> forall d :: d in trees ==> trees[d] == FilesIn(flat, flat.Keys, d)
    ensures Finishing(H, flat, objects, trees, {})
  {
    if Absolute(flat) {
      TracksInitially(H, flat, trees);
    }
  }

  lemma TracksInitially(H: string -> string, flat: Flat, trees: map<string, Tree>)
    requires Absolute(flat) && trees.Keys == Pending(flat)
    requires forall d :: d in trees ==> trees[d] == FilesIn(flat, flat.Keys, d)
    ensures Tracks(H, flat, trees, {})
  {
    forall d | d in Pending(flat) + {""} ensures Get(trees, d) == Partial(H, flat, {}, d) {
      assert DirsIn(H, flat, {}, d) == map[];
      if d !in trees {
        FilesInOutside(flat, flat.Keys, d);
      }
    }
  }

  /** Skipping the root keeps the loop's facts. */
  lemma FinishingSkipRoot(H: string -> string, flat: Flat, objects: Objs,
                          trees: map<string, Tree>, done: set<string>)
    requires Finishing(H, flat, objects, trees, done)
    ensures Finishing(H, flat, objects, trees, done + {""})
  {
    if Absolute(flat) {
      TracksSkipRoot(H, flat, trees, done);
    }
  }

  lemma TracksSkipRoot(H: string -> string, flat: Flat, trees: map<string, Tree>, done: set<string>)
    requires Tracks(H, flat, trees, done)
    ensures Tracks(H, flat, trees, done + {""})
  {
    forall d | d in Pending(flat) + {""} ensures Get(trees, d) == Partial(H, flat, done + {""}, d) {
      assert Get(trees, d) == Partial(H, flat, done, d);
      PartialSkipRoot(H, flat, done, d);
    }
  }

  /** After the third loop every directory is finished. */
  lemma AllDone(pending: set<string>, order: seq<string>, done: set<string>)
    requires forall x :: x in order <==> x in pending
    requires forall x :: x in done <==> x in order[..|order|]
    ensures done == pending
  {
    assert order[..|order|] == order;
  }

  /** After the third loop, every directory exists with basic attributes
      and the root's tree is ready. */
  lemma FinishingDone(flat: Flat, objects: Objs, trees: map<string, Tree>)
    requires Pending(flat) <= trees.Keys
    requires forall d :: d in trees ==> Ready(flat, objects, trees[d])
    requires forall c :: c in Pending(flat) && c != "" ==> c in flat && BasicComplete(flat[c].attrs)
    ensures DirsComplete(flat)
    ensures Ready(flat, objects, Get(trees, ""))
  {
  }

  /** After the third loop, under absolute keys, the root's tree is the one
      unflatten builds. */
  lemma FinishingBuilt(H: string -> string, flat: Flat, trees: map<string, Tree>)
    requires Absolute(flat) ==> Tracks(H, flat, trees, Pending(flat))
    ensures Absolute(flat) ==> Get(trees, "") == Built(H, flat, "")
  {
    if Absolute(flat) {
      assert Get(trees, "") == Partial(H, flat, Pending(flat), "");
      PartialComplete(H, flat, Pending(flat), "");
    }
  }

  /** The directories finished after one more turn. */
  lemma PrefixStep(s: seq<string>, i: nat, done: set<string>)
    requires i < |s|
    requires forall x :: x in done <==> x in s[..i]
    ensures forall x :: x in done + {s[i]} <==> x in s[..i + 1]
  {
    assert s[..i + 1] == s[..i] + [s[i]];
  }

  /** The third loop of Tree::unflatten: in deepest-first order, encodes
      and stores the tree of every directory but the root and enters it,
      as a Tree entry naming that hash, into the tree of its parent. */
  method AddSubtrees(r: Repo, flat: Flat, trees0: map<string, Tree>, order: seq<string>)
      returns (res: Result<map<string, Tree>, UnflattenError>)
    requires r.Valid() && FlatFits(flat) && HashFits(r.H)
    requires forall x :: x in order <==> x in Pending(flat)
    requires DeepestFirst(order)
    requires Finishing(r.H, flat, r.objects, trees0, {})
    modifies r
    ensures r.Valid() && r.backrefs == old(r.backrefs)
    ensures Extends(old(r.objects), r.objects)
    ensures RanksKept(old(r.rank), old(r.height), r.rank, r.height)
    ensures res.Err? ==> (res.error.MissingDir? || res.error.MissingAttrs?)
                         && res.error.path in Pending(flat) && res.error.path != ""
    ensures res.Err? && res.error.MissingDir? ==> res.error.path !in flat
    ensures res.Err? && res.error.MissingAttrs? ==>
              res.error.path in flat && !BasicComplete(flat[res.error.path].attrs)
    ensures res.Ok? ==> Finishing(r.H, flat, r.objects, res.value, Pending(flat))
  {
    var trees := trees0;
    ghost var done: set<string> := {};
    var i := 0;
    while i < |order|
      invariant 0 <= i <= |order|
      invariant forall x :: x in done <==> x in order[..i]
      invariant r.Valid() && r.backrefs == old(r.backrefs)
      invariant Extends(old(r.objects), r.objects)
      invariant RanksKept(old(r.rank), old(r.height), r.rank, r.height)
      invariant Finishing(r.H, flat, r.objects, trees, done)
    {
      var tn := order[i];
      PrefixStep(order, i, done);
      if |tn| == 0 {
        FinishingSkipRoot(r.H, flat, r.objects, trees, done);
        done := done + {tn};
        i := i + 1;
        continue;
      }
      ghost var before := r.objects;
      var res1 := FinishDir(r, flat, trees, tn, done, order, i);
      ExtendsTrans(old(r.objects), before, r.objects);
      if res1.Err? {
        return Err(res1.error);
      }
      trees := res1.value;
      done := done + {tn};
      i := i + 1;
    }
    AllDone(Pending(flat), order, done);
    return Ok(trees);
  }

  /** The store keeps every object it held. */
  ghost predicate Extends(before: Objs, after: Objs)
  {
    forall h :: h in before ==> h in after && after[h] == before[h]
  }

  lemma ExtendsTrans(a: Objs, b: Objs, c: Objs)
    requires Extends(a, b) && Extends(b, c)
    ensures Extends(a, c)
  {
  }

  /** A tree whose subtrees can all be fetched can still be fetched in full
      once the store has grown. */
  lemma {:induction false} ResolvableGrows(objects: Objs, rank: map<string, nat>, bound: nat,
                                           objects': Objs, rank': map<string, nat>, bound': nat, t: Tree)
    requires Extends(objects, objects') && RanksKept(rank, bound, rank', bound')
    requires Resolvable(objects, rank, t, bound)
    ensures Resolvable(objects', rank', t, bound')
    decreases bound
  {
    forall n | n in t && t[n].kind == EntryType.Tree
      ensures Reachable(objects', rank', t[n], bound')
      ensures Resolvable(objects', rank', Child(objects', t[n]), rank'[t[n].hash])
    {
      var h := t[n].hash;
      assert LookupTree(objects', h) == LookupTree(objects, h);
      ResolvableGrows(objects, rank, rank[h], objects', rank', rank[h], Child(objects, t[n]));
    }
  }

  /** Encodes a ready tree and stores it; the result is the hash of its blob. */
  method StoreTree(r: Repo, flat: Flat, t: Tree) returns (hash: string)
    requires r.Valid() && FlatFits(flat) && Ready(flat, r.objects, t)
    modifies r
    ensures r.Valid() && r.backrefs == old(r.backrefs)
    ensures Extends(old(r.objects), r.objects)
    ensures RanksKept(old(r.rank), old(r.height), r.rank, r.height)
    ensures hash == r.H(TreeBlob(t)) && hash in r.objects
  {
    ReadyDecodes(flat, r.objects, t);
    var blob := GetBlob(t);
    assert blob.Ok?;
    ghost var before := r.objects;
    hash := r.AddBlob(ObjectType.Tree, blob.value);
    ExtendsByAdd(before, r.objects, hash, StoredObject(ObjectType.Tree, blob.value));
  }

  /** Adding an object, or finding it already there, keeps every stored one. */
  lemma ExtendsByAdd(before: Objs, after: Objs, h: string, o: StoredObject)
    requires h in before ==> after == before
    requires h !in before ==> after == before[h := o]
    ensures Extends(before, after) && h in after
  {
  }

  /** The trees stay ready as the store grows. */
  lemma ReadyGrowAll(flat: Flat, objects: Objs, objects': Objs, trees: map<string, Tree>)
    requires forall d :: d in trees ==> Ready(flat, objects, trees[d])
    requires Extends(objects, objects')
    ensures forall d :: d in trees ==> Ready(flat, objects', trees[d])
  {
    forall d | d in trees ensures Ready(flat, objects', trees[d]) {
      ReadyGrow(flat, objects, objects', trees[d]);
    }
  }

  /** In deepest-first order, the tree of `order[i]` is complete when the
      loop reaches it. */
  lemma TurnComplete(H: string -> string, flat: Flat, trees: map<string, Tree>, done: set<string>,
                     order: seq<string>, i: nat)
    requires Absolute(flat) && i < |order| && DeepestFirst(order)
    requires forall x :: x in order <==> x in Pending(flat)
    requires forall x :: x in done <==> x in order[..i]
    requires Tracks(H, flat, trees, done)
    ensures Get(trees, order[i]) == Built(H, flat, order[i])
  {
    forall x | x in Pending(flat) && Depth(x) > Depth(order[i]) ensures x in done {
      DeeperBefore(order, i, x);
    }
    PartialComplete(H, flat, done, order[i]);
  }

  /** Entering the finished `tn` into its parent keeps the trees ready. */
  lemma FinishReady(flat: Flat, objects: Objs, trees: map<string, Tree>, tn: string, te: TreeEntry,
                    next: map<string, Tree>)
    requires FlatFits(flat) && tn in Pending(flat) && tn in flat
    requires forall d :: d in trees ==> Ready(flat, objects, trees[d])
    requires te == flat[tn].(hash := te.hash, kind := EntryType.Tree)
    requires te.hash in objects && StrFits(te.hash)
    requires next == trees[Dirname(tn) := Get(trees, Dirname(tn))[Basename(tn) := te]]
    ensures forall d :: d in next ==> Ready(flat, objects, next[d])
  {
    AddToParentReady(flat, objects, Get(trees, Dirname(tn)), tn, te);
  }

  /** Entering the finished `tn` into its parent keeps the trees tracked. */
  lemma FinishTracks(H: string -> string, flat: Flat, trees: map<string, Tree>, done: set<string>, tn: string)
    requires Absolute(flat) && tn in Pending(flat) && tn != ""
    requires Tracks(H, flat, trees, done)
    ensures Tracks(H, flat, trees[Dirname(tn) := Get(trees, Dirname(tn))[Basename(tn) := FinalEntry(H, flat, tn)]],
                   done + {tn})
  {
    var next := trees[Dirname(tn) := Get(trees, Dirname(tn))[Basename(tn) := FinalEntry(H, flat, tn)]];
    forall d | d in Pending(flat) + {""} ensures Get(next, d) == Partial(H, flat, done + {tn}, d) {
      assert Get(trees, d) == Partial(H, flat, done, d);
      PartialStep(H, flat, done, tn, d);
    }
  }

  /** One turn of the finalisation loop, for the directory `tn`. */
  method FinishDir(r: Repo, flat: Flat, trees: map<string, Tree>, tn: string,
                   ghost done: set<string>, ghost order: seq<string>, ghost i: nat)
      returns (res: Result<map<string, Tree>, UnflattenError>)
    requires r.Valid() && FlatFits(flat) && HashFits(r.H)
    requires i < |order| && order[i] == tn && tn != ""
    requires forall x :: x in order <==> x in Pending(flat)
    requires DeepestFirst(order)
    requires forall x :: x in done <==> x in order[..i]
    requires Finishing(r.H, flat, r.objects, trees, done)
    modifies r
    ensures r.Valid() && r.backrefs == old(r.backrefs)
    ensures Extends(old(r.objects), r.objects)
    ensures RanksKept(old(r.rank), old(r.height), r.rank, r.height)
    ensures res.Ok? <==> tn in flat && BasicComplete(flat[tn].attrs)
    ensures res.Err? && tn !in flat ==> res.error == MissingDir(tn)
    ensures res.Err? && tn in flat ==> res.error == MissingAttrs(tn)
    ensures res.Ok? ==> Finishing(r.H, flat, r.objects, res.value, done + {tn})
  {
    assert tn in Pending(flat);
    if Absolute(flat) {
      TurnComplete(r.H, flat, trees, done, order, i);
    }
    ghost var before := r.objects;
    var hash := StoreTree(r, flat, trees[tn]);
    if tn !in flat {
      return Err(MissingDir(tn));
    }
    var te := flat[tn];
    te := te.(hash := hash, kind := EntryType.Tree);
    var ok := HasBasicAttrs(te);
    if !ok {
      return Err(MissingAttrs(tn));
    }
    var parent := Dirname(tn);
    var base := Basename(tn);
    var next := trees[parent := Get(trees, parent)[base := te]];
    FinishingStep(r.H, flat, before, r.objects, trees, done, tn, te, next);
    return Ok(next);
  }

  /** Finishing `tn`, stored under the hash of its tree, keeps the loop's facts. */
  lemma FinishingStep(H: string -> string, flat: Flat, objects: Objs, objects': Objs,
                      trees: map<string, Tree>, done: set<string>, tn: string, te: TreeEntry,
                      next: map<string, Tree>)
    requires FlatFits(flat) && HashFits(H)
    requires Finishing(H, flat, objects, trees, done) && Extends(objects, objects')
    requires tn in Pending(flat) && tn != "" && tn in flat && BasicComplete(flat[tn].attrs)
    requires te == flat[tn].(hash := H(TreeBlob(trees[tn])), kind := EntryType.Tree)
    requires te.hash in objects'
    requires Absolute(flat) ==> trees[tn] == Built(H, flat, tn)
    requires next == trees[Dirname(tn) := Get(trees, Dirname(tn))[Basename(tn) := te]]
    ensures Finishing(H, flat, objects', next, done + {tn})
  {
    ReadyGrowAll(flat, objects, objects', trees);
    FinishReady(flat, objects', trees, tn, te, next);
    if Absolute(flat) {
      assert te == FinalEntry(H, flat, tn);
      FinishTracks(H, flat, trees, done, tn);
      StoredGrow(H, flat, objects, objects', done, tn);
    }
    CompleteGrow(flat, done, tn);
  }

  /** The finished directories stay complete, and `tn` joins them. */
  lemma CompleteGrow(flat: Flat, done: set<string>, tn: string)
    requires forall c :: c in done && c != "" ==> c in flat && BasicComplete(flat[c].attrs)
    requires tn in flat && BasicComplete(flat[tn].attrs)
    ensures forall c :: c in done + {tn} && c != "" ==> c in flat && BasicComplete(flat[c].attrs)
  {
  }

  /** The finished trees stay stored, and `tn` joins them. */
  lemma StoredGrow(H: string -> string, flat: Flat, objects: Objs, objects': Objs, done: set<string>, tn: string)
    requires Extends(objects, objects')
    requires forall c :: c in done && c != "" ==> H(TreeBlob(Built(H, flat, c))) in objects
    requires H(TreeBlob(Built(H, flat, tn))) in objects'
    ensures forall c :: c in done + {tn} && c != "" ==> H(TreeBlob(Built(H, flat, c))) in objects'
  {
    forall c | c in done + {tn} && c != "" ensures H(TreeBlob(Built(H, flat, c))) in objects' {
      if c != tn {
        var h := H(TreeBlob(Built(H, flat, c)));
        assert h in objects;
      }
    }
  }

  /** The entry of a finished directory keeps its parent's tree ready. */
  lemma AddToParentReady(flat: Flat, objects: Objs, t: Tree, tn: string, te: TreeEntry)
    requires FlatFits(flat) && tn in Pending(flat) && tn in flat && Ready(flat, objects, t)
    requires te == flat[tn].(hash := te.hash, kind := EntryType.Tree)
    requires te.hash in objects && StrFits(te.hash)
    ensures Ready(flat, objects, t[Basename(tn) := te])
  {
    BasenamesHas(flat.Keys + Pending(flat), tn);
    NamesFit(flat, Basename(tn));
    assert EntryFits(tn, flat[tn]);
    ReadyUpdate(flat, objects, t, Basename(tn), te);
  }

  // ------------------------------------------------------------ unflatten

  /** The sorted names are the pending directories. */
  lemma SortedNames(trees: map<string, Tree>, names: seq<string>, order: seq<string>)
    requires names == Ascending(trees.Keys)
    requires multiset(order) == multiset(names)
    ensures forall x :: x in order <==> x in trees
  {
    AscendingIsSortedEnumeration(trees.Keys);
    forall x ensures x in order <==> x in trees {
      assert x in order <==> x in multiset(order);
      assert x in names <==> x in multiset(names);
    }
  }

  /** A missing directory or one without basic attributes makes the
      flat map incomplete. */
  lemma MissingNotComplete(flat: Flat, e: UnflattenError)
    requires (e.MissingDir? || e.MissingAttrs?) && e.path in Pending(flat) && e.path != ""
    requires e.MissingDir? ==> e.path !in flat
    requires e.MissingAttrs? ==> e.path in flat && !BasicComplete(flat[e.path].attrs)
    ensures !DirsComplete(flat)
  {
  }

  /** The three loops of Tree::unflatten before the root is stored: the
      partition, the deepest-first order and the finalisation of every
      directory but the root. */
  method BuildTrees(flat: Flat, r: Repo) returns (res: Result<map<string, Tree>, UnflattenError>)
    requires r.Valid() && FlatFits(flat) && HashFits(r.H)
    modifies r
    ensures r.Valid() && r.backrefs == old(r.backrefs)
    ensures Extends(old(r.objects), r.objects)
    ensures RanksKept(old(r.rank), old(r.height), r.rank, r.height)
    ensures (res.Err? && res.error.NullEntryAt?) <==> !NoNull(flat)
    ensures res.Err? && res.error.NullEntryAt? ==>
              res.error.path in flat && flat[res.error.path].kind == EntryType.Null
    ensures res.Err? && res.error.MissingDir? ==>
              res.error.path in Pending(flat) && res.error.path != "" && res.error.path !in flat
    ensures res.Err? && res.error.MissingAttrs? ==>
              res.error.path in Pending(flat) && res.error.path in flat
              && !BasicComplete(flat[res.error.path].attrs)
    ensures res.Ok? <==> NoNull(flat) && DirsComplete(flat)
    ensures res.Err? ==> !res.error.StoreError?
    ensures res.Ok? ==> Ready(flat, r.objects, Get(res.value, ""))
    ensures res.Ok? && Absolute(flat) ==> Get(res.value, "") == Built(r.H, flat, "")
    ensures res.Ok? && Absolute(flat) ==>
              forall c :: c in Pending(flat) && c != "" ==> r.H(TreeBlob(Built(r.H, flat, c))) in r.objects
  {
    var parts := Partition(flat);
    if parts.Err? {
      return Err(parts.error);
    }
    var trees := parts.value;
    forall d | d in trees ensures Ready(flat, r.objects, trees[d]) {
      FilesOnlyReady(flat, r.objects, trees[d]);
    }
    var names := TreeNames(trees);
    var order := SortByDepth(names);
    SortedNames(trees, names, order);
    FinishingInitially(r.H, flat, r.objects, trees);
    res := AddSubtrees(r, flat, trees, order);
    if res.Err? {
      MissingNotComplete(flat, res.error);
      return;
    }
    FinishingDone(flat, r.objects, res.value);
    FinishingBuilt(r.H, flat, res.value);
  }

  /** Tree::unflatten. */
  method Unflatten(flat: Flat, r: Repo) returns (res: Result<Tree, UnflattenError>)
    requires r.Valid() && FlatFits(flat) && HashFits(r.H)
    modifies r
    ensures r.Valid()
    ensures Extends(old(r.objects), r.objects)
    ensures RanksKept(old(r.rank), old(r.height), r.rank, r.height)
    ensures (res.Err? && res.error.NullEntryAt?) <==> !NoNull(flat)
    ensures res.Err? && res.error.NullEntryAt? ==>
              res.error.path in flat && flat[res.error.path].kind == EntryType.Null
    ensures res.Err? && res.error.MissingDir? ==>
              res.error.path in Pending(flat) && res.error.path != "" && res.error.path !in flat
    ensures res.Err? && res.error.MissingAttrs? ==>
              res.error.path in Pending(flat) && res.error.path in flat
              && !BasicComplete(flat[res.error.path].attrs)
    ensures res.Ok? ==> NoNull(flat) && DirsComplete(flat)
    ensures NoNull(flat) && DirsComplete(flat) ==> res.Ok? || res.error.StoreError?
    ensures (&& NoNull(flat) && DirsComplete(flat) && Absolute(flat)
             && Resolvable(old(r.objects), old(r.rank), Built(r.H, flat, ""), old(r.height))) ==> res.Ok?
    ensures res.Ok? ==> NoNull(res.value) && r.H(TreeBlob(res.value)) in r.objects
    ensures res.Ok? ==>
              r.backrefs == old(r.backrefs) + Edges(r.objects, r.rank, r.H(TreeBlob(res.value)), res.value, r.height)
    ensures res.Ok? && Absolute(flat) ==> res.value == Built(r.H, flat, "")
    ensures res.Ok? && Absolute(flat) ==>
              forall c :: c in Pending(flat) && c != "" ==> r.H(TreeBlob(Built(r.H, flat, c))) in r.objects
  {
    var built := BuildTrees(flat, r);
    if built.Err? {
      return Err(built.error);
    }
    var root := Get(built.value, "");
    ghost var before := r.objects;
    var _ := StoreTree(r, flat, root);
    ExtendsTrans(old(r.objects), before, r.objects);
    if Absolute(flat) && Resolvable(old(r.objects), old(r.rank), root, old(r.height)) {
      ResolvableGrows(old(r.objects), old(r.rank), old(r.height), r.objects, r.rank, r.height, root);
    }
    ReadyDecodes(flat, r.objects, root);
    var rootHash := Hash(root, r.H);
    var refs := AddTreeBackrefs(r, rootHash.value, root, r.height);
    if refs.Err? {
      return Err(StoreError(refs.error));
    }
    return Ok(root);
  }
}
