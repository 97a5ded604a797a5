# Ori trees, mount namespace, remote addresses and statistics in Dafny

This project models the core of the Ori distributed file system and proves
properties of that model:

- **Directory snapshots** (`libori/tree.cc`). This covers the `AttrMap` of a
  tree entry and the `TreeEntry` record: its constructor, `fromFile` and
  `hasBasicAttrs`. It covers the binary encoding of a `Tree`
  (`getBlob`, `fromBlob`, `hash`). It covers `flattened`, which turns a
  hierarchy of trees into one map from absolute path to entry, and
  `unflatten`, which rebuilds and stores the hierarchy from such a map,
  deepest directory first. `unflatten` undoes `flattened`: on the
  flattening of a stored tree whose directory entries carry the basic
  attributes, it succeeds and gives back that tree. It also covers
  `_addTreeBackrefs`, which records parent-to-child references. The object store the tree code
  talks to (`getTree`, `addBlob`, `addBackref`) is the class `Store.Repo`.
  Its hash function `Util_HashString` is a parameter of the store.
- **The FUSE mount's private namespace** (`mount_oring/oripriv.cc`). The
  class `OriPriv` holds a path table, a table of directory listings and an
  id counter. Its operations add symbolic links and directories, unlink,
  rename, remove directories and look up files and directories.
- **The HTTP client's remote address** (`libori/httpclient.cc`). The
  constructor splits `http://host[:port]/repo` into host, port and
  repository path.
- **The `stats` command** (`ori/cmd_stats.cc`). Its loop classifies every
  entry of the reference counts by object type and tallies commits, trees,
  blobs, dangling blobs, blob references, large blobs and purged blobs.

A `std::map` is a Dafny `map`. Its iteration order (ascending
`std::string` order) is modelled by taking the least remaining key; this
is module `LexOrder`. A failed `assert`, a thrown `PosixException` and a
failed lookup each become an error value of a `Result`.

Modules and files:

| file | module | contents |
|---|---|---|
| wrappers.dfy | Wrappers | `Option`, `Result` |
| lex_order.dfy | LexOrder | `std::string` order, least key, sorted iteration |
| attrs.dfy | Attrs | `AttrMap`, `mergeFrom`, `getAs`, basic attributes |
| entries.dfy | Entries | `TreeEntry`, its constructor, `fromFile`, `hasBasicAttrs` |
| fixed_width.dfy | FixedWidth | fixed-width little-endian integers |
| tree_codec.dfy | TreeCodec | `getBlob`, `fromBlob`, `hash` and their round trip |
| store.dfy | Objects, Store | object types; the repository with `getTree`, `addBlob`, `addBackref` |
| backrefs.dfy | Backrefs | `_addTreeBackrefs` |
| paths.dfy | Paths | `Dirname`, `Basename`, `_num_path_components`, `_tree_gt`, the depth sort |
| flatten.dfy | Flatten | `_recFlatten`, `flattened` |
| unflatten.dfy | Unflatten | `unflatten` |
| round_trip.dfy | RoundTrip | `unflatten` after `flattened` |
| oripriv.dfy | Mount | `OriPriv` |
| httpclient.dfy | HttpClient | the constructor's address split |
| stats.dfy | Stats | the counting loop of `cmd_stats` |

Two behaviours of the code worth noting:

- `Tree::fromBlob` inserts into the map the tree already holds; it does not
  clear it first. `TreeCodec.DecodeTree` takes that earlier content as
  `tree0`.
- `getDir` returns a reference to the stored listing. The model returns
  the listing's value.

## Model

| member | source | states |
|---|---|---|
| Attrs.MergeFrom | libori/tree.cc:86-93 | The merged map has the keys of both maps. Every key of `other` takes `other`'s value. Every other key keeps its old value. |
| Attrs.GetAs | libori/tree.cc:95-99 | Succeeds exactly when the attribute is present, with its stored text. A missing name is the error `MissingAttr(name)`, which models the assertion. |
| Entries.NewEntry | libori/tree.cc:115-130 | Fails with `NullType` for a Null type and with `EmptyHash` for an empty hash. Otherwise the entry has the given type and hash and no large hash. Its attributes are exactly the six basic ones: the size, permissions 0755, user, group, and ctime and mtime both equal to the clock reading. |
| Entries.FromFile | libori/tree.cc:136-167 | A directory becomes a Tree entry and anything else a Blob. A non-empty large hash turns a Blob into a LargeBlob that carries it. A directory with a large hash is the error `LargeDirectory`. The attributes are exactly those the constructor sets from the stat results: size, permissions 0755, user, group, and the clock reading as ctime and mtime. |
| Entries.HasBasicAttrs | libori/tree.cc:188-198 | The loop returns true exactly when all six basic attributes are present. |
| FixedWidth.DecodeEncode | libori/tree.cc:256-257 | A count that fits its field reads back unchanged. |
| TreeCodec.WriteAttrs | libori/tree.cc:277-284 | The attribute loop appends the count's key/value pairs in ascending key order. |
| TreeCodec.WriteEntry | libori/tree.cc:263-284 | Appends one record: the tag, the hash, the large hash for lgbl only, the name, then the attribute count and pairs. |
| TreeCodec.GetBlob | libori/tree.cc:227-288 | Succeeds exactly when no child is Null, which is the assertion. The blob is the count followed by the children's records in ascending name order. |
| TreeCodec.RecordsAscending | libori/tree.cc:259-261 | The records appear in the order a `std::map` iterates the names: each name once, strictly ascending. |
| TreeCodec.Hash | libori/tree.cc:481-485 | The hash is `H` of the canonical encoding. It fails exactly when a child is Null. The encoding depends only on the map's contents. |
| TreeCodec.ReadUInt | libori/tree.cc:320 | Reading a count fails with `Truncated` exactly when the stream is too short, and otherwise consumes the field. |
| TreeCodec.ReadPStr | libori/tree.cc:339-343 | A length-prefixed string and the rest of the stream together make up the stream after the prefix. |
| TreeCodec.ReadTag | libori/tree.cc:324-337 | Only "tree", "blob" and "lgbl" are accepted; any other tag is `UnknownTag`, which models the assertion, and a short stream is `Truncated`. |
| TreeCodec.ReadEntry | libori/tree.cc:323-353 | A record never reads back as Null. Only an lgbl record carries a large hash. |
| TreeCodec.ReadEntries | libori/tree.cc:322-354 | Reading records keeps every name already in the tree and adds no Null entry. |
| TreeCodec.DecodeTree | libori/tree.cc:290-355 | Decoding keeps the names the tree held before. |
| TreeCodec.FromBlob | libori/tree.cc:290-355 | The loop over the records computes `DecodeTree(blob, tree0)`. |
| TreeCodec.ReadRecord | libori/tree.cc:323-353 | One turn of the loop reads exactly `ReadEntry`. |
| TreeCodec.ReadAttrsLoop | libori/tree.cc:345-351 | The attribute loop reads exactly `ReadAttrs`. |
| TreeCodec.ReadUIntEncode | libori/tree.cc:256-257 | Reading a written count gives the count and the rest of the stream. |
| TreeCodec.ReadPStrRoundTrip | libori/tree.cc:339-343 | `readPStr` undoes `writePStr` and leaves the rest of the stream. |
| TreeCodec.ReadTagRoundTrip | libori/tree.cc:324-337 | A written tag reads back as its type. |
| TreeCodec.AttrsRoundTrip | libori/tree.cc:345-351 | Reading the written pairs adds exactly those pairs to the attribute map. |
| TreeCodec.EntryRoundTrip | libori/tree.cc:323-353 | A record reads back as its name and its entry. The large hash is dropped unless the kind is lgbl. |
| TreeCodec.EntriesRoundTrip | libori/tree.cc:322-354 | Reading the written records stores exactly those entries under their names. |
| TreeCodec.TreeRoundTrip | libori/tree.cc:290-355 | `fromBlob(getBlob(t))` on a tree holding `tree0` gives `tree0` overlaid with every child of `t`. |
| TreeCodec.FromBlobGetBlob | libori/tree.cc:227-355 | On an empty tree, decoding the encoding of `t` restores `t` exactly. This needs no Null child and no large hash outside lgbl. |
| TreeCodec.BlobInjective | libori/tree.cc:481-485 | Two such trees with the same encoding are equal, so the hash input determines the tree. |
| Store.LookupTree | libori/tree.cc:372 | `getTree` fails with `NotFound` for an absent hash and with `NotATree` for an object of another type. Otherwise it gives the decoded payload, which holds no Null entry. |
| Store.Repo.GetTree | libori/tree.cc:372 | The method returns `LookupTree` of the current objects. |
| Store.Repo.AddBlob | libori/tree.cc:461 | Requires that every Tree-kind child of a tree payload is already stored, which keeps the store closed (see "## Left out"); `unflatten`'s deepest-first order meets it. Returns `H(payload)`. It stores the payload under that hash unless the hash is present, and then changes nothing. |
| Store.Repo.AddBackref | libori/tree.cc:409 | Adds the edge to the backref set and changes nothing else. |
| Store.ResolvableByChildren | libori/tree.cc:365-376 | A tree can be fully fetched exactly when each of its children can. |
| Backrefs.AddTreeBackrefs | libori/tree.cc:403-415 | Succeeds exactly when every subtree can be fetched. On success it adds exactly the parent-to-child edges reachable from the tree. It never adds any other edge, and the stored objects stay as they were. |
| Backrefs.ChildBackrefs | libori/tree.cc:408-413 | One turn of the loop adds the edge to the child and, for a directory, the edges of its subtree. |
| Backrefs.EdgesInStep | libori/tree.cc:405-414 | The edges of a set of children grow by exactly the next child's edges. |
| Backrefs.EdgesInSub | libori/tree.cc:405-414 | The edges of some children are among the edges of the tree. |
| Paths.NumPathComponents | libori/tree.cc:387-396 | The counting loop returns 0 for "" and otherwise one more than the number of '/'. |
| Paths.TreeGt | libori/tree.cc:398-401 | True exactly when the first path has more components. |
| Paths.SortByDepth | libori/tree.cc:452 | The result is a permutation of the names, deepest first. |
| Paths.InsertionPoint | libori/tree.cc:452 | Using `_tree_gt`, finds the first name shallower than the one being inserted. |
| Paths.InsertDeepestFirst | libori/tree.cc:452 | Inserting there keeps the order deepest first. |
| Paths.InsertMultiset | libori/tree.cc:452 | Inserting adds the name to the contents. |
| Paths.DirnameShallower | libori/tree.cc:387-401 | A non-empty path has more components than its directory. |
| Paths.ChildrenFirst | libori/tree.cc:451-471 | In a deepest-first order, every directory comes after the paths it contains, so children are finished before their parent. |
| Paths.SplitPath | libori/tree.cc:469-470 | A path with a '/' is its directory, a '/' and its last component. |
| Paths.JoinSplit | libori/tree.cc:469-470 | Appending a component and then splitting gives back the directory and the component. |
| Paths.DepthJoin | libori/tree.cc:387-396 | Appending a component adds one level, or two under the root "". |
| Paths.BasenameSlashFree | libori/tree.cc:436 | The last component contains no '/'. |
| Paths.LastSlashIs | libori/tree.cc:432 | The last '/' is the one with no '/' after it. |
| Flatten.RecFlatten | libori/tree.cc:357-377 | Fails exactly when some subtree cannot be fetched. Keys already in the map keep their entries. When no name holds '/' and nothing lies under the prefix, the paths added are exactly those of the flattening, each with its entry. |
| Flatten.FlattenChild | libori/tree.cc:368-375 | One turn of the loop inserts the child under `prefix + n` and a directory's subtree under `prefix + n + "/"`. |
| Flatten.Flattened | libori/tree.cc:379-385 | Succeeds exactly when every subtree can be fetched. When no name in the tree holds '/', the result maps a path to an entry exactly when the flattening under "/" does. |
| Flatten.FlatChild | libori/tree.cc:369 | Each child `n` appears under `prefix + n` with its own entry, so directory entries are included. |
| Flatten.FlatSubtree | libori/tree.cc:370-374 | Below a directory child, the subtree's flattening appears under `prefix + n + "/"`. |
| Flatten.FlatNothingBelowLeaf | libori/tree.cc:370 | Nothing lies below a child that is not a directory. |
| Flatten.FlatLookupPrefix | libori/tree.cc:369-373 | Every flattened path starts with the prefix. |
| Flatten.FlatLookupAdd | libori/tree.cc:365-376 | Visiting one more child adds its path and its subtree's paths and leaves every other path alone. |
| Unflatten.Partition | libori/tree.cc:420-442 | Fails exactly on a Null entry, naming it. Otherwise there is a pending tree for every Tree path and for the directory of every file. For absolute paths, each pending tree holds exactly the files directly in it, unchanged and under their last component. |
| Unflatten.PartitionedAll | libori/tree.cc:421-442 | Once every key has been seen, the pending trees are those of the directories. |
| Unflatten.PlaceStep | libori/tree.cc:424-438 | One turn of the partition loop keeps that invariant. |
| Unflatten.TreeNames | libori/tree.cc:445-450 | The names are the pending directories in ascending order. |
| Unflatten.SortedNames | libori/tree.cc:452 | The sorted names are exactly the pending directories. |
| Unflatten.StoreTree | libori/tree.cc:457-461 | Stores the tree's encoding under its hash and keeps every stored object. |
| Unflatten.FinishDir | libori/tree.cc:455-470 | Succeeds exactly when the directory has a flat entry with the basic attributes. It fails with `MissingDir` when the entry is absent (the dereference of `flat.end()`) and with `MissingAttrs` when an attribute is missing (the assertion). On success the tree is stored and enters its parent as a Tree entry with the hash of its blob. |
| Unflatten.AddSubtrees | libori/tree.cc:454-471 | After the deepest-first loop, every directory except the root is finished and stored. An error names a directory that is missing or lacks attributes. |
| Unflatten.TurnComplete | libori/tree.cc:452-457 | In deepest-first order, a directory's tree is complete when the loop reaches it. |
| Unflatten.PartialComplete | libori/tree.cc:454-470 | Once all deeper directories are finished, a directory's tree is the one unflatten builds for it. |
| Unflatten.PartialStep | libori/tree.cc:469-470 | Finishing a directory adds its entry to its parent and changes no other tree. |
| Unflatten.DirsInStep | libori/tree.cc:464-470 | Finishing a directory adds its final entry to its parent's directory entries. |
| Unflatten.FinishingStep | libori/tree.cc:457-470 | One turn of the finalisation loop keeps its invariant. |
| Unflatten.FinishingDone | libori/tree.cc:454-473 | After the loop, every directory has a complete entry and the root's tree can be encoded. |
| Unflatten.FinishingBuilt | libori/tree.cc:454-478 | After the loop, the root's tree is the tree unflatten builds for "". |
| Unflatten.ReadyDecodes | libori/tree.cc:457-461 | A tree being built encodes, and it reads back as a tree whose directories are stored. This is what `addBlob` requires. |
| Unflatten.MissingNotComplete | libori/tree.cc:464-467 | A missing directory entry, or one without basic attributes, means the flat map is incomplete. |
| Unflatten.DeeperShrinks | libori/tree.cc:452 | A subdirectory has fewer pending directories below it, which is the termination measure of the built tree. |
| Unflatten.PendingSplit | libori/tree.cc:469-470 | A pending directory other than the root is its parent, a '/' and a '/'-free name. |
| Unflatten.BuildTrees | libori/tree.cc:420-471 | The three loops fail on a Null entry exactly when there is one. They succeed exactly when there is no Null entry and every directory has a complete entry. On success every directory's tree is stored. When every path is absolute, the root's tree is the one built from the flat map. |
| Unflatten.Unflatten | libori/tree.cc:417-479 | Fails on a Null entry exactly when there is one. A missing or incomplete directory gives `MissingDir` or `MissingAttrs`. A complete flat map succeeds unless the store cannot return a subtree. It succeeds when, in addition, every path is absolute and the tree built from the map could already be fetched in full from the store beforehand. On success the root tree is stored and equals the tree built from the map, every directory's tree is stored, and the backrefs grow by exactly the tree's reachable edges. |
| RoundTrip.FlattenedUnflattens | libori/tree.cc:379-479 | Take a stored tree whose names hold no '/', in a store where every object sits under its hash and every stored tree re-encodes to its payload. The paths `flattened` gives for it are absolute, and the tree `unflatten` builds from them is that tree again. |
| RoundTrip.UnflattenFlattening | libori/tree.cc:379-479 | `unflatten` on the flattening of a stored tree succeeds and returns that tree, and the tree is then stored under its own hash. This needs names without '/', directory entries with the basic attributes, and a store of canonical encodings. |
| RoundTrip.FlatteningNoNull | libori/tree.cc:439-441 | A flattening of a tree without Null children holds no Null entry, so the first loop's assertion holds. |
| RoundTrip.FlatLookupNoNull | libori/tree.cc:364-376 | Every entry the flattening gives comes from a tree without Null children, because fetched subtrees hold none. |
| RoundTrip.FlatteningDirsComplete | libori/tree.cc:462-467 | In a flattening whose directory entries carry the basic attributes, every directory `unflatten` creates, except the root, has its own entry with those attributes. So the lookup and the assertion of the third loop succeed. |
| RoundTrip.PendingComplete | libori/tree.cc:420-441 | Below a flattened directory, every directory the first loop creates is the path of a directory entry of the tree, with the basic attributes. |
| Unflatten.ResolvableGrows | libori/tree.cc:473-476 | A tree whose subtrees can all be fetched can still be fetched in full after the store has grown, so `_addTreeBackrefs` succeeds on it. |
| RoundTrip.FlatteningAbsolute | libori/tree.cc:379-385 | Every path of a flattening starts with '/', because `flattened` starts `_recFlatten` at the prefix "/". |
| RoundTrip.BuiltIsSubtree | libori/tree.cc:417-471 | When the flat map holds below a directory exactly the flattening of a stored tree, the tree `unflatten` builds for that directory is that tree. |
| RoundTrip.BuiltAt | libori/tree.cc:420-470 | A name is in the tree built for a directory exactly when it is in the flattened tree, and with the same entry. A file entry is copied from the flat map; a directory entry is the flat map's entry with its subtree's hash. |
| RoundTrip.ChildFinal | libori/tree.cc:458-470 | The entry `unflatten` puts in the parent for a subdirectory, the flat map's entry with the rebuilt subtree's hash and type Tree, is the original child entry. |
| RoundTrip.PendingChild | libori/tree.cc:420-442 | The first loop creates a tree for a child path only when that child is a directory of the flattened tree. |
| RoundTrip.ChildFlatBelow | libori/tree.cc:370-374 | Below a directory child, the flat map holds exactly the flattening of the child's subtree. |
| LexOrder.LexLeTotal | libori/tree.cc:259-261 | The key order of `std::map<std::string, _>` is total. |
| LexOrder.LexLeAntisymmetric | libori/tree.cc:259-261 | The key order is antisymmetric. |
| LexOrder.LexLeTransitive | libori/tree.cc:259-261 | The key order is transitive. |
| LexOrder.LeastExists | libori/tree.cc:259-261 | A non-empty key set has a first key. |
| LexOrder.LeastUnique | libori/tree.cc:259-261 | The first key is unique. |
| LexOrder.AscendingIsSortedEnumeration | libori/tree.cc:259-261 | Map iteration visits every key exactly once, strictly ascending. |
| Mount.RootModeIsDir | mount_oring/oripriv.cc:221 | `0600 \| S_IFDIR` has the directory format and the permissions 0600. |
| Mount.OriPriv.constructor | mount_oring/oripriv.cc:40-52 | Both tables start empty and the counter starts at `ORIPRIVID_INVALID + 1`. |
| Mount.OriPriv.GenerateId | mount_oring/oripriv.cc:91-99 | Returns the counter and advances it by one. The id is never the invalid one and is not yet in use. |
| Mount.OriPriv.GetFileInfo | mount_oring/oripriv.cc:101-118 | Gives the stored information exactly when the path is known and not of NULL type; otherwise ENOENT. |
| Mount.OriPriv.AddSymlink | mount_oring/oripriv.cc:120-139 | Maps the path to a new symbolic link with a fresh id and the process's owner. Nothing else changes except the counter. |
| Mount.OriPriv.Unlink | mount_oring/oripriv.cc:141-151 | An unknown path gives ENOENT. Anything other than a symbolic link or regular file aborts. On success only `path` leaves the table. |
| Mount.OriPriv.Rename | mount_oring/oripriv.cc:153-160 | An unknown source gives ENOENT and changes nothing. Otherwise the source's information moves to the target, replacing what it held; the source is gone and every other path is unchanged. |
| Mount.OriPriv.AddDir | mount_oring/oripriv.cc:162-182 | Maps the path to a new directory with a fresh id, and that id to an empty listing. |
| Mount.OriPriv.RmDir | mount_oring/oripriv.cc:184-195 | An unknown path gives ENOENT. A path that is not a directory, or a non-empty listing, aborts. On success the path and its listing are removed and nothing else changes. |
| Mount.OriPriv.GetDir | mount_oring/oripriv.cc:197-237 | A known non-directory gives ENOTDIR, checked before a NULL-type entry, which gives ENOENT. A known directory gives its listing. An unknown "/" is created as an empty directory of mode `0600 \| S_IFDIR` and size 512. Any other unknown path gives ENOENT. Only the "/" case changes state. |
| Mount.OriPriv.AddRoot | mount_oring/oripriv.cc:215-233 | The lazily created root is a directory with a fresh id and an empty listing. |
| Mount.GetRootTwice | mount_oring/oripriv.cc:203-234 | Asking for "/" twice gives the same empty listing and creates the root once. |
| HttpClient.Find | libori/httpclient.cc:64-65 | `find` reports npos exactly when the character is absent, and otherwise a position holding it. |
| HttpClient.FindFirst | libori/httpclient.cc:64-65 | The reported position is the first occurrence. |
| HttpClient.ParseRemote | libori/httpclient.cc:53-77 | A path without the "http://" scheme is `NotHttp`. An address with the scheme is `NoPath` exactly when no '/' follows the scheme. It is `PortAfterPath` exactly when both separators follow the scheme and the first '/' comes before the first ':'. On success the host holds neither ':' nor '/', the port is "80" when no ':' is written, and scheme, host, the optional ":" and port, "/" and repository put back together give the input. |
| HttpClient.SplitRestSpec | libori/httpclient.cc:64-76 | The split after the scheme puts back together to its input. It is `NoPath` exactly when the text has no '/', and `PortAfterPath` exactly when its first '/' comes before its first ':'. |
| HttpClient.ParseUnparse | libori/httpclient.cc:53-77 | Every well-formed remote is read back unchanged from its address. |
| Stats.CountRefs | ori/cmd_stats.cc:50-90 | Returns 1 exactly when some entry has a type the switch does not know. Otherwise it returns 0 with counters equal to the tally of all entries in map order. |
| Stats.TallyEntries | ori/cmd_stats.cc:53-83 | Each entry increments exactly one of commits, trees, blobs, large blobs and purged blobs, so these add up to the number of entries. |
| Stats.EntryCountsOnce | ori/cmd_stats.cc:53-83 | A known entry adds one to exactly one type counter. |
| Stats.TallyBlobs | ori/cmd_stats.cc:64-73 | Dangling blobs are at most the blobs. Every other blob has at least one referrer, so it adds at least one blob reference. |
| Stats.TallyCounts | ori/cmd_stats.cc:53-83 | Each type counter is the number of entries of that type. `danglingBlobs` is the number of blobs with an empty referrer map. |
| Stats.NonBlobNeutral | ori/cmd_stats.cc:54-83 | An entry that is not a blob changes neither dangling blobs nor blob references. |
| Stats.ReferencedBlob | ori/cmd_stats.cc:67-71 | A blob with referrers adds the size of its referrer map to the blob references and is not dangling. |
| Stats.SumRemove | ori/cmd_stats.cc:50 | Any entry can be counted first, so the totals do not depend on the walk's order. |

## Left out

- I/O and the operating system: `stat`, `getpwuid`, `getgrgid`, `time`, `geteuid` and `getegid`. Their results are parameters: `isDir`, size, user, group, `now`, and `euid`/`egid` of `OriPriv`.
- `AttrMap::setFromFile` and `AttrMap::setCreation` are OS calls. `TreeEntry::extractToFile` and `Tree::addObject` do file I/O and printing.
- `Util_HashString` is the store's opaque function parameter `H`. Its algorithm is not modelled.
- The widths of `strwstream::write` and `writePStr` are fixed here: an 8-byte little-endian `size_t` and an 8-byte length prefix. The stream classes are not part of this model, so the native width and byte order are modelling choices. A character of a blob stands for one byte.
- Unflatten.Unflatten, Unflatten.BuildTrees: both methods require that every length and count fits its field (`FlatFits`) and that hashes fit a length field (`HashFits`), so flat maps beyond these widths are not modelled. Equality with the built tree is stated only for absolute paths, the form `flattened` produces; `RoundTrip.FlattenedUnflattens` shows that `flattened` produces it.
- Flatten.Flattened: the exact description of the result assumes no entry name in the tree contains '/'. Otherwise the model states only when it succeeds.
- Entries.NewEntry: `AttrMap::setAs<T>` is defined in tree.h, which is not part of this model. Numeric attributes are written as decimal text (`Attrs.NatToString`), so the exact attribute strings are a modelling choice.
- Mount.OriPriv.GenerateId: `ORIPRIVID_INVALID` and the width of `OriPrivId` come from oripriv.h, which is not part of this model. The invalid id is 0 and ids are unbounded, so wrap-around of `nextId` is not modelled.
- RoundTrip.FlattenedUnflattens, RoundTrip.UnflattenFlattening: they assume every stored tree re-encodes to its own payload (`CanonicalStore`). That holds for trees written with `getBlob`, but the store model does not enforce it.
- RoundTrip.UnflattenFlattening: it also requires `FlatFits` and `HashFits`, as `Unflatten.Unflatten` does. It requires every directory entry of the tree to carry the basic attributes (`DirsBasic`); without them the assertion at libori/tree.cc:467 fails, which the model reports as `MissingAttrs`. The method composes the two operations and has no counterpart function in the source.
- Flatten.RecFlatten: the exact description of the added paths assumes no entry name contains '/'. A store whose tree names hold '/' could make paths collide, and the model then only states that existing keys are kept.
- Store.Repo.AddBlob: the store model keeps every Tree-kind child of a stored tree stored, at a lower rank (`Closed` in `Repo.Valid`), and `AddBlob` requires this of a tree payload. The real `addBlob` places no such requirement, so a store holding a tree whose subtree is missing is not modelled. The calls `unflatten` makes (libori/tree.cc:461, 473) meet the requirement.
- Stats.CountRefs: the `default` case runs `NOT_IMPLEMENTED(false)` before `return 1`. That macro lives in debug.h, which is not part of this model, and may abort; the model assumes it returns, so the case is the status 1.
- StrUtil_Dirname and StrUtil_Basename are not part of this model. They are taken to split at the last '/', with "" as the directory of a path without '/'.
- `std::sort` is not stable. Equally deep directories may come in any order, and `Paths.SortByDepth` promises only a deepest-first permutation.
- The counters of `cmd_stats` are unbounded; 64-bit wrap-around is not modelled. The console output and the floating-point dedup ratio are left out, and so is the global `repository`: the reference counts and the type lookup are parameters.
- `OriPriv::reset`, `getTemp` and `GetOriPriv` use mkdir, mktemp, open and the FUSE context. `mount_oring/orifuse.cc` is FUSE callback glue. The `LocalRepo` and the head commit of `OriPriv` are not modelled.
- Mount.OriPriv.GetDir returns the listing's value, not a reference into the table. Aliasing of the returned `OriDir`, and of the `OriFileInfo` pointers the tables share, is not modelled.
- Mount.OriPriv.Unlink, Mount.OriPriv.RmDir: the process abort of a failed assertion, or of dereferencing the null listing that `dirs[id]` inserts, is the error value `Abort`. The insertion of that null listing is not modelled.
- The freeing of `OriFileInfo` objects (`delete info`) is not modelled.
- `HttpClient::connect`, `disconnect`, `getRequest` and `putRequest` are networking and are left out.
- `public/ori/object.h`, `libori/tempdir.h` and `orisync/cmd_list.cc` are not part of this model.
