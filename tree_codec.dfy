/** The binary form of a Tree (Tree::getBlob, Tree::fromBlob, Tree::hash in
    libori/tree.cc): a child count, then one record per child in ascending
    name order; each record is a 4-byte kind tag, the hash, the large hash
    (large blobs only), the name and the attributes, strings being
    length-prefixed. */
module TreeCodec {
  import opened Wrappers
  import opened LexOrder
  import opened Attrs
  import opened Entries
  import opened FixedWidth

  /** Tree::tree: child name to entry. */
  type Tree = map<string, TreeEntry>

  /** Width of a size_t count and of the length prefix of a string. */
  const SIZE_BYTES: nat := 8
  const PSTR_LEN_BYTES: nat := 8

  datatype CodecError = NullEntry | Truncated | UnknownTag

  predicate NoNull(t: Tree)
  {
    forall n :: n in t ==> t[n].kind != Null
  }

  // ---------------------------------------------------------------- encoding

  function Tag(k: EntryType): (s: string)
    requires k != Null
    ensures |s| == 4
  {
    match k
    case Tree => "tree"
    case Blob => "blob"
    case LargeBlob => "lgbl"
  }

  /** strwstream::writePStr: length prefix, then the characters. */
  function PStr(s: string): string
  {
    EncodeUInt(|s|, PSTR_LEN_BYTES) + s
  }

  /** The key/value pairs of `keys`, in key order. */
  ghost function AttrRecords(a: AttrMap, keys: set<string>): string
    requires keys <= a.Keys
    decreases keys
  {
    if keys == {} then []
    else
      var k := Least(keys);
      PStr(k) + PStr(a[k]) + AttrRecords(a, keys - {k})
  }

  ghost function EntryRecord(name: string, e: TreeEntry): string
    requires e.kind != Null
  {
    Tag(e.kind) + PStr(e.hash) + (if e.kind == LargeBlob then PStr(e.largeHash) else [])
      + PStr(name) + EncodeUInt(|e.attrs|, SIZE_BYTES) + AttrRecords(e.attrs, e.attrs.Keys)
  }

  predicate NoNullIn(t: Tree, names: set<string>)
  {
    names <= t.Keys && forall n :: n in names ==> t[n].kind != Null
  }

  /** The records of the children in `names`, in name order. */
  ghost function EntryRecords(t: Tree, names: set<string>): string
    requires NoNullIn(t, names)
    decreases names
  {
    if names == {} then []
    else
      var n := Least(names);
      EntryRecord(n, t[n]) + EntryRecords(t, names - {n})
  }

  /** Peeling the least name off the front of EntryRecords. */
  lemma EntryRecordsStep(t: Tree, names: set<string>, n: string)
    requires NoNullIn(t, names) && n in names && IsLeast(n, names)
    ensures EntryRecords(t, names) == EntryRecord(n, t[n]) + EntryRecords(t, names - {n})
  {
    LeastUnique(n, Least(names), names);
  }

  /** One turn of the loop of GetBlob keeps its invariant. */
  lemma WrittenStep(t: Tree, rem: set<string>, n: string, before: string, after: string, whole: string)
    requires NoNull(t) && rem <= t.Keys && IsLeast(n, rem)
    requires before + EntryRecords(t, rem) == whole
    requires after == before + EntryRecord(n, t[n])
    ensures after + EntryRecords(t, rem - {n}) == whole
  {
    EntryRecordsStep(t, rem, n);
    ConcatAssoc(before, EntryRecord(n, t[n]), EntryRecords(t, rem - {n}));
  }

  lemma ConcatAssoc(a: string, b: string, c: string)
    ensures (a + b) + c == a + (b + c)
  {
  }

  /** The canonical encoding of a tree without Null entries. */
  ghost function TreeBlob(t: Tree): string
    requires NoNull(t)
  {
    EncodeUInt(|t|, SIZE_BYTES) + EntryRecords(t, t.Keys)
  }

  /** The attribute loop of Tree::getBlob: appends each key/value pair of
      `a` to the stream `ss`, in key order. */
  method WriteAttrs(ss: string, a: AttrMap) returns (out: string)
    ensures out == ss + AttrRecords(a, a.Keys)
  {
    out := ss;
    var rem := a.Keys;
    while rem != {}
      invariant rem <= a.Keys
      invariant out + AttrRecords(a, rem) == ss + AttrRecords(a, a.Keys)
      decreases rem
    {
      LeastExists(rem);
      var k :| IsLeast(k, rem);
      LeastUnique(k, Least(rem), rem);
      ghost var before := out;
      out := out + PStr(k);
      out := out + PStr(a[k]);
      assert out + AttrRecords(a, rem - {k}) == before + AttrRecords(a, rem);
      rem := rem - {k};
    }
  }

  /** One record of Tree::getBlob, appended to the stream `ss`. */
  method WriteEntry(ss: string, name: string, e: TreeEntry) returns (out: string)
    requires e.kind != Null
    ensures out == ss + EntryRecord(name, e)
  {
    var head := Tag(e.kind) + PStr(e.hash);
    if e.kind == LargeBlob {
      head := head + PStr(e.largeHash);
    }
    head := head + PStr(name) + EncodeUInt(|e.attrs|, SIZE_BYTES);
    assert head + AttrRecords(e.attrs, e.attrs.Keys) == EntryRecord(name, e);
    out := WriteAttrs(ss + head, e.attrs);
    ConcatAssoc(ss, head, AttrRecords(e.attrs, e.attrs.Keys));
  }

  /** Tree::getBlob: writes the count, then walks the children in name order;
      a Null child is the assertion failure of the source. */
  method GetBlob(t: Tree) returns (r: Result<string, CodecError>)
    ensures r.Ok? <==> NoNull(t)
    ensures r.Ok? ==> r.value == TreeBlob(t)
    ensures r.Err? ==> r.error == NullEntry
  {
    var ss := EncodeUInt(|t|, SIZE_BYTES);
    var rem := t.Keys;
    ghost var records := if NoNull(t) then EntryRecords(t, t.Keys) else [];
    while rem != {}
      invariant rem <= t.Keys
      invariant forall n :: n in t.Keys - rem ==> t[n].kind != Null
      invariant NoNull(t) ==> ss + EntryRecords(t, rem) == EncodeUInt(|t|, SIZE_BYTES) + records
      decreases rem
    {
      LeastExists(rem);
      var name :| IsLeast(name, rem);
      if t[name].kind == Null {
        return Err(NullEntry);
      }
      ghost var before := ss;
      ss := WriteEntry(ss, name, t[name]);
      if NoNull(t) {
        WrittenStep(t, rem, name, before, ss, EncodeUInt(|t|, SIZE_BYTES) + records);
      }
      rem := rem - {name};
    }
    return Ok(ss);
  }

  /** Tree::hash: the content hash `h` (Util_HashString) of the encoding. */
  method Hash(t: Tree, h: string -> string) returns (r: Result<string, CodecError>)
    ensures r.Ok? <==> NoNull(t)
    ensures r.Ok? ==> r.value == h(TreeBlob(t))
  {
    var blob :- GetBlob(t);
    return Ok(h(blob));
  }

  /** The records of the names `ns`, in the order listed. */
  ghost function RecordsInOrder(t: Tree, ns: seq<string>): string
    requires forall i :: 0 <= i < |ns| ==> ns[i] in t && t[ns[i]].kind != Null
  {
    if ns == [] then [] else EntryRecord(ns[0], t[ns[0]]) + RecordsInOrder(t, ns[1..])
  }

  /** getBlob writes the children in ascending name order: the records are
      those of the map's key sequence as a std::map iterates it. */
  lemma {:induction false} RecordsAscending(t: Tree, names: set<string>)
    requires NoNullIn(t, names)
    ensures AscendingNames(names)
    ensures EntryRecords(t, names) == RecordsInOrder(t, Ascending(names))
    decreases names
  {
    AscendingIsSortedEnumeration(names);
    if names != {} {
      var n := Least(names);
      RecordsAscending(t, names - {n});
      assert Ascending(names)[1..] == Ascending(names - {n});
    }
  }

  /** The key sequence of `names` lists exactly those names. */
  ghost predicate AscendingNames(names: set<string>)
  {
    forall i :: 0 <= i < |Ascending(names)| ==> Ascending(names)[i] in names
  }

  // ---------------------------------------------------------------- decoding

  /** strstream::readNext: a `w`-byte count off the front of `s`. */
  function ReadUInt(s: string, w: nat): (r: Result<(nat, string), CodecError>)
    ensures r.Ok? <==> w <= |s|
    ensures r.Err? ==> r.error == Truncated
    ensures r.Ok? ==> r.value.1 == s[w..]
  {
    if |s| < w then Err(Truncated) else Ok((DecodeUInt(s[..w]), s[w..]))
  }

  /** strstream::readPStr: a length prefix, then that many characters. */
  function ReadPStr(s: string): (r: Result<(string, string), CodecError>)
    ensures r.Ok? ==> |s| >= PSTR_LEN_BYTES && r.value.0 + r.value.1 == s[PSTR_LEN_BYTES..]
  {
    var p :- ReadUInt(s, PSTR_LEN_BYTES);
    if |p.1| < p.0 then Err(Truncated) else Ok((p.1[..p.0], p.1[p.0..]))
  }

  /** The 4-byte kind tag of a record; anything but the three known tags is
      the assertion failure of Tree::fromBlob. */
  function ReadTag(s: string): (r: Result<(EntryType, string), CodecError>)
    ensures r.Ok? ==> r.value.0 != Null && |s| >= 4 && s[..4] == Tag(r.value.0) && r.value.1 == s[4..]
    ensures |s| < 4 ==> r == Err(Truncated)
    ensures |s| >= 4 && s[..4] != Tag(EntryType.Tree) && s[..4] != Tag(Blob) && s[..4] != Tag(LargeBlob)
            ==> r == Err(UnknownTag)
  {
    if |s| < 4 then Err(Truncated)
    else if s[..4] == "tree" then Ok((EntryType.Tree, s[4..]))
    else if s[..4] == "blob" then Ok((Blob, s[4..]))
    else if s[..4] == "lgbl" then Ok((LargeBlob, s[4..]))
    else Err(UnknownTag)
  }

  /** `n` key/value pairs, each written into `acc` (a repeated key keeps the
      later value). */
  function ReadAttrs(s: string, n: nat, acc: AttrMap): (r: Result<(AttrMap, string), CodecError>)
    ensures r.Ok? ==> acc.Keys <= r.value.0.Keys
    decreases n
  {
    if n == 0 then Ok((acc, s))
    else
      var k :- ReadPStr(s);
      var v :- ReadPStr(k.1);
      ReadAttrs(v.1, n - 1, acc[k.0 := v.0])
  }

  /** One record: tag, hash, large hash (lgbl only), name, attributes. */
  function ReadEntry(s: string): (r: Result<(string, TreeEntry, string), CodecError>)
    ensures r.Ok? ==> r.value.1.kind != Null
    ensures r.Ok? && r.value.1.kind != LargeBlob ==> r.value.1.largeHash == ""
  {
    var tg :- ReadTag(s);
    var h :- ReadPStr(tg.1);
    var lh :- if tg.0 == LargeBlob then ReadPStr(h.1) else Ok(("", h.1));
    var nm :- ReadPStr(lh.1);
    var cnt :- ReadUInt(nm.1, SIZE_BYTES);
    var at :- ReadAttrs(cnt.1, cnt.0, map[]);
    Ok((nm.0, TreeEntry(tg.0, h.0, lh.0, at.0), at.1))
  }

  /** `n` records, each stored into `acc` under its name. */
  function ReadEntries(s: string, n: nat, acc: Tree): (r: Result<(Tree, string), CodecError>)
    ensures r.Ok? ==> acc.Keys <= r.value.0.Keys
    ensures r.Ok? && NoNull(acc) ==> NoNull(r.value.0)
    decreases n
  {
    if n == 0 then Ok((acc, s))
    else
      var e :- ReadEntry(s);
      ReadEntries(e.2, n - 1, acc[e.0 := e.1])
  }

  /** One turn of ReadEntries: the first record, then the rest. */
  lemma ReadEntriesStep(s: string, n: nat, acc: Tree)
    requires n > 0
    ensures ReadEntry(s).Err? ==> ReadEntries(s, n, acc) == Err(ReadEntry(s).error)
    ensures ReadEntry(s).Ok? ==>
              var e := ReadEntry(s).value;
              ReadEntries(s, n, acc) == ReadEntries(e.2, n - 1, acc[e.0 := e.1])
  {
  }

  /** What Tree::fromBlob leaves in a tree that held `tree0`. */
  function DecodeTree(blob: string, tree0: Tree): (r: Result<Tree, CodecError>)
    ensures r.Ok? ==> tree0.Keys <= r.value.Keys
    ensures r.Ok? && NoNull(tree0) ==> NoNull(r.value)
  {
    var cnt :- ReadUInt(blob, SIZE_BYTES);
    var res :- ReadEntries(cnt.1, cnt.0, tree0);
    Ok(res.0)
  }

  /** Tree::fromBlob: reads the count, then each record, inserting into the
      existing map without clearing it. */
  method FromBlob(blob: string, tree0: Tree) returns (r: Result<Tree, CodecError>)
    ensures r == DecodeTree(blob, tree0)
  {
    var cnt :- ReadUInt(blob, SIZE_BYTES);
    var numEntries := cnt.0;
    var ss := cnt.1;
    var tree := tree0;
    var i := 0;
    while i < numEntries
      invariant i <= numEntries
      invariant ReadEntries(ss, numEntries - i, tree) == ReadEntries(cnt.1, numEntries, tree0)
    {
      var e := ReadRecord(ss);
      ReadEntriesStep(ss, numEntries - i, tree);
      if e.Err? {
        return Err(e.error);
      }
      tree := tree[e.value.0 := e.value.1];
      ss := e.value.2;
      i := i + 1;
    }
    return Ok(tree);
  }

  /** The body of the loop of Tree::fromBlob: one record off the stream. */
  method ReadRecord(ss: string) returns (r: Result<(string, TreeEntry, string), CodecError>)
    ensures r == ReadEntry(ss)
  {
    var tg :- ReadTag(ss);
    var h :- ReadPStr(tg.1);
    var lh := ("", h.1);
    if tg.0 == LargeBlob {
      lh :- ReadPStr(h.1);
    }
    var path :- ReadPStr(lh.1);
    var numAttrs :- ReadUInt(path.1, SIZE_BYTES);
    var at :- ReadAttrsLoop(numAttrs.1, numAttrs.0);
    return Ok((path.0, TreeEntry(tg.0, h.0, lh.0, at.0), at.1));
  }

  /** The attribute loop of Tree::fromBlob. */
  method ReadAttrsLoop(s: string, n: nat) returns (r: Result<(AttrMap, string), CodecError>)
    ensures r == ReadAttrs(s, n, map[])
  {
    var attrs: AttrMap := map[];
    var ss := s;
    var i := 0;
    while i < n
      invariant i <= n
      invariant ReadAttrs(ss, n - i, attrs) == ReadAttrs(s, n, map[])
    {
      var name :- ReadPStr(ss);
      var value :- ReadPStr(name.1);
      attrs := attrs[name.0 := value.0];
      ss := value.1;
      i := i + 1;
    }
    return Ok((attrs, ss));
  }

  // ---------------------------------------------------------------- round trip

  /** A string whose length fits the length prefix. */
  predicate StrFits(x: string)
  {
    |x| < Pow256(PSTR_LEN_BYTES)
  }

  /** Every count and length of the record of `name` fits its field. */
  predicate EntryFits(name: string, e: TreeEntry)
  {
    && StrFits(name) && StrFits(e.hash) && StrFits(e.largeHash)
    && |e.attrs| < Pow256(SIZE_BYTES)
    && forall k :: k in e.attrs ==> StrFits(k) && StrFits(e.attrs[k])
  }

  /** Every count and length of the encoding of `t` fits its field. */
  predicate TreeFits(t: Tree)
  {
    |t| < Pow256(SIZE_BYTES) && forall n :: n in t ==> EntryFits(n, t[n])
  }

  /** The entry as it reads back: only lgbl records carry a large hash. */
  function Norm(e: TreeEntry): TreeEntry
  {
    if e.kind == LargeBlob then e else e.(largeHash := "")
  }

  /** Entries whose large hash is set only on large blobs. */
  predicate Canonical(t: Tree)
  {
    forall n :: n in t && t[n].kind != LargeBlob ==> t[n].largeHash == ""
  }

  function Restrict(a: AttrMap, keys: set<string>): AttrMap
    requires keys <= a.Keys
  {
    map k | k in keys :: a[k]
  }

  lemma RestrictAll(a: AttrMap)
    ensures map[] + Restrict(a, a.Keys) == a
  {
    assert (map[] + Restrict(a, a.Keys)).Keys == a.Keys;
  }

  function NormalizedIn(t: Tree, names: set<string>): Tree
    requires names <= t.Keys
  {
    map n | n in names :: Norm(t[n])
  }

  lemma ReadUIntEncode(n: nat, w: nat, rest: string)
    requires n < Pow256(w)
    ensures ReadUInt(EncodeUInt(n, w) + rest, w) == Ok((n, rest))
  {
    var s := EncodeUInt(n, w) + rest;
    assert s[..w] == EncodeUInt(n, w);
    assert s[w..] == rest;
    DecodeEncode(n, w);
  }

  /** readPStr undoes writePStr and leaves the rest of the stream. */
  lemma ReadPStrRoundTrip(x: string, rest: string)
    requires StrFits(x)
    ensures ReadPStr(PStr(x) + rest) == Ok((x, rest))
  {
    ConcatAssoc(EncodeUInt(|x|, PSTR_LEN_BYTES), x, rest);
    ReadUIntEncode(|x|, PSTR_LEN_BYTES, x + rest);
    assert (x + rest)[..|x|] == x;
    assert (x + rest)[|x|..] == rest;
  }

  lemma ReadAttrsStep(s: string, n: nat, acc: AttrMap, k: string, v: string, rest: string)
    requires n > 0
    requires ReadPStr(s) == Ok((k, PStr(v) + rest)) && ReadPStr(PStr(v) + rest) == Ok((v, rest))
    ensures ReadAttrs(s, n, acc) == ReadAttrs(rest, n - 1, acc[k := v])
  {
  }

  lemma AttrRecordsStep(a: AttrMap, keys: set<string>, k: string, rest: string)
    requires keys <= a.Keys && IsLeast(k, keys)
    ensures AttrRecords(a, keys) + rest == PStr(k) + (PStr(a[k]) + (AttrRecords(a, keys - {k}) + rest))
  {
    LeastUnique(k, Least(keys), keys);
    var tail := AttrRecords(a, keys - {k});
    assert AttrRecords(a, keys) == PStr(k) + PStr(a[k]) + tail;
    ConcatAssoc(PStr(k) + PStr(a[k]), tail, rest);
    ConcatAssoc(PStr(k), PStr(a[k]), tail + rest);
  }

  lemma RestrictStep(acc: AttrMap, a: AttrMap, keys: set<string>, k: string)
    requires keys <= a.Keys && k in keys
    ensures acc[k := a[k]] + Restrict(a, keys - {k}) == acc + Restrict(a, keys)
  {
  }

  /** Reading back the pairs of `keys` writes exactly those pairs into `acc`. */
  lemma {:induction false} AttrsRoundTrip(a: AttrMap, keys: set<string>, rest: string, acc: AttrMap)
    requires keys <= a.Keys
    requires forall k :: k in keys ==> StrFits(k) && StrFits(a[k])
    ensures ReadAttrs(AttrRecords(a, keys) + rest, |keys|, acc) == Ok((acc + Restrict(a, keys), rest))
    decreases keys
  {
    if keys == {} {
      assert AttrRecords(a, keys) + rest == rest;
      assert acc + Restrict(a, keys) == acc;
    } else {
      var k := Least(keys);
      var tail := AttrRecords(a, keys - {k});
      assert |keys - {k}| == |keys| - 1;
      AttrsRoundTrip(a, keys - {k}, rest, acc[k := a[k]]);
      AttrRecordsStep(a, keys, k, rest);
      ReadPStrRoundTrip(k, PStr(a[k]) + (tail + rest));
      ReadPStrRoundTrip(a[k], tail + rest);
      ReadAttrsStep(AttrRecords(a, keys) + rest, |keys|, acc, k, a[k], tail + rest);
      RestrictStep(acc, a, keys, k);
    }
  }

  /** ReadEntry from the results of its six reads. */
  lemma ReadEntryParts(s: string, k: EntryType, h: string, lh: string, nm: string, c: nat, at: AttrMap,
                       r0: string, r1: string, r2: string, r3: string, r4: string, rest: string)
    requires ReadTag(s) == Ok((k, r0)) && ReadPStr(r0) == Ok((h, r1))
    requires if k == LargeBlob then ReadPStr(r1) == Ok((lh, r2)) else lh == "" && r2 == r1
    requires ReadPStr(r2) == Ok((nm, r3)) && ReadUInt(r3, SIZE_BYTES) == Ok((c, r4))
    requires ReadAttrs(r4, c, map[]) == Ok((at, rest))
    ensures ReadEntry(s) == Ok((nm, TreeEntry(k, h, lh, at), rest))
  {
  }

  lemma ReadTagRoundTrip(k: EntryType, rest: string)
    requires k != Null
    ensures ReadTag(Tag(k) + rest) == Ok((k, rest))
  {
    var s := Tag(k) + rest;
    assert s[..4] == Tag(k) && s[4..] == rest;
  }

  /** The fields of a record, nested to the right. */
  lemma EntryRecordLayout(name: string, e: TreeEntry, rest: string)
    requires e.kind != Null
    ensures EntryRecord(name, e) + rest
            == Tag(e.kind) + (PStr(e.hash) + ((if e.kind == LargeBlob then PStr(e.largeHash) else [])
               + (PStr(name) + (EncodeUInt(|e.attrs|, SIZE_BYTES) + (AttrRecords(e.attrs, e.attrs.Keys) + rest)))))
  {
    RecordSplit(Tag(e.kind), PStr(e.hash), if e.kind == LargeBlob then PStr(e.largeHash) else [], PStr(name),
                EncodeUInt(|e.attrs|, SIZE_BYTES), AttrRecords(e.attrs, e.attrs.Keys), rest);
  }

  /** A record reads back as its name and its normalised entry. */
  lemma EntryRoundTrip(name: string, e: TreeEntry, rest: string)
    requires e.kind != Null && EntryFits(name, e)
    ensures ReadEntry(EntryRecord(name, e) + rest) == Ok((name, Norm(e), rest))
  {
    var large := if e.kind == LargeBlob then PStr(e.largeHash) else [];
    var r4 := AttrRecords(e.attrs, e.attrs.Keys) + rest;
    var r3 := EncodeUInt(|e.attrs|, SIZE_BYTES) + r4;
    var r2 := PStr(name) + r3;
    var r1 := large + r2;
    var r0 := PStr(e.hash) + r1;
    EntryRecordLayout(name, e, rest);
    ReadTagRoundTrip(e.kind, r0);
    ReadPStrRoundTrip(e.hash, r1);
    if e.kind == LargeBlob {
      ReadPStrRoundTrip(e.largeHash, r2);
    }
    ReadPStrRoundTrip(name, r3);
    ReadUIntEncode(|e.attrs|, SIZE_BYTES, r4);
    AttrsRoundTrip(e.attrs, e.attrs.Keys, rest, map[]);
    RestrictAll(e.attrs);
    ReadEntryParts(EntryRecord(name, e) + rest, e.kind, e.hash, Norm(e).largeHash, name, |e.attrs|, e.attrs,
                   r0, r1, r2, r3, r4, rest);
  }

  lemma RecordSplit(a: string, b: string, c: string, d: string, f: string, g: string, rest: string)
    ensures a + b + c + d + f + g + rest == a + (b + (c + (d + (f + (g + rest)))))
  {
  }

  lemma NormalizedStep(acc: Tree, t: Tree, names: set<string>, n: string)
    requires names <= t.Keys && n in names
    ensures acc[n := Norm(t[n])] + NormalizedIn(t, names - {n}) == acc + NormalizedIn(t, names)
  {
  }

  /** Reading back the records of `names` stores exactly their normalised
      entries into `acc`. */
  lemma {:induction false} EntriesRoundTrip(t: Tree, names: set<string>, rest: string, acc: Tree)
    requires NoNullIn(t, names)
    requires forall n :: n in names ==> EntryFits(n, t[n])
    ensures ReadEntries(EntryRecords(t, names) + rest, |names|, acc) == Ok((acc + NormalizedIn(t, names), rest))
    decreases names
  {
    if names == {} {
      assert EntryRecords(t, names) + rest == rest;
      assert acc + NormalizedIn(t, names) == acc;
    } else {
      var n := Least(names);
      var tail := EntryRecords(t, names - {n});
      assert |names - {n}| == |names| - 1;
      EntriesRoundTrip(t, names - {n}, rest, acc[n := Norm(t[n])]);
      EntryRecordsStep(t, names, n);
      ConcatAssoc(EntryRecord(n, t[n]), tail, rest);
      EntryRoundTrip(n, t[n], tail + rest);
      ReadEntriesStep(EntryRecords(t, names) + rest, |names|, acc);
      NormalizedStep(acc, t, names, n);
    }
  }

  /** Tree::fromBlob after Tree::getBlob: every child comes back, with the
      large hash dropped where the kind is not lgbl, on top of what the
      tree held. */
  lemma TreeRoundTrip(t: Tree, tree0: Tree)
    requires NoNull(t) && TreeFits(t)
    ensures DecodeTree(TreeBlob(t), tree0) == Ok(tree0 + NormalizedIn(t, t.Keys))
  {
    EntriesRoundTrip(t, t.Keys, [], tree0);
    assert EntryRecords(t, t.Keys) + [] == EntryRecords(t, t.Keys);
    ReadUIntEncode(|t|, SIZE_BYTES, EntryRecords(t, t.Keys));
  }

  /** Decoding the encoding of a canonical tree into an empty tree restores it. */
  lemma FromBlobGetBlob(t: Tree)
    requires NoNull(t) && TreeFits(t) && Canonical(t)
    ensures DecodeTree(TreeBlob(t), map[]) == Ok(t)
  {
    TreeRoundTrip(t, map[]);
    NormalizedCanonical(t);
  }

  lemma NormalizedCanonical(t: Tree)
    requires Canonical(t)
    ensures map[] + NormalizedIn(t, t.Keys) == t
  {
    forall n | n in t ensures Norm(t[n]) == t[n] {
    }
  }

  /** Two canonical trees with the same encoding, hence the same hash input,
      are the same tree. */
  lemma BlobInjective(t1: Tree, t2: Tree)
    requires NoNull(t1) && TreeFits(t1) && Canonical(t1)
    requires NoNull(t2) && TreeFits(t2) && Canonical(t2)
    requires TreeBlob(t1) == TreeBlob(t2)
    ensures t1 == t2
  {
    FromBlobGetBlob(t1);
    FromBlobGetBlob(t2);
  }
}
