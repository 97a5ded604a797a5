/** TreeEntry (libori/tree.cc): one named child of a directory snapshot. */
module Entries {
  import opened Wrappers
  import opened Attrs

  datatype EntryType = Null | Tree | Blob | LargeBlob

  datatype TreeEntry = TreeEntry(kind: EntryType, hash: string, largeHash: string, attrs: AttrMap)

  /** TreeEntry::TreeEntry(): a Null entry with no hash and no attributes. */
  const EMPTY_ENTRY: TreeEntry := TreeEntry(Null, "", "", map[])

  datatype EntryError = NullType | EmptyHash | LargeDirectory

  /** Permission bits every new entry gets (0755). */
  const DEFAULT_PERMS: nat := 0x1ED

  /** TreeEntry(type, size, user, group, hash): the clock reading is the
      parameter `now`. */
  function NewEntry(kind: EntryType, size: nat, user: string, group: string,
                    objHash: string, now: nat): (r: Result<TreeEntry, EntryError>)
    ensures r.Ok? <==> kind != Null && objHash != ""
    ensures kind == Null ==> r == Err(NullType)
    ensures kind != Null && objHash == "" ==> r == Err(EmptyHash)
    ensures r.Ok? ==> && r.value.kind == kind && r.value.hash == objHash
                      && r.value.largeHash == ""
                      && BasicComplete(r.value.attrs)
                      && r.value.attrs.Keys == set k | k in BASIC_ATTRS
                      && r.value.attrs[ATTR_FILESIZE] == NatToString(size)
                      && r.value.attrs[ATTR_PERMS] == NatToString(DEFAULT_PERMS)
                      && r.value.attrs[ATTR_USERNAME] == user
                      && r.value.attrs[ATTR_GROUPNAME] == group
                      && r.value.attrs[ATTR_CTIME] == NatToString(now)
                      && r.value.attrs[ATTR_MTIME] == NatToString(now)
  {
    if kind == Null then Err(NullType)
    else if objHash == "" then Err(EmptyHash)
    else
      var attrs := map[ATTR_FILESIZE := NatToString(size),
                       ATTR_PERMS := NatToString(DEFAULT_PERMS),
                       ATTR_USERNAME := user,
                       ATTR_GROUPNAME := group,
                       ATTR_CTIME := NatToString(now),
                       ATTR_MTIME := NatToString(now)];
      Ok(TreeEntry(kind, objHash, "", attrs))
  }

  /** TreeEntry::fromFile with the stat results passed in: `isDir` is the
      S_IFDIR test, `size`, `user`, `group` the looked-up owner data. */
  function FromFile(isDir: bool, size: nat, user: string, group: string,
                    hash: string, largeHash: string, now: nat): (r: Result<TreeEntry, EntryError>)
    ensures r.Ok? <==> hash != "" && !(isDir && largeHash != "")
    ensures hash == "" ==> r == Err(EmptyHash)
    ensures hash != "" && isDir && largeHash != "" ==> r == Err(LargeDirectory)
    ensures r.Ok? ==> && r.value.kind == (if isDir then Tree else if largeHash != "" then LargeBlob else Blob)
                      && r.value.hash == hash
                      && r.value.largeHash == largeHash
                      && BasicComplete(r.value.attrs)
                      && r.value.attrs == NewEntry(if isDir then Tree else Blob, size, user, group, hash, now).value.attrs
  {
    var e :- NewEntry(if isDir then Tree else Blob, size, user, group, hash, now);
    if largeHash != "" then
      if e.kind == Tree then Err(LargeDirectory)
      else Ok(e.(kind := LargeBlob, largeHash := largeHash))
    else Ok(e)
  }

  /** TreeEntry::hasBasicAttrs: checks the six names one after the other. */
  method HasBasicAttrs(e: TreeEntry) returns (b: bool)
    ensures b <==> BasicComplete(e.attrs)
  {
    var names := BASIC_ATTRS;
    var i := 0;
    while i < |names|
      invariant 0 <= i <= |names|
      invariant forall j :: 0 <= j < i ==> names[j] in e.attrs
    {
      if names[i] !in e.attrs {
        return false;
      }
      i := i + 1;
    }
    assert names[0] in e.attrs && names[1] in e.attrs && names[2] in e.attrs;
    assert names[3] in e.attrs && names[4] in e.attrs && names[5] in e.attrs;
    return true;
  }
}
