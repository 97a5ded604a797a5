/** AttrMap (libori/tree.cc): string-valued attributes of a tree entry. */
module Attrs {
  import opened Wrappers
  import opened LexOrder

  type AttrMap = map<string, string>

  // The six basic attribute names. Their spelling lives in tree.h, which is
  // not part of this model; the model relies only on their being distinct.
  const ATTR_FILESIZE: string := "Ssize"
  const ATTR_PERMS: string := "Sperms"
  const ATTR_USERNAME: string := "Suser"
  const ATTR_GROUPNAME: string := "Sgroup"
  const ATTR_CTIME: string := "Sctime"
  const ATTR_MTIME: string := "Smtime"

  /** The names TreeEntry::hasBasicAttrs checks, in the order it checks them. */
  const BASIC_ATTRS: seq<string> :=
    [ATTR_FILESIZE, ATTR_PERMS, ATTR_USERNAME, ATTR_GROUPNAME, ATTR_CTIME, ATTR_MTIME]

  /** An attribute map is basic-complete when all six basic attributes are present. */
  predicate BasicComplete(a: AttrMap)
  {
    && ATTR_FILESIZE in a && ATTR_PERMS in a && ATTR_USERNAME in a
    && ATTR_GROUPNAME in a && ATTR_CTIME in a && ATTR_MTIME in a
  }

  /** Decimal text of a number. AttrMap::setAs<T> is defined in tree.h,
      which is not part of this model; the model chooses to write every
      numeric attribute as its decimal text. */
  function NatToString(n: nat): string
    decreases n
  {
    var d := [(('0' as int) + n % 10) as char];
    if n < 10 then d else NatToString(n / 10) + d
  }

  /** AttrMap::mergeFrom: walks `other` in key order and writes each pair
      into `self`, returning the updated map. */
  method MergeFrom(self: AttrMap, other: AttrMap) returns (r: AttrMap)
    ensures r.Keys == self.Keys + other.Keys
    ensures forall k :: k in other ==> r[k] == other[k]
    ensures forall k :: k in self && k !in other ==> r[k] == self[k]
  {
    r := self;
    var rem := other.Keys;
    while rem != {}
      invariant rem <= other.Keys
      invariant r.Keys == self.Keys + (other.Keys - rem)
      invariant forall k :: k in other && k !in rem ==> r[k] == other[k]
      invariant forall k :: k in self && k !in other.Keys - rem ==> r[k] == self[k]
      decreases rem
    {
      LeastExists(rem);
      var k :| IsLeast(k, rem);
      r := r[k := other[k]];
      rem := rem - {k};
    }
  }

  datatype AttrError = MissingAttr(name: string)

  /** AttrMap::getAs<const char *>: the stored text; a missing key is the
      assertion failure of the source. */
  function GetAs(a: AttrMap, name: string): (r: Result<string, AttrError>)
    ensures r.Ok? <==> name in a
    ensures r.Ok? ==> r.value == a[name]
    ensures r.Err? ==> r.error == MissingAttr(name)
  {
    if name in a then Ok(a[name]) else Err(MissingAttr(name))
  }
}
