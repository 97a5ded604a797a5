/** Path helpers of Tree::unflatten (libori/tree.cc): directory and last
    component of a path, the component count `_num_path_components`, the
    comparison `_tree_gt` and the deepest-first order it sorts by.
    StrUtil_Dirname and StrUtil_Basename are not part of this model; they
    are taken to split at the last '/', the directory of a path without
    '/' being "". */
module Paths {

  function CountSlash(s: string): nat
  {
    if s == [] then 0 else (if s[0] == '/' then 1 else 0) + CountSlash(s[1..])
  }

  /** _num_path_components: 0 for "", else one more than the number of '/'. */
  function Depth(p: string): nat
  {
    if p == [] then 0 else 1 + CountSlash(p)
  }

  /** Index of the last '/' of `p`, if any. */
  function LastSlash(p: string): (i: int)
    ensures -1 <= i < |p|
    ensures i >= 0 ==> p[i] == '/'
  {
    if p == [] then -1
    else if p[|p| - 1] == '/' then |p| - 1
    else LastSlash(p[..|p| - 1])
  }

  /** StrUtil_Dirname: the text before the last '/', "" when there is none. */
  function Dirname(p: string): string
  {
    var i := LastSlash(p);
    if i < 0 then "" else p[..i]
  }

  /** StrUtil_Basename: the text after the last '/', all of `p` when there is none. */
  function Basename(p: string): string
  {
    p[LastSlash(p) + 1..]
  }

  lemma CountSlashAppend(a: string, b: string)
    ensures CountSlash(a + b) == CountSlash(a) + CountSlash(b)
  {
    if a == [] {
      assert a + b == b;
    } else {
      assert (a + b)[0] == a[0];
      assert (a + b)[1..] == a[1..] + b;
      CountSlashAppend(a[1..], b);
    }
  }

  lemma NoSlashCount(s: string)
    requires '/' !in s
    ensures CountSlash(s) == 0
  {
    if s != [] {
      assert s[0] in s;
      assert forall c :: c in s[1..] ==> c in s;
      NoSlashCount(s[1..]);
    }
  }

  /** The last component holds no '/'. */
  lemma {:induction false} BasenameSlashFree(p: string)
    ensures '/' !in Basename(p)
  {
    if p != [] && p[|p| - 1] != '/' {
      var q := p[..|p| - 1];
      BasenameSlashFree(q);
      assert Basename(p) == Basename(q) + [p[|p| - 1]];
    }
  }

  lemma {:induction false} LastSlashAfter(p: string, k: int)
    requires LastSlash(p) < k < |p|
    ensures p[k] != '/'
  {
    if p[|p| - 1] != '/' && k < |p| - 1 {
      LastSlashAfter(p[..|p| - 1], k);
    }
  }

  /** The last '/' is the one with no '/' after it. */
  lemma {:induction false} LastSlashIs(p: string, i: nat)
    requires i < |p| && p[i] == '/'
    requires forall j :: i < j < |p| ==> p[j] != '/'
    ensures LastSlash(p) == i
  {
    if i < |p| - 1 {
      LastSlashIs(p[..|p| - 1], i);
    }
  }

  /** A path with a '/' is its directory, a '/', and its last component. */
  lemma SplitPath(p: string)
    requires '/' in p
    ensures p == Dirname(p) + "/" + Basename(p)
  {
    var i := LastSlash(p);
    if i < 0 {
      var j :| 0 <= j < |p| && p[j] == '/';
      LastSlashAfter(p, j);
    }
    assert p == p[..i] + [p[i]] + p[i + 1..];
  }

  /** Appending "/" + b for a component b gives back the directory and the component. */
  lemma JoinSplit(d: string, b: string)
    requires '/' !in b
    ensures Dirname(d + "/" + b) == d && Basename(d + "/" + b) == b
  {
    var p := d + "/" + b;
    assert p[|d|] == '/';
    forall j | |d| < j < |p| ensures p[j] != '/' {
      assert p[j] == b[j - |d| - 1];
      assert b[j - |d| - 1] in b;
    }
    LastSlashIs(p, |d|);
    assert p[..|d|] == d;
    assert p[|d| + 1..] == b;
  }

  /** One more component, one more level. */
  lemma DepthJoin(d: string, b: string)
    requires '/' !in b
    ensures Depth(d + "/" + b) == Depth(d) + (if d == [] then 2 else 1)
  {
    CountSlashAppend(d + "/", b);
    CountSlashAppend(d, "/");
    NoSlashCount(b);
    assert CountSlash("/") == 1;
  }

  /** A path lies strictly deeper than its directory: the fact that makes a
      deepest-first order finish children before parents. */
  lemma DirnameShallower(p: string)
    requires p != []
    ensures Depth(Dirname(p)) < Depth(p)
  {
    if '/' in p {
      SplitPath(p);
      BasenameSlashFree(p);
      DepthJoin(Dirname(p), Basename(p));
      assert Depth(p) == Depth(Dirname(p) + "/" + Basename(p));
    }
  }

  /** _num_path_components: counts the '/' characters one at a time. */
  method NumPathComponents(path: string) returns (n: nat)
    ensures n == Depth(path)
    ensures path != [] ==> n >= 1
  {
    if |path| == 0 {
      return 0;
    }
    var cnt := 0;
    var i := 0;
    while i < |path|
      invariant 0 <= i <= |path|
      invariant cnt + CountSlash(path[i..]) == CountSlash(path)
    {
      assert path[i..][1..] == path[i + 1..];
      if path[i] == '/' {
        cnt := cnt + 1;
      }
      i := i + 1;
    }
    assert path[|path|..] == [];
    return 1 + cnt;
  }

  /** _tree_gt: `t1` has more components than `t2`. */
  method TreeGt(t1: string, t2: string) returns (b: bool)
    ensures b <==> Depth(t1) > Depth(t2)
  {
    var n1 := NumPathComponents(t1);
    var n2 := NumPathComponents(t2);
    b := n1 > n2;
  }

  /** Deepest first: no entry has fewer components than a later one. */
  predicate DeepestFirst(s: seq<string>)
  {
    forall i, j :: 0 <= i < j < |s| ==> Depth(s[i]) >= Depth(s[j])
  }

  /** std::sort(tree_names, _tree_gt): a permutation of `names` in
      deepest-first order. Equally deep names may come in any order. */
  method SortByDepth(names: seq<string>) returns (out: seq<string>)
    ensures multiset(out) == multiset(names)
    ensures DeepestFirst(out)
  {
    out := [];
    var k := 0;
    while k < |names|
      invariant 0 <= k <= |names|
      invariant multiset(out) == multiset(names[..k])
      invariant DeepestFirst(out)
    {
      var x := names[k];
      var i := InsertionPoint(out, x);
      InsertDeepestFirst(out, i, x);
      InsertMultiset(out, i, x, names, k);
      out := out[..i] + [x] + out[i..];
      k := k + 1;
    }
    assert names[..|names|] == names;
  }

  /** The first position whose name is shallower than `x`: the first name
      `x` compares greater than under _tree_gt. */
  method InsertionPoint(s: seq<string>, x: string) returns (i: nat)
    requires DeepestFirst(s)
    ensures i <= |s|
    ensures forall j :: 0 <= j < i ==> Depth(s[j]) >= Depth(x)
    ensures i < |s| ==> Depth(s[i]) < Depth(x)
  {
    i := 0;
    while i < |s|
      invariant 0 <= i <= |s|
      invariant forall j :: 0 <= j < i ==> Depth(s[j]) >= Depth(x)
    {
      var deeper := TreeGt(x, s[i]);
      if deeper {
        return;
      }
      i := i + 1;
    }
  }

  /** Inserting the next name adds it to the contents. */
  lemma InsertMultiset(s: seq<string>, i: nat, x: string, names: seq<string>, k: nat)
    requires i <= |s| && k < |names| && names[k] == x
    requires multiset(s) == multiset(names[..k])
    ensures multiset(s[..i] + [x] + s[i..]) == multiset(names[..k + 1])
  {
    assert s == s[..i] + s[i..];
    assert names[..k + 1] == names[..k] + [x];
  }

  /** Inserting `x` after the names at least as deep and before the
      shallower ones keeps the order and adds `x` to the contents. */
  lemma InsertDeepestFirst(s: seq<string>, i: nat, x: string)
    requires DeepestFirst(s) && i <= |s|
    requires forall j :: 0 <= j < i ==> Depth(s[j]) >= Depth(x)
    requires i < |s| ==> Depth(s[i]) < Depth(x)
    ensures DeepestFirst(s[..i] + [x] + s[i..])
  {
    var t := s[..i] + [x] + s[i..];
    assert s == s[..i] + s[i..];
    assert forall a :: 0 <= a < i ==> t[a] == s[a];
    assert forall a :: i < a < |t| ==> t[a] == s[a - 1];
    forall a, b | 0 <= a < b < |t| ensures Depth(t[a]) >= Depth(t[b]) {
      if b < i {
      } else if b == i {
      } else if a == i {
        assert Depth(s[i]) >= Depth(s[b - 1]);
      } else if a < i {
        assert Depth(s[a]) >= Depth(s[b - 1]);
      } else {
        assert Depth(s[a - 1]) >= Depth(s[b - 1]);
      }
    }
  }

  /** In a deepest-first order, a directory comes after every path whose
      directory it is. */
  lemma ChildrenFirst(s: seq<string>, i: nat, j: nat)
    requires DeepestFirst(s) && i < |s| && j < |s|
    requires s[i] != [] && s[j] == Dirname(s[i])
    ensures i < j
  {
    DirnameShallower(s[i]);
  }
}
