/** Tree::flattened and _recFlatten (libori/tree.cc): the whole hierarchy
    below a tree as one map from absolute path to entry. Subtrees are
    fetched from the store. */
module Flatten {
  import opened Wrappers
  import opened LexOrder
  import opened Entries
  import opened TreeCodec
  import opened Store

  /** Tree::Flat: absolute path to entry. */
  type Flat = map<string, TreeEntry>

  predicate HasPrefix(k: string, p: string)
  {
    |p| <= |k| && k[..|p|] == p
  }

  /** Index of the first '/' of `s`, or |s| when there is none. */
  function FirstSlash(s: string): (i: nat)
    ensures i <= |s|
    ensures forall j :: 0 <= j < i ==> s[j] != '/'
    ensures i < |s| ==> s[i] == '/'
  {
    if s == [] || s[0] == '/' then 0 else 1 + FirstSlash(s[1..])
  }

  /** No key of `m` lies under `prefix`. */
  predicate NoKeyUnder(m: Flat, prefix: string)
  {
    forall k :: k in m ==> !HasPrefix(k, prefix)
  }

  /** No name anywhere below `t` contains a '/'. */
  ghost predicate DeepSlashFree(objects: Objs, rank: map<string, nat>, t: Tree, bound: nat)
    decreases bound
  {
    forall n :: n in t ==>
      && '/' !in n
      && (t[n].kind == EntryType.Tree && Reachable(objects, rank, t[n], bound) ==>
            DeepSlashFree(objects, rank, Child(objects, t[n]), rank[t[n].hash]))
  }

  /** The entry the flattening of `t` under `prefix` gives path `k`, counting
      only the children of `t` in `names`: the first component after the
      prefix names a child; the path ends there, or continues into that
      child's subtree. */
  ghost function FlatLookup(objects: Objs, rank: map<string, nat>, prefix: string, t: Tree,
                            names: set<string>, bound: nat, k: string): Option<TreeEntry>
    decreases bound
  {
    if !HasPrefix(k, prefix) then None
    else
      var rest := k[|prefix|..];
      var i := FirstSlash(rest);
      var n := rest[..i];
      if n !in names || n !in t then None
      else if i == |rest| then Some(t[n])
      else SubLookup(objects, rank, prefix, t, n, bound, k)
  }

  /** The part of FlatLookup inside the subtree of child `n`. */
  ghost function SubLookup(objects: Objs, rank: map<string, nat>, prefix: string, t: Tree,
                           n: string, bound: nat, k: string): Option<TreeEntry>
    requires n in t
    decreases bound, 0
  {
    if t[n].kind == EntryType.Tree && Reachable(objects, rank, t[n], bound) then
      var c := Child(objects, t[n]);
      FlatLookup(objects, rank, prefix + n + "/", c, c.Keys, rank[t[n].hash], k)
    else None
  }

  /** Whatever the flattening gives lies under the prefix. */
  lemma FlatLookupPrefix(objects: Objs, rank: map<string, nat>, prefix: string, t: Tree,
                         names: set<string>, bound: nat, k: string)
    requires FlatLookup(objects, rank, prefix, t, names, bound, k).Some?
    ensures HasPrefix(k, prefix)
  {
  }

  lemma SubLookupPrefix(objects: Objs, rank: map<string, nat>, prefix: string, t: Tree,
                        n: string, bound: nat, k: string)
    requires n in t && SubLookup(objects, rank, prefix, t, n, bound, k).Some?
    ensures HasPrefix(k, prefix + n + "/")
  {
  }

  /** A path under `prefix + n + "/"` has `n` as its first component. */
  lemma HeadUnder(prefix: string, n: string, k: string)
    requires '/' !in n
    ensures HasPrefix(k, prefix + n + "/") ==>
              && HasPrefix(k, prefix)
              && |prefix| + |n| < |k|
              && FirstSlash(k[|prefix|..]) == |n| && k[|prefix|..][..|n|] == n
  {
    if HasPrefix(k, prefix + n + "/") {
      var rest := k[|prefix|..];
      assert rest[..|n| + 1] == n + "/";
      FirstSlashAt(rest, n);
    }
  }

  /** A path whose first component after `prefix` is `n` is `prefix + n` or
      lies under `prefix + n + "/"`. */
  lemma HeadIs(prefix: string, n: string, k: string)
    requires HasPrefix(k, prefix)
    ensures k[|prefix|..][..FirstSlash(k[|prefix|..])] == n ==>
              k == prefix + n || HasPrefix(k, prefix + n + "/")
  {
    var rest := k[|prefix|..];
    var i := FirstSlash(rest);
    if rest[..i] == n {
      assert k == k[..|prefix|] + rest;
      if i < |rest| {
        assert rest[..i + 1] == n + "/";
        assert k[..|prefix + n + "/"|] == prefix + n + "/";
      }
    }
  }

  lemma FirstSlashAt(rest: string, n: string)
    requires '/' !in n && |n| < |rest| && rest[..|n| + 1] == n + "/"
    ensures FirstSlash(rest) == |n| && rest[..|n|] == n
  {
    SlashFreeChars(n);
    assert forall j :: 0 <= j < |n| ==> rest[j] == (n + "/")[j] == n[j];
    assert rest[|n|] == (n + "/")[|n|] == '/';
    assert rest[..|n|] == (n + "/")[..|n|];
  }

  lemma SlashFreeChars(n: string)
    requires '/' !in n
    ensures forall j :: 0 <= j < |n| ==> n[j] != '/'
  {
    forall j | 0 <= j < |n| ensures n[j] != '/' {
      assert n[j] in n;
    }
  }

  /** The path `prefix + n` itself has `n` as its only component. */
  lemma HeadExact(prefix: string, n: string)
    requires '/' !in n
    ensures HasPrefix(prefix + n, prefix)
    ensures (prefix + n)[|prefix|..] == n && FirstSlash(n) == |n| && n[..|n|] == n
  {
    assert (prefix + n)[..|prefix|] == prefix;
    assert (prefix + n)[|prefix|..] == n;
    SlashFreeChars(n);
    assert n[..|n|] == n;
  }

  /** Counting one more child `n`: its own path, the paths of its subtree,
      and otherwise what the other children already gave. */
  lemma FlatLookupAdd(objects: Objs, rank: map<string, nat>, prefix: string, t: Tree,
                      done: set<string>, n: string, bound: nat, k: string)
    requires n in t && n !in done && '/' !in n
    ensures FlatLookup(objects, rank, prefix, t, done + {n}, bound, k)
            == if k == prefix + n then Some(t[n])
               else if HasPrefix(k, prefix + n + "/") then SubLookup(objects, rank, prefix, t, n, bound, k)
               else FlatLookup(objects, rank, prefix, t, done, bound, k)
  {
    if k == prefix + n {
      HeadExact(prefix, n);
    } else if HasPrefix(k, prefix + n + "/") {
      HeadUnder(prefix, n, k);
    } else if HasPrefix(k, prefix) {
      HeadIs(prefix, n, k);
    }
  }

  /** `acc` holds `rval` and exactly what the children `names` of `t`
      flatten to under `prefix`. */
  ghost predicate Matches(acc: Flat, rval: Flat, objects: Objs, rank: map<string, nat>,
                          prefix: string, t: Tree, names: set<string>, bound: nat)
  {
    && (forall k :: k in acc <==> k in rval || FlatLookup(objects, rank, prefix, t, names, bound, k).Some?)
    && (forall k :: k in acc && k !in rval ==>
          FlatLookup(objects, rank, prefix, t, names, bound, k) == Some(acc[k]))
  }

  /** Before child `n` is visited, neither its path nor anything under it
      is in the map. */
  lemma MatchesFresh(acc: Flat, rval: Flat, objects: Objs, rank: map<string, nat>,
                     prefix: string, t: Tree, done: set<string>, bound: nat, n: string)
    requires Matches(acc, rval, objects, rank, prefix, t, done, bound) && NoKeyUnder(rval, prefix)
    requires n in t && n !in done && '/' !in n
    ensures prefix + n !in acc
    ensures NoKeyUnder(acc, prefix + n + "/")
  {
    HeadExact(prefix, n);
    assert FlatLookup(objects, rank, prefix, t, done, bound, prefix + n) == None;
    forall k ensures HasPrefix(k, prefix + n + "/") ==> k !in acc && k != prefix + n {
      HeadUnder(prefix, n, k);
    }
  }

  /** After child `n`: its path and its subtree's paths are added. */
  lemma MatchesAfter(acc: Flat, res: Flat, rval: Flat, objects: Objs, rank: map<string, nat>,
                     prefix: string, t: Tree, done: set<string>, bound: nat, n: string)
    requires Matches(acc, rval, objects, rank, prefix, t, done, bound) && NoKeyUnder(rval, prefix)
    requires n in t && n !in done && '/' !in n
    requires forall k :: k in res <==>
               (k in acc || k == prefix + n || SubLookup(objects, rank, prefix, t, n, bound, k).Some?)
    requires prefix + n in res && res[prefix + n] == t[n]
    requires forall k :: k in acc ==> res[k] == acc[k]
    requires forall k :: k in res && k !in acc && k != prefix + n ==>
               SubLookup(objects, rank, prefix, t, n, bound, k) == Some(res[k])
    ensures Matches(res, rval, objects, rank, prefix, t, done + {n}, bound)
  {
    MatchesFresh(acc, rval, objects, rank, prefix, t, done, bound, n);
    forall k ensures k in res <==> k in rval || FlatLookup(objects, rank, prefix, t, done + {n}, bound, k).Some?
    {
      FlatLookupAdd(objects, rank, prefix, t, done, n, bound, k);
      if SubLookup(objects, rank, prefix, t, n, bound, k).Some? {
        SubLookupPrefix(objects, rank, prefix, t, n, bound, k);
      }
      HeadUnder(prefix, n, k);
      if k == prefix + n {
        HeadExact(prefix, n);
      }
    }
    forall k | k in res && k !in rval
      ensures FlatLookup(objects, rank, prefix, t, done + {n}, bound, k) == Some(res[k])
    {
      FlatLookupAdd(objects, rank, prefix, t, done, n, bound, k);
      HeadUnder(prefix, n, k);
      if k in acc {
        assert FlatLookup(objects, rank, prefix, t, done, bound, k).Some?;
      } else if k != prefix + n {
        SubLookupPrefix(objects, rank, prefix, t, n, bound, k);
      }
    }
  }


  /** _recFlatten: inserts each child of `t` under `prefix` (an existing key
      is kept), and descends into Tree-kind children. It fails exactly when
      some subtree cannot be fetched; when no name contains '/' and the map
      holds nothing under `prefix`, the paths it adds are exactly those of
      FlatLookup. */
  method RecFlatten(r: Repo, prefix: string, t: Tree, rval: Flat, ghost bound: nat)
    returns (res: Result<Flat, RepoError>)
    requires r.Valid() && r.ChildrenBelow(t, bound)
    decreases bound, 1
    ensures res.Ok? <==> Resolvable(r.objects, r.rank, t, bound)
    ensures res.Ok? ==> rval.Keys <= res.value.Keys && forall k :: k in rval ==> res.value[k] == rval[k]
    ensures res.Ok? && DeepSlashFree(r.objects, r.rank, t, bound) && NoKeyUnder(rval, prefix) ==>
              Matches(res.value, rval, r.objects, r.rank, prefix, t, t.Keys, bound)
  {
    var acc := rval;
    var rem := t.Keys;
    ghost var done: set<string> := {};
    ghost var exact := DeepSlashFree(r.objects, r.rank, t, bound) && NoKeyUnder(rval, prefix);
    while rem != {}
      invariant done !! rem && done + rem == t.Keys
      invariant forall n :: n in done ==> ChildResolvable(r.objects, r.rank, t, n, bound)
      invariant rval.Keys <= acc.Keys && forall k :: k in rval ==> acc[k] == rval[k]
      invariant exact ==> Matches(acc, rval, r.objects, r.rank, prefix, t, done, bound)
      decreases rem
    {
      LeastExists(rem);
      var n :| IsLeast(n, rem);
      if exact {
        MatchesFresh(acc, rval, r.objects, r.rank, prefix, t, done, bound, n);
      }
      var next := FlattenChild(r, prefix, t, n, acc, bound);
      if next.Err? {
        ResolvableByChildren(r.objects, r.rank, t, bound);
        return Err(next.error);
      }
      if exact {
        MatchesAfter(acc, next.value, rval, r.objects, r.rank, prefix, t, done, bound, n);
      }
      acc := next.value;
      done := done + {n};
      rem := rem - {n};
    }
    assert done == t.Keys;
    ResolvableByChildren(r.objects, r.rank, t, bound);
    return Ok(acc);
  }

  /** One turn of the loop of _recFlatten: child `n` goes in under
      `prefix + n`, and a directory's subtree under `prefix + n + "/"`. */
  method FlattenChild(r: Repo, prefix: string, t: Tree, n: string, acc: Flat, ghost bound: nat)
    returns (res: Result<Flat, RepoError>)
    requires r.Valid() && r.ChildrenBelow(t, bound) && n in t
    decreases bound, 0
    ensures res.Ok? <==> ChildResolvable(r.objects, r.rank, t, n, bound)
    ensures res.Ok? ==> acc.Keys <= res.value.Keys && forall k :: k in acc ==> res.value[k] == acc[k]
    ensures res.Ok? && '/' !in n && prefix + n !in acc && NoKeyUnder(acc, prefix + n + "/")
            && (t[n].kind == EntryType.Tree && Reachable(r.objects, r.rank, t[n], bound) ==>
                  DeepSlashFree(r.objects, r.rank, Child(r.objects, t[n]), r.rank[t[n].hash])) ==>
              && (forall k :: k in res.value <==>
                    (k in acc || k == prefix + n || SubLookup(r.objects, r.rank, prefix, t, n, bound, k).Some?))
              && prefix + n in res.value && res.value[prefix + n] == t[n]
              && (forall k :: k in res.value && k !in acc && k != prefix + n ==>
                    SubLookup(r.objects, r.rank, prefix, t, n, bound, k) == Some(res.value[k]))
  {
    var e := t[n];
    var key := prefix + n;
    var m := acc;
    if key !in m {
      m := m[key := e];
    }
    if e.kind != EntryType.Tree {
      return Ok(m);
    }
    var sub := r.GetTree(e.hash);
    if sub.Err? {
      return Err(sub.error);
    }
    assert Closed(r.objects, r.rank, e.hash);
    var down := RecFlatten(r, key + "/", sub.value, m, r.rank[e.hash]);
    if down.Err? {
      return Err(down.error);
    }
    assert prefix + n + "/" == key + "/";
    return Ok(down.value);
  }

  /** Tree::flattened: the flattening of `t` under "/" into an empty map. */
  method Flattened(r: Repo, t: Tree) returns (res: Result<Flat, RepoError>)
    requires r.Valid()
    ensures res.Ok? <==> Resolvable(r.objects, r.rank, t, r.height)
    ensures res.Ok? && DeepSlashFree(r.objects, r.rank, t, r.height) ==>
              forall k :: (k in res.value <==> FlatLookup(r.objects, r.rank, "/", t, t.Keys, r.height, k).Some?)
                          && (k in res.value ==> FlatLookup(r.objects, r.rank, "/", t, t.Keys, r.height, k) == Some(res.value[k]))
  {
    res := RecFlatten(r, "/", t, map[], r.height);
  }

  /** Each child `n` of the flattened tree appears under `prefix + n`. */
  lemma FlatChild(objects: Objs, rank: map<string, nat>, prefix: string, t: Tree, bound: nat, n: string)
    requires n in t && '/' !in n
    ensures FlatLookup(objects, rank, prefix, t, t.Keys, bound, prefix + n) == Some(t[n])
  {
    HeadExact(prefix, n);
  }

  /** Below a fetched Tree-kind child `n`, the subtree is flattened under
      `prefix + n + "/"`. */
  lemma FlatSubtree(objects: Objs, rank: map<string, nat>, prefix: string, t: Tree, bound: nat,
                    n: string, k: string)
    requires n in t && '/' !in n && HasPrefix(k, prefix + n + "/")
    requires t[n].kind == EntryType.Tree && Reachable(objects, rank, t[n], bound)
    ensures FlatLookup(objects, rank, prefix, t, t.Keys, bound, k)
            == FlatLookup(objects, rank, prefix + n + "/", Child(objects, t[n]),
                          Child(objects, t[n]).Keys, rank[t[n].hash], k)
  {
    HeadUnder(prefix, n, k);
  }

  /** Below a child that is not a directory, or whose subtree cannot be
      fetched, nothing is flattened. */
  lemma FlatNothingBelowLeaf(objects: Objs, rank: map<string, nat>, prefix: string, t: Tree, bound: nat,
                             n: string, k: string)
    requires n in t && '/' !in n && HasPrefix(k, prefix + n + "/")
    requires t[n].kind != EntryType.Tree
    ensures FlatLookup(objects, rank, prefix, t, t.Keys, bound, k) == None
  {
    HeadUnder(prefix, n, k);
  }
}
