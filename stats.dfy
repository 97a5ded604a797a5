/** The counting loop of the `stats` command: every entry of the reference
    counts is classified by its object type. The store's type lookup is the
    parameter `typeOf`; the referrer maps are kept with an arbitrary value
    type, as only their sizes are read. */
module Stats {
  import opened LexOrder
  import opened Objects

  /** The counters the command prints. */
  datatype Counter = Commits | Trees | Blobs | DanglingBlobs | BlobRefs | LargeBlobs | PurgedBlobs

  datatype Counts = Counts(commits: nat, trees: nat, blobs: nat, danglingBlobs: nat,
                           blobRefs: nat, largeBlobs: nat, purgedBlobs: nat)
  {
    function Get(c: Counter): nat
    {
      match c
      case Commits => commits
      case Trees => trees
      case Blobs => blobs
      case DanglingBlobs => danglingBlobs
      case BlobRefs => blobRefs
      case LargeBlobs => largeBlobs
      case PurgedBlobs => purgedBlobs
    }

    /** The entries counted by type. */
    function Entries(): nat
    {
      commits + trees + blobs + largeBlobs + purgedBlobs
    }
  }

  /** The types the switch of the command has a case for. */
  predicate Known(t: ObjectType)
  {
    t != ObjectType.Null
  }

  function Indicator(b: bool): nat
  {
    if b then 1 else 0
  }

  /** What the entry `k` adds to the counter `c`: one to the counter of its
      type, and for a blob either one dangling blob or the size of its
      referrer map in blob references. */
  function Contribution<S>(refs: map<string, map<string, S>>, typeOf: string -> ObjectType,
                           k: string, c: Counter): nat
    requires k in refs
  {
    var t := typeOf(k);
    match c
    case Commits => Indicator(t == Commit)
    case Trees => Indicator(t == Tree)
    case Blobs => Indicator(t == Blob)
    case DanglingBlobs => Indicator(t == Blob && |refs[k]| == 0)
    case BlobRefs => if t == Blob && |refs[k]| != 0 then |refs[k]| else 0
    case LargeBlobs => Indicator(t == LargeBlob)
    case PurgedBlobs => Indicator(t == Purged)
  }

  /** The counter `c` over the entries `keys`, added up in map order. */
  ghost function Sum<S>(refs: map<string, map<string, S>>, typeOf: string -> ObjectType,
                        keys: set<string>, c: Counter): nat
    requires keys <= refs.Keys
    decreases keys
  {
    if keys == {} then 0
    else
      var k := Least(keys);
      Contribution(refs, typeOf, k, c) + Sum(refs, typeOf, keys - {k}, c)
  }

  /** All counters over the entries `keys`. */
  ghost function Tally<S>(refs: map<string, map<string, S>>, typeOf: string -> ObjectType, keys: set<string>): Counts
    requires keys <= refs.Keys
  {
    Counts(Sum(refs, typeOf, keys, Commits), Sum(refs, typeOf, keys, Trees), Sum(refs, typeOf, keys, Blobs),
           Sum(refs, typeOf, keys, DanglingBlobs), Sum(refs, typeOf, keys, BlobRefs),
           Sum(refs, typeOf, keys, LargeBlobs), Sum(refs, typeOf, keys, PurgedBlobs))
  }

  ghost predicate AllKnown<S>(refs: map<string, map<string, S>>, typeOf: string -> ObjectType, keys: set<string>)
  {
    forall k :: k in keys ==> Known(typeOf(k))
  }

  /** cmd_stats without its output: walks `refs` in key order; an entry of
      a type the switch does not know stops the walk with status 1,
      otherwise the status is 0 and the counters are the tally of all
      entries. */
  method CountRefs<S>(refs: map<string, map<string, S>>, typeOf: string -> ObjectType)
    returns (status: int, counts: Counts)
    ensures status == 0 || status == 1
    ensures status == 1 <==> !AllKnown(refs, typeOf, refs.Keys)
    ensures status == 0 ==> counts == Tally(refs, typeOf, refs.Keys)
  {
    var commits: nat, trees: nat, blobs: nat, danglingBlobs: nat := 0, 0, 0, 0;
    var blobRefs: nat, largeBlobs: nat, purgedBlobs: nat := 0, 0, 0;
    var rem := refs.Keys;
    while rem != {}
      invariant rem <= refs.Keys
      invariant forall k :: k in refs.Keys && k !in rem ==> Known(typeOf(k))
      invariant forall c :: Counts(commits, trees, blobs, danglingBlobs, blobRefs, largeBlobs, purgedBlobs).Get(c)
                             + Sum(refs, typeOf, rem, c) == Sum(refs, typeOf, refs.Keys, c)
      decreases rem
    {
      LeastExists(rem);
      var k :| IsLeast(k, rem);
      ghost var before := Counts(commits, trees, blobs, danglingBlobs, blobRefs, largeBlobs, purgedBlobs);
      match typeOf(k) {
      case Commit =>
        commits := commits + 1;
      case Tree =>
        trees := trees + 1;
      case Blob =>
        blobs := blobs + 1;
        if |refs[k]| == 0 {
          danglingBlobs := danglingBlobs + 1;
        } else {
          blobRefs := blobRefs + |refs[k]|;
        }
      case LargeBlob =>
        largeBlobs := largeBlobs + 1;
      case Purged =>
        purgedBlobs := purgedBlobs + 1;
      case Null =>
        counts := Counts(commits, trees, blobs, danglingBlobs, blobRefs, largeBlobs, purgedBlobs);
        return 1, counts;
      }
      SumsStep(before, Counts(commits, trees, blobs, danglingBlobs, blobRefs, largeBlobs, purgedBlobs),
               refs, typeOf, rem, k);
      rem := rem - {k};
    }
    counts := Counts(commits, trees, blobs, danglingBlobs, blobRefs, largeBlobs, purgedBlobs);
    TallyFrom(counts, refs, typeOf, refs.Keys);
    return 0, counts;
  }

  /** `counts` with the entry `k` counted. */
  function Added<S>(counts: Counts, refs: map<string, map<string, S>>, typeOf: string -> ObjectType, k: string): Counts
    requires k in refs
  {
    Counts(counts.commits + Contribution(refs, typeOf, k, Commits),
           counts.trees + Contribution(refs, typeOf, k, Trees),
           counts.blobs + Contribution(refs, typeOf, k, Blobs),
           counts.danglingBlobs + Contribution(refs, typeOf, k, DanglingBlobs),
           counts.blobRefs + Contribution(refs, typeOf, k, BlobRefs),
           counts.largeBlobs + Contribution(refs, typeOf, k, LargeBlobs),
           counts.purgedBlobs + Contribution(refs, typeOf, k, PurgedBlobs))
  }

  lemma AddedGet<S>(counts: Counts, refs: map<string, map<string, S>>, typeOf: string -> ObjectType, k: string)
    requires k in refs
    ensures forall c :: Added(counts, refs, typeOf, k).Get(c) == counts.Get(c) + Contribution(refs, typeOf, k, c)
  {
  }

  /** The loop invariant survives the walk's step. */
  lemma SumsStep<S>(before: Counts, after: Counts, refs: map<string, map<string, S>>,
                    typeOf: string -> ObjectType, rem: set<string>, k: string)
    requires rem <= refs.Keys && IsLeast(k, rem) && Known(typeOf(k))
    requires forall c :: before.Get(c) + Sum(refs, typeOf, rem, c) == Sum(refs, typeOf, refs.Keys, c)
    requires typeOf(k) == Commit ==> after == before.(commits := before.commits + 1)
    requires typeOf(k) == Tree ==> after == before.(trees := before.trees + 1)
    requires typeOf(k) == Blob && |refs[k]| == 0 ==>
               after == before.(blobs := before.blobs + 1, danglingBlobs := before.danglingBlobs + 1)
    requires typeOf(k) == Blob && |refs[k]| != 0 ==>
               after == before.(blobs := before.blobs + 1, blobRefs := before.blobRefs + |refs[k]|)
    requires typeOf(k) == LargeBlob ==> after == before.(largeBlobs := before.largeBlobs + 1)
    requires typeOf(k) == Purged ==> after == before.(purgedBlobs := before.purgedBlobs + 1)
    ensures forall c :: after.Get(c) + Sum(refs, typeOf, rem - {k}, c) == Sum(refs, typeOf, refs.Keys, c)
  {
    SumStep(refs, typeOf, rem, k);
    CountedStep(before, after, refs, typeOf, k);
  }

  /** The switch's update of the counters for a known entry is `Added`. */
  lemma CountedStep<S>(before: Counts, after: Counts, refs: map<string, map<string, S>>,
                       typeOf: string -> ObjectType, k: string)
    requires k in refs && Known(typeOf(k))
    requires typeOf(k) == Commit ==> after == before.(commits := before.commits + 1)
    requires typeOf(k) == Tree ==> after == before.(trees := before.trees + 1)
    requires typeOf(k) == Blob && |refs[k]| == 0 ==>
               after == before.(blobs := before.blobs + 1, danglingBlobs := before.danglingBlobs + 1)
    requires typeOf(k) == Blob && |refs[k]| != 0 ==>
               after == before.(blobs := before.blobs + 1, blobRefs := before.blobRefs + |refs[k]|)
    requires typeOf(k) == LargeBlob ==> after == before.(largeBlobs := before.largeBlobs + 1)
    requires typeOf(k) == Purged ==> after == before.(purgedBlobs := before.purgedBlobs + 1)
    ensures forall c :: after.Get(c) == before.Get(c) + Contribution(refs, typeOf, k, c)
  {
    AddedGet(before, refs, typeOf, k);
    match typeOf(k)
    case Commit =>
    case Tree =>
    case Blob =>
    case LargeBlob =>
    case Purged =>
  }

  /** Counts that agree with the sums on every counter are the tally. */
  lemma TallyFrom<S>(counts: Counts, refs: map<string, map<string, S>>, typeOf: string -> ObjectType,
                     keys: set<string>)
    requires keys <= refs.Keys
    requires forall c :: counts.Get(c) == Sum(refs, typeOf, keys, c)
    ensures counts == Tally(refs, typeOf, keys)
  {
    assert counts.Get(Commits) == Sum(refs, typeOf, keys, Commits);
    assert counts.Get(Trees) == Sum(refs, typeOf, keys, Trees);
    assert counts.Get(Blobs) == Sum(refs, typeOf, keys, Blobs);
    assert counts.Get(DanglingBlobs) == Sum(refs, typeOf, keys, DanglingBlobs);
    assert counts.Get(BlobRefs) == Sum(refs, typeOf, keys, BlobRefs);
    assert counts.Get(LargeBlobs) == Sum(refs, typeOf, keys, LargeBlobs);
    assert counts.Get(PurgedBlobs) == Sum(refs, typeOf, keys, PurgedBlobs);
  }

  /** The walk's step: the least remaining entry moves into the counters. */
  lemma SumStep<S>(refs: map<string, map<string, S>>, typeOf: string -> ObjectType, rem: set<string>, k: string)
    requires rem <= refs.Keys && IsLeast(k, rem)
    ensures forall c :: Sum(refs, typeOf, rem, c) == Contribution(refs, typeOf, k, c) + Sum(refs, typeOf, rem - {k}, c)
  {
    LeastUnique(k, Least(rem), rem);
  }

  /** Any entry can be taken out first: the sums do not depend on the
      order of the walk. */
  lemma {:induction false} SumRemove<S>(refs: map<string, map<string, S>>, typeOf: string -> ObjectType,
                                       keys: set<string>, k: string, c: Counter)
    requires keys <= refs.Keys && k in keys
    ensures Sum(refs, typeOf, keys, c) == Contribution(refs, typeOf, k, c) + Sum(refs, typeOf, keys - {k}, c)
    decreases keys
  {
    var m := Least(keys);
    if k != m {
      SumRemove(refs, typeOf, keys - {m}, k, c);
      assert m in keys - {k};
      LeastUnique(m, Least(keys - {k}), keys - {k});
      assert keys - {k} - {m} == keys - {m} - {k};
    }
  }

  /** Each known entry increments exactly one type counter, so they add
      up to the number of entries. */
  lemma {:induction false} TallyEntries<S>(refs: map<string, map<string, S>>, typeOf: string -> ObjectType,
                                          keys: set<string>)
    requires keys <= refs.Keys && AllKnown(refs, typeOf, keys)
    ensures Tally(refs, typeOf, keys).Entries() == |keys|
    decreases keys
  {
    if keys != {} {
      var k := Least(keys);
      TallyEntries(refs, typeOf, keys - {k});
      SumStep(refs, typeOf, keys, k);
      EntryCountsOnce(refs, typeOf, k);
      assert |keys - {k}| == |keys| - 1;
    }
  }

  /** A known entry adds one to exactly one type counter. */
  lemma EntryCountsOnce<S>(refs: map<string, map<string, S>>, typeOf: string -> ObjectType, k: string)
    requires k in refs && Known(typeOf(k))
    ensures Contribution(refs, typeOf, k, Commits) + Contribution(refs, typeOf, k, Trees)
            + Contribution(refs, typeOf, k, Blobs) + Contribution(refs, typeOf, k, LargeBlobs)
            + Contribution(refs, typeOf, k, PurgedBlobs) == 1
  {
  }

  /** A dangling blob is a blob, and every other blob has a referrer. */
  lemma {:induction false} TallyBlobs<S>(refs: map<string, map<string, S>>, typeOf: string -> ObjectType,
                                        keys: set<string>)
    requires keys <= refs.Keys
    ensures Tally(refs, typeOf, keys).danglingBlobs <= Tally(refs, typeOf, keys).blobs
    ensures Tally(refs, typeOf, keys).blobs - Tally(refs, typeOf, keys).danglingBlobs
              <= Tally(refs, typeOf, keys).blobRefs
    decreases keys
  {
    if keys != {} {
      TallyBlobs(refs, typeOf, keys - {Least(keys)});
    }
  }

  /** The blobs of `keys` whose referrer map is empty. */
  ghost function Dangling<S>(refs: map<string, map<string, S>>, typeOf: string -> ObjectType,
                             keys: set<string>): set<string>
    requires keys <= refs.Keys
  {
    set k | k in keys && typeOf(k) == Blob && |refs[k]| == 0
  }

  /** The entries of `keys` of type `t`. */
  ghost function OfType(typeOf: string -> ObjectType, keys: set<string>, t: ObjectType): set<string>
  {
    set k | k in keys && typeOf(k) == t
  }

  /** The counter that entries of the known type `t` increment. */
  function CounterOf(t: ObjectType): Counter
    requires Known(t)
  {
    match t
    case Commit => Commits
    case Tree => Trees
    case Blob => Blobs
    case LargeBlob => LargeBlobs
    case Purged => PurgedBlobs
  }

  /** Every counter counts the entries it names. */
  lemma TallyCounts<S>(refs: map<string, map<string, S>>, typeOf: string -> ObjectType, keys: set<string>)
    requires keys <= refs.Keys
    ensures Tally(refs, typeOf, keys).commits == |OfType(typeOf, keys, Commit)|
    ensures Tally(refs, typeOf, keys).trees == |OfType(typeOf, keys, Tree)|
    ensures Tally(refs, typeOf, keys).blobs == |OfType(typeOf, keys, Blob)|
    ensures Tally(refs, typeOf, keys).largeBlobs == |OfType(typeOf, keys, LargeBlob)|
    ensures Tally(refs, typeOf, keys).purgedBlobs == |OfType(typeOf, keys, Purged)|
    ensures Tally(refs, typeOf, keys).danglingBlobs == |Dangling(refs, typeOf, keys)|
  {
    SumOfType(refs, typeOf, keys, Commit);
    SumOfType(refs, typeOf, keys, Tree);
    SumOfType(refs, typeOf, keys, Blob);
    SumOfType(refs, typeOf, keys, LargeBlob);
    SumOfType(refs, typeOf, keys, Purged);
    SumDangling(refs, typeOf, keys);
  }

  lemma {:induction false} SumOfType<S>(refs: map<string, map<string, S>>, typeOf: string -> ObjectType,
                                       keys: set<string>, t: ObjectType)
    requires keys <= refs.Keys && Known(t)
    ensures Sum(refs, typeOf, keys, CounterOf(t)) == |OfType(typeOf, keys, t)|
    decreases keys
  {
    if keys != {} {
      var k := Least(keys);
      SumOfType(refs, typeOf, keys - {k}, t);
      OfTypeStep(typeOf, keys, k, t);
    }
  }

  lemma {:induction false} SumDangling<S>(refs: map<string, map<string, S>>, typeOf: string -> ObjectType,
                                         keys: set<string>)
    requires keys <= refs.Keys
    ensures Sum(refs, typeOf, keys, DanglingBlobs) == |Dangling(refs, typeOf, keys)|
    decreases keys
  {
    if keys != {} {
      var k := Least(keys);
      SumDangling(refs, typeOf, keys - {k});
      DanglingStep(refs, typeOf, keys, k);
    }
  }

  lemma OfTypeStep(typeOf: string -> ObjectType, keys: set<string>, k: string, t: ObjectType)
    requires k in keys
    ensures typeOf(k) == t ==> OfType(typeOf, keys, t) == OfType(typeOf, keys - {k}, t) + {k}
    ensures typeOf(k) != t ==> OfType(typeOf, keys, t) == OfType(typeOf, keys - {k}, t)
    ensures k !in OfType(typeOf, keys - {k}, t)
  {
  }

  lemma DanglingStep<S>(refs: map<string, map<string, S>>, typeOf: string -> ObjectType,
                        keys: set<string>, k: string)
    requires keys <= refs.Keys && k in keys
    ensures typeOf(k) == Blob && |refs[k]| == 0 ==>
              Dangling(refs, typeOf, keys) == Dangling(refs, typeOf, keys - {k}) + {k}
    ensures !(typeOf(k) == Blob && |refs[k]| == 0) ==>
              Dangling(refs, typeOf, keys) == Dangling(refs, typeOf, keys - {k})
    ensures k !in Dangling(refs, typeOf, keys - {k})
  {
  }

  /** An entry that is not a blob leaves the dangling-blob and blob-reference
      counters as they were. */
  lemma NonBlobNeutral<S>(refs: map<string, map<string, S>>, typeOf: string -> ObjectType,
                          keys: set<string>, k: string)
    requires keys <= refs.Keys && k in keys && typeOf(k) != Blob
    ensures Tally(refs, typeOf, keys).danglingBlobs == Tally(refs, typeOf, keys - {k}).danglingBlobs
    ensures Tally(refs, typeOf, keys).blobRefs == Tally(refs, typeOf, keys - {k}).blobRefs
  {
    SumRemove(refs, typeOf, keys, k, DanglingBlobs);
    SumRemove(refs, typeOf, keys, k, BlobRefs);
  }

  /** A blob with referrers adds the size of its referrer map to the blob
      references and leaves the dangling blobs as they were. */
  lemma ReferencedBlob<S>(refs: map<string, map<string, S>>, typeOf: string -> ObjectType,
                          keys: set<string>, k: string)
    requires keys <= refs.Keys && k in keys && typeOf(k) == Blob && |refs[k]| > 0
    ensures Tally(refs, typeOf, keys).blobRefs == Tally(refs, typeOf, keys - {k}).blobRefs + |refs[k]|
    ensures Tally(refs, typeOf, keys).danglingBlobs == Tally(refs, typeOf, keys - {k}).danglingBlobs
  {
    SumRemove(refs, typeOf, keys, k, DanglingBlobs);
    SumRemove(refs, typeOf, keys, k, BlobRefs);
  }
}
