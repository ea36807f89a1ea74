/** Truth values with versions, and their merge (opencog/atomspace/CompositeTruthValue.cc). */
module CompositeTruthValues {
  import opened Wrappers
  import opened Handles

  /** A truth value other than the null one. */
  datatype TruthValue = TruthValue(mean: real, count: real, confidence: real)

  const DEFAULT_TV := TruthValue(0.0, 0.0, 0.0)

  datatype VersionHandle = VersionHandle(indicator: nat, substantive: Handle)

  type Versions = map<VersionHandle, TruthValue>

  /** A composite truth value as a value. */
  datatype Composite = Composite(primary: TruthValue, versions: Versions)

  /** The more confident of two values; on a tie the first. */
  function Better(a: TruthValue, b: TruthValue): TruthValue {
    if b.confidence > a.confidence then b else a
  }

  /** What a merge gives at one key. */
  ghost function MergedAt(x: Versions, y: Versions, k: VersionHandle): TruthValue
    requires k in x || k in y
  {
    if k in x && k in y then Better(x[k], y[k]) else if k in x then x[k] else y[k]
  }

  ghost function MergedVersions(x: Versions, y: Versions): Versions {
    map k | k in x.Keys + y.Keys :: MergedAt(x, y, k)
  }

  ghost function Merged(x: Composite, y: Composite): Composite {
    Composite(Better(x.primary, y.primary), MergedVersions(x.versions, y.versions))
  }

  lemma BetterAssociative(a: TruthValue, b: TruthValue, c: TruthValue)
    ensures Better(Better(a, b), c) == Better(a, Better(b, c))
  {
  }

  lemma MergedAssociative(x: Composite, y: Composite, z: Composite)
    ensures Merged(Merged(x, y), z) == Merged(x, Merged(y, z))
  {
    BetterAssociative(x.primary, y.primary, z.primary);
    var l, r := Merged(Merged(x, y), z).versions, Merged(x, Merged(y, z)).versions;
    forall k | k in l ensures k in r && l[k] == r[k] {
      if k in x.versions && k in y.versions && k in z.versions {
        BetterAssociative(x.versions[k], y.versions[k], z.versions[k]);
      }
    }
    assert forall k :: k in r ==> k in l;
    assert l == r;
  }

  lemma MergedIdempotent(x: Composite)
    ensures Merged(x, x) == x
  {
    assert MergedVersions(x.versions, x.versions) == x.versions;
  }

  /** The versions are those of either value, and none is less confident than before. */
  lemma MergedIsBest(x: Composite, y: Composite)
    ensures Merged(x, y).versions.Keys == x.versions.Keys + y.versions.Keys
    ensures forall k :: k in x.versions ==> Merged(x, y).versions[k].confidence >= x.versions[k].confidence
    ensures forall k :: k in y.versions ==> Merged(x, y).versions[k].confidence >= y.versions[k].confidence
    ensures forall k :: k in Merged(x, y).versions ==>
      || (k in x.versions && Merged(x, y).versions[k] == x.versions[k])
      || (k in y.versions && Merged(x, y).versions[k] == y.versions[k])
  {
  }

  /** What merging `x` with `y` is to give: the more confident value everywhere, and on a tie that of `x`,
      whose merge it is. */
  ghost predicate KeepsMostConfident(x: Composite, y: Composite, z: Composite) {
    && z.versions.Keys == x.versions.Keys + y.versions.Keys
    && (forall k :: k in x.versions && (k in y.versions ==> y.versions[k].confidence <= x.versions[k].confidence) ==>
          z.versions[k] == x.versions[k])
    && (forall k :: k in y.versions && (k in x.versions ==> x.versions[k].confidence < y.versions[k].confidence) ==>
          z.versions[k] == y.versions[k])
    && (y.primary.confidence <= x.primary.confidence ==> z.primary == x.primary)
    && (x.primary.confidence < y.primary.confidence ==> z.primary == y.primary)
  }

  lemma OnlyMergeKeeps(x: Composite, y: Composite, z: Composite)
    ensures KeepsMostConfident(x, y, z) <==> z == Merged(x, y)
  {
    if KeepsMostConfident(x, y, z) {
      forall k | k in z.versions ensures k in Merged(x, y).versions && z.versions[k] == Merged(x, y).versions[k] {
        assert k in x.versions.Keys + y.versions.Keys;
      }
      assert forall k :: k in Merged(x, y).versions ==> k in z.versions.Keys;
      assert z.versions == Merged(x, y).versions;
    }
  }

  /** Two values that are equally confident are equal. */
  ghost predicate NoConflict(x: Composite, y: Composite) {
    && (x.primary.confidence == y.primary.confidence ==> x.primary == y.primary)
    && forall k :: k in x.versions && k in y.versions && x.versions[k].confidence == y.versions[k].confidence ==>
         x.versions[k] == y.versions[k]
  }

  /** The order of merging matters exactly if there is a tie between different values. */
  lemma MergedCommutes(x: Composite, y: Composite)
    ensures Merged(x, y) == Merged(y, x) <==> NoConflict(x, y)
  {
    var l, r := Merged(x, y).versions, Merged(y, x).versions;
    if NoConflict(x, y) {
      forall k | k in l ensures k in r && l[k] == r[k] {
      }
      assert l == r;
    } else if Merged(x, y) == Merged(y, x) {
      forall k | k in x.versions && k in y.versions && x.versions[k].confidence == y.versions[k].confidence
        ensures x.versions[k] == y.versions[k]
      {
        assert l[k] == x.versions[k] && r[k] == y.versions[k];
      }
    }
  }

  class CompositeTruthValue {
    var primaryTV: TruthValue
    var versionedTVs: Versions

    constructor (primary: TruthValue, versions: Versions)
      ensures Value() == Composite(primary, versions)
    {
      primaryTV, versionedTVs := primary, versions;
    }

    function Value(): Composite
      reads this
    {
      Composite(primaryTV, versionedTVs)
    }

    /** Keeps the more confident value for the primary value and every version. */
    method Merge(other: CompositeTruthValue) returns (result: CompositeTruthValue)
      ensures fresh(result) && KeepsMostConfident(Value(), other.Value(), result.Value())
      ensures result.Value() == Merged(Value(), other.Value())
    {
      result := new CompositeTruthValue(primaryTV, versionedTVs);
      if other.primaryTV.confidence > result.primaryTV.confidence {
        result.primaryTV := other.primaryTV;
      }
      // The versions that both have.
      var keys := result.versionedTVs.Keys;
      while keys != {}
        invariant fresh(result) && keys <= versionedTVs.Keys && result.primaryTV == Better(primaryTV, other.primaryTV)
        invariant result.versionedTVs.Keys == versionedTVs.Keys
        invariant forall k :: k in versionedTVs && k in keys ==> result.versionedTVs[k] == versionedTVs[k]
        invariant forall k :: k in versionedTVs && k !in keys ==>
          result.versionedTVs[k] == MergedAt(versionedTVs, other.versionedTVs, k)
        decreases keys
      {
        var k :| k in keys;
        keys := keys - {k};
        if k in other.versionedTVs && other.versionedTVs[k].confidence > result.versionedTVs[k].confidence {
          result.versionedTVs := result.versionedTVs[k := other.versionedTVs[k]];
        }
      }
      // The versions that only the other value has.
      keys := other.versionedTVs.Keys;
      while keys != {}
        invariant fresh(result) && keys <= other.versionedTVs.Keys
        invariant result.primaryTV == Better(primaryTV, other.primaryTV)
        invariant result.versionedTVs.Keys == versionedTVs.Keys + (other.versionedTVs.Keys - keys)
        invariant forall k :: k in result.versionedTVs ==>
          result.versionedTVs[k] == MergedAt(versionedTVs, other.versionedTVs, k)
        decreases keys
      {
        var k :| k in keys;
        keys := keys - {k};
        if k !in result.versionedTVs {
          result.versionedTVs := result.versionedTVs[k := other.versionedTVs[k]];
        }
      }
      assert result.versionedTVs == MergedVersions(versionedTVs, other.versionedTVs);
      OnlyMergeKeeps(Value(), other.Value(), result.Value());
    }

    /** A value without versions can only replace the primary value. */
    method MergeSimple(other: TruthValue) returns (result: CompositeTruthValue)
      ensures fresh(result) && result.versionedTVs == versionedTVs
      ensures result.primaryTV == if primaryTV.confidence < other.confidence then other else primaryTV
      ensures result.Value() == Merged(Value(), Composite(other, map[]))
    {
      result := new CompositeTruthValue(primaryTV, versionedTVs);
      if other.confidence > result.primaryTV.confidence {
        result.primaryTV := other;
      }
      assert MergedVersions(versionedTVs, map[]) == versionedTVs;
    }

    /** Sets a version, or the primary value if the version handle is null. The null truth value stands
        for the default, of which nothing is known. */
    method SetVersionedTV(tv: Option<TruthValue>, vh: VersionHandle, valid: set<Handle>)
      modifies this
      ensures var new_ := if tv.None? then TruthValue(0.0, 0.0, 0.0) else tv.value;
        Value() ==
          if vh in old(versionedTVs) || vh.substantive in valid
          then Composite(old(primaryTV), old(versionedTVs)[vh := new_]) else Composite(new_, old(versionedTVs))
    {
      var newTv := if tv.None? then DEFAULT_TV else tv.value;
      if vh !in versionedTVs {
        if vh.substantive in valid {
          versionedTVs := versionedTVs[vh := newTv];
        } else {
          primaryTV := newTv;
        }
      } else {
        versionedTVs := versionedTVs[vh := newTv];
      }
    }

    function GetVersionedTV(vh: VersionHandle, valid: set<Handle>): Option<TruthValue>
      reads this
    {
      if vh.substantive in valid then if vh in versionedTVs then Some(versionedTVs[vh]) else None
      else Some(primaryTV)
    }
  }

  /** What was set is found again, except in a version that was set before its handle became invalid. */
  method SetThenGet(c: CompositeTruthValue, tv: TruthValue, vh: VersionHandle, valid: set<Handle>)
    returns (r: Option<TruthValue>)
    modifies c
    ensures r == Some(tv) <==> (vh.substantive in valid || vh !in old(c.versionedTVs) || old(c.primaryTV) == tv)
  {
    c.SetVersionedTV(Some(tv), vh, valid);
    r := c.GetVersionedTV(vh, valid);
  }

  /** Setting one version leaves what is read for the others alone, unless it set the primary value, which
      is read for every version whose handle is not valid. */
  method SetThenGetOther(c: CompositeTruthValue, tv: TruthValue, vh: VersionHandle, other: VersionHandle,
                         valid: set<Handle>)
    returns (before: Option<TruthValue>, after: Option<TruthValue>)
    requires other != vh
    modifies c
    ensures before == after <==>
      || other.substantive in valid || vh.substantive in valid || vh in old(c.versionedTVs) || old(c.primaryTV) == tv
  {
    before := c.GetVersionedTV(other, valid);
    c.SetVersionedTV(Some(tv), vh, valid);
    after := c.GetVersionedTV(other, valid);
  }

  /** Reading a version of a merge is reading it from both: it is there if one of them has it, and then it is
      what the more confident one has. */
  method MergeThenGet(c: CompositeTruthValue, other: CompositeTruthValue, vh: VersionHandle, valid: set<Handle>)
    returns (l: Option<TruthValue>, r: Option<TruthValue>, merged: Option<TruthValue>)
    ensures merged.None? <==> l.None? && r.None?
    ensures l.Some? && (r.Some? ==> r.value.confidence <= l.value.confidence) ==> merged == l
    ensures r.Some? && (l.Some? ==> l.value.confidence < r.value.confidence) ==> merged == r
    ensures vh.substantive in valid ==> (l.Some? <==> vh in c.versionedTVs) && (r.Some? <==> vh in other.versionedTVs)
  {
    l := c.GetVersionedTV(vh, valid);
    r := other.GetVersionedTV(vh, valid);
    var result := c.Merge(other);
    merged := result.GetVersionedTV(vh, valid);
  }
}
