/** The user's bucket: a feature map and the user's cohort index. It answers
    whether a behavior is enabled, first calling its own missing-slug
    callback when the behavior's slug is not a key of the map. The random
    draw that replaces a missing index is a parameter here. */
module Buckets {
  import opened Php
  import opened Masks
  import opened Slugs
  import opened FeatureMaps
  import opened Behaviors

  /** The ten ordinal cohort masks and their union. */
  const First: Mask := {0}
  const Second: Mask := {1}
  const Third: Mask := {2}
  const Fourth: Mask := {3}
  const Fifth: Mask := {4}
  const Sixth: Mask := {5}
  const Seventh: Mask := {6}
  const Eighth: Mask := {7}
  const Ninth: Mask := {8}
  const Tenth: Mask := {9}
  const All: Mask := {0, 1, 2, 3, 4, 5, 6, 7, 8, 9}

  /** The k-th ordinal constant, k in 1..10. */
  function Ordinal(k: int): (r: Mask)
    requires 1 <= k <= 10
    ensures |r| == 1
  {
    [First, Second, Third, Fourth, Fifth, Sixth, Seventh, Eighth, Ninth, Tenth][k - 1]
  }

  /** The k-th ordinal is the mask of cohort k, `1 << (k - 1)`. */
  lemma OrdinalIsCohortBit(k: int)
    requires 1 <= k <= 10
    ensures CohortBit(k) == Ok(Ordinal(k))
  {
  }

  /** The k-th ordinal is the integer 2^(k-1). */
  lemma OrdinalValue(k: int)
    requires 1 <= k <= 10
    ensures IntValue(Ordinal(k)) == Pow2(k - 1)
  {
    var m := Ordinal(k);
    assert m == {(k - 1) as nat};
    ValueBelowSaturates(m, k, WordSize - 1);
    ValueBelowVanishes(m, k - 1);
  }

  /** The low n bits of ALL are all ones. */
  lemma {:induction false} AllBelow(n: nat)
    requires n <= 10
    ensures ValueBelow(All, n) == Pow2(n) - 1
  {
    if n > 0 {
      AllBelow(n - 1);
      assert n - 1 in All;
    }
  }

  /** ALL is the union of the ten ordinals. */
  lemma AllIsUnionOfOrdinals()
    ensures All == First + Second + Third + Fourth + Fifth + Sixth + Seventh + Eighth + Ninth + Tenth
  {
  }

  /** ALL is the integer 1023. */
  lemma AllValue()
    ensures IntValue(All) == 1023
  {
    ValueBelowSaturates(All, 10, WordSize - 1);
    AllBelow(10);
  }

  datatype Bucket = Bucket(features: FeatureMap, index: int)

  /** The constructor: a truthy index is kept as given; a falsy one (null
      or 0) is replaced by the random draw, an integer in 1..10. */
  function NewBucket(features: FeatureMap, index: Option<int>, draw: int): (r: Bucket)
    requires 1 <= draw <= 10
    ensures r.features == features
    ensures index.Some? && index.value != 0 ==> r.index == index.value
    ensures index.None? || index.value == 0 ==> 1 <= r.index <= 10 && r.index == draw
  {
    if index.Some? && index.value != 0 then Bucket(features, index.value) else Bucket(features, draw)
  }

  /** `getIndex`. */
  function GetIndex(b: Bucket): (r: int)
    ensures forall m, i, d :: 1 <= d <= 10 && i != 0 && b == NewBucket(m, Some(i), d) ==> r == i
  {
    b.index
  }

  /** `slugExists`: the slug is a key of the map, whatever its mask. */
  predicate SlugExists(m: FeatureMap, slug: string)
  {
    slug in m.table
  }

  /** `enabled($behavior)`: the map's answer for the behavior's slug and the
      bucket's index, preceded by a call of the bucket's callback when the
      slug is not a key of the map. */
  function Enabled(b: Bucket, behavior: Behavior): (r: Result<Verdict>)
    ensures r.Ok? <==> FeatureMaps.Enabled(b.features, behavior.slug, b.index).Ok?
    ensures r.Err? ==> r.error == FeatureMaps.Enabled(b.features, behavior.slug, b.index).error
    ensures r.Ok? ==> r.value.enabled == FeatureMaps.Enabled(b.features, behavior.slug, b.index).value.enabled
    ensures r.Ok? ==> (r.value.notices ==
      (if SlugExists(b.features, behavior.slug) then [] else [BucketMissing(behavior.slug)]) +
      FeatureMaps.Enabled(b.features, behavior.slug, b.index).value.notices)
  {
    var slug := behavior.slug;
    var before := if SlugExists(b.features, slug) then [] else [BucketMissing(slug)];
    var v :- FeatureMaps.Enabled(b.features, slug, b.index);
    Ok(Verdict(v.enabled, before + v.notices))
  }

  /** A slug that is not a key of the map fires both callbacks, the bucket's
      and then the map's, when its ancestors are all on: the walk reaches
      the slug itself and finds it missing. */
  lemma AbsentSlugNotifiesTwice(b: Bucket, behavior: Behavior)
    requires 1 <= b.index && b.features.hooked
    requires WellRooted(Split(behavior.slug))
    requires !SlugExists(b.features, behavior.slug)
    requires var segs := Split(behavior.slug);
      forall k :: 1 <= k < |segs| ==> On(b.features.table, Prefix(segs, k), CohortBit(b.index).value)
    ensures Enabled(b, behavior) ==
      Ok(Verdict(false, [BucketMissing(behavior.slug), MapMissing(behavior.slug)]))
  {
    var slug := behavior.slug;
    var segs := Split(slug);
    var bit := CohortBit(b.index).value;
    JoinSplit(slug);
    assert segs[..|segs|] == segs;
    var n := |segs|;
    assert !Present(b.features.table, Prefix(segs, n));
    assert forall j :: 1 <= j < n ==> On(b.features.table, Prefix(segs, j), bit);
    WalkIsHierarchicalAnd(b.features.table, slug, bit);
    assert Walk(b.features.table, slug, segs, "", bit).notices == [MapMissing(slug)];
    assert FeatureMaps.Enabled(b.features, slug, b.index) == Ok(Walk(b.features.table, slug, segs, "", bit));
    assert [BucketMissing(slug)] + [MapMissing(slug)] == [BucketMissing(slug), MapMissing(slug)];
  }
}
