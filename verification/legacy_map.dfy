/** The legacy feature map. It parses lists only (its `reduceToBitmask`
    declares an array parameter), has no missing-slug callback, and its
    `enabled` takes the cohort as an already-shifted mask. */
module LegacyMaps {
  import opened Php
  import opened Masks
  import opened Slugs
  import opened FeatureMaps
  import opened Features

  /** The TypeError of the typed `$list` parameter (PHP appends the type
      it was given, which the model leaves off). */
  const NotAList := "Zumba\\Swivel\\Feature\\Map::reduceToBitmask(): Argument #1 ($list) must be of type array"

  /** `reduceToBitmask(array $list)`: anything but a list is a TypeError. */
  function ReduceEntry(e: RawEntry): (r: Result<Option<Mask>>)
    ensures e.Reduced? ==> r == Err(TypeError(NotAList))
    ensures e.Indices? ==> r == ReduceToBitmask(e.list)
  {
    match e
    case Indices(list) => ReduceToBitmask(list)
    case Reduced(_) => Err(TypeError(NotAList))
  }

  /** `parse`: keep the keys and reduce every list. An entry that is not a
      list raises the TypeError; otherwise a negative index raises the
      ArithmeticError. */
  function Parse(raw: map<string, RawEntry>): (r: Result<Table>)
    ensures r.Ok? <==> forall k :: k in raw ==> raw[k].Indices? && PositiveIndices(raw[k].list)
    ensures r.Ok? ==> r.value.Keys == raw.Keys
    ensures r.Ok? ==> forall k, c :: k in raw && 1 <= c <= WordSize ==> (Has(r.value[k], c) <==> c in raw[k].list)
    ensures r.Ok? ==> forall k :: k in raw ==> (r.value[k].None? <==> raw[k].list == [])
    ensures r.Ok? ==> r == FeatureMaps.Parse(raw)
    ensures (exists k :: k in raw && raw[k].Reduced?) ==> r == Err(TypeError(NotAList))
  {
    if exists k :: k in raw && raw[k].Reduced? then Err(TypeError(NotAList))
    else if forall k :: k in raw ==> PositiveIndices(raw[k].list) then
      var t := map k | k in raw :: ReduceEntry(raw[k]).value;
      assert forall k :: k in raw ==> t[k] == FeatureMaps.ReduceEntry(raw[k]).value;
      assert FeatureMaps.Parse(raw).value == t;
      Ok(t)
    else Err(ArithmeticError(ShiftByNegative))
  }

  /** The loop of legacy `enabled`: the first key that is missing or does
      not share a bit with the index mask ends the walk with false. */
  function Walk(t: Table, segs: seq<string>, key: string, index: Mask): (r: bool)
    ensures segs == [] ==> r
    decreases |segs|
  {
    if segs == [] then true
    else
      var k := NextKey(key, segs[0]);
      if !On(t, k, index) then false else Walk(t, segs[1..], k, index)
  }

  /** `enabled($slug, $index)` with `$index` a mask. */
  function Enabled(t: Table, slug: string, index: Mask): (r: bool)
    ensures r == FeatureMaps.Walk(t, slug, Split(slug), "", index).enabled
  {
    WalkAgrees(t, slug, Split(slug), "", index);
    Walk(t, Split(slug), "", index)
  }

  /** The legacy walk answers as the current walk does, given the mask the
      current code shifts from its cohort index. */
  lemma {:induction false} WalkAgrees(t: Table, slug: string, segs: seq<string>, key: string, index: Mask)
    ensures Walk(t, segs, key, index) == FeatureMaps.Walk(t, slug, segs, key, index).enabled
    decreases |segs|
  {
    if segs != [] {
      WalkAgrees(t, slug, segs[1..], NextKey(key, segs[0]), index);
    }
  }

  /** A well-rooted slug is enabled for a mask iff every dotted prefix is
      present and shares a bit with the mask. */
  lemma EnabledIsHierarchicalAnd(t: Table, slug: string, index: Mask)
    requires WellRooted(Split(slug))
    ensures Enabled(t, slug, index) <==>
      forall k :: 1 <= k <= |Split(slug)| ==> On(t, Prefix(Split(slug), k), index)
  {
    WalkIsHierarchicalAnd(t, slug, index);
  }

  /** An ancestor whose mask is OFF disables the slug, however its own
      entry reads; so does a slug that is missing itself. */
  lemma OffOrMissingDisables(t: Table, slug: string, index: Mask, k: nat)
    requires WellRooted(Split(slug))
    requires 1 <= k <= |Split(slug)|
    requires var p := Prefix(Split(slug), k);
      p !in t || t[p] == Some(Off)
    ensures !Enabled(t, slug, index)
  {
    EnabledIsHierarchicalAnd(t, slug, index);
    assert !On(t, Prefix(Split(slug), k), index);
  }
}
