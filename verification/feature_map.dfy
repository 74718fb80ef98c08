/** The bitmask feature map: a table from slugs to cohort masks, built by
    parsing `slug => [cohort indices]`, queried by the dotted-prefix walk of
    `enabled`, and combined by `merge`, `add`, `intersect` and `diff`.

    A parsed entry is PHP null (an empty index list reduces to null, and an
    already-reduced null passes through) or an integer mask. The map also
    holds the missing-slug callback; a map built by the constructor or by one
    of the combining operations has none until `setCallback` installs one,
    and PHP 8's `call_user_func(null, ...)` then raises a TypeError. A call of
    the callback is recorded as a Notice carrying the slug it was given. */
module FeatureMaps {
  import opened Php
  import opened Masks
  import opened Slugs

  /** The parsed map data: slug to mask, or to null. */
  type Table = map<string, Option<Mask>>

  /** An entry of a human-readable map: a list of cohort indices, or a value
      that is not a list (an integer mask or null) and passes through. */
  datatype RawEntry = Indices(list: seq<int>) | Reduced(mask: Option<Mask>)

  /** A feature map: its parsed data and whether a callback is installed. */
  datatype FeatureMap = FeatureMap(table: Table, hooked: bool)

  /** A call of a missing-slug callback, with the slug it received. */
  datatype Notice = MapMissing(slug: string) | BucketMissing(slug: string)

  /** The outcome of `enabled`: the answer and the callback calls made. */
  datatype Verdict = Verdict(enabled: bool, notices: seq<Notice>)

  const UncallableCallback := "call_user_func(): Argument #1 ($callback) must be a valid callback, no array or string given"

  /** `isset($map[$key])`: the key is present with a non-null mask. */
  predicate Present(t: Table, key: string)
  {
    key in t && t[key].Some?
  }

  /** The key is present and its mask shares a bit with `bit`. */
  predicate On(t: Table, key: string, bit: Mask)
  {
    Present(t, key) && t[key].value * bit != Zero
  }

  // ---------------------------------------------------------------- parse

  /** `reduceToBitmask` on one entry: lists are folded, anything else is
      returned as it is. */
  function ReduceEntry(e: RawEntry): (r: Result<Option<Mask>>)
    ensures e.Reduced? ==> r == Ok(e.mask)
    ensures e.Indices? ==> (r.Ok? <==> PositiveIndices(e.list))
  {
    match e
    case Indices(list) => ReduceToBitmask(list)
    case Reduced(m) => Ok(m)
  }

  /** Every list of the raw map is acceptable to the shift. */
  predicate Reducible(raw: map<string, RawEntry>)
  {
    forall k :: k in raw ==> ReduceEntry(raw[k]).Ok?
  }

  /** `parse`: keep the keys and reduce every entry. A cohort index below 1
      makes the shift raise, whichever entry it is in. */
  function Parse(raw: map<string, RawEntry>): (r: Result<Table>)
    ensures r.Ok? <==> forall k :: k in raw && raw[k].Indices? ==> PositiveIndices(raw[k].list)
    ensures r.Err? ==> r.error == ArithmeticError(ShiftByNegative)
    ensures r.Ok? ==> r.value.Keys == raw.Keys
    ensures r.Ok? ==> forall k :: k in raw && raw[k].Reduced? ==> r.value[k] == raw[k].mask
    ensures r.Ok? ==> forall k :: k in raw && raw[k].Indices? ==> (r.value[k].None? <==> raw[k].list == [])
    ensures r.Ok? ==> forall k, c :: k in raw && raw[k].Indices? && 1 <= c <= WordSize ==>
      (Has(r.value[k], c) <==> c in raw[k].list)
  {
    if Reducible(raw) then Ok(map k | k in raw :: ReduceEntry(raw[k]).value)
    else Err(ArithmeticError(ShiftByNegative))
  }

  /** A parsed table seen as a raw map of already-reduced entries. */
  function Lift(t: Table): (raw: map<string, RawEntry>)
    ensures raw.Keys == t.Keys
    ensures forall k :: k in raw ==> raw[k] == Reduced(t[k])
  {
    map k | k in t :: Reduced(t[k])
  }

  /** Parsing parsed data again gives it back: this is what lets the
      combining operations rebuild their result with `new self($data)`. */
  lemma ParseIdempotent(raw: map<string, RawEntry>)
    requires Parse(raw).Ok?
    ensures Parse(Lift(Parse(raw).value)) == Parse(raw)
  {
    var t := Parse(raw).value;
    assert Parse(Lift(t)).value == t;
  }

  /** The constructor: parse the raw map; no callback is installed. */
  function Construct(raw: map<string, RawEntry>): (r: Result<FeatureMap>)
    ensures r.Ok? <==> Parse(raw).Ok?
    ensures r.Ok? ==> r.value.table == Parse(raw).value && !r.value.hooked
  {
    var t :- Parse(raw);
    Ok(FeatureMap(t, false))
  }

  /** `setCallback`: install a callback, leaving the data alone. */
  function SetCallback(m: FeatureMap): (r: FeatureMap)
    ensures r.hooked && r.table == m.table
  {
    m.(hooked := true)
  }

  /** `new self($data)` on data that is already parsed. */
  function Rebuilt(t: Table): (r: FeatureMap)
    ensures Construct(Lift(t)) == Ok(r)
  {
    assert Parse(Lift(t)).value == t;
    FeatureMap(t, false)
  }

  // -------------------------------------------------------------- enabled

  /** The key the loop forms for the next segment: the segment itself while
      the accumulated key is `empty()`, the key plus ".segment" after. */
  function NextKey(key: string, segment: string): string
  {
    if EmptyString(key) then segment else key + [Delimiter] + segment
  }

  /** The loop of `enabled` over the remaining segments, from the key formed
      so far. The first missing key calls the callback with the whole slug
      and ends the walk; a key whose mask misses the cohort bit ends it
      silently. */
  function Walk(t: Table, slug: string, segs: seq<string>, key: string, bit: Mask): (r: Verdict)
    ensures r.notices == [] || r.notices == [MapMissing(slug)]
    ensures r.enabled ==> r.notices == []
    ensures segs == [] ==> r.enabled
    decreases |segs|
  {
    if segs == [] then Verdict(true, [])
    else
      var k := NextKey(key, segs[0]);
      if !Present(t, k) then Verdict(false, [MapMissing(slug)])
      else if t[k].value * bit == Zero then Verdict(false, [])
      else Walk(t, slug, segs[1..], k, bit)
  }

  /** `enabled($slug, $index)`: shift the cohort bit, then walk the dotted
      prefixes of the slug. */
  function Enabled(m: FeatureMap, slug: string, index: int): (r: Result<Verdict>)
    ensures r.Err? <==> (index < 1 || (!m.hooked &&
      Walk(m.table, slug, Split(slug), "", CohortBit(index).value).notices != []))
    ensures r.Err? && index < 1 ==> r.error == ArithmeticError(ShiftByNegative)
    ensures r.Err? && index >= 1 ==> r.error == TypeError(UncallableCallback)
    ensures r.Ok? ==> r.value == Walk(m.table, slug, Split(slug), "", CohortBit(index).value)
  {
    var bit :- CohortBit(index);
    var v := Walk(m.table, slug, Split(slug), "", bit);
    if v.notices != [] && !m.hooked then Err(TypeError(UncallableCallback)) else Ok(v)
  }

  /** Every prefix of `segs` from the i-th on is on. */
  predicate PrefixesOnFrom(t: Table, segs: seq<string>, i: nat, bit: Mask)
    requires i <= |segs|
  {
    forall k :: i < k <= |segs| ==> On(t, Prefix(segs, k), bit)
  }

  /** Some prefix from the (i+1)-th on is the first one that is not on, and
      it is missing rather than disabled. */
  predicate FirstFailureMissingFrom(t: Table, segs: seq<string>, i: nat, bit: Mask)
    requires i <= |segs|
  {
    exists k :: i < k <= |segs| && !Present(t, Prefix(segs, k)) &&
      forall j :: i < j < k ==> On(t, Prefix(segs, j), bit)
  }

  /** A slug whose first segment the loop keeps: `empty()` is false for it,
      so every later key extends the previous one. */
  predicate WellRooted(segs: seq<string>)
  {
    |segs| >= 1 && !EmptyString(segs[0])
  }

  /** The walk from the i-th prefix is the conjunction of the later
      prefixes, and it calls the callback iff its first failure is a
      missing key. */
  lemma {:induction false} WalkFrom(t: Table, slug: string, segs: seq<string>, i: nat, bit: Mask)
    requires WellRooted(segs)
    requires 1 <= i <= |segs|
    ensures Walk(t, slug, segs[i..], Prefix(segs, i), bit).enabled <==> PrefixesOnFrom(t, segs, i, bit)
    ensures Walk(t, slug, segs[i..], Prefix(segs, i), bit).notices == [MapMissing(slug)] <==>
      FirstFailureMissingFrom(t, segs, i, bit)
    decreases |segs| - i
  {
    var key := Prefix(segs, i);
    if i == |segs| {
      assert segs[i..] == [];
    } else {
      assert !EmptyString(key) by {
        if i == 1 {
          assert segs[..1] == [segs[0]];
        } else {
          JoinOfManyHasDelimiter(segs[..i]);
        }
      }
      PrefixStep(segs, i);
      assert NextKey(key, segs[i]) == Prefix(segs, i + 1);
      assert segs[i..][1..] == segs[i + 1..];
      WalkFrom(t, slug, segs, i + 1, bit);
      if !Present(t, Prefix(segs, i + 1)) {
        assert !PrefixesOnFrom(t, segs, i, bit);
        assert FirstFailureMissingFrom(t, segs, i, bit);
      } else if !On(t, Prefix(segs, i + 1), bit) {
        assert !PrefixesOnFrom(t, segs, i, bit);
        forall k | i < k <= |segs| && !Present(t, Prefix(segs, k))
          ensures !(forall j :: i < j < k ==> On(t, Prefix(segs, j), bit))
        {
          assert i < i + 1 < k;
        }
      } else {
        if FirstFailureMissingFrom(t, segs, i, bit) {
          var k :| i < k <= |segs| && !Present(t, Prefix(segs, k)) &&
            forall j :: i < j < k ==> On(t, Prefix(segs, j), bit);
          assert k != i + 1;
          assert FirstFailureMissingFrom(t, segs, i + 1, bit);
        }
        if FirstFailureMissingFrom(t, segs, i + 1, bit) {
          var k :| i + 1 < k <= |segs| && !Present(t, Prefix(segs, k)) &&
            forall j :: i + 1 < j < k ==> On(t, Prefix(segs, j), bit);
          assert forall j :: i < j < k ==> On(t, Prefix(segs, j), bit);
        }
      }
    }
  }

  /** The hierarchical AND: a well-rooted slug is enabled for a cohort iff
      every dotted prefix ("A", "A.B", "A.B.C", ...) is present with the
      cohort's bit set, and the callback fires, once and with the full slug,
      iff the first prefix that fails is missing rather than disabled. */
  lemma WalkIsHierarchicalAnd(t: Table, slug: string, bit: Mask)
    requires WellRooted(Split(slug))
    ensures var segs := Split(slug);
      Walk(t, slug, segs, "", bit).enabled <==> forall k :: 1 <= k <= |segs| ==> On(t, Prefix(segs, k), bit)
    ensures var segs := Split(slug);
      Walk(t, slug, segs, "", bit).notices == [MapMissing(slug)] <==>
      exists k :: 1 <= k <= |segs| && !Present(t, Prefix(segs, k)) &&
        forall j :: 1 <= j < k ==> On(t, Prefix(segs, j), bit)
  {
    var segs := Split(slug);
    assert segs[..1] == [segs[0]];
    assert NextKey("", segs[0]) == Prefix(segs, 1);
    assert segs[1..] == segs[..][1..];
    WalkFrom(t, slug, segs, 1, bit);
    if !Present(t, Prefix(segs, 1)) {
      assert !(forall k :: 1 <= k <= |segs| ==> On(t, Prefix(segs, k), bit));
    } else if !On(t, Prefix(segs, 1), bit) {
      assert !(forall k :: 1 <= k <= |segs| ==> On(t, Prefix(segs, k), bit));
    } else {
      if FirstFailureMissingFrom(t, segs, 1, bit) {
        var k :| 1 < k <= |segs| && !Present(t, Prefix(segs, k)) &&
          forall j :: 1 < j < k ==> On(t, Prefix(segs, j), bit);
        assert forall j :: 1 <= j < k ==> On(t, Prefix(segs, j), bit);
      }
    }
  }

  /** For a cohort 1..64 the hierarchical AND reads "every prefix has the
      cohort"; for a larger index the shift gives 0 and nothing is enabled. */
  lemma EnabledForCohort(m: FeatureMap, slug: string, index: int)
    requires index >= 1
    requires WellRooted(Split(slug))
    requires Enabled(m, slug, index).Ok?
    ensures var segs := Split(slug);
      index <= WordSize ==>
        (Enabled(m, slug, index).value.enabled <==>
         forall k :: 1 <= k <= |segs| ==> Present(m.table, Prefix(segs, k)) && Has(m.table[Prefix(segs, k)], index))
    ensures index > WordSize ==> !Enabled(m, slug, index).value.enabled
  {
    var segs := Split(slug);
    var bit := CohortBit(index).value;
    WalkIsHierarchicalAnd(m.table, slug, bit);
    if index <= WordSize {
      assert bit == {(index - 1) as nat};
      forall k | 1 <= k <= |segs|
        ensures On(m.table, Prefix(segs, k), bit) <==>
          Present(m.table, Prefix(segs, k)) && Has(m.table[Prefix(segs, k)], index)
      {
        if Present(m.table, Prefix(segs, k)) {
          CohortBitTest(m.table[Prefix(segs, k)].value, index);
        }
      }
    } else {
      assert !On(m.table, Prefix(segs, 1), bit);
    }
  }

  /** An enabled slug has every ancestor enabled: turning a parent off
      turns off all of its children. */
  lemma AncestorsEnabled(t: Table, slug: string, bit: Mask, k: nat)
    requires WellRooted(Split(slug))
    requires 1 <= k <= |Split(slug)|
    requires Walk(t, slug, Split(slug), "", bit).enabled
    ensures var a := Prefix(Split(slug), k);
      Walk(t, a, Split(a), "", bit).enabled
  {
    var segs := Split(slug);
    var a := Prefix(segs, k);
    SplitJoin(segs[..k]);
    assert Split(a) == segs[..k];
    WalkIsHierarchicalAnd(t, slug, bit);
    WalkIsHierarchicalAnd(t, a, bit);
    forall j | 1 <= j <= k
      ensures On(t, Prefix(Split(a), j), bit)
    {
      assert segs[..k][..j] == segs[..j];
      assert Prefix(Split(a), j) == Prefix(segs, j);
      assert On(t, Prefix(segs, j), bit);
    }
  }

  /** The `empty($key)` test restarts the key after a first segment "0":
      "0.a" is looked up as "0" and then as "a", never as "0.a". */
  lemma ZeroSegmentRestartsKey()
    ensures var t: Table := map["0" := Some({0}), "a" := Some({0})];
      "0.a" !in t && Walk(t, "0.a", Split("0.a"), "", {0}).enabled
  {
    var s0: string := "0.a";
    assert s0[0] == '0' && s0[1..] == ".a";
    var s1: string := ".a";
    assert s1[0] == Delimiter && s1[1..] == "a";
    var s2: string := "a";
    assert s2[0] == 'a' && s2[1..] == "";
    assert Split("") == [""];
    assert Split(s2) == [[s2[0]] + Split("")[0]] + Split("")[1..];
    assert [s2[0]] + Split("")[0] == "a";
    assert Split(s2) == ["a"];
    assert Split(s1) == [""] + Split(s2);
    assert Split(s1) == ["", "a"];
    assert Split(s0) == [[s0[0]] + Split(s1)[0]] + Split(s1)[1..];
    assert [s0[0]] + Split(s1)[0] == "0";
    assert Split(s0) == ["0", "a"];
    var t: Table := map["0" := Some({0}), "a" := Some({0})];
    var bit: Mask := {0};
    assert 0 in t["0"].value * bit && 0 in t["a"].value * bit;
    assert NextKey("", "0") == "0" && NextKey("0", "a") == "a";
    assert ["0", "a"][1..] == ["a"] && ["a"][1..] == [];
    assert Walk(t, s0, [], "a", bit).enabled;
    assert Walk(t, s0, ["a"], "0", bit).enabled;
    assert Walk(t, s0, ["0", "a"], "", bit).enabled;
  }

  /** A map built by the constructor has no callback, so a slug whose first
      segment is missing (or reduced to null) makes `enabled` raise where
      a `false` answer was expected. */
  lemma UnhookedMissRaises(raw: map<string, RawEntry>, slug: string, index: int)
    requires Construct(raw).Ok? && index >= 1
    requires !Present(Construct(raw).value.table, Split(slug)[0])
    ensures Enabled(Construct(raw).value, slug, index) == Err(TypeError(UncallableCallback))
  {
  }

  /** Once a callback is installed, as the configuration does for the map it
      builds, the same slug is disabled and the callback hears the whole
      slug. */
  lemma HookedMissIsFalse(m: FeatureMap, slug: string, index: int)
    requires index >= 1
    requires !Present(m.table, Split(slug)[0])
    ensures Enabled(SetCallback(m), slug, index) == Ok(Verdict(false, [MapMissing(slug)]))
  {
  }

  // ---------------------------------------------------- combining tables

  /** `merge`: the union of both maps; on a shared key the argument's
      mask wins. */
  function Merge(x: FeatureMap, y: FeatureMap): (r: FeatureMap)
    ensures !r.hooked
    ensures r.table.Keys == x.table.Keys + y.table.Keys
    ensures forall k :: k in y.table ==> r.table[k] == y.table[k]
    ensures forall k :: k in x.table && k !in y.table ==> r.table[k] == x.table[k]
  {
    Rebuilt(x.table + y.table)
  }

  /** `empty()` on a parsed entry: null or the zero mask. */
  predicate Vacant(e: Option<Mask>)
  {
    e.None? || e.value == Zero
  }

  /** `add`: the union of both maps; on a shared key the masks are OR-ed,
      except that an empty (null or zero) mask of the receiver is replaced
      by the argument's entry. */
  function Add(x: FeatureMap, y: FeatureMap): (r: FeatureMap)
    ensures !r.hooked
    ensures r.table.Keys == x.table.Keys + y.table.Keys
    ensures forall k :: k in x.table && k !in y.table ==> r.table[k] == x.table[k]
    ensures forall k :: k in y.table && (k !in x.table || Vacant(x.table[k])) ==> r.table[k] == y.table[k]
    ensures forall k :: k in y.table && k in x.table && !Vacant(x.table[k]) ==>
      r.table[k] == Some(x.table[k].value + OrZero(y.table[k]))
  {
    var t := map k | k in x.table.Keys + y.table.Keys ::
      if k !in y.table then x.table[k]
      else if k !in x.table || Vacant(x.table[k]) then y.table[k]
      else Some(x.table[k].value + OrZero(y.table[k]));
    Rebuilt(t)
  }

  /** The mask a key contributes to a cohort test: null and absent are 0. */
  function MaskAt(t: Table, key: string): Mask
  {
    if key in t then OrZero(t[key]) else Zero
  }

  /** `add` ORs masks key by key: the sum enables a cohort at a key iff
      either operand does. */
  lemma AddIsPointwiseOr(x: FeatureMap, y: FeatureMap, key: string)
    ensures MaskAt(Add(x, y).table, key) == MaskAt(x.table, key) + MaskAt(y.table, key)
  {
  }

  /** A key is on in the sum iff it is on in either operand. */
  lemma AddEnables(x: FeatureMap, y: FeatureMap, key: string, bit: Mask)
    ensures On(Add(x, y).table, key, bit) <==> On(x.table, key, bit) || On(y.table, key, bit)
  {
    AddIsPointwiseOr(x, y, key);
    var a := Add(x, y).table;
    if On(x.table, key, bit) || On(y.table, key, bit) {
      assert (MaskAt(x.table, key) + MaskAt(y.table, key)) * bit != Zero;
    }
  }

  /** `intersect`: the receiver's entries whose key the argument has with
      an equal value (PHP compares the two by their string forms, which tell
      null, 0 and every mask apart). */
  function Intersect(x: FeatureMap, y: FeatureMap): (r: FeatureMap)
    ensures !r.hooked
    ensures forall k :: k in r.table <==> k in x.table && k in y.table && x.table[k] == y.table[k]
    ensures forall k :: k in r.table ==> r.table[k] == x.table[k]
  {
    Rebuilt(map k | k in x.table && k in y.table && x.table[k] == y.table[k] :: x.table[k])
  }

  /** `array_diff_assoc($a, $b)`: the entries of a that b does not hold. */
  function DiffAssoc(a: Table, b: Table): Table
  {
    map k | k in a && (k !in b || a[k] != b[k]) :: a[k]
  }

  /** `diff`: the entries on which the maps differ, either because only one
      has the key or because they hold different masks there; on a key both
      have, the argument's mask wins. */
  function Diff(x: FeatureMap, y: FeatureMap): (r: FeatureMap)
    ensures !r.hooked
    ensures forall k :: k in r.table <==>
      (k in x.table || k in y.table) && !(k in x.table && k in y.table && x.table[k] == y.table[k])
    ensures forall k :: k in r.table && k in y.table ==> r.table[k] == y.table[k]
    ensures forall k :: k in r.table && k !in y.table ==> r.table[k] == x.table[k]
  {
    Rebuilt(DiffAssoc(x.table, y.table) + DiffAssoc(y.table, x.table))
  }

  /** What the maps share and where they differ together make up their
      merge. */
  lemma IntersectAndDiffMakeMerge(x: FeatureMap, y: FeatureMap)
    ensures Merge(Intersect(x, y), Diff(x, y)) == Merge(x, y)
  {
    var l := Merge(Intersect(x, y), Diff(x, y)).table;
    var r := Merge(x, y).table;
    assert l.Keys == r.Keys;
    assert forall k :: k in l ==> l[k] == r[k];
  }

  /** Intersect and diff split the keys: none is in both. */
  lemma IntersectDiffDisjoint(x: FeatureMap, y: FeatureMap)
    ensures Intersect(x, y).table.Keys * Diff(x, y).table.Keys == {}
  {
  }

  /** Two maps have an empty diff iff they hold the same data. */
  lemma DiffEmptyIffEqual(x: FeatureMap, y: FeatureMap)
    ensures Diff(x, y).table == map[] <==> x.table == y.table
  {
    if Diff(x, y).table == map[] {
      forall k | k in x.table ensures k in y.table && x.table[k] == y.table[k] {
        assert k !in Diff(x, y).table;
      }
      forall k | k in y.table ensures k in x.table {
        assert k !in Diff(x, y).table;
      }
    }
  }

  /** A map intersected with itself, or merged with itself, is unchanged. */
  lemma SelfCombination(x: FeatureMap)
    ensures Intersect(x, x).table == x.table
    ensures Merge(x, x).table == x.table
  {
  }
}
