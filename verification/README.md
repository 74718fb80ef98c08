# Swivel feature toggles in Dafny

A model of zumba/swivel, a PHP feature-toggle engine. Users are split into ten
cohorts ("buckets"). A feature map says, for every dotted feature slug
(`Feature.SubFeature.Behavior`), which cohorts see it as a 64-bit mask. A
builder offers one behavior per slug plus a default. It runs the behavior the
user's bucket enables, or the default when none is enabled.

The modules follow the PHP classes:

- `Php` (php.dfy): PHP values, `empty()`/truthiness, and the errors raised
  (LogicException, ArithmeticError, TypeError, engine Error).
- `Slugs` (slugs.dfy): `explode`/`implode` on the delimiter `.`, the
  accumulated prefixes `A`, `A.B`, `A.B.C`, and the two-part split of
  `Manager`.
- `Masks` (masks.dfy): a PHP integer used as a bitmask, seen as the set of
  its one-bit positions below 64. Covers PHP 8's `1 << n` (ArithmeticError
  for negative n, 0 from 64 on) and `reduceToBitmask` on index lists.
- `FeatureMaps` (feature_map.dfy): `Map`.
  - `parse` and the constructor.
  - `enabled`, with its missing-slug callback recorded as a notice.
  - `merge`, `add`, `intersect` and `diff`.
- `Behaviors` (behavior.dfy): `Behavior` and the callables a strategy can be.
  Callables are closures, function names, `"Owner::method"` strings and
  `[Owner, method]` pairs.
- `Buckets` (bucket.dfy): `Bucket`. Covers the cohort constants, the index,
  and `enabled` with the bucket's own callback.
- `Builders` (builder.dfy): the selection state machine of `Builder`. Chains
  of calls are modelled with a reference definition of the behavior a chain
  selects.
- `Managers` (manager.dfy): `Manager`, including the `invoke` and
  `returnValue` shortcuts.
- `Features`, `LegacyMaps`, `LegacyBuilders` (legacy_feature.dfy,
  legacy_map.dfy, legacy_builder.dfy): the older parallel API in
  `src/Feature.php` and `src/Feature/`.

Each operation is a pure function over immutable data. An exception becomes
an `Err` result carrying the PHP error kind and message. A call of a
missing-slug callback becomes a `Notice` in the result.

## Model

| member | source | states |
|---|---|---|
| Slugs.Split | src/Map.php:147 | `explode('.', $slug)` yields at least one segment, and no segment contains the delimiter |
| Slugs.SplitCons | src/Map.php:147 | one step of `explode`: a leading delimiter starts a new segment, any other character joins the first segment |
| Slugs.JoinSplit | src/Map.php:147 | joining the exploded segments with '.' gives back the slug |
| Slugs.SplitConcat | src/Map.php:147 | a delimiter-free head joins the first segment of what follows it |
| Slugs.SplitJoin | src/Map.php:147 | exploding a join of delimiter-free segments gives the same segments back |
| Slugs.JoinSnoc | src/Map.php:148 | appending a segment to the list appends "." and the segment to the joined key |
| Slugs.PrefixStep | src/Map.php:148 | each accumulated key is the previous key plus "." plus the next segment |
| Slugs.SplitAppend | src/Builder.php:165 | exploding base.child gives the base's segments followed by the child's |
| Slugs.JoinOfManyHasDelimiter | src/Map.php:148 | a key accumulated from two or more segments contains the delimiter |
| Slugs.SplitFirst | src/Manager.php:61 | `explode('.', $slug, 2)`: the slug has no second part iff it has no delimiter; otherwise head . tail is the slug and the head has no delimiter |
| Slugs.SplitFirstAgreesWithSplit | src/Manager.php:61 | the head of the two-part split is the first segment, and the tail splits into the remaining segments |
| Masks.ShiftOne | src/Map.php:146 | `1 << n` raises ArithmeticError iff n is negative, sets bit n for n below 64, and is 0 from 64 on |
| Masks.CohortBit | src/Map.php:146 | `1 << ($index - 1)` fails iff the cohort index is below 1 |
| Masks.CohortBitsDisjoint | src/Map.php:146 | two cohorts in 1..64 share a bit iff they are the same cohort |
| Masks.CohortBitTest | src/Map.php:151 | `$mask & (1 << ($c - 1))` is non-zero iff the mask enables cohort c |
| Masks.ReduceFrom | src/Map.php:224-226 | the OR-fold succeeds iff every index is at least 1; it is null iff the start is null and the list is empty; it enables c iff the start does or c is in the list |
| Masks.ReduceToBitmask | src/Map.php:224-226 | a list reduces to null iff it is empty, and its mask enables cohort c iff c is listed; an index below 1 raises ArithmeticError |
| Masks.ValueBelowVanishes | src/Bucket.php:15-25 | a mask with no bit below n has integer value 0 in its low n bits |
| Masks.ValueBelowSaturates | src/Bucket.php:15-25 | bits the mask does not have add nothing to its integer value |
| FeatureMaps.ReduceEntry | src/Map.php:224 | a non-list entry passes through unchanged; a list is reduced and fails iff it has an index below 1 |
| FeatureMaps.Parse | src/Map.php:236-241 | parse keeps exactly the input keys. Reduced entries stay as they are. A list becomes null iff empty, and enables exactly its cohorts. It fails with ArithmeticError iff some list has an index below 1 |
| FeatureMaps.ParseIdempotent | src/Map.php:220-241 | parsing already parsed data gives the same data back |
| FeatureMaps.Construct | src/Map.php:42-46 | the constructor succeeds iff parse does, holds the parsed data, and has no callback |
| FeatureMaps.SetCallback | src/Map.php:248-251 | setCallback installs a callback and leaves the data alone |
| FeatureMaps.Rebuilt | src/Map.php:89 | `new self($data)` on parsed data is the constructor applied to that data as raw entries |
| FeatureMaps.Walk | src/Map.php:147-165 | the loop calls the callback at most once, with the whole slug. It never calls it when it answers true. With no segments left it answers true |
| FeatureMaps.Enabled | src/Map.php:142-166 | `enabled` raises ArithmeticError for an index below 1. It raises TypeError when a missing key meets an uninstalled callback. Otherwise it walks the prefixes with the cohort's bit |
| FeatureMaps.WalkFrom | src/Map.php:147-161 | the walk from the i-th prefix is true iff every later prefix is on. It calls the callback iff the first prefix that is not on is missing |
| FeatureMaps.WalkIsHierarchicalAnd | src/Map.php:142-166 | a slug with a non-empty first segment is enabled iff every dotted prefix is present and shares a bit with the cohort mask. The callback fires iff the first failing prefix is missing |
| FeatureMaps.EnabledForCohort | src/Map.php:146-151 | for cohorts 1..64 a slug is enabled iff every prefix's mask enables the cohort; a cohort above 64 never enables anything |
| FeatureMaps.AncestorsEnabled | src/Map.php:147-161 | when a slug is enabled, every ancestor prefix is enabled too |
| FeatureMaps.ZeroSegmentRestartsKey | src/Map.php:148 | because `empty("0")` holds, the slug "0.a" looks up "a", not "0.a" |
| FeatureMaps.UnhookedMissRaises | src/Map.php:150-155 | a constructed map has no callback, so a slug whose first segment is missing or null raises TypeError |
| FeatureMaps.HookedMissIsFalse | src/Map.php:150-160 | with a callback installed, the same slug is disabled and the callback hears the whole slug |
| FeatureMaps.Merge | src/Map.php:203-209 | merge has the keys of both maps, takes the argument's entry on a shared key, and is unhooked |
| FeatureMaps.Add | src/Map.php:76-90 | add has the keys of both maps. A key missing or vacant in the receiver takes the argument's entry. Otherwise the two masks are OR-ed |
| FeatureMaps.AddIsPointwiseOr | src/Map.php:80 | the sum's mask at any key is the union of the operands' masks there |
| FeatureMaps.AddEnables | src/Map.php:76-90 | a key is on in the sum for a cohort iff it is on in either operand |
| FeatureMaps.Intersect | src/Map.php:188-191 | intersect keeps exactly the keys both maps hold with equal entries |
| FeatureMaps.Diff | src/Map.php:121-130 | diff keeps exactly the keys held by one map only or with different entries. The argument's entry wins where both differ |
| FeatureMaps.IntersectAndDiffMakeMerge | src/Map.php:121-130 | merging what two maps share with where they differ gives their merge |
| FeatureMaps.IntersectDiffDisjoint | src/Map.php:121-130 | no key is both in the intersection and in the diff |
| FeatureMaps.DiffEmptyIffEqual | src/Map.php:121-130 | the diff is empty iff the two maps hold the same data |
| FeatureMaps.SelfCombination | src/Map.php:188-209 | a map intersected or merged with itself keeps its data |
| Behaviors.Execute | src/Behavior.php:46-54 | a behavior returns its strategy's result on the arguments, falsy results included |
| Behaviors.ExecuteDefault | src/Behavior.php:46 | execute without arguments runs the strategy on the empty list |
| Behaviors.ConstantIgnoresArguments | src/Behavior.php:46-54 | a constant strategy returns the same value whatever the arguments |
| Behaviors.ExplodeScope | src/Builder.php:156-158 | `explode('::', $s)` yields at least one part |
| Behaviors.ImplodeExplodeScope | src/Builder.php:157 | imploding the exploded parts with "::" gives back the string |
| Behaviors.ExplodeColonFree | src/Builder.php:157 | a string without ':' explodes to itself |
| Behaviors.ExplodeConcat | src/Builder.php:157 | a colon-free head joins the first part of what follows |
| Behaviors.ExplodeQualifiedName | src/Builder.php:157 | "Owner::method" explodes to the owner and the method name |
| Behaviors.Callable | src/Builder.php:155-163 | what `is_callable` or `method_exists` accepts: a closure resolves to itself and a known function name to that function. Other scalars never resolve. A resolving array is an existing [Owner, method] pair, hidden (private or protected) or not |
| Behaviors.QualifiedStringMatchesPair | src/Builder.php:155-163 | the string "Owner::method" and the array [Owner, method] resolve to the same callable |
| Buckets.Ordinal | src/Bucket.php:15-24 | each ordinal constant has exactly one bit |
| Buckets.OrdinalIsCohortBit | src/Bucket.php:15-24 | the k-th ordinal constant is the mask of cohort k, `1 << (k - 1)` |
| Buckets.OrdinalValue | src/Bucket.php:15-24 | the k-th ordinal constant is the integer 2^(k-1) |
| Buckets.AllBelow | src/Bucket.php:25 | the low n bits of ALL, n up to 10, are all ones |
| Buckets.AllIsUnionOfOrdinals | src/Bucket.php:15-25 | ALL is the union of the ten ordinal constants |
| Buckets.AllValue | src/Bucket.php:25 | ALL is the integer 1023 |
| Buckets.NewBucket | src/Bucket.php:55-65 | a truthy index is kept; null or 0 is replaced by a draw in 1..10 |
| Buckets.GetIndex | src/Bucket.php:94-97 | getIndex returns the non-zero index the bucket was built with |
| Buckets.Enabled | src/Bucket.php:76-85 | the bucket answers as the map does for its index. It records its own callback call first iff the slug is not a key, and then the map's calls |
| Buckets.AbsentSlugNotifiesTwice | src/Bucket.php:76-85 | a missing slug whose ancestors are all on fires the bucket's callback and then the map's, and is not enabled |
| Builders.NewBuilder | src/Builder.php:53-57 | a new builder has nothing latched, no arguments and no waiver |
| Builders.ChildSlug | src/Builder.php:165 | an `empty()` child gives the base itself; any other child gives base.child |
| Builders.ChildSlugSegments | src/Builder.php:165 | a non-empty child slug splits into the base's segments followed by the child's |
| Builders.Resolve | src/Builder.php:155-161 | a strategy resolves iff it is callable or an existing method, hidden ones included. Otherwise it raises: the TypeError of `method_exists` for a pair with an array inside, LogicException "Invalid callable" for anything else |
| Builders.Unresolved | src/Builder.php:158-160 | the error is "Invalid callable" iff the strategy is not a set pair containing an array; an array owner is reported before an array method name |
| Builders.Compose | src/Builder.php:155-167 | a behavior is built under the child slug iff the strategy resolves; otherwise the resolution error |
| Builders.GetBehavior | src/Builder.php:147-168 | the slug stays in the base's subtree. The strategy must resolve, and the error is "Invalid callable" except for the nested-array TypeError. The DEFAULT_STRATEGY literal switches to the default slug with the slug as strategy |
| Builders.GetDefaultBehavior | src/Builder.php:147-168 | the one-argument form gives a behavior under base.__swivel_default iff the argument resolves and is not an array naming a hidden method. Null, and any array `is_callable` rejects from the builder, raise the TypeError of the parameter typed string or callable |
| Builders.HiddenPairOnlyAsRegistration | src/Builder.php:147-163 | an [owner, method] array naming a private or protected method is bound by the two-argument form but refused with TypeError by the one-argument form |
| Builders.ValueBehavior | src/Builder.php:81 | addValue's behavior is a constant strategy under the child slug |
| Builders.SetBehavior | src/Builder.php:188-194 | latches the behavior and its arguments and changes nothing else |
| Builders.Offer | src/Builder.php:66-69 | the builder asks the bucket. It fails iff the bucket's query fails. Otherwise it latches the behavior and its arguments iff the bucket enables them, overwriting any earlier latch; else it keeps the latch. Base, bucket and waiver never change |
| Builders.AddBehavior | src/Builder.php:62-72 | an invalid strategy raises "Invalid callable" (or `method_exists`'s TypeError for a pair with an array inside). Otherwise the behavior is added only if the user's bucket enables it: it and its arguments replace the latch iff enabled, the latch is kept otherwise, a failing bucket query fails the call, and base, bucket and waiver are unchanged |
| Builders.AddValue | src/Builder.php:77-87 | the constant behavior under base.slug is latched with no arguments iff the user's bucket enables it, and kept out otherwise; base, bucket and waiver are unchanged |
| Builders.DefaultBehavior | src/Builder.php:94-106 | raises after a waiver. With a latch it changes nothing. With no latch it latches the default iff the strategy is valid |
| Builders.DefaultValueBehavior | src/Builder.php:121 | a default value is a constant strategy under base.__swivel_default |
| Builders.DefaultValue | src/Builder.php:113-125 | raises after a waiver, otherwise latches the constant default only when nothing is latched |
| Builders.NoDefaultAsWritten | src/Builder.php:173-183 | as written: refuses iff the latched slug is the bare DEFAULT_SLUG, otherwise sets the waiver only |
| Builders.NoDefault | src/Builder.php:173-183 | corrected: refuses iff the latched slug is base.__swivel_default, otherwise sets the waiver only |
| Builders.Execute | src/Builder.php:130-140 | execute gives null when nothing is latched; otherwise it runs the latched behavior on the latched arguments |
| Builders.BareDefaultNeedsDefaultBase | src/Builder.php:175 | a slug under a base equals the bare DEFAULT_SLUG only if the base is DEFAULT_SLUG |
| Builders.NoDefaultGuardNeedsDefaultBase | src/Builder.php:175 | on any rooted state the written guard fires only for a feature named "__swivel_default" |
| Builders.NoDefaultAfterDefaultSucceeds | src/Builder.php:173-183 | as written, `noDefault` succeeds after `defaultBehavior` or `defaultValue` |
| Builders.DefaultAndWaiverExclude | src/Builder.php:173-183 | with the corrected guard, a default and a waiver exclude each other in either order |
| Builders.BehaviorNeedsFeature | src/Builder.php:165 | a behavior of a feature is enabled only if the feature's own slug is enabled |
| Builders.Run | src/Builder.php:64-72 | a fluent chain of calls, under the `noDefault` guard as written or corrected, keeps the base slug and the bucket |
| Builders.ChildSlugUnderBase | src/Builder.php:165 | every child slug lies in the base's subtree |
| Builders.StepKeepsRooted | src/Builder.php:165 | each call keeps the latched slug in the base's subtree |
| Builders.RunKeepsRooted | src/Builder.php:165 | any chain of calls, under either guard, keeps the latched slug in the base's subtree |
| Builders.NoDefaultRefusesOnlyDefaultFeature | src/Builder.php:175 | after any chain of calls under either guard, the written guard fires only for a feature named "__swivel_default" |
| Builders.BehaviorsIgnoreState | src/Builder.php:147-168 | getBehavior depends on the builder only through its base slug |
| Builders.StepChoice | src/Builder.php:64-125 | an enabled registration takes over, a default fills an empty choice, and nothing else changes the choice |
| Builders.RunSelects | src/Builder.php:64-125 | under either guard, a chain selects its last enabled registration; failing that, what was latched before; failing that, its first default |
| Builders.WaiverAfterDefaultDiverges | src/Builder.php:173-183 | a default, then `noDefault`, then an enabled value: as written the chain goes through and `execute` returns the value; with the corrected guard it stops with the LogicException |
| Builders.EnabledBeatsDefault | src/Builder.php:64-106 | under either guard, an enabled registration is selected whether the default comes before or after it |
| Builders.EnabledValueIsReturned | src/Builder.php:79-87 | a value under an enabled slug is what execute returns, falsy values included |
| Managers.SetBucket | src/Manager.php:91-99 | a given bucket replaces the current one; null keeps it |
| Managers.ForFeature | src/Manager.php:41-50 | a fresh builder over the manager's bucket, with the feature as base |
| Managers.InvokeFallback | src/Manager.php:65 | `$b ?: fn() => $b` wraps a falsy b in a closure returning it and keeps any other b |
| Managers.Invoke | src/Manager.php:59-67 | a slug without a delimiter raises TypeError |
| Managers.ReturnValue | src/Manager.php:76-84 | a slug without a delimiter raises TypeError |
| Managers.ShortcutAsksAboutWholeSlug | src/Manager.php:61-64 | the bucket is asked about the whole slug; when the second part is "" or "0" it is asked about the feature |
| Managers.ReturnValueChooses | src/Manager.php:76-84 | returnValue returns a when the bucket enables the slug and b otherwise |
| Managers.InvokeChooses | src/Manager.php:59-67 | invoke runs a when it is enabled. Otherwise it returns a falsy b as it is, runs a b the default form accepts, or raises |
| Managers.InvokeWithoutDefaultIsNull | src/Manager.php:59-67 | invoke without b on a slug that is not enabled gives null |
| Features.NewFeature | src/Feature.php:18-25 | a new feature has no behavior and no arguments |
| Features.Attach | src/Feature.php:35-39 | attach sets the behavior and the arguments |
| Features.Execute | src/Feature.php:47-49 | execute runs the attached behavior on the stored arguments, and raises when nothing is attached |
| Features.AttachOverrides | src/Feature.php:35-49 | a second attach replaces the first entirely, and execute runs the last attached behavior |
| LegacyMaps.ReduceEntry | src/Feature/Map.php:64-69 | a list is reduced; anything else raises TypeError |
| LegacyMaps.Parse | src/Feature/Map.php:77-80 | parse succeeds iff every entry is a list of indices of at least 1. It keeps the keys, and each list enables exactly its cohorts. On success it agrees with the current parse |
| LegacyMaps.Walk | src/Feature/Map.php:47-53 | with no segments left the walk answers true |
| LegacyMaps.Enabled | src/Feature/Map.php:44-56 | the legacy answer equals the current walk's answer for the same mask |
| LegacyMaps.WalkAgrees | src/Feature/Map.php:44-56 | the legacy loop and the current loop give the same answer from any key |
| LegacyMaps.EnabledIsHierarchicalAnd | src/Feature/Map.php:44-56 | a slug is enabled iff every dotted prefix is present and ANDs non-zero with the mask |
| LegacyMaps.OffOrMissingDisables | src/Feature/Map.php:49 | a prefix that is missing or OFF disables the slug |
| LegacyBuilders.Wrap | src/Feature/Builder.php:118-122 | a strategy `is_callable` accepts is kept; anything else, a hidden method included, becomes a closure returning it |
| LegacyBuilders.Compose | src/Feature/Builder.php:123 | the slug is always base.child, the child following the base and one delimiter, with no empty-child case |
| LegacyBuilders.ComposeSegments | src/Feature/Builder.php:123 | a composed slug splits into the base's segments followed by the child's |
| LegacyBuilders.DefaultSlugsAgree | src/Feature/Builder.php:142-148 | the legacy default slug is the current builder's default child slug, so the legacy `noDefault` is the shared one |
| LegacyBuilders.GetBehavior | src/Feature/Builder.php:112-125 | corrected: an `empty()` strategy gives base.__swivel_default with the slug as strategy; otherwise base.slug with the wrapped strategy |
| LegacyBuilders.GetDefaultBehavior | src/Feature/Builder.php:112-125 | corrected one-argument form: base.__swivel_default with the wrapped strategy |
| LegacyBuilders.GetBehaviorAsWritten | src/Feature/Builder.php:112-125 | as written: raises iff the strategy is `empty()`, and otherwise agrees with the corrected form |
| LegacyBuilders.GetDefaultBehaviorAsWritten | src/Feature/Builder.php:89 | as written, the one-argument form always raises |
| LegacyBuilders.AddBehavior | src/Feature/Builder.php:67-73 | the composed behavior and its arguments replace the latch iff the bucket enables it, and the latch is kept otherwise; a failing bucket query fails the call; base, bucket and waiver are unchanged |
| LegacyBuilders.AddBehaviorAsWritten | src/Feature/Builder.php:67-73 | as written: an `empty()` strategy raises; otherwise as corrected |
| LegacyBuilders.DefaultBehavior | src/Feature/Builder.php:84-92 | corrected: raises after a waiver. With a latch it changes nothing; with none it latches the default |
| LegacyBuilders.DefaultBehaviorAsWritten | src/Feature/Builder.php:84-92 | as written: raises after a waiver, changes nothing with a latch, and raises with no latch |
| LegacyBuilders.GetFeature | src/Feature/Builder.php:132-135 | the latched behavior and arguments are attached to a new feature; with nothing latched attach raises TypeError |
| LegacyBuilders.Execute | src/Feature/Builder.php:99-101 | execute runs the latched behavior on the latched arguments, and raises TypeError when nothing is latched |
| LegacyBuilders.LiteralIsReturned | src/Feature/Builder.php:118-122 | a non-empty literal that `is_callable` rejects (a hidden method's name included) is what the behavior returns, whatever the arguments |
| LegacyBuilders.CallableIsRun | src/Feature/Builder.php:118-122 | a strategy `is_callable` accepts runs on the arguments |
| LegacyBuilders.ComposeIsDotted | src/Feature/Builder.php:123 | every composed slug contains the delimiter |
| LegacyBuilders.StepKeepsDotted | src/Feature/Builder.php:123 | each call keeps the latched slug dotted |
| LegacyBuilders.RunKeepsDotted | src/Feature/Builder.php:123 | any chain, as written or corrected, keeps the latched slug dotted |
| LegacyBuilders.NoDefaultNeverRefuses | src/Feature/Builder.php:143 | after any chain of calls, with `addBehavior`, `defaultBehavior` and `noDefault` as written or corrected, the written guard of noDefault never fires |
| LegacyBuilders.WaiverAfterDefaultRegistration | src/Feature/Builder.php:142-148 | an enabled registration under `__swivel_default`, then `noDefault`: as written the waiver goes through; with the corrected guard it raises |
| LegacyBuilders.DefaultAndWaiverExclude | src/Feature/Builder.php:142-148 | with the corrected guard, a default and a waiver exclude each other in either order |
| LegacyBuilders.ToggleChooses | src/Feature/Builder.php:67-92 | addBehavior then defaultBehavior runs the registration when it is enabled, and the default otherwise |
| LegacyBuilders.ToggleAsWrittenRaises | src/Feature/Builder.php:112-116 | as written, the default of a toggle whose registration is not enabled raises instead of being selected |
| LegacyBuilders.LaterRegistrationWins | src/Feature/Builder.php:67-73 | a later enabled registration replaces an earlier one |

## Left out

- Logging, metrics (`startMetrics`/`stopMetrics`, the reporters) and
  serialisation (`__sleep`, `__wakeup`, `__set_state`, `Map/Export`). Once a
  logger is installed they only have side effects or format text. The
  builder without a logger is the next line.
- Builders.NewBuilder: the model assumes `setLogger` has been called, as
  `Manager::forFeature` does (src/Manager.php:45-46). The constructor
  (src/Builder.php:53-57) installs no logger, so on a bare `new Builder`
  the unguarded `$this->logger` calls (src/Builder.php:98, 117, 149, 177,
  191) raise an engine Error. That Error comes at the first
  `getBehavior`/`setBehavior`, and on the refusal paths it replaces the
  LogicException.
- `Config`: runtime class dispatch and logger wiring. The callback it
  installs is the `hooked` flag of a feature map.
- The variadic forms of `merge` and `add` (extra maps after the first). They
  fold the binary forms this model has.
- Buckets.NewBucket: `mt_rand(1, 10)` is the `draw` parameter, required to
  lie in 1..10.
- FeatureMaps.Merge: PHP's `array_merge` renumbers integer-like keys ("0",
  "1", …) instead of letting the argument win. Feature slugs are strings,
  and that renumbering is not modelled.
- FeatureMaps.Diff: the same `array_merge` renumbering is not modelled.
- FeatureMaps.Parse: a raw entry is either an index list or an
  already-parsed mask (or null). Other PHP values (strings, floats, nested
  arrays) are not modelled.
- `Map::slugExists` is not defined in src/Map.php. The model takes it to be
  key membership (`Buckets.SlugExists`).
- Behaviors.Callable: arrays of more than two elements, `"A::b::c"` strings
  and static/instance method binding are not modelled. Such strategies are
  rejected when the behavior is built instead of failing when it runs. A
  method is hidden or not for both builders alike (the scope's `hidden`
  set); which methods `is_callable` accepts from a given class is not
  modelled beyond that.
- Managers.Invoke: the contract states only the delimiter error. The choice
  between a and b is in `Managers.InvokeChooses`.
- Managers.ReturnValue: the contract states only the delimiter error. The
  choice is in `Managers.ReturnValueChooses`.
- LegacyMaps.Parse: PHP raises for the first failing entry in array order.
  Model maps have no order, so an entry that is not a list is reported as
  the TypeError before any ArithmeticError. The message leaves off the type
  PHP appends.
- The legacy builder consults the `Bucket` class of this model. That is the
  only bucket in the repository.
- The legacy builder's constructor, `setBehavior` and `noDefault`
  (src/Feature/Builder.php:52-55 and 142-160) do what the current builder's
  do. The model uses `Builders.NewBuilder`, `Builders.SetBehavior`,
  `Builders.NoDefaultAsWritten` and `Builders.NoDefault` for both.
- The tests expect `noDefault` after a default to raise. As written, the
  code never does (see Findings). The chains of calls (`Builders.Run`,
  `LegacyBuilders.Run`) take the guard as a parameter, and their lemmas hold
  for both.
- Buckets.Enabled: src/Bucket.php:80-84 calls the bucket's callback before
  asking the map. When the map then raises (an index below 1, or a missing
  slug in a map without a callback), the model's `Err` does not record that
  earlier call. `Builders.Offer` inherits this.
- src/Feature/Builder.php:7 implements `Feature\BuilderInterface`, which
  extends PSR-3's `LoggerAwareInterface` (src/Feature/BuilderInterface.php:4),
  but the class defines no `setLogger`. PHP therefore refuses to declare the
  class. `LegacyBuilders` models its methods as if it loaded.

## Findings

| source | as written | input that shows it | evidently intended | confidence | as-written member | corrected member |
|---|---|---|---|---|---|---|
| src/Builder.php:175 | `noDefault` compares the latched slug with the bare `__swivel_default`, but defaults are latched as base.__swivel_default | `forFeature('Test')->defaultValue('x')->noDefault()` latches `Test.__swivel_default` and does not raise | raise LogicException after a default, as test/Tests/BuilderTest.php:343-380 expects (that test mocks `getBehavior` to return the bare slug) | high, not executed | Builders.NoDefaultAfterDefaultSucceeds | Builders.DefaultAndWaiverExclude |
| src/Feature/Builder.php:143 | the legacy `noDefault` has the same comparison; every latched slug is base.child | `(new Builder('Test', $bucket))->addBehavior('__swivel_default', 'x')->noDefault()` with `Test.__swivel_default` enabled latches `Test.__swivel_default` and does not raise (a `defaultBehavior` call would raise at line 115 first) | raise LogicException after a default, as test/Tests/Feature/BuilderTest.php:59-79 expects with a mocked `getBehavior`; `LegacyBuilders.DefaultAndWaiverExclude` shows it once line 115 is corrected too | high, not executed | LegacyBuilders.WaiverAfterDefaultRegistration | LegacyBuilders.DefaultAndWaiverExclude |
| src/Feature/Builder.php:115 | reads `Behavior::DEFAULT_SLUG`, a constant `src/Behavior.php` does not define | `defaultBehavior(fn() => 1)` on a builder with nothing latched raises "Undefined constant" | the builder's own `DEFAULT_SLUG` ('__swivel_default'), so the default is latched | high, not executed | LegacyBuilders.ToggleAsWrittenRaises | LegacyBuilders.ToggleChooses |
| src/Map.php:154 | `call_user_func($this->callback, $slug)` on a map built by `new Map(...)`, whose callback is null, raises TypeError under PHP 8 | test/Tests/MapTest.php:72-92 expects `enabled('Test.version.a', 1)` to be false with `'Test' => []`; test/Tests/BucketTest.php:39-47 expects only the bucket's callback for a missing slug | a missing slug answers false; the code gets there once a callback is installed, as src/Config.php:46-50 always does, so the code is right and the tests are stale | high, not executed | FeatureMaps.UnhookedMissRaises | FeatureMaps.HookedMissIsFalse |
