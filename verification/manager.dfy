/** The manager: holds the user's bucket, hands out builders, and offers the
    ternary shortcuts `invoke` and `returnValue`, which split a slug at its
    first delimiter into a feature and a behavior and run a two-way
    builder chain. */
module Managers {
  import opened Php
  import opened Slugs
  import opened Behaviors
  import opened Buckets
  import opened Builders

  const NullBehaviorSlug := "Zumba\\Swivel\\Builder::addBehavior(): Argument #1 ($slug) must be of type string, null given"
  const NullValueSlug := "Zumba\\Swivel\\Builder::addValue(): Argument #1 ($slug) must be of type string, null given"

  datatype Manager = Manager(bucket: Bucket)

  /** `setBucket($bucket)`: a given bucket replaces the current one; null
      keeps it. */
  function SetBucket(m: Manager, bucket: Option<Bucket>): (r: Manager)
    ensures bucket.Some? ==> r.bucket == bucket.value
    ensures bucket.None? ==> r == m
  {
    if bucket.Some? then Manager(bucket.value) else m
  }

  /** `forFeature($slug)`: a fresh builder for the feature over the
      manager's bucket. */
  function ForFeature(m: Manager, slug: string): (r: Builder)
    ensures r.base == slug && r.bucket == m.bucket
    ensures r.latched.None? && r.args == [] && !r.waived && r.notices == []
  {
    NewBuilder(slug, m.bucket)
  }

  /** The default `invoke` installs: `$b ?: fn() => $b`, so a falsy plain
      value becomes a closure returning it. */
  function InvokeFallback(b: StrategyArg): (r: StrategyArg)
    ensures Blank(b) ==> r == Invokable(Constant(b.value))
    ensures !Blank(b) ==> r == b
  {
    if Blank(b) then Invokable(Constant(b.value)) else b
  }

  /** `invoke($slug, $a, $b)`. Without a delimiter the behavior part is
      null, which the typed `addBehavior` parameter rejects. */
  function Invoke(m: Manager, slug: string, a: StrategyArg, b: StrategyArg, env: Scope): (r: Result<Value>)
    ensures SplitFirst(slug).Undivided? ==> r == Err(TypeError(NullBehaviorSlug))
  {
    match SplitFirst(slug)
    case Undivided => Err(TypeError(NullBehaviorSlug))
    case Divided(feature, behavior) =>
      var added :- AddBehavior(ForFeature(m, feature), behavior, a, [], env);
      var defaulted :- DefaultBehavior(added, InvokeFallback(b), [], env);
      Ok(Builders.Execute(defaulted))
  }

  /** `returnValue($slug, $a, $b)`. */
  function ReturnValue(m: Manager, slug: string, a: Value, b: Value): (r: Result<Value>)
    ensures SplitFirst(slug).Undivided? ==> r == Err(TypeError(NullValueSlug))
  {
    match SplitFirst(slug)
    case Undivided => Err(TypeError(NullValueSlug))
    case Divided(feature, behavior) =>
      var added :- AddValue(ForFeature(m, feature), behavior, a);
      var defaulted :- DefaultValue(added, b);
      Ok(Builders.Execute(defaulted))
  }

  /** The slug `invoke` and `returnValue` ask the bucket about is the slug
      they were given: the split at the first delimiter is undone by the
      builder's base.child composition (unless the part after the first
      delimiter is "" or "0", when only the feature is asked about). */
  lemma ShortcutAsksAboutWholeSlug(slug: string)
    requires SplitFirst(slug).Divided?
    ensures var p := SplitFirst(slug);
      !EmptyString(p.tail) ==> ChildSlug(p.head, p.tail) == slug
    ensures var p := SplitFirst(slug);
      EmptyString(p.tail) ==> ChildSlug(p.head, p.tail) == p.head
  {
  }

  /** `returnValue` returns a when the bucket enables the slug and b
      otherwise, falsy values included. */
  lemma ReturnValueChooses(m: Manager, slug: string, a: Value, b: Value)
    requires SplitFirst(slug).Divided?
    requires var p := SplitFirst(slug);
      Buckets.Enabled(m.bucket, ValueBehavior(p.head, p.tail, a)).Ok?
    ensures var p := SplitFirst(slug);
      ReturnValue(m, slug, a, b) ==
        Ok(if Buckets.Enabled(m.bucket, ValueBehavior(p.head, p.tail, a)).value.enabled then a else b)
  {
    var p := SplitFirst(slug);
    var added := AddValue(ForFeature(m, p.head), p.tail, a).value;
    if Buckets.Enabled(m.bucket, ValueBehavior(p.head, p.tail, a)).value.enabled {
      assert added.latched == Some(ValueBehavior(p.head, p.tail, a));
    } else {
      assert added.latched.None?;
      var defaulted := DefaultValue(added, b).value;
      assert defaulted.latched == Some(DefaultValueBehavior(p.head, b));
    }
  }

  /** `invoke` runs a's strategy (with no arguments) when the bucket
      enables the slug; otherwise it runs the default: a falsy plain b is
      returned as it is, so `invoke` without b gives null; any other b
      must resolve and, if it is an array, be callable from outside its
      class. */
  lemma InvokeChooses(m: Manager, slug: string, a: StrategyArg, b: StrategyArg, env: Scope)
    requires SplitFirst(slug).Divided?
    requires var p := SplitFirst(slug);
      GetBehavior(NewBuilder(p.head, m.bucket), p.tail, a, env).Ok? &&
      Buckets.Enabled(m.bucket, GetBehavior(NewBuilder(p.head, m.bucket), p.tail, a, env).value).Ok?
    ensures var p := SplitFirst(slug);
      var chosen := GetBehavior(NewBuilder(p.head, m.bucket), p.tail, a, env).value;
      if Buckets.Enabled(m.bucket, chosen).value.enabled then
        Invoke(m, slug, a, b, env) == Ok(Apply(chosen.strategy, []))
      else if Blank(b) then
        Invoke(m, slug, a, b, env) == Ok(b.value)
      else if DefaultAccepts(env, b) then
        Invoke(m, slug, a, b, env) == Ok(Apply(Callable(env, b).value, []))
      else
        Invoke(m, slug, a, b, env).Err?
  {
    var p := SplitFirst(slug);
    var added := AddBehavior(ForFeature(m, p.head), p.tail, a, [], env).value;
    var chosen := GetBehavior(NewBuilder(p.head, m.bucket), p.tail, a, env).value;
    if !Buckets.Enabled(m.bucket, chosen).value.enabled {
      assert added.latched.None?;
      if Blank(b) {
        assert Callable(env, InvokeFallback(b)) == Some(Constant(b.value));
      }
    }
  }

  /** `invoke` without b on a slug the bucket does not enable gives null. */
  lemma InvokeWithoutDefaultIsNull(m: Manager, slug: string, a: StrategyArg, env: Scope)
    requires SplitFirst(slug).Divided?
    requires var p := SplitFirst(slug);
      GetBehavior(NewBuilder(p.head, m.bucket), p.tail, a, env).Ok? &&
      Buckets.Enabled(m.bucket, GetBehavior(NewBuilder(p.head, m.bucket), p.tail, a, env).value).Ok? &&
      !Buckets.Enabled(m.bucket, GetBehavior(NewBuilder(p.head, m.bucket), p.tail, a, env).value).value.enabled
    ensures Invoke(m, slug, a, Plain(Null), env) == Ok(Null)
  {
    InvokeChooses(m, slug, a, Plain(Null), env);
  }
}
