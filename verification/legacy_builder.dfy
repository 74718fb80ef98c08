/** The legacy behavior builder. Like the current builder it latches the
    last enabled registration and falls back to a default, but it wraps a
    strategy that is not callable as a constant instead of rejecting it,
    always composes base.child, and hands the latched behavior to a
    `Feature` to execute.

    As written, an `empty()` strategy (and so every default) reads the
    class constant `Behavior::DEFAULT_SLUG`, which the `Behavior` class does
    not define: PHP raises an Error. The `AsWritten` members model that;
    the others read the builder's own DEFAULT_SLUG, which is evidently
    what was meant. The state, `setBehavior`, the bucket query and both
    readings of `noDefault` are shared with `Builders`; a chain of calls
    runs either entirely as written or entirely corrected.

    The class declares that it implements an interface extending PSR-3's
    `LoggerAwareInterface` but defines no `setLogger`, so PHP refuses to
    declare it; its methods are modelled as if it loaded. */
module LegacyBuilders {
  import opened Php
  import opened Slugs
  import opened Behaviors
  import opened Buckets
  import opened Features
  import Builders

  /** The legacy builder has the fields of the current one, and the same
      constructor, `setBehavior` and `noDefault`; those are shared. */
  type Builder = Builders.Builder

  const DefaultSlug := Builders.DefaultSlug

  const UndefinedDefaultSlug := "Undefined constant Zumba\\Swivel\\Behavior::DEFAULT_SLUG"
  const NotABehavior := "Zumba\\Swivel\\Feature::attach(): Argument #1 ($behavior) must be of type Zumba\\Swivel\\BehaviorInterface, Closure given"

  /** A strategy `is_callable` accepts, as it is; anything else (a hidden
      method among them) wrapped in a closure that returns it. */
  function Wrap(env: Scope, a: StrategyArg): (r: Strategy)
    ensures IsCallable(env, a) ==> r == Callable(env, a).value
    ensures !IsCallable(env, a) ==> a.Plain? && r == Constant(a.value)
  {
    if IsCallable(env, a) then Callable(env, a).value else Constant(a.value)
  }

  /** base.child, with no special case for an empty child. */
  function Compose(base: string, child: string): (r: string)
    ensures |r| == |base| + 1 + |child| && r[..|base|] == base && r[|base|] == Delimiter
    ensures r[|base| + 1..] == child
  {
    base + [Delimiter] + child
  }

  /** A composed slug splits into the base's segments followed by the
      child's, so the map walk checks the whole base first. */
  lemma ComposeSegments(base: string, child: string)
    ensures Split(Compose(base, child)) == Split(base) + Split(child)
  {
    SplitAppend(base, child);
  }

  /** For the default child the legacy composition and the current one
      agree, so the shared `noDefault` compares with the right slug. */
  lemma DefaultSlugsAgree(base: string)
    ensures Compose(base, DefaultSlug) == Builders.ChildSlug(base, DefaultSlug)
  {
  }

  /** `getBehavior($slug, $strategy)` with DEFAULT_SLUG read from the
      builder: an `empty()` strategy makes the slug the strategy and
      DEFAULT_SLUG the child. */
  function GetBehavior(b: Builder, slug: string, strategy: StrategyArg, env: Scope): (r: Behavior)
    ensures !Blank(strategy) ==> r.slug == Compose(b.base, slug) && r.strategy == Wrap(env, strategy)
    ensures Blank(strategy) ==>
      r.slug == Compose(b.base, DefaultSlug) && r.strategy == Wrap(env, Plain(Str(slug)))
  {
    if Blank(strategy) then Behavior(Compose(b.base, DefaultSlug), Wrap(env, Plain(Str(slug))))
    else Behavior(Compose(b.base, slug), Wrap(env, strategy))
  }

  /** `getBehavior($strategy)`, the one-argument form: always the default. */
  function GetDefaultBehavior(b: Builder, strategy: StrategyArg, env: Scope): (r: Behavior)
    ensures r.slug == Compose(b.base, DefaultSlug) && r.strategy == Wrap(env, strategy)
  {
    Behavior(Compose(b.base, DefaultSlug), Wrap(env, strategy))
  }

  /** `getBehavior` as written: the `empty()` branch raises. */
  function GetBehaviorAsWritten(b: Builder, slug: string, strategy: StrategyArg, env: Scope): (r: Result<Behavior>)
    ensures Blank(strategy) <==> r.Err?
    ensures r.Err? ==> r.error == EngineError(UndefinedDefaultSlug)
    ensures r.Ok? ==> r.value == GetBehavior(b, slug, strategy, env)
  {
    if Blank(strategy) then Err(EngineError(UndefinedDefaultSlug))
    else Ok(Behavior(Compose(b.base, slug), Wrap(env, strategy)))
  }

  /** The one-argument form as written: its strategy parameter is null,
      which is `empty()`, so it always raises. */
  function GetDefaultBehaviorAsWritten(b: Builder, strategy: StrategyArg, env: Scope): (r: Result<Behavior>)
    ensures r.Err? && r.error == EngineError(UndefinedDefaultSlug)
  {
    GetBehaviorAsWritten(b, "", Plain(Null), env)
  }

  /** `addBehavior($slug, $strategy, $args)`: the composed behavior is
      latched iff the bucket enables it. */
  function AddBehavior(b: Builder, slug: string, strategy: StrategyArg, args: seq<Value>, env: Scope): (r: Result<Builder>)
    ensures Builders.Offered(b, GetBehavior(b, slug, strategy, env), args, r)
  {
    Builders.Offer(b, GetBehavior(b, slug, strategy, env), args)
  }

  /** `addBehavior` as written. */
  function AddBehaviorAsWritten(b: Builder, slug: string, strategy: StrategyArg, args: seq<Value>, env: Scope): (r: Result<Builder>)
    ensures Blank(strategy) ==> r == Err(EngineError(UndefinedDefaultSlug))
    ensures !Blank(strategy) ==> r == AddBehavior(b, slug, strategy, args, env)
  {
    var behavior :- GetBehaviorAsWritten(b, slug, strategy, env);
    Builders.Offer(b, behavior, args)
  }

  /** `defaultBehavior($strategy, $args)`: refused after `noDefault`;
      otherwise latches only when nothing is latched. */
  function DefaultBehavior(b: Builder, strategy: StrategyArg, args: seq<Value>, env: Scope): (r: Result<Builder>)
    ensures b.waived ==> r == Err(LogicError(Builders.BehaviorAfterWaive))
    ensures !b.waived ==> r.Ok?
    ensures !b.waived && b.latched.Some? ==> r == Ok(b)
    ensures !b.waived && b.latched.None? ==>
      r.value.latched == Some(GetDefaultBehavior(b, strategy, env)) && r.value.args == args &&
      r.value.base == b.base && r.value.bucket == b.bucket && !r.value.waived && r.value.notices == b.notices
  {
    if b.waived then Err(LogicError(Builders.BehaviorAfterWaive))
    else if b.latched.None? then Ok(Builders.SetBehavior(b, GetDefaultBehavior(b, strategy, env), args))
    else Ok(b)
  }

  /** `defaultBehavior` as written. */
  function DefaultBehaviorAsWritten(b: Builder, strategy: StrategyArg, args: seq<Value>, env: Scope): (r: Result<Builder>)
    ensures b.waived ==> r == Err(LogicError(Builders.BehaviorAfterWaive))
    ensures !b.waived && b.latched.Some? ==> r == Ok(b)
    ensures !b.waived && b.latched.None? ==> r == Err(EngineError(UndefinedDefaultSlug))
  {
    if b.waived then Err(LogicError(Builders.BehaviorAfterWaive))
    else if b.latched.None? then
      match GetDefaultBehaviorAsWritten(b, strategy, env)
      case Err(e) => Err(e)
      case Ok(behavior) => Ok(Builders.SetBehavior(b, behavior, args))
    else Ok(b)
  }

  /** `getFeature()`: a new feature with the latched behavior attached.
      With nothing latched it offers a bare closure, which the typed
      parameter of `attach` rejects. */
  function GetFeature(b: Builder): (r: Result<Feature>)
    ensures b.latched.None? ==> r == Err(TypeError(NotABehavior))
    ensures b.latched.Some? ==> r.Ok? && r.value.behavior == b.latched && r.value.args == b.args
  {
    match b.latched
    case None => Err(TypeError(NotABehavior))
    case Some(behavior) => Ok(Attach(NewFeature(), behavior, b.args))
  }

  /** `execute()`: `getFeature()->execute()`. */
  function Execute(b: Builder): (r: Result<Value>)
    ensures b.latched.None? ==> r == Err(TypeError(NotABehavior))
    ensures b.latched.Some? ==> r == Ok(Behaviors.Execute(b.latched.value, b.args))
  {
    var f :- GetFeature(b);
    Features.Execute(f)
  }

  // ------------------------------------------------------------ wrapping

  /** A literal that is neither `empty()` nor callable is what the
      behavior returns, whatever the arguments. */
  lemma LiteralIsReturned(b: Builder, slug: string, v: Value, args: seq<Value>, env: Scope)
    requires Truthy(v) && !IsCallable(env, Plain(v))
    ensures Behaviors.Execute(GetBehavior(b, slug, Plain(v), env), args) == v
  {
  }

  /** A callable strategy runs on the arguments it was latched with. */
  lemma CallableIsRun(b: Builder, slug: string, a: StrategyArg, args: seq<Value>, env: Scope)
    requires !Blank(a) && IsCallable(env, a)
    ensures Behaviors.Execute(GetBehavior(b, slug, a, env), args) == Apply(Callable(env, a).value, args)
  {
  }

  // ------------------------------------------------------- call sequences

  /** One call on a builder. */
  datatype Step =
    | AddB(slug: string, strategy: StrategyArg, args: seq<Value>)
    | DefB(strategy: StrategyArg, args: seq<Value>)
    | Waive

  /** One call, either as written (line 115 and the `noDefault` guard
      unchanged) or with both corrected. */
  function StepOnce(b: Builder, s: Step, env: Scope, g: Builders.Guard): Result<Builder>
  {
    match s
    case AddB(slug, strategy, args) =>
      if g.AsWritten? then AddBehaviorAsWritten(b, slug, strategy, args, env) else AddBehavior(b, slug, strategy, args, env)
    case DefB(strategy, args) =>
      if g.AsWritten? then DefaultBehaviorAsWritten(b, strategy, args, env) else DefaultBehavior(b, strategy, args, env)
    case Waive => Builders.Waiver(g, b)
  }

  /** A chain of calls; the first exception ends it. */
  function Run(b: Builder, steps: seq<Step>, env: Scope, g: Builders.Guard): Result<Builder>
    decreases |steps|
  {
    if steps == [] then Ok(b)
    else
      var next :- StepOnce(b, steps[0], env, g);
      Run(next, steps[1..], env, g)
  }

  /** Every latched slug has a delimiter, since it is composed as
      base.child. */
  predicate Dotted(b: Builder)
  {
    b.latched.Some? ==> Delimiter in b.latched.value.slug
  }

  lemma ComposeIsDotted(base: string, child: string)
    ensures Delimiter in Compose(base, child)
  {
    assert Compose(base, child)[|base|] == Delimiter;
  }

  /** One call keeps every latched slug dotted. */
  lemma StepKeepsDotted(b: Builder, s: Step, env: Scope, g: Builders.Guard)
    requires Dotted(b)
    ensures StepOnce(b, s, env, g).Ok? ==> Dotted(StepOnce(b, s, env, g).value)
  {
    match s
    case AddB(slug, strategy, args) =>
      ComposeIsDotted(b.base, slug);
      ComposeIsDotted(b.base, DefaultSlug);
    case DefB(strategy, args) =>
      ComposeIsDotted(b.base, DefaultSlug);
    case Waive =>
  }

  lemma {:induction false} RunKeepsDotted(b: Builder, steps: seq<Step>, env: Scope, g: Builders.Guard)
    requires Dotted(b)
    requires Run(b, steps, env, g).Ok?
    ensures Dotted(Run(b, steps, env, g).value)
    decreases |steps|
  {
    if steps != [] {
      StepKeepsDotted(b, steps[0], env, g);
      RunKeepsDotted(StepOnce(b, steps[0], env, g).value, steps[1..], env, g);
    }
  }

  /** The guard of `noDefault` as written never fires: whatever chain of
      calls a fresh builder went through, as written or corrected, its
      latched slug has a delimiter and DEFAULT_SLUG has none. */
  lemma NoDefaultNeverRefuses(base: string, bucket: Bucket, steps: seq<Step>, env: Scope, g: Builders.Guard)
    requires Run(Builders.NewBuilder(base, bucket), steps, env, g).Ok?
    ensures Builders.NoDefaultAsWritten(Run(Builders.NewBuilder(base, bucket), steps, env, g).value).Ok?
  {
    RunKeepsDotted(Builders.NewBuilder(base, bucket), steps, env, g);
    assert Delimiter !in DefaultSlug;
  }

  /** A registration under the default child, then `noDefault`: the only
      way a chain as written latches base.__swivel_default before the
      waiver, since `defaultBehavior` raises at line 115 first. As written
      the waiver goes through; with the corrected guard it is refused. */
  lemma WaiverAfterDefaultRegistration(base: string, bucket: Bucket, a: StrategyArg, args: seq<Value>, env: Scope)
    requires !Blank(a)
    requires Buckets.Enabled(bucket, GetBehavior(Builders.NewBuilder(base, bucket), DefaultSlug, a, env)).Ok?
    requires Buckets.Enabled(bucket, GetBehavior(Builders.NewBuilder(base, bucket), DefaultSlug, a, env)).value.enabled
    ensures Run(Builders.NewBuilder(base, bucket), [AddB(DefaultSlug, a, args), Waive], env, Builders.AsWritten).Ok?
    ensures Run(Builders.NewBuilder(base, bucket), [AddB(DefaultSlug, a, args), Waive], env, Builders.Corrected) ==
      Err(LogicError(Builders.WaiveAfterDefault))
  {
    var b0 := Builders.NewBuilder(base, bucket);
    var steps := [AddB(DefaultSlug, a, args), Waive];
    assert steps[1..] == [Waive] && steps[1..][1..] == [];
    var b1 := AddBehavior(b0, DefaultSlug, a, args, env).value;
    assert b1.latched == Some(GetBehavior(b0, DefaultSlug, a, env));
    DefaultSlugsAgree(base);
    ComposeIsDotted(base, DefaultSlug);
    assert Delimiter !in DefaultSlug;
    var b2 := Builders.NoDefaultAsWritten(b1);
    assert b2.Ok?;
    assert Run(b2.value, [], env, Builders.AsWritten) == b2;
    assert Run(b1, [Waive], env, Builders.AsWritten) == b2;
    assert Run(b1, [Waive], env, Builders.Corrected) == Err(LogicError(Builders.WaiveAfterDefault));
  }

  /** With the corrected guard a default and a waiver exclude each other in
      either order. */
  lemma DefaultAndWaiverExclude(b: Builder, strategy: StrategyArg, args: seq<Value>, env: Scope)
    requires !b.waived && b.latched.None?
    ensures Builders.NoDefault(DefaultBehavior(b, strategy, args, env).value) == Err(LogicError(Builders.WaiveAfterDefault))
    ensures Builders.NoDefault(b).Ok? && DefaultBehavior(Builders.NoDefault(b).value, strategy, args, env) == Err(LogicError(Builders.BehaviorAfterWaive))
  {
    DefaultSlugsAgree(b.base);
  }

  // ----------------------------------------------------------- selection

  /** The two calls of a toggle: a registration, then a default. The
      registration's behavior runs when the bucket enables it, the default
      otherwise. */
  lemma ToggleChooses(base: string, bucket: Bucket, slug: string, a: StrategyArg, args: seq<Value>,
                      d: StrategyArg, dargs: seq<Value>, env: Scope)
    requires Buckets.Enabled(bucket, GetBehavior(Builders.NewBuilder(base, bucket), slug, a, env)).Ok?
    ensures var chosen := GetBehavior(Builders.NewBuilder(base, bucket), slug, a, env);
      var added := AddBehavior(Builders.NewBuilder(base, bucket), slug, a, args, env);
      added.Ok? && DefaultBehavior(added.value, d, dargs, env).Ok? &&
      Execute(DefaultBehavior(added.value, d, dargs, env).value) ==
        if Buckets.Enabled(bucket, chosen).value.enabled then Ok(Behaviors.Execute(chosen, args))
        else Ok(Apply(Wrap(env, d), dargs))
  {
    var b := Builders.NewBuilder(base, bucket);
    var chosen := GetBehavior(b, slug, a, env);
    var added := AddBehavior(b, slug, a, args, env).value;
    var defaulted := DefaultBehavior(added, d, dargs, env).value;
    if Buckets.Enabled(bucket, chosen).value.enabled {
      assert defaulted == added;
      assert added.latched == Some(chosen) && added.args == args;
    } else {
      assert added.latched.None? && !added.waived;
      assert defaulted.latched == Some(GetDefaultBehavior(added, d, env)) && defaulted.args == dargs;
    }
  }

  /** The same chain as written: when the bucket does not enable the
      registration, the default raises instead of being selected. */
  lemma ToggleAsWrittenRaises(base: string, bucket: Bucket, slug: string, a: StrategyArg, args: seq<Value>,
                              d: StrategyArg, dargs: seq<Value>, env: Scope)
    requires !Blank(a)
    requires Buckets.Enabled(bucket, GetBehavior(Builders.NewBuilder(base, bucket), slug, a, env)).Ok?
    requires !Buckets.Enabled(bucket, GetBehavior(Builders.NewBuilder(base, bucket), slug, a, env)).value.enabled
    ensures var added := AddBehaviorAsWritten(Builders.NewBuilder(base, bucket), slug, a, args, env);
      added.Ok? && DefaultBehaviorAsWritten(added.value, d, dargs, env) == Err(EngineError(UndefinedDefaultSlug))
  {
  }

  /** The last enabled registration wins over an earlier one. */
  lemma LaterRegistrationWins(b: Builder, s1: string, a1: StrategyArg, args1: seq<Value>,
                              s2: string, a2: StrategyArg, args2: seq<Value>, env: Scope)
    requires AddBehavior(b, s1, a1, args1, env).Ok?
    requires var b1 := AddBehavior(b, s1, a1, args1, env).value;
      Buckets.Enabled(b1.bucket, GetBehavior(b1, s2, a2, env)).Ok? &&
      Buckets.Enabled(b1.bucket, GetBehavior(b1, s2, a2, env)).value.enabled
    ensures var b2 := AddBehavior(AddBehavior(b, s1, a1, args1, env).value, s2, a2, args2, env);
      b2.Ok? && Execute(b2.value) == Ok(Behaviors.Execute(GetBehavior(b, s2, a2, env), args2))
  {
    var b1 := AddBehavior(b, s1, a1, args1, env).value;
    assert GetBehavior(b1, s2, a2, env) == GetBehavior(b, s2, a2, env);
  }
}
