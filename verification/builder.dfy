/** The behavior-selection state machine of a feature. A builder belongs to
    one base slug and one bucket and keeps at most one latched behavior with
    its arguments, plus the flag set by `noDefault`. Registering a behavior
    or a value latches it iff the bucket enables it, overwriting whatever was
    latched; a default latches only while nothing is latched. Every
    transition gives a new state or the exception the class throws. The
    calls of the bucket's missing-slug callback are kept in `notices`. */
module Builders {
  import opened Php
  import opened Slugs
  import opened FeatureMaps
  import opened Behaviors
  import opened Buckets

  const DefaultSlug := "__swivel_default"
  const DefaultStrategy := "__swivel_default_strategy"

  const InvalidCallable := "Invalid callable passed to Zumba\\Swivel\\Builder::getBehavior"
  const BehaviorAfterWaive := "Defined a default behavior after `noDefault` was called."
  const ValueAfterWaive := "Defined a default value after `noDefault` was called."
  const WaiveAfterDefault := "Called `noDefault` after a default behavior was defined."
  const OwnerNotObjectOrString := "method_exists(): Argument #1 ($object_or_class) must be of type object|string, array given"
  const MethodNotString := "method_exists(): Argument #2 ($method) must be of type string, array given"
  const NotStringOrCallable := "Zumba\\Swivel\\Builder::getBehavior(): Argument #1 ($slug) must be of type callable|string"

  datatype Builder = Builder(
    base: string,
    bucket: Bucket,
    latched: Option<Behavior>,
    args: seq<Value>,
    waived: bool,
    notices: seq<Notice>)

  /** The constructor: nothing latched, no arguments, default required. */
  function NewBuilder(base: string, bucket: Bucket): (r: Builder)
    ensures r.base == base && r.bucket == bucket
    ensures r.latched.None? && r.args == [] && !r.waived && r.notices == []
  {
    Builder(base, bucket, None, [], false, [])
  }

  /** The slug of a behavior: the base for an `empty()` child, otherwise
      base.child. */
  function ChildSlug(base: string, child: string): (r: string)
    ensures EmptyString(child) ==> r == base
    ensures !EmptyString(child) ==> |r| == |base| + 1 + |child| && r[..|base|] == base && r[|base|] == Delimiter
  {
    if EmptyString(child) then base else base + [Delimiter] + child
  }

  /** The slug lies in the base's subtree: it is the base or starts with
      the base and a delimiter. */
  predicate UnderBase(base: string, slug: string)
  {
    slug == base || (|slug| > |base| && slug[..|base|] == base && slug[|base|] == Delimiter)
  }

  /** The segments of a child slug are the base's followed by the child's,
      so the map walk checks the whole base feature before the child. */
  lemma ChildSlugSegments(base: string, child: string)
    requires !EmptyString(child)
    ensures UnderBase(base, ChildSlug(base, child))
    ensures Split(ChildSlug(base, child)) == Split(base) + Split(child)
  {
    SplitAppend(base, child);
  }

  /** The strategy argument is the literal that selects the one-argument
      form. */
  predicate IsDefaultStrategy(a: StrategyArg)
  {
    a.Plain? && a.value == Str(DefaultStrategy)
  }

  /** An array whose first two entries are set (not null) and one of them
      is itself an array: `method_exists` rejects it with a TypeError. */
  predicate NestedPair(a: StrategyArg)
  {
    a.Plain? && a.value.List? && |a.value.items| >= 2 &&
    a.value.items[0] != Null && a.value.items[1] != Null &&
    (a.value.items[0].List? || a.value.items[1].List?)
  }

  /** The error a strategy that does not resolve raises: the TypeError of
      `method_exists` for a nested pair, otherwise "Invalid callable". */
  function Unresolved(a: StrategyArg): (e: Error)
    ensures !NestedPair(a) <==> e == LogicError(InvalidCallable)
    ensures NestedPair(a) && a.value.items[0].List? ==> e == TypeError(OwnerNotObjectOrString)
    ensures NestedPair(a) && !a.value.items[0].List? ==> e == TypeError(MethodNotString)
  {
    if !NestedPair(a) then LogicError(InvalidCallable)
    else if a.value.items[0].List? then TypeError(OwnerNotObjectOrString)
    else TypeError(MethodNotString)
  }

  /** Validate a strategy: `is_callable`, or a method that exists and is
      bound to its owner (a hidden one included); anything else is an
      error. */
  function Resolve(env: Scope, a: StrategyArg): (r: Result<Strategy>)
    ensures r.Ok? <==> Callable(env, a).Some?
    ensures r.Ok? ==> r.value == Callable(env, a).value
    ensures r.Err? && !NestedPair(a) ==> r.error == LogicError(InvalidCallable)
    ensures r.Err? && NestedPair(a) ==> r.error.TypeError?
  {
    match Callable(env, a)
    case Some(s) => Ok(s)
    case None => Err(Unresolved(a))
  }

  /** The behavior for a child slug and a strategy argument. */
  function Compose(base: string, child: string, a: StrategyArg, env: Scope): (r: Result<Behavior>)
    ensures r.Ok? <==> Callable(env, a).Some?
    ensures r.Ok? ==> r.value.slug == ChildSlug(base, child) && r.value.strategy == Callable(env, a).value
    ensures r.Err? ==> r.error == Unresolved(a)
  {
    var s :- Resolve(env, a);
    Ok(Behavior(ChildSlug(base, child), s))
  }

  /** `getBehavior($slug, $strategy)`, the two-argument form. The literal
      DEFAULT_STRATEGY as strategy switches to the one-argument form with
      the slug as strategy. */
  function GetBehavior(b: Builder, slug: string, strategy: StrategyArg, env: Scope): (r: Result<Behavior>)
    ensures r.Ok? ==> UnderBase(b.base, r.value.slug)
    ensures r.Err? && !NestedPair(strategy) ==> r.error == LogicError(InvalidCallable)
    ensures r.Err? && NestedPair(strategy) ==> r.error == Unresolved(strategy)
    ensures !IsDefaultStrategy(strategy) ==> (r.Ok? <==> Callable(env, strategy).Some?)
    ensures !IsDefaultStrategy(strategy) && r.Ok? ==>
      r.value.slug == ChildSlug(b.base, slug) && r.value.strategy == Callable(env, strategy).value
    ensures IsDefaultStrategy(strategy) ==> (r.Ok? <==> Callable(env, Plain(Str(slug))).Some?)
    ensures IsDefaultStrategy(strategy) && r.Ok? ==> r.value.slug == ChildSlug(b.base, DefaultSlug)
  {
    if IsDefaultStrategy(strategy) then Compose(b.base, DefaultSlug, Plain(Str(slug)), env)
    else Compose(b.base, slug, strategy, env)
  }

  /** The one-argument form builds a behavior from the strategy: it
      resolves, and it is not an array naming a hidden method (which the
      `callable` parameter type refuses). */
  predicate DefaultAccepts(env: Scope, a: StrategyArg)
  {
    Callable(env, a).Some? && !(a.Plain? && a.value.List? && Hidden(env, a))
  }

  /** `getBehavior($strategy)`, the one-argument form used for defaults.
      The parameter is declared `string|callable`, so null and an array
      that `is_callable` rejects from the builder (a hidden method among
      them) are refused with a TypeError before the strategy check. */
  function GetDefaultBehavior(b: Builder, strategy: StrategyArg, env: Scope): (r: Result<Behavior>)
    ensures strategy == Plain(Null) ==> r == Err(TypeError(NotStringOrCallable))
    ensures strategy.Plain? && strategy.value.List? && !IsCallable(env, strategy) ==>
      r == Err(TypeError(NotStringOrCallable))
    ensures r.Err? && r.error.LogicError? ==> Callable(env, strategy).None?
    ensures r.Ok? <==> DefaultAccepts(env, strategy)
    ensures r.Ok? ==> r.value.slug == ChildSlug(b.base, DefaultSlug) && r.value.strategy == Callable(env, strategy).value
  {
    if strategy.Plain? && (strategy.value.Null? || (strategy.value.List? && !IsCallable(env, strategy)))
    then Err(TypeError(NotStringOrCallable))
    else Compose(b.base, DefaultSlug, strategy, env)
  }

  /** A hidden method named by an `[owner, method]` array: the
      two-argument form binds it, the one-argument form refuses it with
      the TypeError of its `callable` parameter. */
  lemma HiddenPairOnlyAsRegistration(b: Builder, slug: string, owner: string, name: string, env: Scope)
    requires (owner, name) in env.methods && (owner, name) in env.hidden
    requires !IsDefaultStrategy(Plain(List([Str(owner), Str(name)])))
    ensures GetBehavior(b, slug, Plain(List([Str(owner), Str(name)])), env) ==
      Ok(Behavior(ChildSlug(b.base, slug), env.methods[(owner, name)]))
    ensures GetDefaultBehavior(b, Plain(List([Str(owner), Str(name)])), env) == Err(TypeError(NotStringOrCallable))
  {
    var a := Plain(List([Str(owner), Str(name)]));
    assert Callable(env, a) == Some(env.methods[(owner, name)]);
    assert Hidden(env, a);
  }

  /** The behavior `addValue($slug, $value)` registers. */
  function ValueBehavior(base: string, slug: string, value: Value): (r: Behavior)
    ensures r.slug == ChildSlug(base, slug) && r.strategy == Constant(value)
  {
    Behavior(ChildSlug(base, slug), Constant(value))
  }

  /** `setBehavior`: latch a behavior with its arguments. */
  function SetBehavior(b: Builder, behavior: Behavior, args: seq<Value>): (r: Builder)
    ensures r.latched == Some(behavior) && r.args == args
    ensures r.base == b.base && r.bucket == b.bucket && r.waived == b.waived && r.notices == b.notices
  {
    b.(latched := Some(behavior), args := args)
  }

  /** What asking the bucket about a candidate does to a builder: the call
      fails iff the bucket's query fails, with its error; otherwise the
      candidate and its arguments are latched iff the bucket enables it (an
      earlier latch is kept otherwise), the bucket's notices are appended,
      and base, bucket and waiver are unchanged. */
  ghost predicate Offered(b: Builder, behavior: Behavior, args: seq<Value>, r: Result<Builder>)
  {
    var v := Buckets.Enabled(b.bucket, behavior);
    (r.Ok? <==> v.Ok?) &&
    (r.Err? ==> r.error == v.error) &&
    (r.Ok? ==>
      r.value.base == b.base && r.value.bucket == b.bucket && r.value.waived == b.waived &&
      r.value.notices == b.notices + v.value.notices &&
      r.value.latched == (if v.value.enabled then Some(behavior) else b.latched) &&
      r.value.args == (if v.value.enabled then args else b.args))
  }

  /** Ask the bucket about a candidate and latch it iff it is enabled. */
  function Offer(b: Builder, behavior: Behavior, args: seq<Value>): (r: Result<Builder>)
    ensures Offered(b, behavior, args, r)
  {
    var v :- Buckets.Enabled(b.bucket, behavior);
    var heard := b.(notices := b.notices + v.notices);
    if v.enabled then Ok(SetBehavior(heard, behavior, args)) else Ok(heard)
  }

  /** `addBehavior($slug, $strategy, $args)`. */
  function AddBehavior(b: Builder, slug: string, strategy: StrategyArg, args: seq<Value>, env: Scope): (r: Result<Builder>)
    ensures GetBehavior(b, slug, strategy, env).Err? && !NestedPair(strategy) ==> r == Err(LogicError(InvalidCallable))
    ensures GetBehavior(b, slug, strategy, env).Err? && NestedPair(strategy) ==> r == Err(Unresolved(strategy))
    ensures GetBehavior(b, slug, strategy, env).Ok? ==> Offered(b, GetBehavior(b, slug, strategy, env).value, args, r)
  {
    var behavior :- GetBehavior(b, slug, strategy, env);
    Offer(b, behavior, args)
  }

  /** `addValue($slug, $value)`: a constant strategy under the child slug,
      with no arguments, latched iff the bucket enables it. */
  function AddValue(b: Builder, slug: string, value: Value): (r: Result<Builder>)
    ensures Offered(b, Behavior(ChildSlug(b.base, slug), Constant(value)), [], r)
  {
    Offer(b, ValueBehavior(b.base, slug, value), [])
  }

  /** `defaultBehavior($strategy, $args)`: refused after `noDefault`;
      otherwise latches only when nothing is latched (and only then is the
      strategy checked). */
  function DefaultBehavior(b: Builder, strategy: StrategyArg, args: seq<Value>, env: Scope): (r: Result<Builder>)
    ensures b.waived ==> r == Err(LogicError(BehaviorAfterWaive))
    ensures !b.waived && b.latched.Some? ==> r == Ok(b)
    ensures !b.waived && b.latched.None? ==> (r.Ok? <==> GetDefaultBehavior(b, strategy, env).Ok?)
    ensures !b.waived && b.latched.None? && r.Ok? ==>
      r.value == SetBehavior(b, GetDefaultBehavior(b, strategy, env).value, args)
    ensures r.Err? && !b.waived ==> r.error == GetDefaultBehavior(b, strategy, env).error
  {
    if b.waived then Err(LogicError(BehaviorAfterWaive))
    else if b.latched.None? then
      var behavior :- GetDefaultBehavior(b, strategy, env);
      Ok(SetBehavior(b, behavior, args))
    else Ok(b)
  }

  /** The behavior `defaultValue($value)` registers. */
  function DefaultValueBehavior(base: string, value: Value): (r: Behavior)
    ensures r.slug == ChildSlug(base, DefaultSlug) && r.strategy == Constant(value)
  {
    Behavior(ChildSlug(base, DefaultSlug), Constant(value))
  }

  /** `defaultValue($value)`: as `defaultBehavior` with a constant. */
  function DefaultValue(b: Builder, value: Value): (r: Result<Builder>)
    ensures b.waived ==> r == Err(LogicError(ValueAfterWaive))
    ensures !b.waived && b.latched.Some? ==> r == Ok(b)
    ensures !b.waived && b.latched.None? ==> r == Ok(SetBehavior(b, DefaultValueBehavior(b.base, value), []))
  {
    if b.waived then Err(LogicError(ValueAfterWaive))
    else if b.latched.None? then Ok(SetBehavior(b, DefaultValueBehavior(b.base, value), []))
    else Ok(b)
  }

  /** `noDefault()` as written: refused when the latched behavior's slug
      is exactly the bare DEFAULT_SLUG; otherwise waives the default and
      changes nothing else. */
  function NoDefaultAsWritten(b: Builder): (r: Result<Builder>)
    ensures r.Err? <==> b.latched.Some? && b.latched.value.slug == DefaultSlug
    ensures r.Err? ==> r.error == LogicError(WaiveAfterDefault)
    ensures r.Ok? ==> r.value == b.(waived := true)
  {
    if b.latched.Some? && b.latched.value.slug == DefaultSlug then Err(LogicError(WaiveAfterDefault))
    else Ok(b.(waived := true))
  }

  /** `noDefault()` comparing with the slug a default is latched under,
      base.__swivel_default: refused after a default, otherwise waives the
      default and changes nothing else. */
  function NoDefault(b: Builder): (r: Result<Builder>)
    ensures r.Err? <==> b.latched.Some? && b.latched.value.slug == ChildSlug(b.base, DefaultSlug)
    ensures r.Err? ==> r.error == LogicError(WaiveAfterDefault)
    ensures r.Ok? ==> r.value == b.(waived := true)
  {
    if b.latched.Some? && b.latched.value.slug == ChildSlug(b.base, DefaultSlug) then Err(LogicError(WaiveAfterDefault))
    else Ok(b.(waived := true))
  }

  /** `execute()`: null when nothing is latched (a fresh default returning
      null runs instead), otherwise the latched strategy on the latched
      arguments, whatever it returns. */
  function Execute(b: Builder): (r: Value)
    ensures b.latched.None? ==> r == Null
    ensures b.latched.Some? ==> r == Behaviors.Execute(b.latched.value, b.args)
  {
    match b.latched
    case None => Behaviors.Execute(Behavior(ChildSlug(b.base, DefaultSlug), Constant(Null)), [])
    case Some(behavior) => Behaviors.Execute(behavior, b.args)
  }

  // ------------------------------------------------------- noDefault guard

  /** Every latched slug lies in the base's subtree. */
  predicate Rooted(b: Builder)
  {
    b.latched.Some? ==> UnderBase(b.base, b.latched.value.slug)
  }

  /** A slug in the subtree of base equals the bare DEFAULT_SLUG only when
      the base is DEFAULT_SLUG itself, because DEFAULT_SLUG has no
      delimiter. */
  lemma BareDefaultNeedsDefaultBase(base: string, slug: string)
    requires UnderBase(base, slug)
    requires slug == DefaultSlug
    ensures base == DefaultSlug
  {
  }

  /** The guard of `noDefault` as written fires only for a feature whose
      base slug is "__swivel_default"; in particular not after
      `defaultBehavior` or `defaultValue`, whose slug is
      base.__swivel_default. */
  lemma NoDefaultGuardNeedsDefaultBase(b: Builder)
    requires Rooted(b)
    ensures NoDefaultAsWritten(b).Err? ==> b.base == DefaultSlug
  {
    if NoDefaultAsWritten(b).Err? {
      BareDefaultNeedsDefaultBase(b.base, b.latched.value.slug);
    }
  }

  /** As written, `noDefault` succeeds after a default is latched. */
  lemma NoDefaultAfterDefaultSucceeds(b: Builder, strategy: StrategyArg, args: seq<Value>, env: Scope, value: Value)
    requires !b.waived && b.latched.None?
    ensures DefaultBehavior(b, strategy, args, env).Ok? ==>
      NoDefaultAsWritten(DefaultBehavior(b, strategy, args, env).value).Ok?
    ensures DefaultValue(b, value).Ok? && NoDefaultAsWritten(DefaultValue(b, value).value).Ok?
  {
    assert |ChildSlug(b.base, DefaultSlug)| > |DefaultSlug|;
  }

  /** With the corrected guard a default and a waiver exclude each other in
      either order: `noDefault` after a latched default is refused, and a
      default after `noDefault` is refused. */
  lemma DefaultAndWaiverExclude(b: Builder, strategy: StrategyArg, args: seq<Value>, env: Scope, value: Value)
    requires !b.waived && b.latched.None?
    ensures DefaultBehavior(b, strategy, args, env).Ok? ==>
      NoDefault(DefaultBehavior(b, strategy, args, env).value) == Err(LogicError(WaiveAfterDefault))
    ensures NoDefault(DefaultValue(b, value).value) == Err(LogicError(WaiveAfterDefault))
    ensures NoDefault(b).Ok? && DefaultBehavior(NoDefault(b).value, strategy, args, env) == Err(LogicError(BehaviorAfterWaive))
    ensures NoDefault(b).Ok? && DefaultValue(NoDefault(b).value, value) == Err(LogicError(ValueAfterWaive))
  {
  }

  /** A behavior of the feature is enabled only when the feature itself
      is: its slug extends the base, so the map walk passes every prefix of
      the base first. */
  lemma BehaviorNeedsFeature(base: string, child: string, t: Table, bit: Masks.Mask)
    requires WellRooted(Split(base)) && !EmptyString(child)
    requires Walk(t, ChildSlug(base, child), Split(ChildSlug(base, child)), "", bit).enabled
    ensures Walk(t, base, Split(base), "", bit).enabled
  {
    var slug := ChildSlug(base, child);
    ChildSlugSegments(base, child);
    var k := |Split(base)|;
    assert Split(slug)[..k] == Split(base);
    JoinSplit(base);
    AncestorsEnabled(t, slug, bit, k);
  }

  // ------------------------------------------------------ call sequences

  /** Which `noDefault` a chain of calls runs: the guard as written or the
      corrected one. The chain lemmas below hold for both. */
  datatype Guard = AsWritten | Corrected

  /** `noDefault()` under the chosen guard. */
  function Waiver(g: Guard, b: Builder): (r: Result<Builder>)
    ensures r.Err? ==> r.error == LogicError(WaiveAfterDefault) && b.latched.Some?
    ensures r.Ok? ==> r.value == b.(waived := true)
    ensures b.latched.None? ==> r.Ok?
  {
    match g
    case AsWritten => NoDefaultAsWritten(b)
    case Corrected => NoDefault(b)
  }

  /** One call on a builder. */
  datatype Step =
    | AddB(slug: string, strategy: StrategyArg, args: seq<Value>)
    | AddV(slug: string, value: Value)
    | DefB(strategy: StrategyArg, args: seq<Value>)
    | DefV(value: Value)
    | Waive

  function StepOnce(b: Builder, s: Step, env: Scope, g: Guard): Result<Builder>
  {
    match s
    case AddB(slug, strategy, args) => AddBehavior(b, slug, strategy, args, env)
    case AddV(slug, value) => AddValue(b, slug, value)
    case DefB(strategy, args) => DefaultBehavior(b, strategy, args, env)
    case DefV(value) => DefaultValue(b, value)
    case Waive => Waiver(g, b)
  }

  /** A chain of calls; the first exception ends it. What the chain
      selects is stated by `RunSelects` below. */
  function Run(b: Builder, steps: seq<Step>, env: Scope, g: Guard): (r: Result<Builder>)
    ensures r.Ok? ==> r.value.base == b.base && r.value.bucket == b.bucket
    decreases |steps|
  {
    if steps == [] then Ok(b)
    else
      var next :- StepOnce(b, steps[0], env, g);
      Run(next, steps[1..], env, g)
  }

  /** Every child slug lies in the base's subtree. */
  lemma ChildSlugUnderBase(base: string, child: string)
    ensures UnderBase(base, ChildSlug(base, child))
  {
  }

  /** One call keeps the latched slug in the base's subtree. */
  lemma StepKeepsRooted(b: Builder, s: Step, env: Scope, g: Guard)
    requires Rooted(b)
    requires StepOnce(b, s, env, g).Ok?
    ensures Rooted(StepOnce(b, s, env, g).value)
  {
    match s
    case AddB(slug, strategy, args) =>
    case AddV(slug, value) =>
      ChildSlugUnderBase(b.base, slug);
    case DefB(strategy, args) =>
      ChildSlugUnderBase(b.base, DefaultSlug);
    case DefV(value) =>
      ChildSlugUnderBase(b.base, DefaultSlug);
    case Waive =>
  }

  /** Every chain of calls keeps the latched slug in the base's subtree. */
  lemma {:induction false} RunKeepsRooted(b: Builder, steps: seq<Step>, env: Scope, g: Guard)
    requires Rooted(b)
    requires Run(b, steps, env, g).Ok?
    ensures Rooted(Run(b, steps, env, g).value)
    decreases |steps|
  {
    if steps != [] {
      StepKeepsRooted(b, steps[0], env, g);
      RunKeepsRooted(StepOnce(b, steps[0], env, g).value, steps[1..], env, g);
    }
  }

  /** Whatever chain of calls a fresh builder went through, under either
      guard, `noDefault` as written refuses only when the feature's own slug
      is "__swivel_default". */
  lemma NoDefaultRefusesOnlyDefaultFeature(base: string, bucket: Bucket, steps: seq<Step>, env: Scope, g: Guard)
    requires Run(NewBuilder(base, bucket), steps, env, g).Ok?
    ensures NoDefaultAsWritten(Run(NewBuilder(base, bucket), steps, env, g).value).Err? ==> base == DefaultSlug
  {
    RunKeepsRooted(NewBuilder(base, bucket), steps, env, g);
    NoDefaultGuardNeedsDefaultBase(Run(NewBuilder(base, bucket), steps, env, g).value);
  }

  /** A behavior and the arguments it runs with. */
  datatype Selection = Selection(behavior: Behavior, args: seq<Value>)

  /** What a builder has selected. */
  function Chosen(b: Builder): Option<Selection>
  {
    if b.latched.Some? then Some(Selection(b.latched.value, b.args)) else None
  }

  /** The candidate a registration offers when the bucket enables it,
      whatever the builder's state (it depends only on base and bucket). */
  function Candidate(base: string, bucket: Bucket, s: Step, env: Scope): Option<Selection>
  {
    match s
    case AddB(slug, strategy, args) =>
      var g := GetBehavior(NewBuilder(base, bucket), slug, strategy, env);
      if g.Ok? && Buckets.Enabled(bucket, g.value).Ok? && Buckets.Enabled(bucket, g.value).value.enabled
      then Some(Selection(g.value, args)) else None
    case AddV(slug, value) =>
      var v := ValueBehavior(base, slug, value);
      if Buckets.Enabled(bucket, v).Ok? && Buckets.Enabled(bucket, v).value.enabled
      then Some(Selection(v, [])) else None
    case _ => None
  }

  /** The default a default call offers. */
  function Fallback(base: string, bucket: Bucket, s: Step, env: Scope): Option<Selection>
  {
    match s
    case DefB(strategy, args) =>
      var g := GetDefaultBehavior(NewBuilder(base, bucket), strategy, env);
      if g.Ok? then Some(Selection(g.value, args)) else None
    case DefV(value) => Some(Selection(DefaultValueBehavior(base, value), []))
    case _ => None
  }

  /** The reference choice: the last enabled registration of the chain. */
  function LastCandidate(base: string, bucket: Bucket, steps: seq<Step>, env: Scope): Option<Selection>
    decreases |steps|
  {
    if steps == [] then None
    else
      var later := LastCandidate(base, bucket, steps[1..], env);
      if later.Some? then later else Candidate(base, bucket, steps[0], env)
  }

  /** The reference default: the first default call of the chain. */
  function FirstFallback(base: string, bucket: Bucket, steps: seq<Step>, env: Scope): Option<Selection>
    decreases |steps|
  {
    if steps == [] then None
    else if Fallback(base, bucket, steps[0], env).Some? then Fallback(base, bucket, steps[0], env)
    else FirstFallback(base, bucket, steps[1..], env)
  }

  /** Helpers of the builder depend on it only through base and bucket. */
  lemma BehaviorsIgnoreState(b: Builder)
    ensures forall slug, strategy, env :: GetBehavior(b, slug, strategy, env) == GetBehavior(NewBuilder(b.base, b.bucket), slug, strategy, env)
    ensures forall strategy, env :: GetDefaultBehavior(b, strategy, env) == GetDefaultBehavior(NewBuilder(b.base, b.bucket), strategy, env)
  {
  }

  /** One call moves the choice as the reference says: an enabled
      registration takes over; a default fills an empty choice; nothing
      else changes it. */
  lemma StepChoice(b: Builder, s: Step, env: Scope, g: Guard)
    requires StepOnce(b, s, env, g).Ok?
    ensures var c := Candidate(b.base, b.bucket, s, env);
      Chosen(StepOnce(b, s, env, g).value) ==
        if c.Some? then c
        else if b.latched.Some? then Chosen(b)
        else Fallback(b.base, b.bucket, s, env)
  {
    BehaviorsIgnoreState(b);
  }

  /** The selection after a successful chain of calls is the last enabled
      registration; failing that, what was latched before the chain;
      failing that, the first default. So the last enabled registration
      wins, and an enabled registration beats a default in either order. */
  lemma {:induction false} RunSelects(b: Builder, steps: seq<Step>, env: Scope, g: Guard)
    requires Run(b, steps, env, g).Ok?
    ensures var last := LastCandidate(b.base, b.bucket, steps, env);
      Chosen(Run(b, steps, env, g).value) ==
        if last.Some? then last
        else if b.latched.Some? then Chosen(b)
        else FirstFallback(b.base, b.bucket, steps, env)
    decreases |steps|
  {
    if steps != [] {
      var next := StepOnce(b, steps[0], env, g).value;
      StepChoice(b, steps[0], env, g);
      RunSelects(next, steps[1..], env, g);
      assert next.base == b.base && next.bucket == b.bucket by {
        match steps[0]
        case AddB(_, _, _) =>
        case AddV(_, _) =>
        case DefB(_, _) =>
        case DefV(_) =>
        case Waive =>
      }
    }
  }

  /** An enabled registration is selected whether the default comes before
      or after it. */
  lemma EnabledBeatsDefault(b: Builder, add: Step, default: Step, env: Scope, g: Guard)
    requires add.AddB? || add.AddV?
    requires default.DefB? || default.DefV?
    requires Candidate(b.base, b.bucket, add, env).Some?
    ensures Run(b, [add, default], env, g).Ok? ==>
      Chosen(Run(b, [add, default], env, g).value) == Candidate(b.base, b.bucket, add, env)
    ensures Run(b, [default, add], env, g).Ok? ==>
      Chosen(Run(b, [default, add], env, g).value) == Candidate(b.base, b.bucket, add, env)
  {
    assert [add, default][1..] == [default] && [default, add][1..] == [add];
    assert [default][1..] == [] && [add][1..] == [];
    assert LastCandidate(b.base, b.bucket, [default], env).None?;
    assert LastCandidate(b.base, b.bucket, [add], env) == Candidate(b.base, b.bucket, add, env);
    if Run(b, [add, default], env, g).Ok? {
      RunSelects(b, [add, default], env, g);
    }
    if Run(b, [default, add], env, g).Ok? {
      RunSelects(b, [default, add], env, g);
    }
  }

  /** A default, then `noDefault`, then an enabled registration: as written
      the chain goes through and `execute` returns the registered value;
      with the corrected guard it stops at `noDefault`. */
  lemma WaiverAfterDefaultDiverges(base: string, bucket: Bucket, x: Value, child: string, v: Value, env: Scope)
    requires Buckets.Enabled(bucket, ValueBehavior(base, child, v)).Ok?
    requires Buckets.Enabled(bucket, ValueBehavior(base, child, v)).value.enabled
    ensures Run(NewBuilder(base, bucket), [DefV(x), Waive, AddV(child, v)], env, AsWritten).Ok?
    ensures Execute(Run(NewBuilder(base, bucket), [DefV(x), Waive, AddV(child, v)], env, AsWritten).value) == v
    ensures Run(NewBuilder(base, bucket), [DefV(x), Waive, AddV(child, v)], env, Corrected) == Err(LogicError(WaiveAfterDefault))
  {
    var steps := [DefV(x), Waive, AddV(child, v)];
    assert steps[1..] == [Waive, AddV(child, v)] && steps[1..][1..] == [AddV(child, v)] && steps[1..][1..][1..] == [];
    var b1 := DefaultValue(NewBuilder(base, bucket), x).value;
    assert b1.latched == Some(DefaultValueBehavior(base, x));
    assert |ChildSlug(base, DefaultSlug)| > |DefaultSlug|;
    var b2 := NoDefaultAsWritten(b1).value;
    var b3 := AddValue(b2, child, v);
    assert b3.Ok? && b3.value.latched == Some(ValueBehavior(base, child, v)) && b3.value.args == [];
    assert Run(b3.value, [], env, AsWritten) == b3;
    assert Run(b2, [AddV(child, v)], env, AsWritten) == b3;
    assert Run(b1, [Waive, AddV(child, v)], env, AsWritten) == b3;
    assert Run(NewBuilder(base, bucket), steps, env, AsWritten) == b3;
  }

  /** A value registered under an enabled slug is returned by `execute`,
      falsy values included. */
  lemma EnabledValueIsReturned(b: Builder, slug: string, value: Value)
    requires AddValue(b, slug, value).Ok?
    requires Buckets.Enabled(b.bucket, ValueBehavior(b.base, slug, value)).value.enabled
    ensures Execute(AddValue(b, slug, value).value) == value
  {
    var v := ValueBehavior(b.base, slug, value);
    assert AddValue(b, slug, value).value.latched == Some(v);
    assert Behaviors.Execute(v, []) == value;
  }
}
