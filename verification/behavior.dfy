/** Behaviors: a fully qualified slug paired with a strategy, and the
    resolution of the strategy arguments the builders accept.

    A strategy is what PHP calls a callable. The model knows two kinds: a
    closure returning a fixed value (`fn() => $value`, which ignores any
    arguments it is given) and arbitrary code, a total function of the
    positional arguments. Which names denote callables (global functions,
    `Owner::method` strings, `[owner, method]` arrays) is not something the
    engine decides; it is a Scope the caller supplies. */
module Behaviors {
  import opened Php

  datatype Strategy =
    | Constant(value: Value)
    | Code(body: seq<Value> -> Value)

  /** `call_user_func_array($strategy, $args)`. */
  function Apply(s: Strategy, args: seq<Value>): Value
  {
    match s
    case Constant(v) => v
    case Code(f) => f(args)
  }

  /** A slug and the strategy to run when it is selected. Neither is ever
      changed after construction. */
  datatype Behavior = Behavior(slug: string, strategy: Strategy)

  /** `Behavior::execute($args)`: the strategy's result on the arguments,
      returned as it is (a falsy result included). */
  function Execute(b: Behavior, args: seq<Value>): (r: Value)
    ensures b.strategy.Constant? ==> r == b.strategy.value
    ensures b.strategy.Code? ==> r == b.strategy.body(args)
  {
    Apply(b.strategy, args)
  }

  /** `execute()` with its default argument list. */
  function ExecuteDefault(b: Behavior): (r: Value)
    ensures r == Execute(b, [])
  {
    Apply(b.strategy, [])
  }

  /** A constant strategy answers the same whatever the arguments. */
  lemma ConstantIgnoresArguments(b: Behavior, args1: seq<Value>, args2: seq<Value>)
    requires b.strategy.Constant?
    ensures Execute(b, args1) == Execute(b, args2) == ExecuteDefault(b)
  {
  }

  /** What a caller passes as a strategy: something invokable (a closure or
      an invokable object) or a plain PHP value, which may or may not name a
      callable. */
  datatype StrategyArg = Invokable(strategy: Strategy) | Plain(value: Value)

  /** The callables that names resolve to: global functions by name and
      methods by (owner, method name). `hidden` marks the methods that
      exist but that `is_callable` rejects from outside their class
      (private and protected ones). */
  datatype Scope = Scope(
    functions: map<string, Strategy>,
    methods: map<(string, string), Strategy>,
    hidden: set<(string, string)>)

  /** `empty($strategy)`: a plain falsy value. Objects are never empty. */
  predicate Blank(a: StrategyArg)
  {
    a.Plain? && !Truthy(a.value)
  }

  /** `explode('::', $s)`: split at every "::", leftmost first. */
  function ExplodeScope(s: string): (r: seq<string>)
    ensures |r| >= 1
    decreases |s|
  {
    if |s| < 2 then [s]
    else if s[..2] == "::" then [""] + ExplodeScope(s[2..])
    else
      var rest := ExplodeScope(s[1..]);
      [[s[0]] + rest[0]] + rest[1..]
  }

  /** `implode('::', $parts)`. */
  function ImplodeScope(parts: seq<string>): string
    requires |parts| >= 1
  {
    if |parts| == 1 then parts[0] else parts[0] + "::" + ImplodeScope(parts[1..])
  }

  /** Exploding at "::" loses nothing: imploding the parts gives the string
      back. */
  lemma {:induction false} ImplodeExplodeScope(s: string)
    ensures ImplodeScope(ExplodeScope(s)) == s
    decreases |s|
  {
    if |s| < 2 {
    } else if s[..2] == "::" {
      ImplodeExplodeScope(s[2..]);
      var rest := ExplodeScope(s[2..]);
      assert ([""] + rest)[1..] == rest;
      assert s == "::" + s[2..];
    } else {
      var rest := ExplodeScope(s[1..]);
      ImplodeExplodeScope(s[1..]);
      var r := ExplodeScope(s);
      assert r == [[s[0]] + rest[0]] + rest[1..];
      if |rest| == 1 {
        assert s == [s[0]] + s[1..];
      } else {
        assert r[1..] == rest[1..];
        assert s == [s[0]] + s[1..];
      }
    }
  }

  /** A string without ':' is one part. */
  lemma {:induction false} ExplodeColonFree(s: string)
    requires ':' !in s
    ensures ExplodeScope(s) == [s]
    decreases |s|
  {
    if |s| >= 2 {
      assert s[0] in s;
      ExplodeColonFree(s[1..]);
      assert [s[0]] + s[1..] == s;
    }
  }

  /** A colon-free head merges into the first part of what follows. */
  lemma {:induction false} ExplodeConcat(a: string, t: string)
    requires ':' !in a
    ensures ExplodeScope(a + t) == [a + ExplodeScope(t)[0]] + ExplodeScope(t)[1..]
    decreases |a|
  {
    var e := ExplodeScope(t);
    if |a| == 0 {
      assert a + t == t;
      assert a + e[0] == e[0];
      assert e == [e[0]] + e[1..];
    } else {
      assert a[0] in a;
      ExplodeConcat(a[1..], t);
      assert (a + t)[1..] == a[1..] + t;
      assert [a[0]] + (a[1..] + e[0]) == a + e[0];
      if |a + t| < 2 {
        assert t == [] && |a| == 1;
        assert e == [""];
      } else {
        assert (a + t)[..2] != "::";
      }
    }
  }

  /** "Owner::method" explodes into the owner and the method name. */
  lemma ExplodeQualifiedName(owner: string, member: string)
    requires ':' !in owner && ':' !in member
    ensures ExplodeScope(owner + "::" + member) == [owner, member]
  {
    var t := "::" + member;
    assert owner + "::" + member == owner + t;
    ExplodeConcat(owner, t);
    assert t[..2] == "::" && t[2..] == member;
    ExplodeColonFree(member);
    assert ExplodeScope(t) == ["", member];
    assert owner + "" == owner;
  }

  /** What a strategy resolves to: a closure as itself, a string naming a
      function or an "Owner::method" pair, or an array of exactly an owner
      and a method name. This is `is_callable` or `method_exists`: a method
      resolves whether or not it is hidden. */
  function Callable(env: Scope, a: StrategyArg): (r: Option<Strategy>)
    ensures a.Invokable? ==> r == Some(a.strategy)
    ensures a.Plain? && !a.value.Str? && !a.value.List? ==> r.None?
    ensures a.Plain? && a.value.Str? && a.value.s in env.functions ==> r == Some(env.functions[a.value.s])
    ensures r.Some? && a.Plain? && a.value.List? ==>
      |a.value.items| == 2 && a.value.items[0].Str? && a.value.items[1].Str? &&
      (a.value.items[0].s, a.value.items[1].s) in env.methods
  {
    match a
    case Invokable(s) => Some(s)
    case Plain(Str(name)) =>
      if name in env.functions then Some(env.functions[name])
      else
        var parts := ExplodeScope(name);
        if |parts| == 2 && (parts[0], parts[1]) in env.methods
        then Some(env.methods[(parts[0], parts[1])]) else None
    case Plain(List(items)) =>
      if |items| == 2 && items[0].Str? && items[1].Str? && (items[0].s, items[1].s) in env.methods
      then Some(env.methods[(items[0].s, items[1].s)]) else None
    case Plain(_) => None
  }

  /** The strategy names a method the scope marks as hidden. */
  predicate Hidden(env: Scope, a: StrategyArg)
  {
    match a
    case Invokable(_) => false
    case Plain(Str(name)) =>
      var parts := ExplodeScope(name);
      name !in env.functions && |parts| == 2 && (parts[0], parts[1]) in env.hidden
    case Plain(List(items)) =>
      |items| == 2 && items[0].Str? && items[1].Str? && (items[0].s, items[1].s) in env.hidden
    case Plain(_) => false
  }

  /** `is_callable($strategy)` from outside the owner: it resolves and is
      not a hidden method. */
  predicate IsCallable(env: Scope, a: StrategyArg)
  {
    Callable(env, a).Some? && !Hidden(env, a)
  }

  /** The string form "Owner::method" and the array form [Owner, method]
      name the same callable (unless the string is itself a function name). */
  lemma QualifiedStringMatchesPair(env: Scope, owner: string, member: string)
    requires ':' !in owner && ':' !in member
    requires owner + "::" + member !in env.functions
    ensures Callable(env, Plain(Str(owner + "::" + member))) == Callable(env, Plain(List([Str(owner), Str(member)])))
  {
    ExplodeQualifiedName(owner, member);
  }
}
