/** The legacy feature object: a behavior with its arguments, attached by
    the legacy builder and executed on demand. */
module Features {
  import opened Php
  import opened Masks
  import opened Behaviors

  /** The mask of a feature that is off for every cohort. */
  const Off: Mask := Zero

  const ExecuteOnNull := "Call to a member function execute() on null"

  datatype Feature = Feature(behavior: Option<Behavior>, args: seq<Value>)

  /** A new feature: no behavior and no arguments. */
  function NewFeature(): (r: Feature)
    ensures r.behavior.None? && r.args == []
  {
    Feature(None, [])
  }

  /** `attach($behavior, $args)`: replaces the behavior and the arguments. */
  function Attach(f: Feature, behavior: Behavior, args: seq<Value>): (r: Feature)
    ensures r.behavior == Some(behavior) && r.args == args
  {
    Feature(Some(behavior), args)
  }

  /** `execute()`: the attached behavior on the stored arguments; with
      nothing attached PHP calls a method on null. */
  function Execute(f: Feature): (r: Result<Value>)
    ensures f.behavior.None? ==> r == Err(EngineError(ExecuteOnNull))
    ensures f.behavior.Some? ==> r == Ok(Behaviors.Execute(f.behavior.value, f.args))
  {
    match f.behavior
    case None => Err(EngineError(ExecuteOnNull))
    case Some(b) => Ok(Behaviors.Execute(b, f.args))
  }

  /** A second attach overrides the first entirely, and executing runs
      what was attached last. */
  lemma AttachOverrides(f: Feature, b1: Behavior, a1: seq<Value>, b2: Behavior, a2: seq<Value>)
    ensures Attach(Attach(f, b1, a1), b2, a2) == Attach(f, b2, a2)
    ensures Execute(Attach(Attach(f, b1, a1), b2, a2)) == Ok(Behaviors.Execute(b2, a2))
  {
  }
}
