/**
 * What the lifetime managers handle: the objects a resolver hands out, the
 * outcome of calling a delegate, and the delegates themselves. A user
 * delegate is opaque; what it returns or throws when it is called is given
 * to the manager as the `supplied` outcome, so each manager is modelled on
 * one thread with its caller choosing what the resolver does.
 */
module Lifetimes {
  import opened Types

  /** A reference: null, or an object with an identity and its runtime type. */
  datatype Value = Null | Instance(id: nat, runtimeType: Type)

  /** What a call produced: a value, or an exception with its message. */
  datatype Outcome = Returned(value: Value) | Thrown(message: string)

  /** A Func<T> field: unset (null), the "no resolver" thrower a manager starts with, or a
      caller's function. */
  datatype Delegate = NullDelegate | NotSetThrower(typeName: string) | Func(id: nat)

  /** The answer of one GetValue: the manager's state afterwards, what it gave back, and
      whether it called its resolver. */
  datatype Served<S> = Served(state: S, outcome: Outcome, called: bool)

  const ErrorNoResolverSet := "No resolver has been set for type "

  /** Calling a delegate: a null one raises NullReferenceException, the initial thrower
      raises its message, a caller's function does what `supplied` says. */
  function Call(d: Delegate, supplied: Outcome): (r: Outcome)
    ensures d.Func? ==> r == supplied
    ensures !d.Func? ==> r.Thrown?
  {
    match d
    case NullDelegate => Thrown(ErrorNullReference)
    case NotSetThrower(name) => Thrown(ErrorNoResolverSet + name)
    case Func(_) => supplied
  }

  /** `value as T`: the value itself when its runtime type is assignable to T, null otherwise. */
  function AsType(v: Value, t: Type): (r: Value)
    ensures r == v || r == Null
    ensures r.Instance? <==> v.Instance? && Assignable(t, v.runtimeType)
  {
    if v.Instance? && Assignable(t, v.runtimeType) then v else Null
  }

  /** A [ThreadStatic] static field of a generic manager class: one slot per closed T on the
      current thread, shared by every manager instance for that T. */
  class ThreadSlot {
    var instance: Value

    constructor()
      ensures instance == Null
    {
      instance := Null;
    }
  }

  /** HttpContext.Items of the current request, a dictionary of objects by key. */
  class ContextItems {
    var items: map<string, Value>

    constructor(items: map<string, Value>)
      ensures this.items == items
    {
      this.items := items;
    }
  }

  /** The indexer of HttpContext.Items: a missing key reads as null. */
  function Slot(items: map<string, Value>, key: string): (v: Value)
    ensures key !in items ==> v == Null
  {
    if key in items then items[key] else Null
  }
}
