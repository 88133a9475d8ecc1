/**
 * Factory terms: the expression trees the engine builds and compiles,
 * as plain data. Each term stands for a function from a resolution context
 * to an instance.
 */
module Factories {
  import opened Types

  /** An identifier for a lifetime manager object. */
  type ManagerId = nat

  datatype Factory =
    | Resolve(target: Type)                    // InternalResolver<target>.Resolve(context) / Injector.Resolve<target>()
    | DefaultValue(valueType: Type)            // default(valueType)
    | Construct(ctor: Ctor, arguments: seq<Factory>)
    | Throw(message: string)                   // a factory that always raises this message
    | Block(body: Factory, steps: seq<Step>)   // var x = body; each step on x in order; return x
    | ViaManager(manager: ManagerId, handed: Factory)  // context => manager.GetValue(), after manager.SetResolver(handed)
    | Supplied(id: nat)                        // an expression given by the caller

  /** A step run on the freshly constructed object. */
  datatype Step =
    | SetProperty(property: string, value: Factory)
    | CallMethod(methodName: string, arguments: seq<Factory>)
    | Initializer(id: nat)                     // a caller-given initializer, bound to the object
    | Lambda(injector: Step)                   // a lambda placed in a block without being invoked
    | AssignParameter(newValue: Factory)       // the lambda's own object parameter overwritten; no property set

  /** What running a factory is observed to do, in order. */
  datatype Event =
    | Resolved(target: Type)          // asked the registry for an instance of `target`
    | Defaulted(valueType: Type)      // produced default(valueType)
    | Constructed(ctor: Ctor)         // invoked the constructor
    | Raised(message: string)         // threw; nothing after it happens
    | AskedManager(manager: ManagerId)
    | RanSupplied(id: nat)
    | Assigned(property: string)
    | Called(methodName: string)
    | Initialized(id: nat)

  /** `a` ends by throwing. */
  predicate Aborted(a: seq<Event>)
  {
    |a| > 0 && a[|a| - 1].Raised?
  }

  /** Nothing happens after a throw: only the last event of `a` may be Raised. */
  predicate RaiseIsLast(a: seq<Event>)
  {
    forall k :: 0 <= k < |a| - 1 ==> !a[k].Raised?
  }

  /** `a` then `b`, unless `a` threw. */
  function Then(a: seq<Event>, b: seq<Event>): (r: seq<Event>)
    ensures Aborted(a) ==> r == a
    ensures !Aborted(a) ==> r == a + b
    ensures RaiseIsLast(a) && RaiseIsLast(b) ==> RaiseIsLast(r)
  {
    if Aborted(a) then a else a + b
  }

  /** Running several pieces one after the other, stopping at the first that throws. */
  function Sequence(runs: seq<seq<Event>>): (r: seq<Event>)
    ensures (forall i :: 0 <= i < |runs| ==> RaiseIsLast(runs[i])) ==> RaiseIsLast(r)
  {
    if runs == [] then [] else Then(runs[0], Sequence(runs[1..]))
  }

  /** The events of running `f`: arguments left to right, then the construction; a block
      runs its body once and then each step in order on the result. */
  function Run(f: Factory): (r: seq<Event>)
    ensures |r| > 0 && RaiseIsLast(r)
    decreases f, 1
  {
    match f
    case Resolve(t) => [Resolved(t)]
    case DefaultValue(t) => [Defaulted(t)]
    case Construct(c, args) => Then(Sequence(seq(|args|, i requires 0 <= i < |args| => Run(args[i]))), [Constructed(c)])
    case Throw(m) => [Raised(m)]
    case Block(body, steps) => Then(Run(body), Sequence(seq(|steps|, i requires 0 <= i < |steps| => RunStep(steps[i]))))
    case ViaManager(m, _) => [AskedManager(m)]
    case Supplied(id) => [RanSupplied(id)]
  }

  /** The events of a step; a lambda that is only placed in a block does nothing. */
  function RunStep(s: Step): (r: seq<Event>)
    ensures RaiseIsLast(r)
    decreases s, 0
  {
    match s
    case SetProperty(p, v) => Then(Run(v), [Assigned(p)])
    case CallMethod(m, args) => Then(Sequence(seq(|args|, i requires 0 <= i < |args| => Run(args[i]))), [Called(m)])
    case Initializer(id) => [Initialized(id)]
    case Lambda(_) => []
    case AssignParameter(v) => Run(v)
  }

  /** The events of running the steps in order. */
  function RunSteps(steps: seq<Step>): seq<Event>
  {
    Sequence(seq(|steps|, i requires 0 <= i < |steps| => RunStep(steps[i])))
  }
}
