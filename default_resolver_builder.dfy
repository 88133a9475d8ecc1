/**
 * DefaultResolverBuilder<T> of the second generation: the default factory
 * for a type, built from its public instance constructor and its public
 * instance members.
 */
module DefaultResolverBuilder {
  import opened Wrappers
  import opened Types
  import opened Strings
  import opened Functions
  import opened Ordering
  import opened Factories
  import opened ResolverFunctions

  /** GetInternalResolveExpression: a factory that resolves the type itself. */
  function InternalResolveExpression(t: Type): (r: Factory)
    ensures Run(r) == [Resolved(t)]
  {
    Resolve(t)
  }

  /** GetParameterExpressions: in this generation every parameter is resolved
      through the container, value types included. */
  function ParameterExpressions(ps: seq<Type>): (r: seq<Factory>)
    ensures |r| == |ps|
    ensures forall i :: 0 <= i < |ps| ==> Run(r[i]) == [Resolved(ps[i])]
  {
    seq(|ps|, i requires 0 <= i < |ps| => InternalResolveExpression(ps[i]))
  }

  /** GetConstructorInjectExpression: the selected public constructor applied to resolved
      parameters, or the missing-constructor poison when none is available. */
  function ConstructorInjectExpression(t: Type): (r: Factory)
    ensures SelectConstructor(t).None? ==>
              r.Throw? && Run(r) == [Raised(r.message)] && Contains(r.message, FancyTypeName(t))
    ensures SelectConstructor(t).Some? ==>
              r.Construct? && r.ctor == t.constructors[SelectConstructor(t).value]
              && Run(r) == ResolvedEach(r.ctor.parameters) + [Constructed(r.ctor)]
  {
    match SelectConstructor(t)
    case None => ThrowMissingConstructorException(t, false)
    case Some(k) =>
      var c := t.constructors[k];
      var args := ParameterExpressions(c.parameters);
      ResolvedSequence(c.parameters, seq(|args|, i requires 0 <= i < |args| => Run(args[i])));
      Construct(c, args)
  }

  /** One Resolved event per parameter type, in order. */
  function ResolvedEach(ps: seq<Type>): (r: seq<Event>)
    ensures |r| == |ps|
    ensures forall i :: 0 <= i < |ps| ==> r[i] == Resolved(ps[i])
  {
    if ps == [] then [] else [Resolved(ps[0])] + ResolvedEach(ps[1..])
  }

  lemma {:induction false} ResolvedSequence(ps: seq<Type>, runs: seq<seq<Event>>)
    requires |runs| == |ps|
    requires forall i :: 0 <= i < |ps| ==> runs[i] == [Resolved(ps[i])]
    ensures Sequence(runs) == ResolvedEach(ps)
    ensures !Aborted(Sequence(runs))
  {
    if ps != [] {
      ResolvedSequence(ps[1..], runs[1..]);
    }
  }

  /**
   * GetInternalMemberInjectExpression: a method becomes a call with resolved
   * arguments, a property an assignment of a freshly resolved `t`, any other
   * member nothing.  Each injector is a lambda expression.  The property's
   * assignment targets `propertyExpression.Expression`, which is the
   * lambda's `instance` parameter, and the value resolves the builder's own
   * type rather than the property's.
   */
  function MemberInjectExpression(t: Type, m: Member): (r: Option<Step>)
    ensures r.None? <==> m.OtherMember?
    ensures r.Some? ==> r.value.Lambda? && !r.value.injector.Lambda? && !r.value.injector.Initializer?
    ensures m.Method? ==> r == Some(Lambda(CallMethod(m.methodName, ParameterExpressions(m.parameters))))
    ensures m.Property? ==> r == Some(Lambda(AssignParameter(InternalResolveExpression(t))))
  {
    match m
    case Method(name, ps, _, _) => Some(Lambda(CallMethod(name, ParameterExpressions(ps))))
    case Property(_, _, _, _) => Some(Lambda(AssignParameter(InternalResolveExpression(t))))
    case OtherMember(_) => None
  }

  /** A property injector, even if it were invoked, resolves `t` once and sets no property. */
  lemma PropertyInjectorSetsNoProperty(t: Type, m: Member)
    requires m.Property?
    ensures RunStep(MemberInjectExpression(t, m).value.injector) == [Resolved(t)]
    ensures forall e :: e in RunStep(MemberInjectExpression(t, m).value.injector) ==> !e.Assigned?
  {
  }

  /** Members returned by GetMembers(Public | Instance): methods and properties that are public,
      and every other kind of member. */
  predicate Discovered(m: Member)
  {
    m.OtherMember? || m.isPublic
  }

  /** The non-null injectors of the discovered members, in discovery order. */
  function MemberInjectors(t: Type, members: seq<Member>): (r: seq<Step>)
    ensures |r| <= |members|
    ensures forall s :: s in r ==> s.Lambda?
    ensures r == [] <==> forall i :: 0 <= i < |members| ==> !(Discovered(members[i]) && !members[i].OtherMember?)
  {
    if members == [] then []
    else
      var m := members[0];
      var rest := MemberInjectors(t, members[1..]);
      assert forall i :: 1 <= i < |members| ==> members[i] == members[1..][i - 1];
      if Discovered(m) && MemberInjectExpression(t, m).Some? then [MemberInjectExpression(t, m).value] + rest else rest
  }

  /**
   * GetDefaultResolverExpression: the constructor factory when the type has
   * no injectors; otherwise a block that assigns the constructed object,
   * lists the injector lambdas in member order, and yields the object.
   */
  function DefaultResolverExpression(t: Type): (r: Factory)
    ensures MemberInjectors(t, t.members) == [] ==> r == ConstructorInjectExpression(t)
    ensures MemberInjectors(t, t.members) != [] ==>
              r == Block(ConstructorInjectExpression(t), MemberInjectors(t, t.members))
  {
    var injectors := MemberInjectors(t, t.members);
    if |injectors| > 0 then Block(ConstructorInjectExpression(t), injectors) else ConstructorInjectExpression(t)
  }

  /** As the block is written, the injector lambdas sit in it as values, not calls: running
      the default factory runs only the constructor factory. */
  lemma {:induction false} InjectorsNeverRun(t: Type)
    ensures Run(DefaultResolverExpression(t)) == Run(ConstructorInjectExpression(t))
  {
    var injectors := MemberInjectors(t, t.members);
    LambdasRunNothing(injectors);
  }

  lemma {:induction false} LambdasRunNothing(steps: seq<Step>)
    requires forall s :: s in steps ==> s.Lambda?
    ensures RunSteps(steps) == []
  {
    if steps != [] {
      LambdasRunNothing(steps[1..]);
      var runs := seq(|steps|, i requires 0 <= i < |steps| => RunStep(steps[i]));
      assert runs[1..] == seq(|steps[1..]|, i requires 0 <= i < |steps[1..]| => RunStep(steps[1..][i]));
      assert steps[0] in steps;
      assert runs[0] == RunStep(steps[0]) == [];
    }
  }
}
