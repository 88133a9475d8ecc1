/**
 * ResolverFunctions<T>: composition of a base factory with initializers and
 * a lifetime manager, the covariant factory, the poison factories, and
 * (in Injector.cs) the default-construction builder of the first generation.
 */
module ResolverFunctions {
  import opened Wrappers
  import opened Types
  import opened Strings
  import opened Functions
  import opened Ordering
  import opened Covariant
  import opened Factories

  lemma SequenceEmpty()
    ensures Sequence([]) == []
  {
  }

  /**
   * AddInitializers: with no initializers the resolver itself; otherwise a
   * block that evaluates the resolver's body once into a variable, runs each
   * initializer on it in order, and returns it.
   */
  function AddInitializers(resolver: Factory, initializers: seq<Step>): (r: Factory)
    ensures initializers == [] ==> r == resolver
  {
    if |initializers| > 0 then Block(resolver, initializers) else resolver
  }

  /** Running the result runs the resolver once, then each initializer in order, unless the
      resolver throws. */
  lemma AddInitializersRun(resolver: Factory, initializers: seq<Step>)
    ensures Run(AddInitializers(resolver, initializers)) == Then(Run(resolver), RunSteps(initializers))
  {
  }

  /**
   * AddLifetimeManager: with no manager the expression itself; otherwise the
   * compiled expression is handed to the manager and the result only asks
   * the manager for its value.
   */
  function AddLifetimeManager(resolver: Factory, manager: Option<ManagerId>): (r: Factory)
    ensures manager.None? ==> r == resolver
    ensures manager.Some? ==> r.ViaManager? && r.handed == resolver && r.manager == manager.value
  {
    match manager
    case None => resolver
    case Some(m) => ViaManager(m, resolver)
  }

  /** With a manager, running the result only asks the manager for its value. */
  lemma AddLifetimeManagerRun(resolver: Factory, manager: ManagerId)
    ensures Run(AddLifetimeManager(resolver, Some(manager))) == [AskedManager(manager)]
  {
  }

  /**
   * GetCovariantResolverExpression: for a generic `t`, the best mapping's
   * concrete definition closed over `t`'s own arguments, resolved; nothing
   * for a non-generic `t` or when no mapping applies; the exception of the
   * first candidate whose quality raises.
   */
  function CovariantResolverExpression(rt: Runtime, mappings: seq<CovariantMatcher>, t: Type): (r: Result<Option<Factory>, Error>)
    ensures r.Failure? <==> t.isGeneric && QualityFails(mappings, t)
    ensures r.Failure? ==> && FirstFailing(mappings, t).Some?
                           && r.error == MatchesQuality(mappings[FirstFailing(mappings, t).value].openType, t,
                                                        mappings[FirstFailing(mappings, t).value].constraints).error
    ensures r.Failure? ==> r.error == Error(ErrorOverflow, None) || r.error == Error(ErrorNullReference, None)
    ensures r == Success(None) <==> !t.isGeneric || forall i :: 0 <= i < |mappings| ==> !Candidate(mappings[i], t)
    ensures r.Success? && r.value.Some? ==>
              exists k :: BestMapping(mappings, t) == Some(k) && k < |mappings|
                          && Run(r.value.value) == [Resolved(rt.close(mappings[k].concreteType, t.args))]
  {
    if !t.isGeneric then Success(None)
    else
      match CovariantLookup(mappings, t)
      case Failure(e) => Failure(e)
      case Success(None) => Success(None)
      case Success(Some(k)) => Success(Some(Resolve(rt.close(mappings[k].concreteType, t.args))))
  }

  /** The type's name in a message: the first generation renders it with its own FancyTypeName. */
  function MessageName(t: Type, legacy: bool): string
  {
    if legacy then LegacyFancyTypeName(t) else FancyTypeName(t)
  }

  /** ThrowMissingConstructorException: a factory that always raises the missing-constructor
      message naming the type. */
  function ThrowMissingConstructorException(t: Type, legacy: bool): (r: Factory)
    ensures r.Throw? && Run(r) == [Raised(r.message)]
    ensures Contains(r.message, MessageName(t, legacy))
  {
    TemplatesHavePlaceholder();
    var template := if legacy then LegacyErrorMissingConstructor else ErrorMissingConstructor;
    FormatContainsArg(template, MessageName(t, legacy));
    Throw(Format(template, MessageName(t, legacy)))
  }

  /** ThrowInterfaceException (Injector.cs): always raises the message for interfaces and abstract classes. */
  function ThrowInterfaceException(t: Type): (r: Factory)
    ensures r.Throw? && Run(r) == [Raised(r.message)]
    ensures Contains(r.message, LegacyFancyTypeName(t))
  {
    TemplatesHavePlaceholder();
    FormatContainsArg(ErrorUnableToResolveInterface, LegacyFancyTypeName(t));
    Throw(Format(ErrorUnableToResolveInterface, LegacyFancyTypeName(t)))
  }

  /** GetResolverExpressionFromType: a reference type is resolved, a value type gets its default. */
  function ParameterFactory(p: Type): (r: Factory)
    ensures Run(r) == if p.isValueType then [Defaulted(p)] else [Resolved(p)]
  {
    if !p.isValueType then Resolve(p) else DefaultValue(p)
  }

  /** GetInjectedDependencyExpression: `new C(params…)`, each parameter from ParameterFactory. */
  function ConstructorFactory(c: Ctor): (r: Factory)
    ensures r.Construct? && r.ctor == c && |r.arguments| == |c.parameters|
    ensures forall i :: 0 <= i < |c.parameters| ==>
              Run(r.arguments[i]) == if c.parameters[i].isValueType then [Defaulted(c.parameters[i])] else [Resolved(c.parameters[i])]
  {
    Construct(c, seq(|c.parameters|, i requires 0 <= i < |c.parameters| => ParameterFactory(c.parameters[i])))
  }

  /** A constructor the default builder may use: GetConstructors() lists only public ones, and
      WhereAvailableForRegistration drops those marked IgnoreDuringRegistration. */
  predicate Eligible(c: Ctor): (r: bool)
    ensures r <==> c.isPublic && !c.ignored
  {
    c.isPublic && !c.ignored
  }

  /** The sort key of the constructor choice: OrderBy(marked ? 0 : 1), then ThenByDescending
      on the parameter count, as one ascending pair. */
  function CtorKey(c: Ctor): (r: (int, int))
    ensures r.0 == 0 <==> c.injectHere
    ensures r.1 <= 0 && -r.1 == |c.parameters|
  {
    (if c.injectHere then 0 else 1, -|c.parameters|)
  }

  /** A constructor sorts no later than another exactly when it is marked and the other is
      not, or both are marked alike and it has at least as many parameters. */
  lemma CtorKeyOrder(c: Ctor, d: Ctor)
    ensures KeyLe(CtorKey(c), CtorKey(d)) <==>
              (c.injectHere && !d.injectHere) || (c.injectHere == d.injectHere && |c.parameters| >= |d.parameters|)
  {
  }

  /** The constructor chosen by GetConstructors().WhereAvailableForRegistration()
      .OrderBy(marked first).ThenByDescending(parameter count).FirstOrDefault(). */
  function SelectConstructor(t: Type): (r: Option<nat>)
    ensures r.None? <==> forall i :: 0 <= i < |t.constructors| ==> !Eligible(t.constructors[i])
    ensures r.Some? ==> r.value < |t.constructors| && Eligible(t.constructors[r.value])
    ensures r.Some? && !t.constructors[r.value].injectHere ==>
              forall i :: 0 <= i < |t.constructors| && Eligible(t.constructors[i]) ==> !t.constructors[i].injectHere
    ensures r.Some? ==> forall i :: (0 <= i < |t.constructors| && Eligible(t.constructors[i])
                                     && t.constructors[i].injectHere == t.constructors[r.value].injectHere) ==>
                          |t.constructors[i].parameters| <= |t.constructors[r.value].parameters|
    ensures r.Some? ==> forall i :: 0 <= i < r.value && Eligible(t.constructors[i]) ==>
                          KeyLe(CtorKey(t.constructors[r.value]), CtorKey(t.constructors[i]))
                          && CtorKey(t.constructors[i]) != CtorKey(t.constructors[r.value])
  {
    FirstMinimum(t.constructors, Eligible, CtorKey)
  }

  /** A member the first generation injects as a property: a property marked InjectDependencyHere. */
  predicate MarkedProperty(m: Member)
  {
    m.Property? && m.injectHere
  }

  /** A member the first generation injects as a method call: a method marked InjectDependencyHere. */
  predicate MarkedMethod(m: Member)
  {
    m.Method? && m.injectHere
  }

  /** GetInjectedPropertyExpression: assign the property a resolved instance of its own type. */
  function PropertyInjection(m: Member): (r: Step)
    requires m.Property?
    ensures RunStep(r) == [Resolved(m.propertyType), Assigned(m.propertyName)]
  {
    SetProperty(m.propertyName, Resolve(m.propertyType))
  }

  /** GetInjectedDependencyExpressionFromInstanceMethod: call the method with its parameters
      built by ParameterFactory. */
  function MethodInjection(m: Member): (r: Step)
    requires m.Method?
    ensures RunStep(r) == ParameterEvents(m.parameters) + [Called(m.methodName)]
  {
    var args := seq(|m.parameters|, i requires 0 <= i < |m.parameters| => ParameterFactory(m.parameters[i]));
    SequenceOfParameters(m.parameters, seq(|args|, i requires 0 <= i < |args| => Run(args[i])));
    CallMethod(m.methodName, args)
  }

  /** The marked members of kind property, in discovery order, as property injections. */
  function MarkedPropertyInjections(members: seq<Member>): (r: seq<Step>)
    ensures |r| <= |members|
    ensures forall s :: s in r <==> exists i :: 0 <= i < |members| && MarkedProperty(members[i]) && s == PropertyInjection(members[i])
    ensures forall s :: s in r ==> s.SetProperty? && s.value.Resolve?
  {
    if members == [] then []
    else
      var m := members[0];
      var rest := MarkedPropertyInjections(members[1..]);
      assert forall i :: 1 <= i < |members| ==> members[i] == members[1..][i - 1];
      (if MarkedProperty(m) then [PropertyInjection(m)] else []) + rest
  }

  /** The marked members of kind method, in discovery order, as method-call injections. */
  function MarkedMethodInjections(members: seq<Member>): (r: seq<Step>)
    ensures |r| <= |members|
    ensures forall s :: s in r <==> exists i :: 0 <= i < |members| && MarkedMethod(members[i]) && s == MethodInjection(members[i])
    ensures forall s :: s in r ==> s.CallMethod?
  {
    if members == [] then []
    else
      var m := members[0];
      var rest := MarkedMethodInjections(members[1..]);
      assert forall i :: 1 <= i < |members| ==> members[i] == members[1..][i - 1];
      (if MarkedMethod(m) then [MethodInjection(m)] else []) + rest
  }

  /** The injections keep discovery order: the members of a front part are injected before
      those of the rest. */
  lemma {:induction false} MarkedPropertyInjectionsAppend(a: seq<Member>, b: seq<Member>)
    ensures MarkedPropertyInjections(a + b) == MarkedPropertyInjections(a) + MarkedPropertyInjections(b)
  {
    if a == [] {
      assert a + b == b;
    } else {
      assert (a + b)[0] == a[0];
      assert (a + b)[1..] == a[1..] + b;
      MarkedPropertyInjectionsAppend(a[1..], b);
      var head := if MarkedProperty(a[0]) then [PropertyInjection(a[0])] else [];
      assert MarkedPropertyInjections(a + b) == head + MarkedPropertyInjections(a[1..] + b);
      assert MarkedPropertyInjections(a) == head + MarkedPropertyInjections(a[1..]);
    }
  }

  /** The same for the method injections. */
  lemma {:induction false} MarkedMethodInjectionsAppend(a: seq<Member>, b: seq<Member>)
    ensures MarkedMethodInjections(a + b) == MarkedMethodInjections(a) + MarkedMethodInjections(b)
  {
    if a == [] {
      assert a + b == b;
    } else {
      assert (a + b)[0] == a[0];
      assert (a + b)[1..] == a[1..] + b;
      MarkedMethodInjectionsAppend(a[1..], b);
      var head := if MarkedMethod(a[0]) then [MethodInjection(a[0])] else [];
      assert MarkedMethodInjections(a + b) == head + MarkedMethodInjections(a[1..] + b);
      assert MarkedMethodInjections(a) == head + MarkedMethodInjections(a[1..]);
    }
  }

  /** A single member yields its own injection exactly when it is marked. */
  lemma MarkedInjectionsOne(m: Member)
    ensures MarkedPropertyInjections([m]) == if MarkedProperty(m) then [PropertyInjection(m)] else []
    ensures MarkedMethodInjections([m]) == if MarkedMethod(m) then [MethodInjection(m)] else []
  {
    assert [m][1..] == [];
  }

  /** GetInjectAllDependenciesExpression: the marked properties, then the marked methods,
      added as initializers; the factory unchanged when there are none. */
  function InjectAllDependencies(t: Type, resolver: Factory): (r: Factory)
    ensures MarkedPropertyInjections(t.members) == [] && MarkedMethodInjections(t.members) == [] ==> r == resolver
    ensures Run(r) == Then(Run(resolver), RunSteps(MarkedPropertyInjections(t.members) + MarkedMethodInjections(t.members)))
  {
    AddInitializersRun(resolver, MarkedPropertyInjections(t.members) + MarkedMethodInjections(t.members));
    AddInitializers(resolver, MarkedPropertyInjections(t.members) + MarkedMethodInjections(t.members))
  }

  /** GetConstructorExpressionFromType: the chosen constructor with its dependencies injected,
      or the missing-constructor poison. */
  function ConstructorExpressionFromType(t: Type): (r: Factory)
    ensures SelectConstructor(t).None? ==> r.Throw? && Contains(r.message, LegacyFancyTypeName(t))
    ensures SelectConstructor(t).Some? ==>
              r == InjectAllDependencies(t, ConstructorFactory(t.constructors[SelectConstructor(t).value]))
  {
    match SelectConstructor(t)
    case None => ThrowMissingConstructorException(t, true)
    case Some(k) => InjectAllDependencies(t, ConstructorFactory(t.constructors[k]))
  }

  /**
   * GetDefaultResolverExpression (Injector.cs): interfaces and abstract
   * classes get the factory that always raises the interface error;
   * other types the constructor expression.
   */
  function LegacyDefaultResolverExpression(t: Type): (r: Factory)
    ensures t.isInterface || t.isAbstract ==> r.Throw? && Run(r) == [Raised(r.message)] && Contains(r.message, LegacyFancyTypeName(t))
    ensures !(t.isInterface || t.isAbstract) && SelectConstructor(t).None? ==>
              r.Throw? && Run(r) == [Raised(r.message)] && Contains(r.message, LegacyFancyTypeName(t))
    ensures !(t.isInterface || t.isAbstract) && SelectConstructor(t).Some? ==>
              Run(r) == Then(ParameterEvents(t.constructors[SelectConstructor(t).value].parameters)
                               + [Constructed(t.constructors[SelectConstructor(t).value])],
                             RunSteps(MarkedPropertyInjections(t.members) + MarkedMethodInjections(t.members)))
  {
    if t.isInterface || t.isAbstract then ThrowInterfaceException(t)
    else
      match SelectConstructor(t)
      case None => ConstructorExpressionFromType(t)
      case Some(k) => ConstructorRun(t.constructors[k]); ConstructorExpressionFromType(t)
  }

  /** The chosen constructor runs after its parameters: reference parameters are resolved,
      value parameters take their default, in parameter order. */
  lemma {:induction false} ConstructorRun(c: Ctor)
    ensures Run(ConstructorFactory(c)) == ParameterEvents(c.parameters) + [Constructed(c)]
  {
    var args := ConstructorFactory(c).arguments;
    var runs := seq(|args|, i requires 0 <= i < |args| => Run(args[i]));
    SequenceOfParameters(c.parameters, runs);
  }

  /** One event per parameter: Defaulted for a value type, Resolved otherwise. */
  function ParameterEvents(ps: seq<Type>): (r: seq<Event>)
    ensures |r| == |ps|
    ensures forall e :: e in r ==> !e.Raised?
  {
    if ps == [] then [] else [if ps[0].isValueType then Defaulted(ps[0]) else Resolved(ps[0])] + ParameterEvents(ps[1..])
  }

  lemma {:induction false} SequenceOfParameters(ps: seq<Type>, runs: seq<seq<Event>>)
    requires |runs| == |ps|
    requires forall i :: 0 <= i < |ps| ==> runs[i] == if ps[i].isValueType then [Defaulted(ps[i])] else [Resolved(ps[i])]
    ensures Sequence(runs) == ParameterEvents(ps)
    ensures !Aborted(Sequence(runs))
  {
    if ps != [] {
      SequenceOfParameters(ps[1..], runs[1..]);
      var last := Sequence(runs)[|Sequence(runs)| - 1];
      assert last in ParameterEvents(ps);
    }
  }
}
