/**
 * The registration state of the container: per closed type T, the state of
 * InternalResolver<T> (base factory, initializer list, lifetime manager,
 * covariant flag), published into the type-to-factory map and the
 * type-to-info map, together with the list of open-generic mappings that
 * SetGenericResolver maintains.
 */
module Registry {
  import opened Wrappers
  import opened Types
  import opened Strings
  import opened Functions
  import opened Covariant
  import opened Factories
  import opened ResolverFunctions
  import DefaultResolverBuilder

  /** Which code generation the container follows: Injector.cs, or the split files. */
  datatype Generation = Legacy | Split

  /** What CompileResolver publishes beside the factory. */
  datatype ResolverInfo = ResolverInfo(isDefaultRegistration: bool, isCovariantRegistration: bool)

  /**
   * The static fields of InternalResolver<T>. `failure` is set when the
   * static constructor caught an exception: the active function then raises
   * it, nothing is published for T, and `base` holds that raising function
   * (BaseResolverExpression itself stays null) until T is set again.
   */
  datatype ResolverState = ResolverState(base: Factory, initializers: seq<Step>, lifetime: Option<ManagerId>,
                                         info: ResolverInfo, failure: Option<Error>)

  /** The factory CompileResolver builds: lifetime(initializers(base)). With a manager,
      resolving only asks the manager, which holds the base with its initializers; without
      one, resolving runs the base and then the initializers. */
  function Compiled(s: ResolverState): (r: Factory)
    ensures s.lifetime.Some? ==> Run(r) == [AskedManager(s.lifetime.value)]
                                 && r.ViaManager? && r.handed == AddInitializers(s.base, s.initializers)
    ensures s.lifetime.None? ==> Run(r) == Then(Run(s.base), RunSteps(s.initializers))
    ensures s.lifetime.None? && s.initializers == [] ==> r == s.base
  {
    AddInitializersRun(s.base, s.initializers);
    AddLifetimeManager(AddInitializers(s.base, s.initializers), s.lifetime)
  }

  /** ActiveResolverFunction: the compiled factory, or after a failed static constructor the
      function that raises its error, with neither the initializers nor the manager. */
  function Active(s: ResolverState): (r: Factory)
    ensures s.failure.Some? ==> Run(r) == Run(s.base)
    ensures s.failure.None? && s.lifetime.Some? ==> Run(r) == [AskedManager(s.lifetime.value)]
    ensures s.failure.None? && s.lifetime.None? ==> Run(r) == Then(Run(s.base), RunSteps(s.initializers))
  {
    if s.failure.Some? then s.base else Compiled(s)
  }

  /** The default-construction factory of the given generation. */
  function DefaultFor(g: Generation, t: Type): (r: Factory)
    ensures g == Split ==> Run(r) == Run(DefaultResolverBuilder.ConstructorInjectExpression(t))
    ensures g == Legacy && (t.isInterface || t.isAbstract) ==> r.Throw? && Run(r) == [Raised(r.message)]
    ensures g == Legacy && !(t.isInterface || t.isAbstract) ==> r == ConstructorExpressionFromType(t)
  {
    if g == Legacy then LegacyDefaultResolverExpression(t)
    else
      DefaultResolverBuilder.InjectorsNeverRun(t);
      DefaultResolverBuilder.DefaultResolverExpression(t)
  }

  /** The message of the function installed when the static constructor fails; the type is
      named by the generation's FancyTypeName. */
  function InitErrorMessage(g: Generation, t: Type): string
  {
    "Error initializing default resolver for " + MessageName(t, g == Legacy) + ".  See 'InnerException' for details"
  }

  /** The failure message names the type. */
  lemma InitErrorNamesType(g: Generation, t: Type)
    ensures Contains(InitErrorMessage(g, t), MessageName(t, g == Legacy))
  {
    var prefix := "Error initializing default resolver for ";
    var name := MessageName(t, g == Legacy);
    assert InitErrorMessage(g, t)[|prefix|..|prefix| + |name|] == name;
    assert OccursAt(InitErrorMessage(g, t), name, |prefix|);
  }

  /** The covariant factory exists: the lookup neither raised nor came back empty. */
  predicate HasCovariant(rt: Runtime, mappings: seq<CovariantMatcher>, t: Type)
  {
    CovariantResolverExpression(rt, mappings, t).Success? && CovariantResolverExpression(rt, mappings, t).value.Some?
  }

  /**
   * The state the static constructor leaves: the covariant factory if one
   * applies, the default factory otherwise, flagged as a default
   * registration; when the lookup raises, the catch block's state, whose
   * active function raises the initialization error wrapping the exception.
   */
  function StaticInitialState(g: Generation, rt: Runtime, mappings: seq<CovariantMatcher>, t: Type): (s: ResolverState)
    ensures s.initializers == [] && s.lifetime.None?
    ensures s.failure.Some? <==> CovariantResolverExpression(rt, mappings, t).Failure?
    ensures s.failure.Some? ==>
              s.failure.value == CreateExceptionInternal(InitErrorMessage(g, t), Some(CovariantResolverExpression(rt, mappings, t).error))
              && s.base == Throw(InitErrorMessage(g, t)) && s.info == ResolverInfo(false, false)
    ensures s.failure.None? ==> s.info.isDefaultRegistration
    ensures s.info.isCovariantRegistration <==> HasCovariant(rt, mappings, t)
    ensures s.info.isCovariantRegistration ==> s.base == CovariantResolverExpression(rt, mappings, t).value.value
    ensures s.failure.None? && !s.info.isCovariantRegistration ==> s.base == DefaultFor(g, t)
  {
    match CovariantResolverExpression(rt, mappings, t)
    case Failure(e) =>
      var err := CreateExceptionInternal(InitErrorMessage(g, t), Some(e));
      ResolverState(Throw(err.message), [], None, ResolverInfo(false, false), Some(err))
    case Success(Some(f)) => ResolverState(f, [], None, ResolverInfo(true, true), None)
    case Success(None) => ResolverState(DefaultFor(g, t), [], None, ResolverInfo(true, false), None)
  }

  /** When the lookup raises, every resolution of the type raises the initialization error,
      which names the type and wraps the lookup's exception. */
  lemma InitFailureRaises(g: Generation, rt: Runtime, mappings: seq<CovariantMatcher>, t: Type)
    requires t.isGeneric && QualityFails(mappings, t)
    ensures Run(Active(StaticInitialState(g, rt, mappings, t))) == [Raised(InitErrorMessage(g, t))]
    ensures StaticInitialState(g, rt, mappings, t).failure.value.inner == Some(CovariantResolverExpression(rt, mappings, t).error)
    ensures StaticInitialState(g, rt, mappings, t).failure.value.inner.value in {Error(ErrorOverflow, None), Error(ErrorNullReference, None)}
    ensures Contains(InitErrorMessage(g, t), MessageName(t, g == Legacy))
  {
    InitErrorNamesType(g, t);
  }

  /** The state UpdateCovariantResolver installs: the covariant factory, no lifetime manager,
      the initializers kept.  (When there is none, UpdateCovariantResolver raises instead,
      and the state is left as it is.) */
  function CovariantState(rt: Runtime, mappings: seq<CovariantMatcher>, t: Type, s: ResolverState): (r: ResolverState)
    ensures HasCovariant(rt, mappings, t) ==>
              r == ResolverState(CovariantResolverExpression(rt, mappings, t).value.value, s.initializers, None, ResolverInfo(false, true), None)
    ensures !HasCovariant(rt, mappings, t) ==> r == s
  {
    match CovariantResolverExpression(rt, mappings, t)
    case Success(Some(f)) => ResolverState(f, s.initializers, None, ResolverInfo(false, true), None)
    case _ => s
  }

  /** A covariantly reinstalled entry resolves the best mapping's concrete definition closed
      over the type's own arguments, and is flagged covariant and not default. */
  lemma CovariantStateResolvesBest(rt: Runtime, mappings: seq<CovariantMatcher>, t: Type, s: ResolverState)
    requires HasCovariant(rt, mappings, t)
    ensures CovariantState(rt, mappings, t, s).info == ResolverInfo(false, true)
    ensures CovariantState(rt, mappings, t, s).initializers == s.initializers
    ensures exists k :: BestMapping(mappings, t) == Some(k) && k < |mappings|
                        && Run(CovariantState(rt, mappings, t, s).base) == [Resolved(rt.close(mappings[k].concreteType, t.args))]
  {
  }

  /** The per-type states once T's static constructor has run: an entry already there is
      kept, otherwise the static initial state is added. */
  function InitializedIn(g: Generation, rt: Runtime, mappings: seq<CovariantMatcher>, states: map<Type, ResolverState>, t: Type): (r: map<Type, ResolverState>)
    ensures t in r && r.Keys == states.Keys + {t}
    ensures forall k :: k in states ==> r[k] == states[k]
    ensures t !in states ==> r[t] == StaticInitialState(g, rt, mappings, t)
  {
    if t in states then states else states[t := StaticInitialState(g, rt, mappings, t)]
  }

  /** The per-type states after SetResolver(resolver, lifetime) on T: T initialized first,
      then a new base and manager with its initializers kept, neither covariant nor default. */
  function SetResolverIn(g: Generation, rt: Runtime, mappings: seq<CovariantMatcher>, states: map<Type, ResolverState>,
                         t: Type, resolver: Factory, lifetime: Option<ManagerId>): (r: map<Type, ResolverState>)
    ensures r.Keys == states.Keys + {t}
    ensures forall k :: k in states && k != t ==> r[k] == states[k]
    ensures r[t].base == resolver && r[t].lifetime == lifetime && r[t].info == ResolverInfo(false, false) && r[t].failure.None?
    ensures r[t].initializers == InitializedIn(g, rt, mappings, states, t)[t].initializers
  {
    var init := InitializedIn(g, rt, mappings, states, t);
    init[t := ResolverState(resolver, init[t].initializers, lifetime, ResolverInfo(false, false), None)]
  }

  const ErrorNoCovariantResolver := "UpdateCovariantResolver may not be called on this type because there is no covariant resolver that applies."

  /** A published entry the override sweep may replace: auto-generated, default or covariant. */
  predicate Overridable(s: ResolverState)
  {
    s.failure.None? && (s.info.isCovariantRegistration || s.info.isDefaultRegistration)
  }

  /** The cached types the sweep after SetGenericResolver(open, …, constraints) reinstalls. */
  function SweptSet(rt: Runtime, states: map<Type, ResolverState>, open: Type, constraints: seq<Type>): (r: set<Type>)
    ensures forall t :: t in r <==> t in states && Overridable(states[t]) && MatchesGenericResolver(rt, t, open, constraints)
  {
    set t | t in states && Overridable(states[t]) && MatchesGenericResolver(rt, t, open, constraints)
  }

  /** A type matched by a mapping in the list never finds the lookup empty: it gets a
      covariant factory unless some candidate's quality raises. */
  lemma {:induction false} MatchedHasCovariant(rt: Runtime, mappings: seq<CovariantMatcher>, t: Type, m: CovariantMatcher)
    requires m in mappings
    requires MatchesGenericResolver(rt, t, m.openType, m.constraints)
    ensures CovariantResolverExpression(rt, mappings, t) != Success(None)
    ensures HasCovariant(rt, mappings, t) <==> CovariantResolverExpression(rt, mappings, t).Success?
  {
    var i :| 0 <= i < |mappings| && mappings[i] == m;
    assert Candidate(mappings[i], t);
  }

  /** The registry with the entries of `swept` reinstalled covariantly and the rest untouched. */
  function Reinstall(rt: Runtime, mappings: seq<CovariantMatcher>, states: map<Type, ResolverState>, swept: set<Type>): (r: map<Type, ResolverState>)
    ensures r.Keys == states.Keys
    ensures forall t :: t in states && t !in swept ==> r[t] == states[t]
    ensures forall t :: t in states && t in swept ==> r[t] == CovariantState(rt, mappings, t, states[t])
  {
    map t | t in states :: if t in swept then CovariantState(rt, mappings, t, states[t]) else states[t]
  }

  /** The registry after reinstalling the entries of `keys` one after the other, in list order;
      keys not in the registry are skipped. */
  function ReinstallAll(rt: Runtime, mappings: seq<CovariantMatcher>, states: map<Type, ResolverState>, keys: seq<Type>): (r: map<Type, ResolverState>)
    ensures r.Keys == states.Keys
  {
    if keys == [] then states
    else
      var prev := ReinstallAll(rt, mappings, states, keys[..|keys| - 1]);
      var k := keys[|keys| - 1];
      if k in prev then prev[k := CovariantState(rt, mappings, k, prev[k])] else prev
  }

  /** Reinstalling an entry twice is reinstalling it once. */
  lemma CovariantStateIdempotent(rt: Runtime, mappings: seq<CovariantMatcher>, t: Type, s: ResolverState)
    ensures CovariantState(rt, mappings, t, CovariantState(rt, mappings, t, s)) == CovariantState(rt, mappings, t, s)
  {
  }

  /** The order in which the entries are visited, and repetitions, do not matter: going
      through a list gives the same registry as reinstalling the set of its elements. */
  lemma {:induction false} ReinstallAllIsReinstall(rt: Runtime, mappings: seq<CovariantMatcher>, states: map<Type, ResolverState>, keys: seq<Type>)
    ensures ReinstallAll(rt, mappings, states, keys) == Reinstall(rt, mappings, states, set k | k in keys)
    decreases |keys|
  {
    if keys != [] {
      var front := keys[..|keys| - 1];
      var k := keys[|keys| - 1];
      ReinstallAllIsReinstall(rt, mappings, states, front);
      var before := set j | j in front;
      var after := set j | j in keys;
      assert after == before + {k} by {
        assert keys == front + [k];
      }
      var prev := ReinstallAll(rt, mappings, states, front);
      if k in states {
        CovariantStateIdempotent(rt, mappings, k, states[k]);
      }
      assert ReinstallAll(rt, mappings, states, keys) == Reinstall(rt, mappings, states, after);
    }
  }

  /** The registry after the sweep that follows adding mapping `m` to `mappings`. */
  function Sweep(rt: Runtime, states: map<Type, ResolverState>, mappings: seq<CovariantMatcher>, m: CovariantMatcher): (r: map<Type, ResolverState>)
    ensures r.Keys == states.Keys
    ensures forall t :: t in states && !(Overridable(states[t]) && MatchesGenericResolver(rt, t, m.openType, m.constraints)) ==>
                          r[t] == states[t]
    ensures forall t :: t in states && Overridable(states[t]) && MatchesGenericResolver(rt, t, m.openType, m.constraints) ==>
                          r[t] == CovariantState(rt, mappings, t, states[t])
  {
    Reinstall(rt, mappings, states, SweptSet(rt, states, m.openType, m.constraints))
  }

  /** Every swept entry is reinstalled through a mapping that applies unless its lookup
      raises; every other entry is untouched. */
  lemma {:induction false} SweepMeaning(rt: Runtime, states: map<Type, ResolverState>, mappings: seq<CovariantMatcher>, m: CovariantMatcher, t: Type)
    requires m in mappings && t in states
    ensures Overridable(states[t]) && MatchesGenericResolver(rt, t, m.openType, m.constraints) ==>
              CovariantResolverExpression(rt, mappings, t) != Success(None)
    ensures Overridable(states[t]) && MatchesGenericResolver(rt, t, m.openType, m.constraints)
            && CovariantResolverExpression(rt, mappings, t).Success? ==>
              && Sweep(rt, states, mappings, m)[t].info == ResolverInfo(false, true)
              && Sweep(rt, states, mappings, m)[t].initializers == states[t].initializers
              && Sweep(rt, states, mappings, m)[t].lifetime.None?
              && Overridable(Sweep(rt, states, mappings, m)[t])
    ensures !(Overridable(states[t]) && MatchesGenericResolver(rt, t, m.openType, m.constraints)
              && CovariantResolverExpression(rt, mappings, t).Success?) ==>
              Sweep(rt, states, mappings, m)[t] == states[t]
  {
    if Overridable(states[t]) && MatchesGenericResolver(rt, t, m.openType, m.constraints) {
      MatchedHasCovariant(rt, mappings, t, m);
    }
  }

  /** An explicit registration (neither default nor covariant), or a type whose static
      constructor failed, survives any sweep. */
  lemma ExplicitRegistrationSurvives(rt: Runtime, states: map<Type, ResolverState>, mappings: seq<CovariantMatcher>, m: CovariantMatcher, t: Type)
    requires t in states && !Overridable(states[t])
    ensures Sweep(rt, states, mappings, m)[t] == states[t]
  {
  }

  /** Sweeping twice with the same mapping list changes nothing more. */
  lemma {:induction false} SweepIdempotent(rt: Runtime, states: map<Type, ResolverState>, mappings: seq<CovariantMatcher>, m: CovariantMatcher)
    requires m in mappings
    ensures Sweep(rt, Sweep(rt, states, mappings, m), mappings, m) == Sweep(rt, states, mappings, m)
  {
    var once := Sweep(rt, states, mappings, m);
    var twice := Sweep(rt, once, mappings, m);
    forall t | t in once
      ensures twice[t] == once[t]
    {
      SweepMeaning(rt, states, mappings, m, t);
      SweepMeaning(rt, once, mappings, m, t);
    }
  }

  /** The message of the TargetInvocationException that MethodInfo.Invoke wraps around an
      exception of the invoked method. */
  const ErrorTargetInvocation := "Exception has been thrown by the target of an invocation."

  class Injector {
    /** The code generation whose builders this registry uses. */
    const generation: Generation
    /** The reflection oracle: closing generic definitions over arguments. */
    const runtime: Runtime
    /** Injector.Resolvers: the published factory of every initialized type. */
    var resolvers: map<Type, Factory>
    /** Injector.ResolverInfo: the published flags of every initialized type. */
    var resolverInfo: map<Type, ResolverInfo>
    /** Injector.OpenTypeResolvers: the open-generic mappings in registration order. */
    var openTypeResolvers: seq<CovariantMatcher>
    /** The static state of InternalResolver<T> for every T whose static constructor has run. */
    var states: map<Type, ResolverState>

    /** Exactly the types whose state has not failed are published, each with the compiled
        form of its state. */
    ghost predicate Valid()
      reads this
    {
      && resolvers.Keys == resolverInfo.Keys
      && (forall t :: t in resolvers <==> t in states && states[t].failure.None?)
      && (forall t :: t in resolvers ==> resolvers[t] == Compiled(states[t]) && resolverInfo[t] == states[t].info)
      && (forall t :: t in states && states[t].failure.Some? ==> states[t].base == Throw(states[t].failure.value.message))
    }

    /** The per-type states once T's static constructor has run. */
    ghost function Initialized(t: Type): (r: map<Type, ResolverState>)
      reads this
      ensures t in r
    {
      InitializedIn(generation, runtime, openTypeResolvers, states, t)
    }

    constructor(g: Generation, rt: Runtime)
      ensures Valid()
      ensures generation == g && runtime == rt
      ensures states == map[] && openTypeResolvers == []
    {
      generation := g;
      runtime := rt;
      resolvers := map[];
      resolverInfo := map[];
      openTypeResolvers := [];
      states := map[];
    }

    /** InnerSetResolver followed by CompileResolver: store the state and publish its compiled factory. */
    method Install(t: Type, s: ResolverState)
      requires Valid() && s.failure.None?
      modifies this
      ensures Valid()
      ensures states == old(states)[t := s]
      ensures resolvers[t] == Compiled(s) && resolverInfo[t] == s.info
      ensures openTypeResolvers == old(openTypeResolvers)
    {
      states := states[t := s];
      resolvers := resolvers[t := Compiled(s)];
      resolverInfo := resolverInfo[t := s.info];
    }

    /** The static constructor of InternalResolver<T>, run on first use of T; when it fails,
        the catch block's state is kept and nothing is published. */
    method EnsureInitialized(t: Type)
      requires Valid()
      modifies this
      ensures Valid()
      ensures states == old(Initialized(t))
      ensures openTypeResolvers == old(openTypeResolvers)
      ensures t !in old(states) && states[t].failure.Some? ==> resolvers == old(resolvers) && resolverInfo == old(resolverInfo)
    {
      if t !in states {
        var s := StaticInitialState(generation, runtime, openTypeResolvers, t);
        if s.failure.None? {
          Install(t, s);
        } else {
          states := states[t := s];
        }
      }
    }

    /** Resolve<T>: the active function, which is the published factory unless the static
        constructor failed. */
    method Resolve(t: Type) returns (f: Factory)
      requires Valid()
      modifies this
      ensures Valid()
      ensures states == old(Initialized(t)) && openTypeResolvers == old(openTypeResolvers)
      ensures f == Active(states[t])
      ensures states[t].failure.None? ==> f == resolvers[t] == Compiled(states[t])
      ensures states[t].failure.Some? ==> t !in resolvers && Run(f) == [Raised(states[t].failure.value.message)]
    {
      EnsureInitialized(t);
      f := Active(states[t]);
      if states[t].failure.None? {
        f := resolvers[t];
      }
    }

    /** SetResolver(resolver, lifetimeManager): a new base and manager, the initializers kept,
        not covariant, not default; a failed static constructor is overcome. */
    method SetResolver(t: Type, resolver: Factory, lifetime: Option<ManagerId>)
      requires Valid()
      modifies this
      ensures Valid()
      ensures states == SetResolverIn(generation, runtime, openTypeResolvers, old(states), t, resolver, lifetime)
      ensures openTypeResolvers == old(openTypeResolvers)
    {
      EnsureInitialized(t);
      Install(t, ResolverState(resolver, states[t].initializers, lifetime, ResolverInfo(false, false), None));
    }

    /** SetResolver(resolver, initializers, lifetimeManager): the initializer list replaced as a whole. */
    method SetResolverWithInitializers(t: Type, resolver: Factory, initializers: seq<Step>, lifetime: Option<ManagerId>)
      requires Valid()
      modifies this
      ensures Valid()
      ensures states == old(Initialized(t))[t := ResolverState(resolver, initializers, lifetime, ResolverInfo(false, false), None)]
      ensures openTypeResolvers == old(openTypeResolvers)
    {
      EnsureInitialized(t);
      Install(t, ResolverState(resolver, initializers, lifetime, ResolverInfo(false, false), None));
    }

    /** SetResolver(constructor, lifetimeManager) of Injector.cs: the given constructor with the
        type's marked dependencies injected. */
    method SetResolverFromConstructor(t: Type, c: Ctor, lifetime: Option<ManagerId>)
      requires Valid()
      modifies this
      ensures Valid()
      ensures states == SetResolverIn(generation, runtime, openTypeResolvers, old(states), t, InjectAllDependencies(t, ConstructorFactory(c)), lifetime)
      ensures openTypeResolvers == old(openTypeResolvers)
    {
      SetResolver(t, InjectAllDependencies(t, ConstructorFactory(c)), lifetime);
    }

    /**
     * AddInitializer: exactly one step appended; base, manager and covariant
     * flag kept; the entry no longer counts as a default registration. After a
     * failed static constructor there is no base expression to extend: the
     * step is still appended, then the NullReferenceException escapes and
     * nothing is published.
     */
    method AddInitializer(t: Type, initializer: Step) returns (err: Option<Error>)
      requires Valid()
      modifies this
      ensures Valid()
      ensures openTypeResolvers == old(openTypeResolvers)
      ensures var s := old(Initialized(t))[t];
              err.Some? <==> s.failure.Some?
      ensures var s := old(Initialized(t))[t];
              s.failure.None? ==> states == old(Initialized(t))[t := s.(initializers := s.initializers + [initializer],
                                                                        info := ResolverInfo(false, s.info.isCovariantRegistration))]
      ensures var s := old(Initialized(t))[t];
              s.failure.Some? ==> err == Some(Error(ErrorNullReference, None))
                                  && states == old(Initialized(t))[t := s.(initializers := s.initializers + [initializer])]
                                  && t !in resolvers
    {
      EnsureInitialized(t);
      var s := states[t];
      if s.failure.Some? {
        states := states[t := s.(initializers := s.initializers + [initializer])];
        return Some(Error(ErrorNullReference, None));
      }
      Install(t, s.(initializers := s.initializers + [initializer], info := ResolverInfo(false, s.info.isCovariantRegistration)));
      err := None;
    }

    /** UpdateCovariantResolver: raises the lookup's exception, or its own error when no mapping
        applies; otherwise installs the covariant factory without a lifetime manager. */
    method UpdateCovariantResolver(t: Type) returns (err: Option<Error>)
      requires Valid()
      modifies this
      ensures Valid()
      ensures openTypeResolvers == old(openTypeResolvers)
      ensures err.None? <==> HasCovariant(runtime, openTypeResolvers, t)
      ensures CovariantResolverExpression(runtime, openTypeResolvers, t).Failure? ==>
                err == Some(CovariantResolverExpression(runtime, openTypeResolvers, t).error)
      ensures CovariantResolverExpression(runtime, openTypeResolvers, t) == Success(None) ==>
                err.Some? && err.value.message == ErrorNoCovariantResolver
      ensures states == old(Initialized(t))[t := CovariantState(runtime, openTypeResolvers, t, old(Initialized(t))[t])]
      ensures t in old(states) ==> states == old(states)[t := CovariantState(runtime, openTypeResolvers, t, old(states)[t])]
      ensures t in old(states) && err.Some? ==> states == old(states)
    {
      EnsureInitialized(t);
      var cov := CovariantResolverExpression(runtime, openTypeResolvers, t);
      if cov.Failure? {
        return Some(cov.error);
      }
      if cov.value.None? {
        return Some(CreateExceptionInternal(ErrorNoCovariantResolver, None));
      }
      Install(t, CovariantState(runtime, openTypeResolvers, t, states[t]));
      err := None;
    }

    /**
     * SetGenericResolver: validate, replace any mapping with the same key by
     * the new one at the end, then reinstall covariantly every cached
     * default or covariant entry that the new mapping matches. A sweep step
     * whose lookup raises stops the sweep: the mapping stays registered,
     * the entries reinstalled before it stay reinstalled, and the exception
     * escapes wrapped by the reflective call.
     */
    method SetGenericResolver(open: Type, concrete: Type, constraints: seq<Type>) returns (err: Option<Error>)
      requires Valid()
      modifies this
      ensures Valid()
      ensures ValidateGenericResolver(runtime, open, concrete, constraints).Some? ==>
                err == ValidateGenericResolver(runtime, open, concrete, constraints)
                && openTypeResolvers == old(openTypeResolvers) && states == old(states)
      ensures ValidateGenericResolver(runtime, open, concrete, constraints).None? ==>
                openTypeResolvers == InsertMapping(old(openTypeResolvers), CovariantMatcher(open, constraints, concrete))
      ensures ValidateGenericResolver(runtime, open, concrete, constraints).None? ==>
                (err.None? <==> forall t :: t in SweptSet(runtime, old(states), open, constraints) ==>
                                              CovariantResolverExpression(runtime, openTypeResolvers, t).Success?)
      ensures ValidateGenericResolver(runtime, open, concrete, constraints).None? && err.None? ==>
                states == Sweep(runtime, old(states), openTypeResolvers, CovariantMatcher(open, constraints, concrete))
      ensures ValidateGenericResolver(runtime, open, concrete, constraints).None? && err.Some? ==>
                && (exists t :: t in SweptSet(runtime, old(states), open, constraints)
                                && CovariantResolverExpression(runtime, openTypeResolvers, t).Failure?
                                && err == Some(Error(ErrorTargetInvocation, Some(CovariantResolverExpression(runtime, openTypeResolvers, t).error))))
                && exists done :: done <= SweptSet(runtime, old(states), open, constraints)
                                  && states == Reinstall(runtime, openTypeResolvers, old(states), done)
    {
      err := ValidateGenericResolver(runtime, open, concrete, constraints);
      if err.Some? {
        return;
      }
      var m := CovariantMatcher(open, constraints, concrete);
      openTypeResolvers := InsertMapping(openTypeResolvers, m);
      assert m in openTypeResolvers;
      err := SweepMatching(m);
    }

    /** The sweep after a new mapping: the cached default or covariant entries that the
        mapping matches, listed and then reinstalled. */
    method SweepMatching(m: CovariantMatcher) returns (err: Option<Error>)
      requires Valid() && m in openTypeResolvers
      modifies this
      ensures Valid()
      ensures openTypeResolvers == old(openTypeResolvers)
      ensures err.None? <==> forall t :: t in SweptSet(runtime, old(states), m.openType, m.constraints) ==>
                                           CovariantResolverExpression(runtime, openTypeResolvers, t).Success?
      ensures err.None? ==> states == Sweep(runtime, old(states), openTypeResolvers, m)
      ensures err.Some? ==> && (exists t :: t in SweptSet(runtime, old(states), m.openType, m.constraints)
                                           && CovariantResolverExpression(runtime, openTypeResolvers, t).Failure?
                                           && err == Some(Error(ErrorTargetInvocation, Some(CovariantResolverExpression(runtime, openTypeResolvers, t).error))))
                            && exists done :: done <= SweptSet(runtime, old(states), m.openType, m.constraints)
                                              && states == Reinstall(runtime, openTypeResolvers, old(states), done)
    {
      ghost var before := states;
      var swept := ListOf(SweptSet(runtime, states, m.openType, m.constraints));
      SweptListFacts(runtime, openTypeResolvers, states, m, swept);
      err := SweepCovariant(swept);
      if err.Some? {
        ghost var i :| 0 <= i < |swept| && states == ReinstallAll(runtime, openTypeResolvers, before, swept[..i])
                       && CovariantResolverExpression(runtime, openTypeResolvers, swept[i]).Failure?
                       && err == Some(Error(ErrorTargetInvocation, Some(CovariantResolverExpression(runtime, openTypeResolvers, swept[i]).error)));
        assert swept[i] in swept;
        PrefixReinstallsSubset(runtime, openTypeResolvers, before, swept, i, SweptSet(runtime, before, m.openType, m.constraints));
      }
    }

    /** The override sweep: UpdateCovariantResolver, through reflection, on every entry of
        `swept` in list order, stopping at the first that raises. */
    method SweepCovariant(swept: seq<Type>) returns (err: Option<Error>)
      requires Valid() && forall k :: k in swept ==> k in states && states[k].failure.None?
      requires forall k :: k in swept ==> CovariantResolverExpression(runtime, openTypeResolvers, k) != Success(None)
      modifies this
      ensures Valid()
      ensures openTypeResolvers == old(openTypeResolvers)
      ensures err.None? <==> forall k :: k in swept ==> CovariantResolverExpression(runtime, openTypeResolvers, k).Success?
      ensures err.None? ==> states == ReinstallAll(runtime, openTypeResolvers, old(states), swept)
      ensures err.Some? ==> exists i :: 0 <= i < |swept| && states == ReinstallAll(runtime, openTypeResolvers, old(states), swept[..i])
                                        && CovariantResolverExpression(runtime, openTypeResolvers, swept[i]).Failure?
                                        && err == Some(Error(ErrorTargetInvocation, Some(CovariantResolverExpression(runtime, openTypeResolvers, swept[i]).error)))
    {
      ghost var before := states;
      ghost var found := Lookups(runtime, openTypeResolvers, swept);
      for i := 0 to |swept|
        invariant Valid()
        invariant openTypeResolvers == old(openTypeResolvers)
        invariant states == ReinstallAll(runtime, openTypeResolvers, before, swept[..i])
        invariant false !in found[..i]
      {
        assert swept[i] in swept;
        ReinstallAllSnoc(runtime, openTypeResolvers, before, swept, i, states);
        var e := UpdateCovariantResolver(swept[i]);
        if e.Some? {
          return Some(Error(ErrorTargetInvocation, Some(e.value)));
        }
        AllFoundSnoc(found, i);
      }
      assert swept[..|swept|] == swept;
      AllFoundWhole(found);
      err := None;
    }
  }

  /** Stopping a sweep part-way leaves the registry with a subset of the swept entries
      reinstalled. */
  lemma PrefixReinstallsSubset(rt: Runtime, mappings: seq<CovariantMatcher>, states: map<Type, ResolverState>,
                               swept: seq<Type>, i: nat, all: set<Type>)
    requires i <= |swept| && forall k :: k in swept ==> k in all
    ensures exists done :: done <= all && ReinstallAll(rt, mappings, states, swept[..i]) == Reinstall(rt, mappings, states, done)
  {
    ReinstallAllIsReinstall(rt, mappings, states, swept[..i]);
    var done := set k | k in swept[..i];
    assert done <= all;
  }

  /** What the sweep's list of a new mapping satisfies: its types are published, the lookup
      is never empty for them, and reinstalling along it is the sweep. */
  lemma SweptListFacts(rt: Runtime, mappings: seq<CovariantMatcher>, states: map<Type, ResolverState>,
                       m: CovariantMatcher, swept: seq<Type>)
    requires m in mappings
    requires forall t :: t in swept <==> t in SweptSet(rt, states, m.openType, m.constraints)
    ensures forall t :: t in swept ==> t in states && states[t].failure.None?
    ensures forall t :: t in swept ==> CovariantResolverExpression(rt, mappings, t) != Success(None)
    ensures ReinstallAll(rt, mappings, states, swept) == Sweep(rt, states, mappings, m)
  {
    forall t | t in swept
      ensures CovariantResolverExpression(rt, mappings, t) != Success(None)
    {
      MatchedHasCovariant(rt, mappings, t, m);
    }
    ReinstallAllIsReinstall(rt, mappings, states, swept);
    assert (set k | k in swept) == SweptSet(rt, states, m.openType, m.constraints);
  }

  /** Whether the lookup of each listed type succeeds. */
  function Lookups(rt: Runtime, mappings: seq<CovariantMatcher>, ts: seq<Type>): (r: seq<bool>)
    ensures |r| == |ts|
    ensures forall j :: 0 <= j < |ts| ==> (r[j] <==> CovariantResolverExpression(rt, mappings, ts[j]).Success?)
  {
    seq(|ts|, j requires 0 <= j < |ts| => CovariantResolverExpression(rt, mappings, ts[j]).Success?)
  }

  /** One more successful lookup extends a run of successes. */
  lemma AllFoundSnoc(found: seq<bool>, i: nat)
    requires i < |found| && false !in found[..i] && found[i]
    ensures false !in found[..i + 1]
  {
    assert found[..i + 1] == found[..i] + [found[i]];
  }

  /** A run of successes over the whole list means every lookup succeeded. */
  lemma AllFoundWhole(found: seq<bool>)
    requires false !in found[..|found|]
    ensures forall j :: 0 <= j < |found| ==> found[j]
  {
    assert found[..|found|] == found;
  }

  /** Reinstalling along one more listed type. */
  lemma ReinstallAllSnoc(rt: Runtime, mappings: seq<CovariantMatcher>, states: map<Type, ResolverState>, swept: seq<Type>, i: nat,
                         current: map<Type, ResolverState>)
    requires i < |swept| && swept[i] in states
    requires current == ReinstallAll(rt, mappings, states, swept[..i])
    ensures swept[i] in current
    ensures ReinstallAll(rt, mappings, states, swept[..i + 1]) == current[swept[i] := CovariantState(rt, mappings, swept[i], current[swept[i]])]
  {
    assert swept[..i + 1][..i] == swept[..i];
  }

  /** Enumerable.ToList over a set: every element once, in some order. */
  method ListOf(s: set<Type>) returns (r: seq<Type>)
    ensures forall t :: t in r <==> t in s
    ensures |r| == |s|
  {
    r := [];
    var todo := s;
    while todo != {}
      invariant forall t :: t in r <==> t in s - todo
      invariant todo <= s
      invariant |r| + |todo| == |s|
      decreases |todo|
    {
      var t :| t in todo;
      r := r + [t];
      todo := todo - {t};
    }
  }
}
