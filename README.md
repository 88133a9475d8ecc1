# fFastInjector in Dafny

A model of the resolution engine of fFastInjector, a small dependency-injection
container for .NET. It covers both generations of the engine:

- **Injector.cs** is the first generation, one file. Factories there take no
  arguments. It contains its own FancyTypeName, InternalResolver<T>,
  ResolverFunctions<T> and LifetimeManager<T> with its Singleton.
- **The split files** are the second generation: InternalResolver.cs,
  ResolverFunctions.cs, DefaultResolverBuilder.cs, Functions.cs,
  CovariantMatcher.cs, ReplaceVisitor.cs, RegistrationData.cs and the
  abstract LifetimeManager.cs. Factories there take a resolution context.

The model has these parts:

- **Types** (`types.dfy`). A runtime type is a finite tree: name, generic
  definition, arguments, base type, interfaces, flags, constructors and
  members.
  - IsAssignableFrom and IsSubclassOf are structural relations on that tree.
  - `Runtime.close` stands for MakeGenericType.
- **Names and errors** (`strings.dfy`, `functions.dfy`).
  - Both renderings of FancyTypeName.
  - The exception value, with its message and the exception it wraps.
  - The message templates and the argument-null guard.
- **Factories** (`factories.dfy`). The expression trees the engine compiles
  are terms. `Run` gives each term a meaning: the trace of events that
  running the compiled delegate produces.
  - A reference-type parameter is resolved; a value-type parameter gets its
    default.
  - A constructor runs after its arguments.
  - An exception ends the trace.
- **Expression rewriting** (`expressions.dfy`). ReplaceVisitor and
  ReplaceParameterWith on expression trees whose node identity is explicit.
- **Covariant generic mappings** (`covariant.dfy`, `ordering.dfy`).
  - SetGenericResolver's mapping list, and its validation.
  - MatchesGeneric, MatchesGenericResolver, MatchesQuality, InheritDistance,
    and Stitch with MoveAllEnumerators.
  - The lookup that picks the best mapping for a closed generic type.
- **Default factories** (`resolver_functions.dfy`, `default_resolver_builder.dfy`).
  - First generation: constructor selection, injection of marked properties
    and methods, and the poison factories.
  - Second generation: DefaultResolverBuilder<T>.
  - Both: AddInitializers and AddLifetimeManager.
- **The registry** (`registry.dfy`). The class `Injector` holds:
  - the published type-to-factory and type-to-info maps;
  - the open-generic mapping list;
  - the static state of every InternalResolver<T> that has been initialized.

  Its methods are the static constructor, Resolve, the SetResolver
  overloads, AddInitializer, UpdateCovariantResolver, and SetGenericResolver
  with its override sweep. Each method keeps the invariant that every
  published factory is the compiled form of its type's state.
- **Lifetime managers** (`lifetimes.dfy` and one file per manager). Each
  manager is a class, and its GetValue is proved against a step function.
  Lemmas about series of calls state what each manager promises:
  - the singleton keeps its first value;
  - the per-thread manager keeps its instance;
  - the per-resolve manager calls its resolver only at the outermost level;
  - the per-connection manager gets the slot or adds to it.
- **The registration scan** (`injector_functions.dfy`).
  RegisterAllTypesAsImplementedInterfaces scans an assembly and blocks shared
  interfaces. It then registers each remaining (interface, class) pair in the
  registry.
- **The registration record** (`registration_data.dfy`). RegistrationData<T>
  and its defaults.

User code, meaning resolver delegates and initializers, is opaque. Where a
manager calls a user delegate, the delegate's outcome (a value or an
exception) is a parameter of the call, called `supplied`.

## Behaviour the model takes from the code

The model follows the code in each of these places:

- **Ties in the covariant lookup go to the earliest mapping.** OrderBy is
  stable and FirstOrDefault takes the head (Injector.cs:1017-1022). A
  mapping added later for the same key replaces the old one and moves to the
  end of the list (Injector.cs:304-311).
- **InheritDistance scores an exact match and an interface match as 1**
  (Injector.cs:455). IsSubclassOf(typeof(object)) holds for every type other
  than `object`, interfaces included. The walk therefore runs towards
  `object` (Injector.cs:439-451). For a class it stops at `object` and scores
  Int32.MaxValue. For an interface it meets a null BaseType and raises a
  null-reference exception (Injector.cs:442).
- **Match qualities are summed in checked Int32 arithmetic.** Enumerable.Sum
  over `int` raises OverflowException once a partial sum passes
  Int32.MaxValue (Injector.cs:420). Every pair adds at least 1, so a mapping
  with two or more constraints, one of them scoring Int32.MaxValue (an
  `object` constraint on a class argument, say), always overflows. The pairs
  are walked in order, so the first exception wins: an overflow, or the
  null-reference exception of an `object` constraint on an interface argument.
- **One raising candidate makes the whole covariant lookup raise.** OrderBy
  computes the keys in list order, so the exception of the first candidate
  whose quality raises escapes (Injector.cs:1017-1020,
  ResolverFunctions.cs:56-58). What follows:
  - In the static constructor the catch block installs an active function
    that raises "Error initializing default resolver for …" wrapping that
    exception, and publishes nothing for the type (Injector.cs:881-887,
    InternalResolver.cs:32-38).
  - UpdateCovariantResolver passes the exception on.
  - In SetGenericResolver's sweep the first entry whose lookup raises stops
    the sweep. The new mapping stays registered, and the entries reinstalled
    before it stay reinstalled. The exception escapes wrapped in the
    TargetInvocationException of MethodInfo.Invoke (Injector.cs:316-329).
- **After a failed static constructor, AddInitializer appends and then fails.**
  The initializer is added first. Then CompileResolver reads the null base
  expression and raises a null-reference exception, so nothing is published
  (Injector.cs:966-971, 983-985). A later SetResolver overcomes the failure.
- **The registration scan stops at the first value type.** SetResolver<T,
  TConcreteType> requires `TConcreteType : class` (Injector.cs:202-204).
  MakeGenericMethod refuses a struct or enum class with an ArgumentException
  (InjectorFunctions.cs:52), so the final loop ends there. The registrations
  made before it stay.
- **The second-generation error text differs.** Its missing-constructor text
  (ErrorConstants.cs:6) drops the sentence about private constructors that
  the first generation has (Injector.cs:88).
- **FancyTypeName has two renderings.**
  - Functions.cs keeps a non-generic Name whole.
  - Injector.cs, and the private copy in the development PerConnection
    manager, cut every Name at its first backtick.
  - The src PerConnection manager builds its key with Injector.FancyTypeName,
    which is the second of these renderings.
- **The singleton caches a null result forever.** The first call that
  returns, even with null, swaps in the optimized getter (Injector.cs:803-804).
- **The per-thread manager does not keep a null result.** Its `??` retries
  on the next call (PerThreadLifetime.cs:20).
- **Both PerConnection managers fail on a null HttpContext.**
  - The src copy dereferences the context at once (src line 19).
  - The development copy skips the fill, so the resolver is never called,
    and then dereferences the context (DEV lines 19 and 24).
- **A plain `new LifetimeManager<T>()` of Injector.cs fails on GetValue.**
  It has no value getter, so GetValue raises a null-reference exception.
- **The second-generation default builder is modelled as its code is
  written out, taking each expression as built.** Its property injectors
  resolve the builder's own T, not the property's type
  (DefaultResolverBuilder.cs:150). Their assignment targets the lambda's own
  `instance` parameter, so they set no property (DefaultResolverBuilder.cs:152-159).
  The injectors are placed in the block as lambda values, not invocations
  (DefaultResolverBuilder.cs:59-71). Building these expressions would in
  fact fail earlier; see "Left out".
- **The second-generation builder resolves every parameter,** value types
  included (DefaultResolverBuilder.cs:99-113). The first generation gives
  value types their default (Injector.cs:1124-1138).

## Model

All source paths below are relative to the repository root.

| member | source | states |
|---|---|---|
| Factories.Then | src/fFastInjector/ResolverFunctions.cs:30-40 | The second part runs only when the first did not raise, and nothing follows a raise in the joined trace. |
| Factories.Sequence | src/fFastInjector/ResolverFunctions.cs:30-40 | Running pieces one after another keeps the rule that nothing follows a raise. |
| Factories.Run | src/fFastInjector/Injector.cs:1140-1143 | Running a factory produces at least one event, and nothing follows a raise. |
| Factories.RunStep | src/fFastInjector/Injector.cs:1145-1156 | Running a step never continues after a raise. |
| Strings.BeforeTick | src/fFastInjector/Functions.cs:17 | Split('`')[0] is a backtick-free prefix of the name. It is either the whole name or stops exactly at the first backtick. |
| Strings.SplitJoin | src/fFastInjector/Functions.cs:18 | string.Join(",") loses nothing when no part holds a comma: splitting the result at commas gives back the parts, in order. |
| Strings.Format | src/fFastInjector/ResolverFunctions.cs:72 | string.Format with a single {0} leaves a template without a placeholder unchanged. |
| Strings.FormatContainsArg | src/fFastInjector/ResolverFunctions.cs:72 | Filling a template that has a placeholder puts the argument into the message. |
| Types.Hops | src/fFastInjector/Injector.cs:439-443 | Reaching an ancestor on the BaseType chain takes at least one step. |
| Types.SubclassIsAssignable | src/fFastInjector/Injector.cs:434-436 | IsSubclassOf implies IsAssignableFrom, so InheritDistance's subclass branch lies inside its assignable branch. |
| Types.SubclassOfObject | src/fFastInjector/Injector.cs:436 | IsSubclassOf(object) holds exactly for the types other than `object`, interfaces included. For any other base it means lying on the BaseType chain. |
| Types.SubclassDepth | src/fFastInjector/Injector.cs:439-443 | An ancestor on the BaseType chain sits higher. So the walk towards it ends, and no type is its own ancestor. |
| Functions.ArgNames | src/fFastInjector/Functions.cs:18 | One rendered name per generic argument; the i-th is the i-th argument rendered by the same FancyTypeName. |
| Functions.FancyTypeName | src/fFastInjector/Functions.cs:13-22 | A non-generic type renders as its Name, untouched. A generic type renders as its Name before the backtick, then '<', the comma-join of its arguments' renderings, and '>'. |
| Functions.LegacyFancyTypeName | src/fFastInjector/Injector.cs:110-118 | The Name is always cut at its first backtick. A non-generic result holds no backtick. A generic type adds '<', the comma-join of its arguments' renderings, and '>'. |
| Functions.FancyTypeNameArguments | src/fFastInjector/Functions.cs:13-22 | When no argument's rendering holds a comma, splitting the text between the angle brackets at commas gives back the argument renderings in order, for either rendering. |
| Functions.FancyTypeNamesAgree | src/fFastInjector/Functions.cs:13-22 | The two renderings agree on every type whose non-generic names contain no backtick. |
| Functions.BeforeTickNoTick | src/fFastInjector/Injector.cs:112 | A name without a backtick is left whole by the cut. |
| Functions.FancyTypeNamesDiffer | src/fFastInjector/Injector.cs:112 | On a non-generic name that holds a backtick, the two renderings differ. |
| Functions.CreateExceptionInternal | src/fFastInjector/Functions.cs:27-28 | The exception carries the given message and the given inner exception. |
| Functions.WrapException | src/fFastInjector/Functions.cs:24-25 | The new exception has the old one's message and wraps the old one. |
| Functions.ArgumentNullException | src/fFastInjector/Functions.cs:33 | The message names the argument. |
| Functions.ArgumentNullGuard | src/fFastInjector/Functions.cs:30-34 | Succeeds exactly when the argument is present, returning it unchanged. Otherwise the error has the ArgumentNullException's message and wraps it. |
| Functions.TemplatesHavePlaceholder | src/fFastInjector/ErrorConstants.cs:5-6 | Every error template has a {0}, so every error message names its type. |
| Ordering.FirstMinimum | src/fFastInjector/DefaultResolverBuilder.cs:84-89 | Stable OrderBy/ThenBy then FirstOrDefault returns nothing exactly when no element is eligible. Otherwise it returns an eligible element whose key is least and strictly below every earlier eligible element's key. |
| Ordering.FirstMinimumUnique | src/fFastInjector/DefaultResolverBuilder.cs:84-89 | Only one index meets that description, so the choice is determined. |
| Covariant.Names | src/fFastInjector/CovariantMatcher.cs:42 | One rendered name per constraint, in order. |
| Covariant.MatcherToString | src/fFastInjector/CovariantMatcher.cs:39-43 | The text starts with the open type's name, ends with the concrete type's name, and has the fixed words between. The constraint segment splits back into the constraint names. |
| Covariant.Zip | src/fFastInjector/Injector.cs:462-471 | Pairs the two sequences position by position. |
| Covariant.MoveAllEnumerators | src/fFastInjector/Injector.cs:473-479 | Returns true exactly when every enumerator advanced, and false exactly when none did. A partial advance raises the size error. |
| Covariant.Stitch | src/fFastInjector/Injector.cs:462-471 | Succeeds exactly on equal lengths, yielding the position-wise pairs. Otherwise it fails with "Sequences are not the same size". |
| Covariant.MatchesGeneric | src/fFastInjector/Injector.cs:378-401 | A closed type matches when it was made from the open definition and either there are no constraints, or there is one constraint per argument and each is assignable from its argument. |
| Covariant.MatchesGenericResolver | src/fFastInjector/Injector.cs:344-373 | The sweep's test is the lookup's MatchesGeneric plus two more checks: the cached type has as many arguments as the open definition, and the open definition closed over those arguments is assignable from the cached type. |
| Covariant.InheritDistanceOf | src/fFastInjector/Injector.cs:430-460 | Raises NullReferenceException exactly for an `object` base and a derived type other than `object` whose BaseType chain misses `object` (an interface). Otherwise the distance is at least 1. It is MaxValue exactly when the type is not assignable, or the base is on the chain and is `object` or too far. An assignable non-subclass scores 1. |
| Covariant.InheritDistance | src/fFastInjector/Injector.cs:430-460 | The base-chain walk computes exactly InheritDistanceOf, null dereference included. |
| Covariant.ObjectConstraintScoresMaxValue | src/fFastInjector/Injector.cs:439-451 | An `object` constraint on a type whose BaseType chain reaches `object` scores MaxValue, the same as no match. |
| Covariant.ObjectConstraintOnInterfaceRaises | src/fFastInjector/Injector.cs:436-442 | An `object` constraint on an interface raises NullReferenceException: the walk steps onto the interface's null BaseType. |
| Covariant.SumDistances | src/fFastInjector/Injector.cs:420 | When no walk raises: the exact sum of the distances is at least the number of constraints, and an unassignable pair pushes it to MaxValue or beyond. |
| Covariant.SumDistancesAbove | src/fFastInjector/Injector.cs:420 | When no walk raises, the sum exceeds any one pair's distance by at least the number of other pairs. |
| Covariant.CheckedSum | src/fFastInjector/Injector.cs:418-421 | Enumerable.Sum over the walks from a running total: it succeeds exactly when no walk raises and total plus distances stays within Int32.MaxValue, with that value. Otherwise it raises OverflowException or a walk's NullReferenceException, the latter only when some walk raises. |
| Covariant.FirstRaisingWalk | src/fFastInjector/Injector.cs:418-421 | When the pairs before a raising walk sum without overflow, the sum raises that walk's NullReferenceException. |
| Covariant.MatchesQuality | src/fFastInjector/Injector.cs:406-425 | MaxValue without constraints or for another definition. Otherwise Stitch fails exactly when the lengths differ. With equal lengths the quality is the sum of the distances when no walk raises and the sum fits; else it raises OverflowException or NullReferenceException, and only OverflowException when no walk raises. |
| Covariant.MatchingHasQuality | src/fFastInjector/Injector.cs:1019-1020 | A mapping that passes MatchesGeneric never meets Stitch's error. Its quality can only raise the overflow or the null dereference, and the latter only with an `object` constraint over an argument whose chain misses `object`. |
| Covariant.MaxValuePairOverflows | src/fFastInjector/Injector.cs:418-421 | With two or more constraints, no raising walk, and one pair scoring Int32.MaxValue, the quality raises OverflowException. |
| Covariant.RaisingWalkRaises | src/fFastInjector/Injector.cs:418-421 | When the pairs before the first raising walk fit, the quality raises NullReferenceException. |
| Covariant.BestMapping | src/fFastInjector/Injector.cs:1017-1022 | Returns nothing exactly when no mapping is a candidate. Otherwise it returns a candidate of least quality, strictly better than every earlier candidate, so ties go to the earliest. |
| Covariant.FirstFailing | src/fFastInjector/Injector.cs:1017-1020 | The earliest candidate whose quality raises, or nothing exactly when no candidate's quality raises. |
| Covariant.CovariantLookup | src/fFastInjector/Injector.cs:1014-1022 | Raises exactly when some candidate's quality raises, with the exception of the earliest such candidate: OverflowException or NullReferenceException. Otherwise it settles on BestMapping, every candidate having its quality as rank. |
| Covariant.ConstrainedWins | src/fFastInjector/Injector.cs:1020 | An unconstrained mapping is never chosen over a candidate that scores below MaxValue. |
| Covariant.ValidateGenericResolver | src/fFastInjector/Injector.cs:283-300 | Accepts exactly when there are no constraints, or one per argument with the closed open type assignable from the closed concrete type. The arity error comes otherwise. |
| Covariant.RemoveAll | src/fFastInjector/Injector.cs:304 | Keeps exactly the entries with another (open type, constraints) key. A list without the key is unchanged, and a one-entry list loses its entry exactly when it has the key. |
| Covariant.RemoveAllAppend | src/fFastInjector/Injector.cs:304 | RemoveAll works entry by entry: on a concatenation it is the concatenation of the two results, so the kept entries stay in their order. |
| Covariant.InsertMapping | src/fFastInjector/Injector.cs:304-311 | The new mapping comes last. An entry is in the new list exactly when it is the new mapping or an old entry with another key. |
| Covariant.InsertMappingUnique | src/fFastInjector/Injector.cs:304-311 | After insertion the key occurs exactly once, as the last entry. Every other entry was there before, with another key. |
| Covariant.InsertMappingKeepsOrder | src/fFastInjector/Injector.cs:304-311 | The list after insertion is the old list without the key, in its order, split at any point, followed by the new mapping. |
| Expressions.Replace | src/fFastInjector/ReplaceVisitor.cs:40-43 | The original node becomes the replacement. Any other node keeps its id label, class and number of children. |
| Expressions.ReplaceAbsent | src/fFastInjector/ReplaceVisitor.cs:42 | A tree without the original comes back unchanged. |
| Expressions.ReplaceRemovesAll | src/fFastInjector/ReplaceVisitor.cs:42 | No occurrence of the original survives, unless the replacement itself holds it. |
| Expressions.OfClass | src/fFastInjector/Functions.cs:56 | Keeps exactly the parameters of the replacement's node class. |
| Expressions.ReplaceInLambda | src/fFastInjector/Functions.cs:57 | The visited lambda has as many parameters as before. |
| Expressions.ReplaceParameterWith | src/fFastInjector/Functions.cs:53-58 | Succeeds exactly when one parameter has the replacement's class, and that parameter is replaced throughout. Otherwise Single() fails. |
| Expressions.ReplaceParameterWithRemovesParameter | src/fFastInjector/Functions.cs:53-58 | After a successful call the chosen parameter no longer occurs in the body. |
| ResolverFunctions.AddInitializers | src/fFastInjector/ResolverFunctions.cs:18-49 | With no initializers, the resolver itself. Both generations share this. |
| ResolverFunctions.AddInitializersRun | src/fFastInjector/ResolverFunctions.cs:30-40 | The block runs the resolver once and then each initializer in order, unless the resolver throws. |
| ResolverFunctions.AddLifetimeManager | src/fFastInjector/ResolverFunctions.cs:75-86 | Without a manager, the expression itself. With one, the manager is handed the expression. |
| ResolverFunctions.AddLifetimeManagerRun | src/fFastInjector/ResolverFunctions.cs:83-84 | With a manager, resolving only asks the manager for its value. |
| ResolverFunctions.CovariantResolverExpression | src/fFastInjector/ResolverFunctions.cs:51-68 | Raises exactly for a generic type with a candidate whose quality raises, with the exception of the earliest such candidate, OverflowException or NullReferenceException. Otherwise returns nothing exactly for a non-generic type or when no mapping is a candidate, and else resolves the best mapping's concrete definition closed over the type's own arguments. |
| ResolverFunctions.ThrowMissingConstructorException | src/fFastInjector/ResolverFunctions.cs:70-73 | Always raises, with a message that names the type. |
| ResolverFunctions.ThrowInterfaceException | src/fFastInjector/Injector.cs:1174-1177 | Always raises, with a message that names the interface or abstract type. |
| ResolverFunctions.ParameterFactory | src/fFastInjector/Injector.cs:1124-1138 | A reference type is resolved; a value type gets its default. |
| ResolverFunctions.ConstructorFactory | src/fFastInjector/Injector.cs:1140-1143 | `new C(…)` with one argument per parameter, each resolved or defaulted by its type. |
| ResolverFunctions.Eligible | src/fFastInjector/Injector.cs:1071-1072 | GetConstructors() lists the public constructors and WhereAvailableForRegistration drops those marked IgnoreDuringRegistration: a constructor is eligible exactly when it is public and not marked. |
| ResolverFunctions.CtorKey | src/fFastInjector/Injector.cs:1073-1074 | The first key is 0 exactly for a marked constructor; the second is minus the parameter count. |
| ResolverFunctions.CtorKeyOrder | src/fFastInjector/Injector.cs:1073-1074 | A constructor sorts no later than another exactly when it is marked and the other is not, or both are marked alike and it has at least as many parameters. |
| ResolverFunctions.SelectConstructor | src/fFastInjector/Injector.cs:1070-1075 | Returns nothing exactly when no constructor is public and not ignored. Otherwise a marked constructor is preferred, then the most parameters, then the earliest. |
| ResolverFunctions.PropertyInjection | src/fFastInjector/Injector.cs:1145-1151 | Running the injection resolves the property's own type, then assigns the property. |
| ResolverFunctions.MethodInjection | src/fFastInjector/Injector.cs:1153-1156 | Running the injection resolves or defaults each parameter in order, then calls the method. |
| ResolverFunctions.MarkedPropertyInjections | src/fFastInjector/Injector.cs:1094-1108 | The injections are exactly those of the marked properties, public or not: each assigns its property a resolution of the property's own type. |
| ResolverFunctions.MarkedMethodInjections | src/fFastInjector/Injector.cs:1099-1109 | The injections are exactly the calls of the marked methods, public or not, each with its parameters resolved or defaulted. |
| ResolverFunctions.MarkedPropertyInjectionsAppend | src/fFastInjector/Injector.cs:1094-1098 | The property injections follow member order: on concatenated member lists they concatenate. |
| ResolverFunctions.MarkedMethodInjectionsAppend | src/fFastInjector/Injector.cs:1099-1103 | The method injections follow member order: on concatenated member lists they concatenate. |
| ResolverFunctions.MarkedInjectionsOne | src/fFastInjector/Injector.cs:1094-1103 | A single member yields its property injection exactly when it is a marked property, and its method injection exactly when it is a marked method. |
| ResolverFunctions.InjectAllDependencies | src/fFastInjector/Injector.cs:1090-1115 | Unchanged when nothing is marked. Otherwise it runs the factory, then the marked properties, then the marked methods. |
| ResolverFunctions.ConstructorExpressionFromType | src/fFastInjector/Injector.cs:1065-1088 | Without a usable constructor, a factory that raises naming the type. Otherwise the chosen constructor with all marked dependencies injected. |
| ResolverFunctions.LegacyDefaultResolverExpression | src/fFastInjector/Injector.cs:1038-1055 | An interface or abstract type gets a factory that always raises naming the type, and so does a type without a usable constructor. A concrete type with one runs the chosen constructor after its parameters, then the marked property injections, then the marked method injections. |
| ResolverFunctions.ConstructorRun | src/fFastInjector/Injector.cs:1140-1143 | The constructor runs after its parameters, each resolved or defaulted in parameter order. |
| ResolverFunctions.ParameterEvents | src/fFastInjector/Injector.cs:1117-1122 | One event per parameter, and none of them raises. |
| DefaultResolverBuilder.InternalResolveExpression | src/fFastInjector/DefaultResolverBuilder.cs:47-48 | Running it resolves exactly the type. |
| DefaultResolverBuilder.ParameterExpressions | src/fFastInjector/DefaultResolverBuilder.cs:99-103 | One factory per parameter, and each resolves its parameter type. |
| DefaultResolverBuilder.ResolvedEach | src/fFastInjector/DefaultResolverBuilder.cs:101-102 | One Resolved event per parameter, in order. |
| DefaultResolverBuilder.ConstructorInjectExpression | src/fFastInjector/DefaultResolverBuilder.cs:79-97 | Without a usable constructor, a factory that raises naming the type. Otherwise the selected constructor, run after resolving each parameter in order. |
| DefaultResolverBuilder.MemberInjectExpression | src/fFastInjector/DefaultResolverBuilder.cs:125-162 | No injector exactly for members that are neither methods nor properties. A method gets a call with resolved arguments, wrapped as a lambda. A property gets a lambda that assigns a resolution of the builder's own type to its `instance` parameter. |
| DefaultResolverBuilder.PropertyInjectorSetsNoProperty | src/fFastInjector/DefaultResolverBuilder.cs:148-162 | A property injector, were it invoked, resolves the builder's own type once and assigns no property. |
| DefaultResolverBuilder.MemberInjectors | src/fFastInjector/DefaultResolverBuilder.cs:54-57 | Only lambdas, at most one per member. Empty exactly when no public method or property is discovered. |
| DefaultResolverBuilder.DefaultResolverExpression | src/fFastInjector/DefaultResolverBuilder.cs:50-77 | The constructor factory when there are no injectors. Otherwise a block of that factory followed by the injectors. |
| DefaultResolverBuilder.InjectorsNeverRun | src/fFastInjector/DefaultResolverBuilder.cs:59-71 | With the block as written, running the default factory runs only the constructor factory: the injector lambdas are values in the block, not calls. |
| Registry.Compiled | src/fFastInjector/InternalResolver.cs:49-55 | With a manager, resolving only asks the manager, which holds the base with its initializers. Without one, resolving runs the base and then the initializers; with no initializers either, the factory is the base. |
| Registry.Active | src/fFastInjector/InternalResolver.cs:32-38 | After a failed static constructor, resolving runs only the stored raising function, with neither initializers nor manager. Otherwise it runs as the compiled factory. |
| Registry.DefaultFor | src/fFastInjector/InternalResolver.cs:27 | The second generation's default runs as the constructor factory. The first generation's default always raises for interfaces and abstract types, and is the constructor expression with injected dependencies for any other type. |
| Registry.InitErrorNamesType | src/fFastInjector/InternalResolver.cs:36 | The initialization error message names the type, in the generation's rendering. |
| Registry.InitFailureRaises | src/fFastInjector/Injector.cs:881-887 | When the lookup raises, resolving the type raises the initialization error, which names the type and wraps the lookup's exception: OverflowException or NullReferenceException. |
| Registry.StaticInitialState | src/fFastInjector/InternalResolver.cs:15-39 | No initializers and no manager. When the lookup raises, the catch state: its function raises the initialization error wrapping the lookup's exception. Otherwise a default registration whose base is the covariant factory exactly when one applies, flagged covariant then, and the default factory else. |
| Registry.CovariantState | src/fFastInjector/InternalResolver.cs:71-82 | When a covariant factory exists: that factory, no manager, the initializers kept, flagged covariant and not default. Otherwise the state is unchanged. |
| Registry.CovariantStateResolvesBest | src/fFastInjector/InternalResolver.cs:73-81 | A covariantly reinstalled entry resolves the best mapping's concrete type closed over the type's own arguments. |
| Registry.CovariantStateIdempotent | src/fFastInjector/Injector.cs:932-944 | Reinstalling covariantly twice is the same as once. |
| Registry.InitializedIn | src/fFastInjector/Injector.cs:865-890 | The static constructor adds the type once, with its initial state. Existing entries are untouched. |
| Registry.SetResolverIn | src/fFastInjector/InternalResolver.cs:84-87 | The type gets the new base and manager and keeps its initializers. It is neither covariant nor default. Every other type is unchanged. |
| Registry.SweptSet | src/fFastInjector/Injector.cs:316 | Exactly the published default or covariant entries that the new mapping matches; a type whose static constructor failed is not published and is not swept. |
| Registry.MatchedHasCovariant | src/fFastInjector/Injector.cs:316-319 | A type matched by a listed mapping never finds the lookup empty, so inside the sweep UpdateCovariantResolver can only raise the lookup's exception. |
| Registry.Reinstall | src/fFastInjector/Injector.cs:316-320 | The swept entries are reinstalled covariantly; every other entry is unchanged. |
| Registry.ReinstallAll | src/fFastInjector/Injector.cs:316-320 | Reinstalling along a list keeps the set of registered types. |
| Registry.ReinstallAllIsReinstall | src/fFastInjector/Injector.cs:316 | The order of the sweep list, and repetitions in it, do not matter: the result is reinstalling its set. |
| Registry.Sweep | src/fFastInjector/Injector.cs:314-320 | Keeps the set of registered types. Every published default or covariant entry that the new mapping matches is reinstalled covariantly; every other entry is unchanged. |
| Registry.SweepMeaning | src/fFastInjector/Injector.cs:313-320 | A swept entry never finds the lookup empty. When its lookup succeeds it becomes covariant and not default, has no manager, and keeps its initializers. Any other entry is untouched. |
| Registry.ExplicitRegistrationSurvives | src/fFastInjector/Injector.cs:316 | An explicit registration, neither default nor covariant, and a failed entry survive every sweep. |
| Registry.SweepIdempotent | src/fFastInjector/Injector.cs:316-320 | Sweeping again with the same mapping list changes nothing. |
| Registry.ListOf | src/fFastInjector/Injector.cs:316 | ToList holds every selected type exactly once. |
| Registry.Injector.constructor | src/fFastInjector/Injector.cs:49-63 | An empty registry, with no mappings and consistent published maps. |
| Registry.Injector.Install | src/fFastInjector/InternalResolver.cs:41-62 | Stores the state and publishes its compiled factory and flags, keeping the invariant. |
| Registry.Injector.EnsureInitialized | src/fFastInjector/InternalResolver.cs:15-39 | Runs the static constructor on first use only. A failed static constructor keeps its state but publishes nothing. |
| Registry.Injector.Resolve | src/fFastInjector/Injector.cs:171-175 | Initializes the type if needed and returns the active function: the published compiled form of the state, or after a failed static constructor a function that raises its error. |
| Registry.Injector.SetResolver | src/fFastInjector/InternalResolver.cs:84-87 | The state becomes SetResolverIn of the old state. The mapping list is unchanged. |
| Registry.Injector.SetResolverWithInitializers | src/fFastInjector/InternalResolver.cs:89-94 | The initializer list is replaced as a whole, with the new base and manager. The entry is neither covariant nor default. |
| Registry.Injector.SetResolverFromConstructor | src/fFastInjector/Injector.cs:946-952 | Installs the given constructor with all marked dependencies injected. |
| Registry.Injector.AddInitializer | src/fFastInjector/Injector.cs:966-971 | Appends exactly one initializer and keeps base, manager and covariant flag; the entry is no longer a default registration. After a failed static constructor it still appends, then raises a null-reference exception and publishes nothing. |
| Registry.Injector.UpdateCovariantResolver | src/fFastInjector/InternalResolver.cs:71-82 | Raises the lookup's exception (overflow or null reference), or its own error when no mapping applies, with the state left as the static constructor made it. Otherwise the type is reinstalled covariantly. |
| Registry.Injector.SetGenericResolver | src/fFastInjector/Injector.cs:276-322 | Validation errors change nothing. Otherwise the mapping replaces its key at the end of the list. It succeeds exactly when no swept entry's lookup raises, and the registry then becomes the sweep of the old registry. Otherwise it raises some swept entry's lookup exception wrapped by the reflective call, with some of the swept entries reinstalled. |
| Registry.Injector.SweepMatching | src/fFastInjector/Injector.cs:316-320 | The matching published entries are listed and reinstalled. Without a raising lookup the result is Reinstall of their set; with one, the wrapped exception of a swept entry's lookup and Reinstall of a subset. |
| Registry.Injector.SweepCovariant | src/fFastInjector/Injector.cs:316-329 | Reinstalls the listed types one after another. It stops at the first whose lookup raises, with that exception wrapped by the reflective call, the earlier types reinstalled. |
| Lifetimes.Call | src/fFastInjector-PowerTools/PerThreadLifetime.cs:15 | A caller's function gives its supplied outcome. A null delegate or the initial "no resolver" delegate always raises. |
| Lifetimes.AsType | src/fFastInjector-MVC/PerConnectionLifetimeManager.cs:24 | `as T` keeps the object exactly when its runtime type is assignable to T, and gives null otherwise. |
| Lifetimes.Slot | src/fFastInjector-MVC/PerConnectionLifetimeManager.cs:19 | A missing Items key reads as null. |
| Lifetimes.ThreadSlot.constructor | src/fFastInjector-PowerTools/PerThreadLifetime.cs:12-13 | A thread-static slot starts out null. |
| SplitLifetimeManager.LifetimeManager.constructor | src/fFastInjector/LifetimeManagers/LifetimeManager.cs:15-20 | Resolver and ValueGetter start unset. |
| SplitLifetimeManager.LifetimeManager.GetValue | src/fFastInjector/LifetimeManagers/LifetimeManager.cs:26 | Returns what ValueGetter gives and changes nothing. An unset getter raises. |
| SplitLifetimeManager.LifetimeManager.SetResolver | src/fFastInjector/LifetimeManagers/LifetimeManager.cs:32 | Sets Resolver and leaves ValueGetter as it was. |
| LegacyLifetimeManager.SingletonGet | src/fFastInjector/Injector.cs:794-809 | The resolver is called exactly by the initial getter with nothing stored. A returned value is stored, and later answers are the stored value; an exception changes nothing. |
| LegacyLifetimeManager.OptimizedIsFixed | src/fFastInjector/Injector.cs:794 | Once the optimized getter is in place, every call returns the stored value without calling the resolver. |
| LegacyLifetimeManager.SingletonValueKept | src/fFastInjector/Injector.cs:797-808 | After the first call whose resolver returns, null included, no later call reaches the resolver, and every later call returns that value. |
| LegacyLifetimeManager.SingletonCalledUntilFirstValue | src/fFastInjector/Injector.cs:795-808 | From a fresh singleton, a call reaches the resolver exactly when every earlier call raised. |
| LegacyLifetimeManager.LifetimeManager.constructor | src/fFastInjector/Injector.cs:769-780 | A plain manager has neither Resolver nor ValueGetter. |
| LegacyLifetimeManager.LifetimeManager.Singleton | src/fFastInjector/Injector.cs:785-813 | Each Singleton is a new manager with the initial getter and nothing stored. |
| LegacyLifetimeManager.LifetimeManager.GetValue | src/fFastInjector/Injector.cs:819-822 | The new getter, stored value and answer are exactly SingletonGet's. |
| LegacyLifetimeManager.LifetimeManager.SetResolver | src/fFastInjector/Injector.cs:828-831 | Replaces Resolver only; the getter and stored value stay. |
| PerThreadLifetime.PerThreadGet | src/fFastInjector-PowerTools/PerThreadLifetime.cs:17-21 | The resolver is called exactly when the slot is null. A returned value, null included, fills the slot. An exception leaves the slot as it was. |
| PerThreadLifetime.InstanceKept | src/fFastInjector-PowerTools/PerThreadLifetime.cs:20 | An instance in the slot is returned by every later call, and the resolver is not called again. |
| PerThreadLifetime.CalledUntilInstance | src/fFastInjector-PowerTools/PerThreadLifetime.cs:20 | From an empty slot, a call reaches the resolver exactly when no earlier call handed out a non-null object. |
| PerThreadLifetime.PerThreadLifetime.constructor | src/fFastInjector-PowerTools/PerThreadLifetime.cs:12-15 | Shares the thread's slot for T and starts with the "no resolver" delegate. |
| PerThreadLifetime.PerThreadLifetime.GetValue | src/fFastInjector-PowerTools/PerThreadLifetime.cs:17-21 | The shared slot and the answer are exactly PerThreadGet's. |
| PerThreadLifetime.PerThreadLifetime.SetResolver | src/fFastInjector-PowerTools/PerThreadLifetime.cs:23-26 | Replaces the resolver; a cached instance stays. |
| PerResolveLifetime.ResolutionFlag.constructor | src/fFastInjector-PowerTools/PerResolveLifetimeManager.cs:9-13 | No resolution has started. |
| PerResolveLifetime.PerResolveLifetimeManager.constructor | src/fFastInjector-PowerTools/PerResolveLifetimeManager.cs:15-21 | Shares the thread's flag and slot and starts with the "no resolver" delegate. |
| PerResolveLifetime.PerResolveLifetimeManager.GetValue | src/fFastInjector-PowerTools/PerResolveLifetimeManager.cs:23-44 | The resolver is called exactly when no resolution is in progress. Its result or exception is passed on, and the flag and slot are reset as if by finally. Otherwise the call returns null and changes nothing. |
| PerResolveLifetime.PerResolveLifetimeManager.SetResolver | src/fFastInjector-PowerTools/PerResolveLifetimeManager.cs:46-49 | Replaces the resolver only. |
| PerConnectionLifetime.ItemKeyInjective | src/fFastInjector-MVC/PerConnectionLifetimeManager.cs:29 | Two keys are equal exactly when the type names are, so differently named types never share a slot. |
| PerConnectionLifetime.GetOrAdd | src/fFastInjector-MVC/PerConnectionLifetimeManager.cs:17-25 | The resolver is called exactly when the slot is null. Its value is stored and handed out `as T`; an exception leaves Items unchanged. No other key changes. |
| PerConnectionLifetime.GetOrAddIdempotent | src/fFastInjector-MVC/PerConnectionLifetimeManager.cs:19-24 | Once the slot holds an object, a second request returns the same answer without calling the resolver or changing Items. |
| PerConnectionLifetime.PerConnectionLifetimeManager.constructor | src/fFastInjector-MVC/PerConnectionLifetimeManager.cs:14-15 | The key name is Injector.FancyTypeName(T), and the resolver starts as the "no resolver" delegate. |
| PerConnectionLifetime.PerConnectionLifetimeManager.GetContextItemForConnection | src/fFastInjector-MVC/PerConnectionLifetimeManager.cs:17-25 | A null context raises before the resolver is called. Otherwise Items and the answer are exactly GetOrAdd's. |
| PerConnectionLifetime.PerConnectionLifetimeManager.GetValue | src/fFastInjector-MVC/PerConnectionLifetimeManager.cs:27-30 | Get-or-add under "fFastInjector.Instance.For." followed by the type name. |
| PerConnectionLifetime.PerConnectionLifetimeManager.SetResolver | src/fFastInjector-MVC/PerConnectionLifetimeManager.cs:32-35 | Replaces the resolver. |
| DevPerConnectionLifetime.PerConnectionLifetimeManager.constructor | DEV/DEV/fFastInjector-MVC/PerConnectionLifetimeManager.cs:14-15 | The key name comes from the file's own FancyTypeName, and the resolver starts as the "no resolver" delegate. |
| DevPerConnectionLifetime.PerConnectionLifetimeManager.GetContextItemForConnection | DEV/DEV/fFastInjector-MVC/PerConnectionLifetimeManager.cs:17-25 | A null context skips the fill, so the resolver is never called, and the read then raises. Otherwise Items and the answer are exactly GetOrAdd's. |
| DevPerConnectionLifetime.PerConnectionLifetimeManager.GetValue | DEV/DEV/fFastInjector-MVC/PerConnectionLifetimeManager.cs:37-40 | Get-or-add under the prefixed type name. |
| DevPerConnectionLifetime.PerConnectionLifetimeManager.SetResolver | DEV/DEV/fFastInjector-MVC/PerConnectionLifetimeManager.cs:42-45 | Replaces the resolver. |
| InjectorFunctions.AddPair | src/fFastInjector-PowerTools/InjectorFunctions.cs:35-43 | One scan step appends the pair's entry, blocked exactly when its interface was seen before; every earlier entry for that interface becomes blocked and the other entries are unchanged. |
| InjectorFunctions.BuildMap | src/fFastInjector-PowerTools/InjectorFunctions.cs:24-45 | The list after the scan is the seed followed by one entry per scanned pair, with that pair's class and interface, in scan order. |
| InjectorFunctions.FinalMap | src/fFastInjector-PowerTools/InjectorFunctions.cs:24-43 | The finished list is the seed, then one entry per scanned pair in order. An entry is blocked exactly when its interface is IDisposable or is named by two or more pairs. |
| InjectorFunctions.BuildMapIsFinal | src/fFastInjector-PowerTools/InjectorFunctions.cs:30-43 | Blocking pair by pair, as the scan does, produces exactly that list. |
| InjectorFunctions.BlockingMonotone | src/fFastInjector-PowerTools/InjectorFunctions.cs:37-43 | A blocked entry stays blocked whatever is scanned after it. |
| InjectorFunctions.Registrations | src/fFastInjector-PowerTools/InjectorFunctions.cs:47-50 | At most one registration per entry, and no registered type has open generic parameters. |
| InjectorFunctions.RegistrationsMembers | src/fFastInjector-PowerTools/InjectorFunctions.cs:47-50 | A pair is registered exactly when its entry is unblocked and neither type has open generic parameters. |
| InjectorFunctions.RegisteredIffSoleImplementer | src/fFastInjector-PowerTools/InjectorFunctions.cs:22-56 | A pair is in the registration list the scan hands to SetResolver exactly when the class was scanned with the interface, the interface is not IDisposable, no other scanned pair names it, and neither type is open. |
| InjectorFunctions.RegisterAll | src/fFastInjector-PowerTools/InjectorFunctions.cs:47-53 | The SetResolver calls keep every registered type. The last call's interface resolves its class, with no manager, as an explicit registration. |
| InjectorFunctions.RegisterAllKeys | src/fFastInjector-PowerTools/InjectorFunctions.cs:47-53 | Afterwards exactly the old types and the registered interfaces are registered. |
| InjectorFunctions.RegisterAllInstalls | src/fFastInjector/Injector.cs:202-208 | With one registration per interface, each registered interface ends up resolving its class, with no manager, as an explicit registration. |
| InjectorFunctions.RegisterAllKeeps | src/fFastInjector/Injector.cs:202-208 | An interface without a registration keeps its entry. |
| InjectorFunctions.CountTwo | src/fFastInjector-PowerTools/InjectorFunctions.cs:35 | Two different scanned pairs for one interface count at least twice. |
| InjectorFunctions.UnblockedIsSole | src/fFastInjector-PowerTools/InjectorFunctions.cs:35-43 | An unblocked entry of the finished list is the only entry for its interface. |
| InjectorFunctions.RegistrationsUnique | src/fFastInjector-PowerTools/InjectorFunctions.cs:47-50 | If unblocked entries are sole for their interfaces, no interface is registered twice. |
| InjectorFunctions.ScanRegistrationsUnique | src/fFastInjector-PowerTools/InjectorFunctions.cs:22-53 | The scan registers each interface at most once. |
| InjectorFunctions.FirstRejected | src/fFastInjector/Injector.cs:202-204 | The position of the first registration whose class is a value type, which the `class` constraint refuses; every earlier class is a reference type. |
| InjectorFunctions.ConstraintViolationNamesType | src/fFastInjector-PowerTools/InjectorFunctions.cs:52 | The constraint error names the refused class. |
| InjectorFunctions.Applied | src/fFastInjector-PowerTools/InjectorFunctions.cs:47-53 | The registrations applied are those before the first value-type class, each interface at most once. |
| InjectorFunctions.ScanRegistersApplied | src/fFastInjector-PowerTools/InjectorFunctions.cs:47-53 | After the scan every applied interface resolves its sole implementer, with no manager, as an explicit registration. |
| InjectorFunctions.ScanKeepsOthers | src/fFastInjector-PowerTools/InjectorFunctions.cs:47-53 | An interface the scan does not register keeps its entry. |
| InjectorFunctions.NoValueTypesRegistersAll | src/fFastInjector-PowerTools/InjectorFunctions.cs:47-53 | Without value types among the scanned classes every registration is applied. |
| InjectorFunctions.Record | src/fFastInjector-PowerTools/InjectorFunctions.cs:35-43 | The Any test, the Add and the blocking loop together perform one step of the blocking rule. |
| InjectorFunctions.ScanType | src/fFastInjector-PowerTools/InjectorFunctions.cs:32-44 | The inner loop adds the type's available interfaces in order. |
| InjectorFunctions.ScanAssembly | src/fFastInjector-PowerTools/InjectorFunctions.cs:24-45 | The nested loops build exactly FinalMap of the scanned pairs. |
| InjectorFunctions.RegisterMappings | src/fFastInjector-PowerTools/InjectorFunctions.cs:47-53 | One SetResolver<Interface, Concrete>() per registrable entry in list order, up to the first value-type class, which raises the constraint error; the earlier registrations stay. |
| InjectorFunctions.RegisterAllStep | src/fFastInjector-PowerTools/InjectorFunctions.cs:52 | One more SetResolver call extends the registry by one registration. |
| InjectorFunctions.RegisterAllTypesAsImplementedInterfaces | src/fFastInjector-PowerTools/InjectorFunctions.cs:22-56 | Applies the sole-implementer registrations before the first value-type class, leaves the mapping list alone, and returns the assembly exactly when no value type stopped it. |
| RegistrationData.Fresh | src/fFastInjector/RegistrationData.cs:9-19 | A new record has a transient manager and no configurators. Its creator is the default factory, which runs as the constructor factory. |
| RegistrationData.SetLifetimeManager | src/fFastInjector/RegistrationData.cs:11-12 | Sets the manager; the other properties are untouched. |
| RegistrationData.SetCreator | src/fFastInjector/RegistrationData.cs:14-15 | Sets the creator; the other properties are untouched. |
| RegistrationData.SetConfigurators | src/fFastInjector/RegistrationData.cs:17-18 | Replaces the configurator list as a whole; the other properties are untouched. |
| RegistrationData.SettersCommute | src/fFastInjector/RegistrationData.cs:9-19 | Setting different properties in either order gives the same record. |

## Left out

- **Reflection, Compile and Activator.** Types are descriptors and
  expressions are terms. The compiled delegate is taken to behave as its
  term's `Run` trace says.
- **The user's delegates.** Their outcome is a parameter of each call.
- **Exceptions from MakeGenericType and from building expressions.**
  `Runtime.close` is total, and every expression is taken as built. The
  static constructor's catch path is modelled for the two exceptions the
  model can raise there, the lookup's overflow and the null dereference of
  an `object` constraint over an interface. Other construction failures
  are not modelled:
  - DefaultResolverBuilder.cs:101-113 does not compile as written.
  - DefaultResolverBuilder.cs:64 assigns a lambda to a variable of type T.
  - DefaultResolverBuilder.cs:143 calls an instance method without an instance.
  - GetMembers includes Object's public methods, so every type has method
    injectors.
- **Locks and concurrency.** Everything is single-threaded. The registry's
  locks and the singleton's double-checked lock are left out.
- **Thread-local storage.** [ThreadStatic] fields are shared slot objects
  handed to the managers of one thread.
- **The request context.** HttpContext.Current is a parameter, and null
  stands for a call outside a request.
- Covariant.SumDistances: is the exact, unbounded sum, defined when no walk
  raises. Covariant.CheckedSum adds the Int32 overflow check and the walks'
  exceptions on top of it.
- **Exception texts from the runtime.** The OverflowException,
  TargetInvocationException and constraint-violation messages use the
  runtime's usual wording; the constraint message names the class by its Name.
- **Generic variance.** IsAssignableFrom does not model variance (`in`/`out`
  type parameters).
- **The exception class.** The exception type and CreateNewException are not
  part of this model. An exception is its message and inner exception.
- **The fluent API and convenience overloads** (Injector.cs:202-265, 553-720).
  SetSingletonResolver, SetSingletonResolverAsInstance, ForType,
  AddPropertyInjector, As and InjectorFluent all reduce to the modelled
  SetResolver, SetResolverWithInitializers and AddInitializer calls.
- **Expression helpers.** ConvertFuncParameterType and
  ToPropertyAssignmentExpression, which build initializer expressions from
  user lambdas, are left out. An initializer is an opaque step.
- **Resolve(Type).** Resolve(Type) (Injector.cs:182-193) dispatches to
  Resolve<T> through reflection. It is covered by `Registry.Injector.Resolve`.
- **Parts of the split generation:**
  - ResolutionContext;
  - TransientLifetimeManager<T>;
  - the Injector members that the split files call (Injector.OpenTypeResolvers,
    Injector.Resolvers, CreateNewException).

  These are not part of this model. The split files share the registry of
  Injector.cs here.
- **The unfinished parameter expressions.** GetParameterExpressionFromType
  is unfinished in the source (DefaultResolverBuilder.cs:99-113). It is
  modelled as resolving each parameter's type, which is what
  GetInternalResolveExpression does.
- **Debug tracing.** Debug.WriteLine and Trace are left out.
- Registry.Injector.SweepCovariant: visits the swept types in list order
  rather than in Dictionary enumeration order. When no lookup raises, the
  order does not change the result (`Registry.ReinstallAllIsReinstall`). When
  one raises, which entries were reinstalled before it, and which entry's
  exception escapes, depend on the order. The contracts of
  `Registry.Injector.SweepMatching` and `Registry.Injector.SetGenericResolver`
  therefore promise only a subset of the swept set reinstalled and the
  exception of some swept entry.
- Expressions.Replace: a rebuilt node keeps the `id` of the node it came from.
  ExpressionVisitor allocates a new node for each ancestor of a replaced node,
  so on those ancestors `id` records origin, not reference identity.
- Registry.ReinstallAll: its own contract states only that the key set is
  kept. Its meaning is given by `Registry.ReinstallAllIsReinstall`.
- **Assembly.GetTypes and Type.GetInterfaces** are given as lists in the
  order the scan visits them.
