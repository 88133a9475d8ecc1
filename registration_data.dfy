/**
 * RegistrationData<T> of the split sources: the registration record of one
 * type, with a lifetime manager, a creator expression and a list of
 * configurators, each a settable property with a default.
 */
module RegistrationData {
  import opened Types
  import opened Factories
  import DefaultResolverBuilder

  /** The lifetime manager property: the transient manager a record starts with, or another
      manager object. TransientLifetimeManager<T> itself is not part of this model. */
  datatype LifetimeChoice = Transient | Managed(manager: ManagerId)

  datatype Registration = Registration(lifetimeManager: LifetimeChoice, creator: Factory, configurators: seq<Step>)

  /** `new RegistrationData<T>()`: a transient manager, the default construction expression of
      T as creator, and no configurators. */
  function Fresh(t: Type): (r: Registration)
    ensures r.lifetimeManager == Transient && r.configurators == []
    ensures r.creator == DefaultResolverBuilder.DefaultResolverExpression(t)
    ensures Run(r.creator) == Run(DefaultResolverBuilder.ConstructorInjectExpression(t))
  {
    DefaultResolverBuilder.InjectorsNeverRun(t);
    Registration(Transient, DefaultResolverBuilder.DefaultResolverExpression(t), [])
  }

  /** The LifetimeManager setter: the other two properties are untouched. */
  function SetLifetimeManager(r: Registration, m: LifetimeChoice): (s: Registration)
    ensures s.lifetimeManager == m && s.creator == r.creator && s.configurators == r.configurators
  {
    r.(lifetimeManager := m)
  }

  /** The Creator setter: the other two properties are untouched. */
  function SetCreator(r: Registration, c: Factory): (s: Registration)
    ensures s.creator == c && s.lifetimeManager == r.lifetimeManager && s.configurators == r.configurators
  {
    r.(creator := c)
  }

  /** The Configurators setter: the list is replaced as a whole; the other two properties
      are untouched. */
  function SetConfigurators(r: Registration, cs: seq<Step>): (s: Registration)
    ensures s.configurators == cs && s.lifetimeManager == r.lifetimeManager && s.creator == r.creator
  {
    r.(configurators := cs)
  }

  /** Setting different properties in either order gives the same record. */
  lemma SettersCommute(r: Registration, m: LifetimeChoice, c: Factory, cs: seq<Step>)
    ensures SetCreator(SetLifetimeManager(r, m), c) == SetLifetimeManager(SetCreator(r, c), m)
    ensures SetConfigurators(SetCreator(r, c), cs) == SetCreator(SetConfigurators(r, cs), c)
    ensures SetConfigurators(SetLifetimeManager(r, m), cs) == SetLifetimeManager(SetConfigurators(r, cs), m)
  {
  }
}
