/**
 * The lifetime manager of Injector.cs and its Singleton factory. A singleton
 * manager starts with the initial value getter and an empty captured value;
 * the first call that gets a value from the resolver stores it and swaps in
 * the optimized getter, which only returns what is stored. The double-checked
 * lock is left out: the model is single-threaded.
 */
module LegacyLifetimeManager {
  import opened Types
  import opened Lifetimes

  /** Which closure ValueGetter holds: none (a plain `new LifetimeManager<T>()`), the
      initial getter, or the optimized getter. */
  datatype Getter = NoGetter | InitialGetter | OptimizedGetter

  /** ValueGetter together with the captured `singletonValue`. */
  datatype SingletonState = SingletonState(getter: Getter, stored: Value)

  /** A manager fresh from LifetimeManager<T>.Singleton. */
  const Fresh := SingletonState(InitialGetter, Null)

  /** One GetValue: the resolver is called only by the initial getter with nothing stored;
      whatever is returned is what is stored afterwards. */
  function SingletonGet(s: SingletonState, resolver: Delegate, supplied: Outcome): (r: Served<SingletonState>)
    ensures r.called <==> s.getter == InitialGetter && s.stored == Null
    ensures !r.called ==> r.state == s
    ensures r.called ==> r.outcome == Call(resolver, supplied)
    ensures s.getter.NoGetter? ==> r.outcome == Thrown(ErrorNullReference)
    ensures s.getter != NoGetter && r.outcome.Returned? ==> r.outcome.value == r.state.stored
    ensures r.called && r.outcome.Thrown? ==> r.state == s
  {
    match s.getter
    case NoGetter => Served(s, Thrown(ErrorNullReference), false)
    case OptimizedGetter => Served(s, Returned(s.stored), false)
    case InitialGetter =>
      if s.stored != Null then Served(s, Returned(s.stored), false)
      else
        match Call(resolver, supplied)
        case Thrown(m) => Served(s, Thrown(m), true)
        case Returned(v) => Served(SingletonState(OptimizedGetter, v), Returned(v), true)
  }

  /** The answers to a series of GetValue calls on one manager; the k-th call to the
      resolver, if it happens, produces `supplies[k]`. */
  function Session(s: SingletonState, resolver: Delegate, supplies: seq<Outcome>): (answers: seq<Served<SingletonState>>)
    ensures |answers| == |supplies|
    decreases |supplies|
  {
    if supplies == [] then []
    else
      var a := SingletonGet(s, resolver, supplies[0]);
      [a] + Session(a.state, resolver, supplies[1..])
  }

  /** Once the optimized getter is in place, every call returns the stored value and
      never calls the resolver. */
  lemma {:induction false} OptimizedIsFixed(s: SingletonState, resolver: Delegate, supplies: seq<Outcome>, k: nat)
    requires s.getter == OptimizedGetter && k < |supplies|
    ensures Session(s, resolver, supplies)[k] == Served(s, Returned(s.stored), false)
    decreases |supplies|
  {
    if k > 0 {
      OptimizedIsFixed(s, resolver, supplies[1..], k - 1);
    }
  }

  /** After the first call in which the resolver returns (a null result included), no later
      call reaches the resolver, and every later call returns that same value. */
  lemma {:induction false} SingletonValueKept(s: SingletonState, resolver: Delegate, supplies: seq<Outcome>, i: nat, j: nat)
    requires i < j < |supplies|
    requires Session(s, resolver, supplies)[i].called && Session(s, resolver, supplies)[i].outcome.Returned?
    ensures !Session(s, resolver, supplies)[j].called
    ensures Session(s, resolver, supplies)[j].outcome == Session(s, resolver, supplies)[i].outcome
    decreases |supplies|
  {
    var a := SingletonGet(s, resolver, supplies[0]);
    if i > 0 {
      SingletonValueKept(a.state, resolver, supplies[1..], i - 1, j - 1);
    } else {
      OptimizedIsFixed(a.state, resolver, supplies[1..], j - 1);
    }
  }

  /** From a fresh singleton, a call reaches the resolver exactly when every earlier call
      ended in an exception. */
  lemma {:induction false} SingletonCalledUntilFirstValue(resolver: Delegate, supplies: seq<Outcome>, j: nat)
    requires j < |supplies|
    ensures Session(Fresh, resolver, supplies)[j].called <==>
            forall i :: 0 <= i < j ==> Session(Fresh, resolver, supplies)[i].outcome.Thrown?
    decreases |supplies|
  {
    var answers := Session(Fresh, resolver, supplies);
    var a := SingletonGet(Fresh, resolver, supplies[0]);
    if j > 0 {
      var rest := Session(a.state, resolver, supplies[1..]);
      assert answers[0] == a && a.called;
      assert forall i :: 0 < i < |supplies| ==> answers[i] == rest[i - 1];
      if a.outcome.Thrown? {
        assert a.state == Fresh;
        SingletonCalledUntilFirstValue(resolver, supplies[1..], j - 1);
        if forall i :: 0 <= i < j - 1 ==> rest[i].outcome.Thrown? {
          forall i | 0 <= i < j
            ensures answers[i].outcome.Thrown?
          {
            if i > 0 {
              assert answers[i] == rest[i - 1];
            }
          }
        } else {
          var i :| 0 <= i < j - 1 && !rest[i].outcome.Thrown?;
          assert answers[i + 1] == rest[i];
        }
      } else {
        assert a.state.getter == OptimizedGetter;
        OptimizedIsFixed(a.state, resolver, supplies[1..], j - 1);
        assert !answers[j].called && !answers[0].outcome.Thrown?;
      }
    }
  }

  class LifetimeManager {
    /** Resolver: null until SetResolver. */
    var resolver: Delegate
    /** ValueGetter. */
    var valueGetter: Getter
    /** The `singletonValue` captured by the singleton's getters. */
    var singletonValue: Value

    function State(): SingletonState
      reads this
    {
      SingletonState(valueGetter, singletonValue)
    }

    /** `new LifetimeManager<T>()`: neither delegate is set. */
    constructor()
      ensures resolver == NullDelegate && State() == SingletonState(NoGetter, Null)
    {
      resolver := NullDelegate;
      valueGetter := NoGetter;
      singletonValue := Null;
    }

    /** LifetimeManager<T>.Singleton: a new manager with the initial getter each time. */
    constructor Singleton()
      ensures resolver == NullDelegate && State() == Fresh
    {
      resolver := NullDelegate;
      valueGetter := InitialGetter;
      singletonValue := Null;
    }

    /** GetValue: runs the current value getter. */
    method GetValue(supplied: Outcome) returns (r: Outcome, called: bool)
      modifies this
      ensures resolver == old(resolver)
      ensures Served(State(), r, called) == SingletonGet(old(State()), resolver, supplied)
    {
      match valueGetter
      case NoGetter =>
        r, called := Thrown(ErrorNullReference), false;
      case OptimizedGetter =>
        r, called := Returned(singletonValue), false;
      case InitialGetter =>
        called := false;
        if singletonValue == Null {
          called := true;
          var o := Call(resolver, supplied);
          if o.Thrown? {
            return o, true;
          }
          singletonValue := o.value;
          valueGetter := OptimizedGetter;
        }
        r := Returned(singletonValue);
    }

    /** SetResolver: replaces Resolver only. */
    method SetResolver(f: Delegate)
      modifies this
      ensures resolver == f && State() == old(State())
    {
      resolver := f;
    }
  }
}
