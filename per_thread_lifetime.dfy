/**
 * PerThreadLifetime<T>: one instance per thread, kept in a [ThreadStatic]
 * static field, so every manager for the same T on the thread shares it. The
 * resolver is called while the field is null; a null result is not kept.
 */
module PerThreadLifetime {
  import opened Types
  import opened Lifetimes

  /** One GetValue on the cached instance `cached`: `cached ?? (cached = resolver())`. */
  function PerThreadGet(cached: Value, resolver: Delegate, supplied: Outcome): (r: Served<Value>)
    ensures r.called <==> cached == Null
    ensures !r.called ==> r == Served(cached, Returned(cached), false)
    ensures r.called ==> r.outcome == Call(resolver, supplied)
    ensures r.called && r.outcome.Thrown? ==> r.state == cached
    ensures r.outcome.Returned? ==> r.state == r.outcome.value
  {
    if cached != Null then Served(cached, Returned(cached), false)
    else
      match Call(resolver, supplied)
      case Thrown(m) => Served(cached, Thrown(m), true)
      case Returned(v) => Served(v, Returned(v), true)
  }

  /** An outcome that hands out an actual object. */
  predicate HandsOut(o: Outcome)
  {
    o.Returned? && o.value != Null
  }

  /** The answers to a series of GetValue calls on one thread. */
  function Session(cached: Value, resolver: Delegate, supplies: seq<Outcome>): (answers: seq<Served<Value>>)
    ensures |answers| == |supplies|
    decreases |supplies|
  {
    if supplies == [] then []
    else
      var a := PerThreadGet(cached, resolver, supplies[0]);
      [a] + Session(a.state, resolver, supplies[1..])
  }

  /** An instance in the slot is handed out by every later call and the resolver is not
      called again. */
  lemma {:induction false} InstanceKept(v: Value, resolver: Delegate, supplies: seq<Outcome>, k: nat)
    requires v != Null && k < |supplies|
    ensures Session(v, resolver, supplies)[k] == Served(v, Returned(v), false)
    decreases |supplies|
  {
    if k > 0 {
      InstanceKept(v, resolver, supplies[1..], k - 1);
    }
  }

  /** Starting with an empty slot, a call reaches the resolver exactly when no earlier call
      got a non-null instance: exceptions and null results leave the slot empty. */
  lemma {:induction false} CalledUntilInstance(resolver: Delegate, supplies: seq<Outcome>, j: nat)
    requires j < |supplies|
    ensures Session(Null, resolver, supplies)[j].called <==>
            forall i :: 0 <= i < j ==> !HandsOut(Session(Null, resolver, supplies)[i].outcome)
    decreases |supplies|
  {
    var answers := Session(Null, resolver, supplies);
    var a := PerThreadGet(Null, resolver, supplies[0]);
    if j > 0 {
      var rest := Session(a.state, resolver, supplies[1..]);
      assert answers[0] == a;
      assert forall i :: 0 < i < |supplies| ==> answers[i] == rest[i - 1];
      if a.state == Null {
        assert !HandsOut(a.outcome);
        CalledUntilInstance(resolver, supplies[1..], j - 1);
        if forall i :: 0 <= i < j - 1 ==> !HandsOut(rest[i].outcome) {
          forall i | 0 <= i < j
            ensures !HandsOut(answers[i].outcome)
          {
            if i > 0 {
              assert answers[i] == rest[i - 1];
            }
          }
        } else {
          var i :| 0 <= i < j - 1 && HandsOut(rest[i].outcome);
          assert answers[i + 1] == rest[i];
        }
      } else {
        InstanceKept(a.state, resolver, supplies[1..], j - 1);
        assert !answers[j].called && HandsOut(answers[0].outcome);
      }
    }
  }

  class PerThreadLifetime {
    /** The static [ThreadStatic] _threadInstance of this T. */
    const slot: ThreadSlot
    /** _resolver: throws until SetResolver. */
    var resolver: Delegate

    /** A new manager for T, sharing the thread's slot for T. */
    constructor(t: Type, slot: ThreadSlot)
      ensures this.slot == slot && resolver == NotSetThrower(t.name)
    {
      this.slot := slot;
      resolver := NotSetThrower(t.name);
    }

    /** GetValue: the cached instance, or the resolver's result stored in the shared slot. */
    method GetValue(supplied: Outcome) returns (r: Outcome, called: bool)
      modifies slot
      ensures Served(slot.instance, r, called) == PerThreadGet(old(slot.instance), resolver, supplied)
    {
      if slot.instance != Null {
        return Returned(slot.instance), false;
      }
      called := true;
      r := Call(resolver, supplied);
      if r.Returned? {
        slot.instance := r.value;
      }
    }

    /** SetResolver: replaces the resolver; an instance already cached stays. */
    method SetResolver(f: Delegate)
      modifies this
      ensures resolver == f && slot.instance == old(slot.instance)
    {
      resolver := f;
    }
  }
}
