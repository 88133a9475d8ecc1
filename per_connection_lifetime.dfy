/**
 * PerConnectionLifetimeManager<T> of the MVC package: one instance per web
 * request, kept in the request's HttpContext.Items under a key made from
 * the type's fancy name. The current HttpContext is a parameter here; a
 * null context stands for a call made outside a request.
 */
module PerConnectionLifetime {
  import opened Types
  import opened Functions
  import opened Lifetimes

  const KeyPrefix := "fFastInjector.Instance.For."

  /** The Items key of a type whose rendered name is `typeName`. */
  function ItemKey(typeName: string): string
  {
    KeyPrefix + typeName
  }

  /** Distinct type names give distinct keys, so managers of differently named types never
      share a slot. */
  lemma ItemKeyInjective(a: string, b: string)
    ensures ItemKey(a) == ItemKey(b) <==> a == b
  {
    if ItemKey(a) == ItemKey(b) {
      assert a == ItemKey(a)[|KeyPrefix|..];
      assert b == ItemKey(b)[|KeyPrefix|..];
    }
  }

  /**
   * GetContextItemForConnection on a present context: an empty slot is filled with
   * the resolver's result (the resolver is called exactly then), and the slot's
   * content is handed out `as T`. Only the slot under `key` can change.
   */
  function GetOrAdd(items: map<string, Value>, key: string, t: Type, resolver: Delegate, supplied: Outcome): (r: Served<map<string, Value>>)
    ensures r.called <==> Slot(items, key) == Null
    ensures !r.called ==> r.state == items && r.outcome == Returned(AsType(Slot(items, key), t))
    ensures r.called && Call(resolver, supplied).Thrown? ==> r.state == items && r.outcome == Call(resolver, supplied)
    ensures r.called && Call(resolver, supplied).Returned? ==>
              r.state == items[key := Call(resolver, supplied).value]
              && r.outcome == Returned(AsType(Call(resolver, supplied).value, t))
    ensures forall k :: k != key ==> Slot(r.state, k) == Slot(items, k)
  {
    if Slot(items, key) != Null then Served(items, Returned(AsType(items[key], t)), false)
    else
      match Call(resolver, supplied)
      case Thrown(m) => Served(items, Thrown(m), true)
      case Returned(v) => Served(items[key := v], Returned(AsType(v, t)), true)
  }

  /** Once the slot holds an object, a second request for it in the same connection
      returns the same answer, without calling the resolver and without changing Items. */
  lemma GetOrAddIdempotent(items: map<string, Value>, key: string, t: Type, resolver: Delegate, first: Outcome, second: Outcome)
    requires Slot(GetOrAdd(items, key, t, resolver, first).state, key) != Null
    ensures var a := GetOrAdd(items, key, t, resolver, first);
            var b := GetOrAdd(a.state, key, t, resolver, second);
            !b.called && b.state == a.state && b.outcome == a.outcome
  {
  }

  class PerConnectionLifetimeManager {
    /** typeof(T). */
    const t: Type
    /** _typeName: Injector.FancyTypeName(typeof(T)), the rendering that always cuts the Name
        at its first backtick (Functions.LegacyFancyTypeName). */
    const typeName: string
    /** _resolver: throws until SetResolver. */
    var resolver: Delegate

    constructor(t: Type)
      ensures this.t == t && typeName == LegacyFancyTypeName(t) && resolver == NotSetThrower(t.name)
    {
      this.t := t;
      typeName := LegacyFancyTypeName(t);
      resolver := NotSetThrower(t.name);
    }

    /** GetContextItemForConnection: reading Items of a null context raises before the
        resolver can be called. */
    static method GetContextItemForConnection(context: ContextItems?, key: string, t: Type, newItem: Delegate, supplied: Outcome)
      returns (r: Outcome, called: bool)
      modifies context
      ensures context == null ==> r == Thrown(ErrorNullReference) && !called
      ensures context != null ==> Served(context.items, r, called) == GetOrAdd(old(context.items), key, t, newItem, supplied)
    {
      if context == null {
        return Thrown(ErrorNullReference), false;
      }
      called := false;
      if Slot(context.items, key) == Null {
        called := true;
        var o := Call(newItem, supplied);
        if o.Thrown? {
          return o, true;
        }
        context.items := context.items[key := o.value];
      }
      r := Returned(AsType(Slot(context.items, key), t));
    }

    /** GetValue: the connection's instance of T under this type's key. */
    method GetValue(context: ContextItems?, supplied: Outcome) returns (r: Outcome, called: bool)
      modifies context
      ensures context == null ==> r == Thrown(ErrorNullReference) && !called
      ensures context != null ==>
                Served(context.items, r, called) == GetOrAdd(old(context.items), ItemKey(typeName), t, resolver, supplied)
    {
      r, called := GetContextItemForConnection(context, ItemKey(typeName), t, resolver, supplied);
    }

    /** SetResolver: replaces the throwing default resolver. */
    method SetResolver(f: Delegate)
      modifies this
      ensures resolver == f
    {
      resolver := f;
    }
  }
}
