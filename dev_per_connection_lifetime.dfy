/**
 * The development copy of PerConnectionLifetimeManager<T>: the same
 * get-or-add on HttpContext.Items, with the null check on the context moved
 * into the fill condition, and its own private copy of the older
 * FancyTypeName (Functions.LegacyFancyTypeName) for the key.
 */
module DevPerConnectionLifetime {
  import opened Types
  import opened Functions
  import opened Lifetimes
  import Connection = PerConnectionLifetime

  class PerConnectionLifetimeManager {
    /** typeof(T). */
    const t: Type
    /** _typeName: this file's FancyTypeName(typeof(T)). */
    const typeName: string
    /** _resolver: throws until SetResolver. */
    var resolver: Delegate

    constructor(t: Type)
      ensures this.t == t && typeName == LegacyFancyTypeName(t) && resolver == NotSetThrower(t.name)
    {
      this.t := t;
      typeName := LegacyFancyTypeName(t);
      resolver := NotSetThrower(t.name);
    }

    /** GetContextItemForConnection: a null context skips the fill, so the resolver is never
        called, and then the read of its Items raises. */
    static method GetContextItemForConnection(context: ContextItems?, key: string, t: Type, newItem: Delegate, supplied: Outcome)
      returns (r: Outcome, called: bool)
      modifies context
      ensures context == null ==> r == Thrown(ErrorNullReference) && !called
      ensures context != null ==> Served(context.items, r, called) == Connection.GetOrAdd(old(context.items), key, t, newItem, supplied)
    {
      called := false;
      if context != null && Slot(context.items, key) == Null {
        called := true;
        var o := Call(newItem, supplied);
        if o.Thrown? {
          return o, true;
        }
        context.items := context.items[key := o.value];
      }
      if context == null {
        return Thrown(ErrorNullReference), called;
      }
      r := Returned(AsType(Slot(context.items, key), t));
    }

    /** GetValue: the connection's instance of T under this type's key. */
    method GetValue(context: ContextItems?, supplied: Outcome) returns (r: Outcome, called: bool)
      modifies context
      ensures context == null ==> r == Thrown(ErrorNullReference) && !called
      ensures context != null ==>
                Served(context.items, r, called) == Connection.GetOrAdd(old(context.items), Connection.ItemKey(typeName), t, resolver, supplied)
    {
      r, called := GetContextItemForConnection(context, Connection.ItemKey(typeName), t, resolver, supplied);
    }

    /** SetResolver: replaces the throwing default resolver. */
    method SetResolver(f: Delegate)
      modifies this
      ensures resolver == f
    {
      resolver := f;
    }
  }
}
