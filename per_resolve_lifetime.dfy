/**
 * PerResolveLifetimeManager<T>: the resolver runs only for the outermost
 * GetValue of a resolution. A thread-wide flag, shared by the managers of
 * every T, marks a resolution in progress; a GetValue that finds it set
 * returns null. The flag and the per-T _threadInstance are reset in a
 * finally block, so they are reset whether the resolver returns or throws.
 */
module PerResolveLifetime {
  import opened Types
  import opened Lifetimes

  /** PerResolveLifetimeManagerVariables: the non-generic [ThreadStatic] holder of the flag. */
  class ResolutionFlag {
    var hasResolutionStarted: bool

    constructor()
      ensures !hasResolutionStarted
    {
      hasResolutionStarted := false;
    }
  }

  class PerResolveLifetimeManager {
    /** The flag every manager on this thread shares, whatever its T. */
    const flag: ResolutionFlag
    /** The static [ThreadStatic] _threadInstance of this T. */
    const slot: ThreadSlot
    /** _resolver: throws until SetResolver. */
    var resolver: Delegate

    constructor(t: Type, flag: ResolutionFlag, slot: ThreadSlot)
      ensures this.flag == flag && this.slot == slot && resolver == NotSetThrower(t.name)
    {
      this.flag := flag;
      this.slot := slot;
      resolver := NotSetThrower(t.name);
    }

    /**
     * GetValue: inside a resolution already started (by this manager or one for any
     * other T) it returns null without calling the resolver and changes nothing;
     * otherwise it calls the resolver, passes on its result or its exception, and
     * leaves the flag cleared and the slot empty.
     */
    method GetValue(supplied: Outcome) returns (r: Outcome, called: bool)
      modifies flag, slot
      ensures called <==> !old(flag.hasResolutionStarted)
      ensures !called ==> r == Returned(Null) && flag.hasResolutionStarted && slot.instance == old(slot.instance)
      ensures called ==> r == Call(resolver, supplied) && !flag.hasResolutionStarted && slot.instance == Null
    {
      r, called := Returned(Null), false;
      if !flag.hasResolutionStarted {
        called := true;
        flag.hasResolutionStarted := true;
        r := Call(resolver, supplied);
        if r.Returned? {
          slot.instance := r.value;
        }
        // finally
        flag.hasResolutionStarted := false;
        slot.instance := Null;
      }
    }

    /** SetResolver: replaces only the resolver. */
    method SetResolver(f: Delegate)
      modifies this
      ensures resolver == f
      ensures flag.hasResolutionStarted == old(flag.hasResolutionStarted) && slot.instance == old(slot.instance)
    {
      resolver := f;
    }
  }
}
