/**
 * The abstract base lifetime manager of the split sources: a Resolver that
 * creates an instance and a ValueGetter that decides what GetValue returns.
 * The resolution context passed to both is not part of the model; the
 * value getter's outcome on it is the `supplied` parameter.
 */
module SplitLifetimeManager {
  import opened Types
  import opened Lifetimes

  class LifetimeManager {
    /** Resolver: creates a new instance. */
    var resolver: Delegate
    /** ValueGetter: the value this manager returns. */
    var valueGetter: Delegate

    /** Both properties start unset. */
    constructor()
      ensures resolver == NullDelegate && valueGetter == NullDelegate
    {
      resolver := NullDelegate;
      valueGetter := NullDelegate;
    }

    /** GetValue: whatever ValueGetter gives; no property changes. An unset getter raises. */
    method GetValue(supplied: Outcome) returns (r: Outcome)
      ensures r == Call(valueGetter, supplied)
      ensures valueGetter.NullDelegate? ==> r == Thrown(ErrorNullReference)
    {
      r := Call(valueGetter, supplied);
    }

    /** SetResolver: stores the function as Resolver and leaves ValueGetter as it was. */
    method SetResolver(f: Delegate)
      modifies this
      ensures resolver == f && valueGetter == old(valueGetter)
    {
      resolver := f;
    }
  }
}
