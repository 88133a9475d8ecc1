/**
 * The covariant generic matcher: mappings from an open generic abstraction
 * to an open generic implementation, optionally limited by one constraint
 * per type argument; whether a closed generic type matches a mapping, and
 * how well (the sum of the inheritance distances of its arguments).
 */
module Covariant {
  import opened Wrappers
  import opened Types
  import opened Strings
  import opened Functions
  import opened Ordering

  /** Int32.MaxValue, the "no match" score. */
  const MaxValue: nat := 0x7FFF_FFFF

  /** A registered mapping: requests for `openType<X…>` are built from `concreteType<X…>`
      when each X is assignable to the constraint at its position (or there are none). */
  datatype CovariantMatcher = CovariantMatcher(openType: Type, constraints: seq<Type>, concreteType: Type)

  /** The fancy names of a list of types. */
  function Names(ts: seq<Type>, legacy: bool): (r: seq<string>)
    ensures |r| == |ts|
    ensures forall i :: 0 <= i < |ts| ==> r[i] == (if legacy then LegacyFancyTypeName(ts[i]) else FancyTypeName(ts[i]))
  {
    seq(|ts|, i requires 0 <= i < |ts| => if legacy then LegacyFancyTypeName(ts[i]) else FancyTypeName(ts[i]))
  }

  function Render(t: Type, legacy: bool): string
  {
    if legacy then LegacyFancyTypeName(t) else FancyTypeName(t)
  }

  /**
   * CovariantMatcher.ToString (`legacy` selects the copy nested in Injector.cs,
   * which renders names with its own FancyTypeName).
   */
  function MatcherToString(m: CovariantMatcher, legacy: bool): (r: string)
    ensures |r| >= |Render(m.openType, legacy)| + |Render(m.concreteType, legacy)|
    ensures r[..|Render(m.openType, legacy)|] == Render(m.openType, legacy)
    ensures r[|r| - |Render(m.concreteType, legacy)|..] == Render(m.concreteType, legacy)
    ensures m.constraints == [] ==>
              r == Render(m.openType, legacy) + " with constraints " + " will be resolved by type " + Render(m.concreteType, legacy)
    ensures |m.constraints| >= 1 && (forall i :: 0 <= i < |m.constraints| ==> ',' !in Render(m.constraints[i], legacy)) ==>
              exists segment :: r == Render(m.openType, legacy) + " with constraints " + segment + " will be resolved by type " + Render(m.concreteType, legacy)
                             && Split(segment) == Names(m.constraints, legacy)
  {
    var segment := Join(Names(m.constraints, legacy));
    var r := Render(m.openType, legacy) + " with constraints " + segment + " will be resolved by type " + Render(m.concreteType, legacy);
    if |m.constraints| >= 1 && (forall i :: 0 <= i < |m.constraints| ==> ',' !in Render(m.constraints[i], legacy)) then
      SplitJoin(Names(m.constraints, legacy));
      r
    else
      r
  }

  /** Pairing of two sequences position by position (the values Stitch yields). */
  function Zip(left: seq<Type>, right: seq<Type>): (r: seq<(Type, Type)>)
    requires |left| == |right|
    ensures |r| == |left|
    ensures forall k :: 0 <= k < |r| ==> r[k] == (left[k], right[k])
  {
    seq(|left|, k requires 0 <= k < |left| => (left[k], right[k]))
  }

  const ErrorSequencesNotSameSize := "Operation failed.  Sequences are not the same size."

  /** MoveAllEnumerators: true when every enumerator advanced, false when none did, and an
      exception when only some did. `advanced[i]` is what MoveNext returned on enumerator i. */
  function MoveAllEnumerators(advanced: seq<bool>): (r: Result<bool, Error>)
    ensures r == Success(true) <==> forall i :: 0 <= i < |advanced| ==> advanced[i]
    ensures r == Success(false) <==> (|advanced| > 0 && forall i :: 0 <= i < |advanced| ==> !advanced[i])
  {
    if forall i :: 0 <= i < |advanced| ==> advanced[i] then
      assert |advanced| > 0 ==> advanced[0];
      Success(true)
    else if exists i :: 0 <= i < |advanced| && advanced[i] then Failure(Error(ErrorSequencesNotSameSize, None))
    else Success(false)
  }

  /** Stitch: step both enumerators together, yielding pairs, until both are exhausted;
      an error if one runs out before the other. */
  method Stitch(left: seq<Type>, right: seq<Type>) returns (r: Result<seq<(Type, Type)>, Error>)
    ensures r.Success? <==> |left| == |right|
    ensures r.Success? ==> r.value == Zip(left, right)
    ensures r.Failure? ==> r.error.message == ErrorSequencesNotSameSize
  {
    var pairs: seq<(Type, Type)> := [];
    var i := 0;
    while true
      invariant 0 <= i <= |left| && i <= |right|
      invariant |pairs| == i
      invariant forall k :: 0 <= k < i ==> pairs[k] == (left[k], right[k])
      decreases |left| - i
    {
      var advanced := [i < |left|, i < |right|];
      var moved := MoveAllEnumerators(advanced);
      if moved.Failure? {
        assert advanced[0] != advanced[1];
        return Failure(moved.error);
      }
      if !moved.value {
        assert !advanced[0] && !advanced[1];
        return Success(pairs);
      }
      assert advanced[0] && advanced[1];
      pairs := pairs + [(left[i], right[i])];
      i := i + 1;
    }
  }

  /** Every constraint is assignable from the type argument at its position. */
  predicate AllAssignable(constraints: seq<Type>, args: seq<Type>)
    requires |constraints| == |args|
  {
    forall k :: 0 <= k < |constraints| ==> Assignable(constraints[k], args[k])
  }

  /**
   * MatchesGeneric: `closed` was made from `open`, and either there are no
   * constraints or there is one per type argument and each is assignable
   * from its argument.
   */
  predicate MatchesGeneric(open: Type, closed: Type, constraints: seq<Type>): (r: bool)
    ensures r <==> DefinitionIs(closed, open)
                   && (|constraints| == 0 || (|constraints| == |closed.args| && AllAssignable(constraints, closed.args)))
  {
    DefinitionIs(closed, open) &&
    if |closed.args| == |constraints| then AllAssignable(constraints, closed.args) else |constraints| == 0
  }

  /**
   * MatchesGenericResolver: the test that decides whether an already cached
   * closed type is reconsidered when `open` gets a new mapping. It is the
   * lookup's MatchesGeneric plus two checks of its own: the same number of
   * arguments as the open definition, and the open definition closed over
   * the cached type's arguments assignable from the cached type.
   */
  predicate MatchesGenericResolver(rt: Runtime, closed: Type, open: Type, constraints: seq<Type>): (r: bool)
    ensures r <==> MatchesGeneric(open, closed, constraints) && |closed.args| == |open.args|
                   && Assignable(rt.close(open, closed.args), closed)
  {
    if |closed.args| != |open.args| then false
    else
      (if |closed.args| == |constraints| then AllAssignable(constraints, closed.args) else |constraints| == 0)
      && Assignable(rt.close(open, closed.args), closed)
      && DefinitionIs(closed, open)
  }

  /**
   * The outcome of InheritDistance. Equal types and interface matches score 1,
   * a strict superclass its number of BaseType steps, and Object, where the
   * walk stops, Int32.MaxValue. A type whose base chain ends without reaching
   * Object (an interface) still counts as a subclass of Object, so under an
   * `object` constraint the walk steps onto its null BaseType and raises
   * NullReferenceException.
   */
  function InheritDistanceOf(b: Type, d: Type): (r: Result<nat, Error>)
    ensures r.Failure? <==> b == Object && d != Object && !OnBaseChain(d, Object)
    ensures r.Failure? ==> r.error == Error(ErrorNullReference, None)
    ensures r.Success? ==> r.value >= 1
    ensures r == Success(MaxValue) <==> !Assignable(b, d) || (OnBaseChain(d, b) && (b == Object || Hops(d, b) == MaxValue))
    ensures Assignable(b, d) && !IsSubclassOf(d, b) ==> r == Success(1)
  {
    if !Assignable(b, d) then Success(MaxValue)
    else if !IsSubclassOf(d, b) then Success(1)
    else if b == Object then
      if OnBaseChain(d, Object) then Success(MaxValue) else Failure(Error(ErrorNullReference, None))
    else Success(Hops(d, b))
  }

  /** InheritDistance: walk the base-type chain of `derived` up to `baseClass`, counting steps.
      Once the walk has stepped onto a null BaseType, its next step dereferences null. */
  method InheritDistance(baseClass: Type, derived: Type) returns (r: Result<nat, Error>)
    ensures r == InheritDistanceOf(baseClass, derived)
  {
    r := Success(MaxValue);
    if Assignable(baseClass, derived) {
      if IsSubclassOf(derived, baseClass) {
        var d := derived;
        var distance: nat := 0;
        if OnBaseChain(derived, baseClass) {
          SubclassDepth(derived, baseClass);
        }
        while d != Object && d != baseClass
          invariant OnBaseChain(derived, baseClass) ==>
                      && (d == baseClass || OnBaseChain(d, baseClass))
                      && distance + (if d == baseClass then 0 else Hops(d, baseClass)) == Hops(derived, baseClass)
          invariant !OnBaseChain(derived, baseClass) ==> baseClass == Object && d != Object && !OnBaseChain(d, Object)
          decreases d
        {
          if d.baseType.None? {
            return Failure(Error(ErrorNullReference, None));
          }
          distance := distance + 1;
          d := d.baseType.value;
        }
        r := Success(distance);
        if d == Object {
          r := Success(MaxValue);
        }
      } else {
        r := Success(1);
      }
    }
  }

  /** A constraint of `object` on a type whose base chain reaches Object scores as badly as
      no match: the walk stops at Object first. */
  lemma ObjectConstraintScoresMaxValue(d: Type)
    requires OnBaseChain(d, Object)
    ensures InheritDistanceOf(Object, d) == Success(MaxValue)
  {
  }

  /** A constraint of `object` on an interface (any type other than Object whose base chain
      misses Object) raises NullReferenceException. */
  lemma ObjectConstraintOnInterfaceRaises(d: Type)
    requires d.isInterface && d.baseType.None? && d != Object
    ensures InheritDistanceOf(Object, d) == Failure(Error(ErrorNullReference, None))
  {
  }

  /** No pair's walk raises. */
  predicate WalksSucceed(constraints: seq<Type>, args: seq<Type>)
    requires |constraints| == |args|
  {
    forall k :: 0 <= k < |constraints| ==> InheritDistanceOf(constraints[k], args[k]).Success?
  }

  /** Sum of the inheritance distances of paired constraints and arguments, as a number,
      when no walk raises. */
  function SumDistances(constraints: seq<Type>, args: seq<Type>): (r: nat)
    requires |constraints| == |args| && WalksSucceed(constraints, args)
    ensures r >= |constraints|
    ensures (exists k :: 0 <= k < |args| && !Assignable(constraints[k], args[k])) ==> r >= MaxValue
  {
    if |constraints| == 0 then 0
    else
      assert forall k :: 1 <= k < |args| ==> constraints[k] == constraints[1..][k - 1] && args[k] == args[1..][k - 1];
      var rest := SumDistances(constraints[1..], args[1..]);
      InheritDistanceOf(constraints[0], args[0]).value + rest
  }

  /** Every pair adds at least one, so the sum exceeds any single distance by the number of
      other pairs. */
  lemma {:induction false} SumDistancesAbove(constraints: seq<Type>, args: seq<Type>, k: nat)
    requires |constraints| == |args| && k < |args| && WalksSucceed(constraints, args)
    ensures SumDistances(constraints, args) >= InheritDistanceOf(constraints[k], args[k]).value + |args| - 1
  {
    assert InheritDistanceOf(constraints[0], args[0]).Success?;
    if k > 0 {
      assert forall j :: 1 <= j < |args| ==> constraints[j] == constraints[1..][j - 1] && args[j] == args[1..][j - 1];
      SumDistancesAbove(constraints[1..], args[1..], k - 1);
    }
  }

  /** The message of the OverflowException that checked Int32 addition raises. */
  const ErrorOverflow := "Arithmetic operation resulted in an overflow."

  /**
   * Enumerable.Sum over Int32, continued from the running total `acc`: each
   * pair's distance is computed and added left to right in checked
   * arithmetic, so the first walk that raises, or the first partial sum above
   * Int32.MaxValue, ends the sum with its exception.
   */
  function CheckedSum(constraints: seq<Type>, args: seq<Type>, acc: nat): (r: Result<nat, Error>)
    requires |constraints| == |args| && acc <= MaxValue
    ensures r.Success? <==> WalksSucceed(constraints, args) && acc + SumDistances(constraints, args) <= MaxValue
    ensures r.Success? ==> r.value == acc + SumDistances(constraints, args)
    ensures r.Failure? ==> r.error == Error(ErrorOverflow, None) || r.error == Error(ErrorNullReference, None)
    ensures r.Failure? && r.error.message == ErrorNullReference ==> !WalksSucceed(constraints, args)
    decreases |constraints|
  {
    if |constraints| == 0 then Success(acc)
    else
      assert forall k :: 1 <= k < |args| ==> constraints[k] == constraints[1..][k - 1] && args[k] == args[1..][k - 1];
      match InheritDistanceOf(constraints[0], args[0])
      case Failure(e) => Failure(e)
      case Success(distance) =>
        if acc + distance > MaxValue then Failure(Error(ErrorOverflow, None))
        else CheckedSum(constraints[1..], args[1..], acc + distance)
  }

  /** The first walk that raises decides the sum when the sum of the pairs before it fits. */
  lemma {:induction false} FirstRaisingWalk(constraints: seq<Type>, args: seq<Type>, acc: nat, k: nat)
    requires |constraints| == |args| && acc <= MaxValue && k < |args|
    requires CheckedSum(constraints[..k], args[..k], acc).Success?
    requires InheritDistanceOf(constraints[k], args[k]).Failure?
    ensures CheckedSum(constraints, args, acc) == Failure(Error(ErrorNullReference, None))
  {
    if k == 0 {
      HeadWalkRaises(constraints, args, acc);
    } else {
      var next := PrefixStep(constraints, args, acc, k);
      next := HeadStep(constraints, args, acc);
      assert constraints[1..][k - 1] == constraints[k] && args[1..][k - 1] == args[k];
      FirstRaisingWalk(constraints[1..], args[1..], next, k - 1);
    }
  }

  /** A non-empty prefix whose sum fits starts with a walk that fits, and the rest of it fits after that walk. */
  lemma PrefixStep(constraints: seq<Type>, args: seq<Type>, acc: nat, k: nat) returns (next: nat)
    requires |constraints| == |args| && acc <= MaxValue && 0 < k <= |args|
    requires CheckedSum(constraints[..k], args[..k], acc).Success?
    ensures InheritDistanceOf(constraints[0], args[0]).Success?
    ensures next == acc + InheritDistanceOf(constraints[0], args[0]).value <= MaxValue
    ensures CheckedSum(constraints[1..][..k - 1], args[1..][..k - 1], next).Success?
  {
    var cs, ps := constraints[..k], args[..k];
    HeadFits(cs, ps, acc);
    assert cs[0] == constraints[0] && ps[0] == args[0];
    next := HeadStep(cs, ps, acc);
    assert cs[1..] == constraints[1..][..k - 1] && ps[1..] == args[1..][..k - 1];
  }

  /** A sum that fits had a head walk that succeeded and fitted. */
  lemma HeadFits(constraints: seq<Type>, args: seq<Type>, acc: nat)
    requires |constraints| == |args| > 0 && acc <= MaxValue
    requires CheckedSum(constraints, args, acc).Success?
    ensures InheritDistanceOf(constraints[0], args[0]).Success?
    ensures acc + InheritDistanceOf(constraints[0], args[0]).value <= MaxValue
  {
  }

  /** A head walk that succeeds and fits moves its distance into the running sum. */
  lemma HeadStep(constraints: seq<Type>, args: seq<Type>, acc: nat) returns (next: nat)
    requires |constraints| == |args| > 0 && acc <= MaxValue
    requires InheritDistanceOf(constraints[0], args[0]).Success?
    requires acc + InheritDistanceOf(constraints[0], args[0]).value <= MaxValue
    ensures next == acc + InheritDistanceOf(constraints[0], args[0]).value
    ensures CheckedSum(constraints, args, acc) == CheckedSum(constraints[1..], args[1..], next)
  {
    next := acc + InheritDistanceOf(constraints[0], args[0]).value;
  }

  /** A raising first walk ends the sum with its exception. */
  lemma HeadWalkRaises(constraints: seq<Type>, args: seq<Type>, acc: nat)
    requires |constraints| == |args| > 0 && acc <= MaxValue
    requires InheritDistanceOf(constraints[0], args[0]).Failure?
    ensures CheckedSum(constraints, args, acc) == Failure(Error(ErrorNullReference, None))
  {
  }

  /**
   * MatchesQuality: MaxValue for a mapping without constraints (or made from
   * another definition); otherwise the summed inheritance distance, which
   * raises when a walk raises or the sum passes Int32.MaxValue. Stitch runs
   * before the length check, so unequal lengths raise its error.
   */
  function MatchesQuality(open: Type, closed: Type, constraints: seq<Type>): (r: Result<nat, Error>)
    ensures !(DefinitionIs(closed, open) && |constraints| > 0) ==> r == Success(MaxValue)
    ensures DefinitionIs(closed, open) && |constraints| > 0 && |constraints| != |closed.args| ==>
              r == Failure(Error(ErrorSequencesNotSameSize, None))
    ensures DefinitionIs(closed, open) && |constraints| > 0 && |constraints| == |closed.args| ==>
              && (r.Success? <==> WalksSucceed(constraints, closed.args) && SumDistances(constraints, closed.args) <= MaxValue)
              && (r.Success? ==> r.value == SumDistances(constraints, closed.args))
              && (r.Failure? ==> r.error == Error(ErrorOverflow, None) || r.error == Error(ErrorNullReference, None))
              && (WalksSucceed(constraints, closed.args) ==> r.Failure? ==> r.error == Error(ErrorOverflow, None))
  {
    if DefinitionIs(closed, open) && |constraints| > 0 then
      if |constraints| != |closed.args| then Failure(Error(ErrorSequencesNotSameSize, None))
      else CheckedSum(constraints, closed.args, 0)
    else Success(MaxValue)
  }

  /** A matching mapping never meets Stitch's error in the lookup: its quality is a number,
      or the overflow, or the null dereference of an `object` constraint over an interface. */
  lemma {:induction false} MatchingHasQuality(m: CovariantMatcher, closed: Type)
    requires MatchesGeneric(m.openType, closed, m.constraints)
    ensures MatchesQuality(m.openType, closed, m.constraints).Failure? ==>
              MatchesQuality(m.openType, closed, m.constraints).error in {Error(ErrorOverflow, None), Error(ErrorNullReference, None)}
    ensures MatchesQuality(m.openType, closed, m.constraints).Failure? &&
            MatchesQuality(m.openType, closed, m.constraints).error.message == ErrorNullReference ==>
              exists k :: 0 <= k < |m.constraints| && m.constraints[k] == Object && closed.args[k] != Object
                          && !OnBaseChain(closed.args[k], Object)
  {
    var q := MatchesQuality(m.openType, closed, m.constraints);
    if q.Failure? && q.error.message == ErrorNullReference {
      var k :| 0 <= k < |m.constraints| && InheritDistanceOf(m.constraints[k], closed.args[k]).Failure?;
    }
  }

  /** With two or more constraints and no raising walk, one pair scoring MaxValue (an `object`
      constraint over a class, say) makes the sum overflow. */
  lemma MaxValuePairOverflows(open: Type, closed: Type, constraints: seq<Type>, k: nat)
    requires DefinitionIs(closed, open) && |constraints| == |closed.args| >= 2 && k < |constraints|
    requires WalksSucceed(constraints, closed.args)
    requires InheritDistanceOf(constraints[k], closed.args[k]) == Success(MaxValue)
    ensures MatchesQuality(open, closed, constraints) == Failure(Error(ErrorOverflow, None))
  {
    SumDistancesAbove(constraints, closed.args, k);
  }

  /** The quality of a mapping whose first raising walk comes before any overflow is the
      NullReferenceException. */
  lemma RaisingWalkRaises(open: Type, closed: Type, constraints: seq<Type>, k: nat)
    requires DefinitionIs(closed, open) && |constraints| == |closed.args| && k < |constraints|
    requires WalksSucceed(constraints[..k], closed.args[..k]) && SumDistances(constraints[..k], closed.args[..k]) <= MaxValue
    requires InheritDistanceOf(constraints[k], closed.args[k]).Failure?
    ensures MatchesQuality(open, closed, constraints) == Failure(Error(ErrorNullReference, None))
  {
    FirstRaisingWalk(constraints, closed.args, 0, k);
  }

  /** A mapping's rank for `closed` in the covariant lookup. */
  function Rank(m: CovariantMatcher, closed: Type): nat
  {
    match MatchesQuality(m.openType, closed, m.constraints)
    case Success(q) => q
    case Failure(_) => MaxValue
  }

  /** The filters of the covariant lookup: made from the same definition, and matching. */
  predicate Candidate(m: CovariantMatcher, closed: Type)
  {
    DefinitionIs(closed, m.openType) && MatchesGeneric(m.openType, closed, m.constraints)
  }

  /**
   * The mapping GetCovariantResolverExpression settles on for `closed`: among
   * the candidates, the one of least quality, the earliest in registration
   * order on a tie (OrderBy is stable, FirstOrDefault takes the head).
   */
  function BestMapping(mappings: seq<CovariantMatcher>, closed: Type): (r: Option<nat>)
    ensures r.None? <==> forall i :: 0 <= i < |mappings| ==> !Candidate(mappings[i], closed)
    ensures r.Some? ==> r.value < |mappings| && Candidate(mappings[r.value], closed)
    ensures r.Some? ==> forall i :: 0 <= i < |mappings| && Candidate(mappings[i], closed) ==>
                          Rank(mappings[r.value], closed) <= Rank(mappings[i], closed)
    ensures r.Some? ==> forall i :: 0 <= i < r.value && Candidate(mappings[i], closed) ==>
                          Rank(mappings[r.value], closed) < Rank(mappings[i], closed)
  {
    var r := FirstMinimum(mappings, m => Candidate(m, closed), m => (Rank(m, closed) as int, 0));
    r
  }

  /** A candidate whose quality cannot be computed. */
  predicate Failing(m: CovariantMatcher, closed: Type)
  {
    Candidate(m, closed) && MatchesQuality(m.openType, closed, m.constraints).Failure?
  }

  /** Some candidate's quality cannot be computed. */
  predicate QualityFails(mappings: seq<CovariantMatcher>, closed: Type)
  {
    exists i :: 0 <= i < |mappings| && Failing(mappings[i], closed)
  }

  /** The earliest candidate whose quality raises: OrderBy computes the keys in list order,
      so its exception is the one that escapes. */
  function FirstFailing(mappings: seq<CovariantMatcher>, closed: Type): (r: Option<nat>)
    ensures r.None? <==> !QualityFails(mappings, closed)
    ensures r.Some? ==> r.value < |mappings| && Failing(mappings[r.value], closed)
                        && forall j :: 0 <= j < r.value ==> !Failing(mappings[j], closed)
    decreases |mappings|
  {
    if |mappings| == 0 then None
    else if Failing(mappings[0], closed) then Some(0)
    else
      assert forall j :: 1 <= j < |mappings| ==> mappings[j] == mappings[1..][j - 1];
      match FirstFailing(mappings[1..], closed)
      case None => None
      case Some(i) => Some(i + 1)
  }

  /**
   * The covariant lookup with its exception: OrderBy evaluates the key of
   * every candidate in list order, so the lookup raises the exception of the
   * first candidate whose quality raises; otherwise it settles on
   * BestMapping, every candidate then being ranked by its quality.
   */
  function CovariantLookup(mappings: seq<CovariantMatcher>, closed: Type): (r: Result<Option<nat>, Error>)
    ensures r.Failure? <==> QualityFails(mappings, closed)
    ensures r.Failure? ==> exists i :: 0 <= i < |mappings| && Failing(mappings[i], closed)
                                       && r.error == MatchesQuality(mappings[i].openType, closed, mappings[i].constraints).error
                                       && forall j :: 0 <= j < i ==> !Failing(mappings[j], closed)
    ensures r.Failure? ==> r.error == Error(ErrorOverflow, None) || r.error == Error(ErrorNullReference, None)
    ensures r.Success? ==> r.value == BestMapping(mappings, closed)
    ensures r.Success? ==> forall i :: 0 <= i < |mappings| && Candidate(mappings[i], closed) ==>
                             MatchesQuality(mappings[i].openType, closed, mappings[i].constraints) == Success(Rank(mappings[i], closed))
  {
    match FirstFailing(mappings, closed)
    case Some(i) =>
      MatchingHasQuality(mappings[i], closed);
      Failure(MatchesQuality(mappings[i].openType, closed, mappings[i].constraints).error)
    case None => Success(BestMapping(mappings, closed))
  }

  /** Constrained beats unconstrained: a candidate whose score is below MaxValue wins over
      every mapping registered without constraints. */
  lemma {:induction false} ConstrainedWins(mappings: seq<CovariantMatcher>, closed: Type, i: nat, j: nat)
    requires i < |mappings| && j < |mappings|
    requires Candidate(mappings[i], closed) && Candidate(mappings[j], closed)
    requires mappings[j].constraints == [] && Rank(mappings[i], closed) < MaxValue
    ensures BestMapping(mappings, closed) != Some(j)
  {
    assert Rank(mappings[j], closed) == MaxValue;
  }

  const ErrorArityMismatch := "If any artificial constraints are specified, then you must specify an artificial constraint for each open generic type argument."
  const ErrorNotAssignable := "concreteOpenGeneric must be assignable to openGeneric"

  /** SetGenericResolver's validation: the error it throws, if any, before touching the list. */
  function ValidateGenericResolver(rt: Runtime, open: Type, concrete: Type, constraints: seq<Type>): (r: Option<Error>)
    ensures r.None? <==> (|constraints| == 0 ||
              (|constraints| == |open.args| && Assignable(rt.close(open, constraints), rt.close(concrete, constraints))))
    ensures |constraints| != 0 && |constraints| != |open.args| ==> r == Some(Error(ErrorArityMismatch, None))
  {
    if |constraints| == 0 then None
    else if |constraints| == |open.args| then
      if !Assignable(rt.close(open, constraints), rt.close(concrete, constraints)) then Some(Error(ErrorNotAssignable, None))
      else None
    else Some(Error(ErrorArityMismatch, None))
  }

  /** `m` is keyed by (open type, constraint sequence). */
  predicate SameKey(m: CovariantMatcher, open: Type, constraints: seq<Type>)
  {
    m.openType == open && m.constraints == constraints
  }

  /** `_openTypeResolvers.RemoveAll(same key)`. */
  function RemoveAll(s: seq<CovariantMatcher>, open: Type, constraints: seq<Type>): (r: seq<CovariantMatcher>)
    ensures forall m :: m in r <==> m in s && !SameKey(m, open, constraints)
    ensures |r| <= |s|
    ensures (forall i :: 0 <= i < |s| ==> !SameKey(s[i], open, constraints)) ==> r == s
    ensures |s| == 1 ==> r == if SameKey(s[0], open, constraints) then [] else s
  {
    if s == [] then []
    else (if SameKey(s[0], open, constraints) then [] else [s[0]]) + RemoveAll(s[1..], open, constraints)
  }

  /** RemoveAll keeps the relative order of what it keeps: cutting the list anywhere, the
      survivors of the front come before the survivors of the back. */
  lemma {:induction false} RemoveAllAppend(s: seq<CovariantMatcher>, t: seq<CovariantMatcher>, open: Type, constraints: seq<Type>)
    ensures RemoveAll(s + t, open, constraints) == RemoveAll(s, open, constraints) + RemoveAll(t, open, constraints)
    decreases |s|
  {
    if s == [] {
      assert s + t == t;
    } else {
      var st := s + t;
      assert st[0] == s[0] && st[1..] == s[1..] + t;
      RemoveAllAppend(s[1..], t, open, constraints);
      RemoveAllStep(st, open, constraints);
      RemoveAllStep(s, open, constraints);
      AppendAssociative(Kept(s[0], open, constraints), RemoveAll(s[1..], open, constraints), RemoveAll(t, open, constraints));
    }
  }

  lemma AppendAssociative(a: seq<CovariantMatcher>, b: seq<CovariantMatcher>, c: seq<CovariantMatcher>)
    ensures a + (b + c) == (a + b) + c
  {
  }

  /** One step of RemoveAll: the verdict on the head, then the rest. */
  lemma RemoveAllStep(s: seq<CovariantMatcher>, open: Type, constraints: seq<Type>)
    requires s != []
    ensures RemoveAll(s, open, constraints) == Kept(s[0], open, constraints) + RemoveAll(s[1..], open, constraints)
  {
  }

  /** The head's contribution to RemoveAll. */
  function Kept(m: CovariantMatcher, open: Type, constraints: seq<Type>): seq<CovariantMatcher>
  {
    if SameKey(m, open, constraints) then [] else [m]
  }

  /** Number of entries of `s` keyed by (open, constraints). */
  function CountKey(s: seq<CovariantMatcher>, open: Type, constraints: seq<Type>): nat
  {
    if s == [] then 0 else (if SameKey(s[0], open, constraints) then 1 else 0) + CountKey(s[1..], open, constraints)
  }

  lemma {:induction false} CountKeyAbsent(s: seq<CovariantMatcher>, open: Type, constraints: seq<Type>)
    requires forall m :: m in s ==> !SameKey(m, open, constraints)
    ensures CountKey(s, open, constraints) == 0
  {
    if s != [] {
      CountKeyAbsent(s[1..], open, constraints);
    }
  }

  lemma {:induction false} CountKeyAppend(s: seq<CovariantMatcher>, t: seq<CovariantMatcher>, open: Type, constraints: seq<Type>)
    ensures CountKey(s + t, open, constraints) == CountKey(s, open, constraints) + CountKey(t, open, constraints)
  {
    if s != [] {
      assert (s + t)[0] == s[0];
      assert (s + t)[1..] == s[1..] + t;
      CountKeyAppend(s[1..], t, open, constraints);
    } else {
      assert s + t == t;
    }
  }

  /** The list after inserting `m`: the old entries with another key, in their order, then `m`. */
  function InsertMapping(s: seq<CovariantMatcher>, m: CovariantMatcher): (r: seq<CovariantMatcher>)
    ensures |r| > 0 && r[|r| - 1] == m
    ensures forall x :: x in r <==> x == m || (x in s && !SameKey(x, m.openType, m.constraints))
  {
    RemoveAll(s, m.openType, m.constraints) + [m]
  }

  /** After an insertion the list holds exactly one entry for the new key: the new mapping, last. */
  lemma {:induction false} InsertMappingUnique(s: seq<CovariantMatcher>, m: CovariantMatcher)
    ensures CountKey(InsertMapping(s, m), m.openType, m.constraints) == 1
    ensures InsertMapping(s, m)[|InsertMapping(s, m)| - 1] == m
    ensures forall x :: x in InsertMapping(s, m) && x != m ==> x in s && !SameKey(x, m.openType, m.constraints)
  {
    var kept := RemoveAll(s, m.openType, m.constraints);
    CountKeyAbsent(kept, m.openType, m.constraints);
    CountKeyAppend(kept, [m], m.openType, m.constraints);
  }

  /**
   * The other mappings keep their relative order: for any cut of the old
   * list, the survivors of its front precede the survivors of its back, and
   * the new mapping follows them all.
   */
  lemma InsertMappingKeepsOrder(s: seq<CovariantMatcher>, m: CovariantMatcher, k: nat)
    requires k <= |s|
    ensures InsertMapping(s, m) == RemoveAll(s[..k], m.openType, m.constraints) + RemoveAll(s[k..], m.openType, m.constraints) + [m]
  {
    assert s == s[..k] + s[k..];
    RemoveAllAppend(s[..k], s[k..], m.openType, m.constraints);
  }
}
