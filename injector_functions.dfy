/**
 * RegisterAllTypesAsImplementedInterfaces of the PowerTools package: scan the
 * types of an assembly, pair each with each interface it implements, block
 * every interface that more than one type implements (and IDisposable, from
 * the seed entry), and register each unblocked, fully closed pair as
 * SetResolver<Interface, Concrete>.
 */
module InjectorFunctions {
  import opened Wrappers
  import opened Types
  import opened Strings
  import opened Functions
  import opened Covariant
  import opened Factories
  import opened Registry

  /** ClassInterfaceMapItem. */
  datatype MapItem = MapItem(concreteClass: Type, iface: Type, blockType: bool)

  /** A scanned (class, interface) pair, in scan order. */
  datatype Pair = Pair(concreteClass: Type, iface: Type)

  /** The list the scan starts from: object for IDisposable, already blocked. */
  const Seed: seq<MapItem> := [MapItem(Object, IDisposable, true)]

  /** IsAvailableForRegistration: not marked IgnoreDuringRegistration. The attribute's
      usage admits only constructors, fields, methods and properties, so on the types and
      interfaces of a compiled assembly the flag is never set and both filters keep
      everything; the model still applies both, as the scan does. */
  predicate Available(t: Type)
  {
    !t.ignored
  }

  /** The pairs of type `t` with the available interfaces among `ifs`, in order. */
  function InterfacePairs(t: Type, ifs: seq<Type>): seq<Pair>
  {
    if ifs == [] then []
    else
      var last := ifs[|ifs| - 1];
      InterfacePairs(t, ifs[..|ifs| - 1]) + if Available(last) then [Pair(t, last)] else []
  }

  /** The pairs the nested scan visits: available types in assembly order, each with its
      available interfaces in GetInterfaces order. */
  function ScannedPairs(types: seq<Type>): seq<Pair>
  {
    if types == [] then []
    else
      var last := types[|types| - 1];
      ScannedPairs(types[..|types| - 1]) + if Available(last) then InterfacePairs(last, last.interfaces) else []
  }

  /** How many pairs name interface `i`. */
  function Count(pairs: seq<Pair>, i: Type): nat
  {
    if pairs == [] then 0
    else Count(pairs[..|pairs| - 1], i) + if pairs[|pairs| - 1].iface == i then 1 else 0
  }

  lemma {:induction false} CountPositive(pairs: seq<Pair>, i: Type)
    ensures Count(pairs, i) >= 1 <==> exists k :: 0 <= k < |pairs| && pairs[k].iface == i
  {
    if pairs != [] {
      var front := pairs[..|pairs| - 1];
      CountPositive(front, i);
      if exists k :: 0 <= k < |front| && front[k].iface == i {
        var k :| 0 <= k < |front| && front[k].iface == i;
        assert pairs[k] == front[k];
      }
      if exists k :: 0 <= k < |pairs| && pairs[k].iface == i {
        var k :| 0 <= k < |pairs| && pairs[k].iface == i;
        if k < |front| {
          assert front[k] == pairs[k];
        }
      }
    }
  }

  /** Some entry of the list is for interface `i`. */
  predicate Seen(items: seq<MapItem>, i: Type)
  {
    exists k :: 0 <= k < |items| && items[k].iface == i
  }

  /** Every entry for interface `i` gets BlockType set. */
  function BlockAll(items: seq<MapItem>, i: Type): (r: seq<MapItem>)
  {
    seq(|items|, k requires 0 <= k < |items| => if items[k].iface == i then items[k].(blockType := true) else items[k])
  }

  /** One step of the scan: the new entry is blocked when its interface was seen already,
      and then every entry for that interface is blocked too. */
  function AddPair(items: seq<MapItem>, p: Pair): (r: seq<MapItem>)
    ensures |r| == |items| + 1
    ensures r[|items|] == MapItem(p.concreteClass, p.iface, Seen(items, p.iface))
    ensures forall k :: 0 <= k < |items| && items[k].iface != p.iface ==> r[k] == items[k]
    ensures forall k :: 0 <= k < |items| && items[k].iface == p.iface ==> r[k] == items[k].(blockType := true)
  {
    if Seen(items, p.iface) then BlockAll(items + [MapItem(p.concreteClass, p.iface, true)], p.iface)
    else items + [MapItem(p.concreteClass, p.iface, false)]
  }

  /** The list after scanning `pairs` one by one. */
  function BuildMap(pairs: seq<Pair>): (r: seq<MapItem>)
    ensures |r| == |pairs| + 1 && r[0] == Seed[0]
    ensures forall k :: 0 <= k < |pairs| ==> r[k + 1].concreteClass == pairs[k].concreteClass && r[k + 1].iface == pairs[k].iface
  {
    if pairs == [] then Seed else AddPair(BuildMap(pairs[..|pairs| - 1]), pairs[|pairs| - 1])
  }

  /** The blocking rule: IDisposable, or an interface that two or more pairs name. */
  predicate Blocked(pairs: seq<Pair>, i: Type)
  {
    i == IDisposable || Count(pairs, i) >= 2
  }

  /** The finished list, stated directly: the seed, then one entry per pair in scan order,
      blocked exactly by the blocking rule. */
  function FinalMap(pairs: seq<Pair>): (r: seq<MapItem>)
    ensures |r| == |pairs| + 1 && r[0] == Seed[0]
    ensures forall k :: 0 <= k < |pairs| ==> r[k + 1] == MapItem(pairs[k].concreteClass, pairs[k].iface, Blocked(pairs, pairs[k].iface))
  {
    Seed + seq(|pairs|, k requires 0 <= k < |pairs| => MapItem(pairs[k].concreteClass, pairs[k].iface, Blocked(pairs, pairs[k].iface)))
  }

  /** An interface is in the finished list exactly when it is the seed's or a pair names it. */
  lemma SeenInFinal(pairs: seq<Pair>, i: Type)
    ensures Seen(FinalMap(pairs), i) <==> i == IDisposable || Count(pairs, i) >= 1
  {
    var items := FinalMap(pairs);
    CountPositive(pairs, i);
    if Seen(items, i) {
      var k :| 0 <= k < |items| && items[k].iface == i;
      if k > 0 {
        assert pairs[k - 1].iface == i;
      }
    }
    if Count(pairs, i) >= 1 {
      var k :| 0 <= k < |pairs| && pairs[k].iface == i;
      assert items[k + 1].iface == i;
    }
    if i == IDisposable {
      assert items[0].iface == i;
    }
  }

  /** One scan step on the finished list of a prefix gives the finished list of the longer prefix. */
  lemma AddPairFinal(front: seq<Pair>, p: Pair)
    ensures AddPair(FinalMap(front), p) == FinalMap(front + [p])
  {
    var pairs := front + [p];
    assert pairs[..|pairs| - 1] == front;
    SeenInFinal(front, p.iface);
    CountPositive(front, p.iface);
    var after := FinalMap(pairs);
    var built := AddPair(FinalMap(front), p);
    assert |built| == |after|;
    forall k | 0 <= k < |after|
      ensures built[k] == after[k]
    {
      if 0 < k <= |front| {
        var i := front[k - 1].iface;
        assert pairs[k - 1] == front[k - 1];
        if i == p.iface {
          CountPositive(front, i);
        }
      }
    }
  }

  /** Scanning step by step builds exactly the list the blocking rule describes. */
  lemma {:induction false} BuildMapIsFinal(pairs: seq<Pair>)
    ensures BuildMap(pairs) == FinalMap(pairs)
  {
    if pairs != [] {
      var front := pairs[..|pairs| - 1];
      var p := pairs[|pairs| - 1];
      BuildMapIsFinal(front);
      assert pairs == front + [p];
      AddPairFinal(front, p);
    }
  }

  /** A blocked entry stays blocked whatever is scanned after it. */
  lemma BlockingMonotone(pairs: seq<Pair>, p: Pair, k: nat)
    requires k < |BuildMap(pairs)| && BuildMap(pairs)[k].blockType
    ensures k < |BuildMap(pairs + [p])| && BuildMap(pairs + [p])[k].blockType
  {
    BuildMapIsFinal(pairs);
    BuildMapIsFinal(pairs + [p]);
    assert (pairs + [p])[..|pairs|] == pairs;
    if k > 0 {
      assert (pairs + [p])[k - 1] == pairs[k - 1];
    }
  }

  /** The entries the final loop registers: unblocked, with neither type open. */
  predicate Registrable(v: MapItem)
  {
    !v.blockType && !ContainsGenericParameters(v.iface) && !ContainsGenericParameters(v.concreteClass)
  }

  /** The SetResolver<Interface, Concrete> calls of the final loop, in list order. */
  function Registrations(items: seq<MapItem>): (r: seq<Pair>)
    ensures |r| <= |items|
    ensures forall p :: p in r ==> !ContainsGenericParameters(p.iface) && !ContainsGenericParameters(p.concreteClass)
  {
    if items == [] then []
    else
      var last := items[|items| - 1];
      Registrations(items[..|items| - 1]) + if Registrable(last) then [Pair(last.concreteClass, last.iface)] else []
  }

  lemma {:induction false} RegistrationsMembers(items: seq<MapItem>, p: Pair)
    ensures p in Registrations(items) <==>
            exists k :: 0 <= k < |items| && items[k] == MapItem(p.concreteClass, p.iface, false) && Registrable(items[k])
  {
    if items != [] {
      var front := items[..|items| - 1];
      RegistrationsMembers(front, p);
      if exists k :: 0 <= k < |items| && items[k] == MapItem(p.concreteClass, p.iface, false) && Registrable(items[k]) {
        var k :| 0 <= k < |items| && items[k] == MapItem(p.concreteClass, p.iface, false) && Registrable(items[k]);
        if k < |front| {
          assert front[k] == items[k];
        }
      }
      if exists k :: 0 <= k < |front| && front[k] == MapItem(p.concreteClass, p.iface, false) && Registrable(front[k]) {
        var k :| 0 <= k < |front| && front[k] == MapItem(p.concreteClass, p.iface, false) && Registrable(front[k]);
        assert items[k] == front[k];
      }
    }
  }

  /**
   * What the scan registers: (C, I) is registered exactly when C was scanned with
   * interface I, I is not IDisposable, no other scanned pair names I, and neither
   * type has open generic parameters.
   */
  lemma RegisteredIffSoleImplementer(types: seq<Type>, c: Type, i: Type)
    ensures var pairs := ScannedPairs(types);
            Pair(c, i) in Registrations(FinalMap(pairs)) <==>
              Pair(c, i) in pairs && i != IDisposable && Count(pairs, i) == 1
              && !ContainsGenericParameters(i) && !ContainsGenericParameters(c)
  {
    var pairs := ScannedPairs(types);
    var items := FinalMap(pairs);
    RegistrationsMembers(items, Pair(c, i));
    CountPositive(pairs, i);
    if Pair(c, i) in Registrations(items) {
      var k :| 0 <= k < |items| && items[k] == MapItem(c, i, false) && Registrable(items[k]);
      assert k > 0;
      assert pairs[k - 1] == Pair(c, i);
    }
    if Pair(c, i) in pairs && i != IDisposable && Count(pairs, i) == 1
       && !ContainsGenericParameters(i) && !ContainsGenericParameters(c) {
      var k :| 0 <= k < |pairs| && pairs[k] == Pair(c, i);
      assert items[k + 1] == MapItem(c, i, false);
    }
  }

  /** The registry after the SetResolver<Interface, Concrete>() calls, each installing
      `Resolve<Concrete>` for the interface without a lifetime manager. */
  function RegisterAll(g: Generation, rt: Runtime, mappings: seq<CovariantMatcher>, states: map<Type, ResolverState>, regs: seq<Pair>): (r: map<Type, ResolverState>)
    ensures states.Keys <= r.Keys
    ensures |regs| > 0 ==> var last := regs[|regs| - 1];
              && last.iface in r && r[last.iface].base == Resolve(last.concreteClass) && r[last.iface].lifetime.None?
              && r[last.iface].info == ResolverInfo(false, false) && r[last.iface].failure.None?
  {
    if regs == [] then states
    else
      var last := regs[|regs| - 1];
      SetResolverIn(g, rt, mappings, RegisterAll(g, rt, mappings, states, regs[..|regs| - 1]), last.iface, Resolve(last.concreteClass), None)
  }

  /** Some registration is for interface `t`. */
  predicate Registers(regs: seq<Pair>, t: Type)
  {
    exists k :: 0 <= k < |regs| && regs[k].iface == t
  }

  /** The registry after the calls holds the old entries and one per registered interface, and
      nothing else. */
  lemma {:induction false} RegisterAllKeys(g: Generation, rt: Runtime, mappings: seq<CovariantMatcher>,
                                           states: map<Type, ResolverState>, regs: seq<Pair>, t: Type)
    ensures t in RegisterAll(g, rt, mappings, states, regs) <==> t in states || Registers(regs, t)
  {
    if regs != [] {
      var front := regs[..|regs| - 1];
      RegisterAllKeys(g, rt, mappings, states, front, t);
      RegistersSnoc(regs, t);
    }
  }

  /** A non-empty list registers `t` when its front does or its last entry is for `t`. */
  lemma RegistersSnoc(regs: seq<Pair>, t: Type)
    requires |regs| > 0
    ensures Registers(regs, t) <==> Registers(regs[..|regs| - 1], t) || regs[|regs| - 1].iface == t
  {
    var front := regs[..|regs| - 1];
    if Registers(regs, t) {
      var k :| 0 <= k < |regs| && regs[k].iface == t;
      if k < |front| {
        assert front[k] == regs[k];
      }
    }
    if Registers(front, t) {
      var k :| 0 <= k < |front| && front[k].iface == t;
      assert regs[k] == front[k];
    }
  }

  /** No two registrations are for the same interface. */
  predicate UniqueInterfaces(regs: seq<Pair>)
  {
    forall j, k :: 0 <= j < k < |regs| ==> regs[j].iface != regs[k].iface
  }

  /** With one registration per interface, each registered interface ends up resolving its
      class, without a lifetime manager, as an explicit registration; every other entry is
      untouched. */
  lemma {:induction false} RegisterAllInstalls(g: Generation, rt: Runtime, mappings: seq<CovariantMatcher>,
                                               states: map<Type, ResolverState>, regs: seq<Pair>, k: nat)
    requires UniqueInterfaces(regs) && k < |regs|
    ensures regs[k].iface in RegisterAll(g, rt, mappings, states, regs)
    ensures var s := RegisterAll(g, rt, mappings, states, regs)[regs[k].iface];
            s.base == Resolve(regs[k].concreteClass) && s.lifetime.None? && s.info == ResolverInfo(false, false) && s.failure.None?
  {
    var front := regs[..|regs| - 1];
    if k < |front| {
      assert front[k] == regs[k];
      assert UniqueInterfaces(front);
      RegisterAllInstalls(g, rt, mappings, states, front, k);
    }
  }

  /** An interface with no registration keeps its entry. */
  lemma {:induction false} RegisterAllKeeps(g: Generation, rt: Runtime, mappings: seq<CovariantMatcher>,
                                            states: map<Type, ResolverState>, regs: seq<Pair>, t: Type)
    requires t in states && forall k :: 0 <= k < |regs| ==> regs[k].iface != t
    ensures t in RegisterAll(g, rt, mappings, states, regs) && RegisterAll(g, rt, mappings, states, regs)[t] == states[t]
  {
    if regs != [] {
      var front := regs[..|regs| - 1];
      forall k | 0 <= k < |front| ensures front[k].iface != t {
        assert front[k] == regs[k];
      }
      RegisterAllKeeps(g, rt, mappings, states, front, t);
    }
  }

  /** Two different pairs naming the same interface count twice. */
  lemma {:induction false} CountTwo(pairs: seq<Pair>, a: nat, b: nat)
    requires a < b < |pairs| && pairs[a].iface == pairs[b].iface
    ensures Count(pairs, pairs[b].iface) >= 2
  {
    var front := pairs[..|pairs| - 1];
    if b < |pairs| - 1 {
      assert front[a] == pairs[a] && front[b] == pairs[b];
      CountTwo(front, a, b);
    } else {
      assert front[a] == pairs[a];
      CountPositive(front, pairs[b].iface);
    }
  }

  /** In the finished list an unblocked entry is the only entry for its interface. */
  lemma UnblockedIsSole(pairs: seq<Pair>, j: nat, k: nat)
    requires j < |pairs| + 1 && k < |pairs| + 1 && j != k
    requires !FinalMap(pairs)[j].blockType
    ensures FinalMap(pairs)[k].iface != FinalMap(pairs)[j].iface
  {
    var items := FinalMap(pairs);
    assert j > 0;
    if k > 0 && items[k].iface == items[j].iface {
      if j < k {
        CountTwo(pairs, j - 1, k - 1);
      } else {
        CountTwo(pairs, k - 1, j - 1);
      }
    }
  }

  /** A list whose unblocked entries are each the only one for their interface registers
      each interface at most once. */
  lemma {:induction false} RegistrationsUnique(items: seq<MapItem>)
    requires forall j, k :: 0 <= j < |items| && 0 <= k < |items| && j != k && !items[j].blockType ==> items[k].iface != items[j].iface
    ensures UniqueInterfaces(Registrations(items))
  {
    if items != [] {
      var front := items[..|items| - 1];
      var last := items[|items| - 1];
      forall j, k | 0 <= j < |front| && 0 <= k < |front| && j != k && !front[j].blockType
        ensures front[k].iface != front[j].iface
      {
        assert front[j] == items[j] && front[k] == items[k];
      }
      RegistrationsUnique(front);
      var prev := Registrations(front);
      if Registrable(last) {
        forall j | 0 <= j < |prev| ensures prev[j].iface != last.iface
        {
          RegistrationsMembers(front, prev[j]);
          var k :| 0 <= k < |front| && front[k] == MapItem(prev[j].concreteClass, prev[j].iface, false) && Registrable(front[k]);
          assert items[k] == front[k];
        }
      }
    }
  }

  lemma PrefixUnique(regs: seq<Pair>, n: nat)
    requires n <= |regs| && UniqueInterfaces(regs)
    ensures UniqueInterfaces(regs[..n])
  {
    forall j, m | 0 <= j < m < n ensures regs[..n][j].iface != regs[..n][m].iface {
      assert regs[..n][j] == regs[j] && regs[..n][m] == regs[m];
    }
  }

  /** The scan registers each interface at most once. */
  lemma ScanRegistrationsUnique(types: seq<Type>)
    ensures UniqueInterfaces(Registrations(FinalMap(ScannedPairs(types))))
  {
    var pairs := ScannedPairs(types);
    forall j, k | 0 <= j < |pairs| + 1 && 0 <= k < |pairs| + 1 && j != k && !FinalMap(pairs)[j].blockType
      ensures FinalMap(pairs)[k].iface != FinalMap(pairs)[j].iface
    {
      UnblockedIsSole(pairs, j, k);
    }
    RegistrationsUnique(FinalMap(pairs));
  }

  /**
   * SetResolver<T, TConcreteType> demands `TConcreteType : class`: the
   * generic method cannot be made for a value type, so the loop stops at the
   * first registration whose class is a struct or an enum.
   */
  function FirstRejected(regs: seq<Pair>): (r: nat)
    ensures r <= |regs|
    ensures forall k :: 0 <= k < r ==> !regs[k].concreteClass.isValueType
    ensures r < |regs| ==> regs[r].concreteClass.isValueType
  {
    if regs == [] || regs[0].concreteClass.isValueType then 0 else 1 + FirstRejected(regs[1..])
  }

  /** The ArgumentException of MakeGenericMethod for a class that violates the constraint. */
  function ConstraintViolation(c: Type): Error
  {
    Error("GenericArguments[1], '" + c.name + "', on 'SetResolver[T,TConcreteType]()' violates the constraint of type 'TConcreteType'.", None)
  }

  /** The constraint error names the rejected class. */
  lemma ConstraintViolationNamesType(c: Type)
    ensures Contains(ConstraintViolation(c).message, c.name)
  {
    var prefix := "GenericArguments[1], '";
    assert ConstraintViolation(c).message[|prefix|..|prefix| + |c.name|] == c.name;
    assert OccursAt(ConstraintViolation(c).message, c.name, |prefix|);
  }

  /** The registrations the scan applies: those before the first value-type class. Each
      interface among them is registered once. */
  function Applied(types: seq<Type>): (r: seq<Pair>)
    ensures UniqueInterfaces(r)
    ensures var regs := Registrations(FinalMap(ScannedPairs(types)));
            r == regs[..FirstRejected(regs)]
  {
    var regs := Registrations(FinalMap(ScannedPairs(types)));
    ScanRegistrationsUnique(types);
    PrefixUnique(regs, FirstRejected(regs));
    regs[..FirstRejected(regs)]
  }

  /** Every applied registration leaves its interface resolving the class, without a
      lifetime manager, as an explicit registration. */
  lemma ScanRegistersApplied(g: Generation, rt: Runtime, mappings: seq<CovariantMatcher>, states: map<Type, ResolverState>,
                             types: seq<Type>, k: nat)
    requires k < |Applied(types)|
    ensures Applied(types)[k].iface in RegisterAll(g, rt, mappings, states, Applied(types))
    ensures var p := Applied(types)[k];
            var s := RegisterAll(g, rt, mappings, states, Applied(types))[p.iface];
            s.base == Resolve(p.concreteClass) && s.lifetime.None? && s.info == ResolverInfo(false, false) && s.failure.None?
  {
    RegisterAllInstalls(g, rt, mappings, states, Applied(types), k);
  }

  /** An interface the scan does not register keeps its entry. */
  lemma ScanKeepsOthers(g: Generation, rt: Runtime, mappings: seq<CovariantMatcher>, states: map<Type, ResolverState>,
                        types: seq<Type>, t: Type)
    requires t in states && forall j :: 0 <= j < |Applied(types)| ==> Applied(types)[j].iface != t
    ensures t in RegisterAll(g, rt, mappings, states, Applied(types))
    ensures RegisterAll(g, rt, mappings, states, Applied(types))[t] == states[t]
  {
    RegisterAllKeeps(g, rt, mappings, states, Applied(types), t);
  }

  /** An assembly without value types among its scanned classes is registered in full. */
  lemma NoValueTypesRegistersAll(types: seq<Type>)
    requires forall p :: p in ScannedPairs(types) ==> !p.concreteClass.isValueType
    ensures var regs := Registrations(FinalMap(ScannedPairs(types)));
            FirstRejected(regs) == |regs|
  {
    var pairs := ScannedPairs(types);
    var regs := Registrations(FinalMap(pairs));
    if FirstRejected(regs) < |regs| {
      var p := regs[FirstRejected(regs)];
      RegisteredIffSoleImplementer(types, p.concreteClass, p.iface);
    }
  }

  /** The scan's first part: the `concreteToInterfaceMap.Any` test, the Add, and the
      blocking loop for one pair. */
  method Record(items: seq<MapItem>, p: Pair) returns (r: seq<MapItem>)
    ensures r == AddPair(items, p)
  {
    var blockType := false;
    for k := 0 to |items|
      invariant blockType <==> exists m :: 0 <= m < k && items[m].iface == p.iface
    {
      if items[k].iface == p.iface {
        blockType := true;
      }
    }
    r := items + [MapItem(p.concreteClass, p.iface, blockType)];
    if blockType {
      ghost var added := r;
      for k := 0 to |r|
        invariant |r| == |added|
        invariant forall m :: 0 <= m < k ==> r[m] == if added[m].iface == p.iface then added[m].(blockType := true) else added[m]
        invariant forall m :: k <= m < |r| ==> r[m] == added[m]
      {
        if r[k].iface == p.iface {
          r := r[k := r[k].(blockType := true)];
        }
      }
      assert r == BlockAll(added, p.iface);
    }
  }

  /** The inner loop of the scan: the available interfaces of one type, in order. */
  method ScanType(items: seq<MapItem>, ghost scanned: seq<Pair>, t: Type) returns (r: seq<MapItem>)
    requires items == BuildMap(scanned)
    ensures r == BuildMap(scanned + InterfacePairs(t, t.interfaces))
  {
    r := items;
    assert scanned + InterfacePairs(t, t.interfaces[..0]) == scanned;
    for b := 0 to |t.interfaces|
      invariant r == BuildMap(scanned + InterfacePairs(t, t.interfaces[..b]))
    {
      var i := t.interfaces[b];
      assert t.interfaces[..b + 1][..b] == t.interfaces[..b];
      assert InterfacePairs(t, t.interfaces[..b + 1])
          == InterfacePairs(t, t.interfaces[..b]) + if Available(i) then [Pair(t, i)] else [];
      if Available(i) {
        ghost var done := scanned + InterfacePairs(t, t.interfaces[..b]);
        assert (done + [Pair(t, i)])[..|done|] == done;
        assert scanned + InterfacePairs(t, t.interfaces[..b + 1]) == done + [Pair(t, i)];
        assert BuildMap(done + [Pair(t, i)]) == AddPair(BuildMap(done), Pair(t, i));
        r := Record(r, Pair(t, i));
      } else {
        assert scanned + InterfacePairs(t, t.interfaces[..b + 1]) == scanned + InterfacePairs(t, t.interfaces[..b]);
      }
    }
    assert t.interfaces[..|t.interfaces|] == t.interfaces;
  }

  /** The nested scan over the assembly's types and their interfaces. */
  method ScanAssembly(assembly: seq<Type>) returns (items: seq<MapItem>)
    ensures items == FinalMap(ScannedPairs(assembly))
  {
    items := Seed;
    for a := 0 to |assembly|
      invariant items == BuildMap(ScannedPairs(assembly[..a]))
    {
      var t := assembly[a];
      assert assembly[..a + 1][..a] == assembly[..a];
      assert ScannedPairs(assembly[..a + 1])
          == ScannedPairs(assembly[..a]) + if Available(t) then InterfacePairs(t, t.interfaces) else [];
      if Available(t) {
        items := ScanType(items, ScannedPairs(assembly[..a]), t);
      } else {
        assert ScannedPairs(assembly[..a + 1]) == ScannedPairs(assembly[..a]);
      }
    }
    assert assembly[..|assembly|] == assembly;
    BuildMapIsFinal(ScannedPairs(assembly));
  }

  /** One more SetResolver call extends the registry by one registration. */
  lemma RegisterAllStep(g: Generation, rt: Runtime, mappings: seq<CovariantMatcher>, states: map<Type, ResolverState>, regs: seq<Pair>, k: nat)
    requires k < |regs|
    ensures RegisterAll(g, rt, mappings, states, regs[..k + 1])
         == SetResolverIn(g, rt, mappings, RegisterAll(g, rt, mappings, states, regs[..k]), regs[k].iface, Resolve(regs[k].concreteClass), None)
  {
    assert regs[..k + 1][..k] == regs[..k];
  }

  /** The final loop: one SetResolver<Interface, Concrete>() per registrable entry, stopped
      by the first class that is a value type, the registrations before it kept. */
  method RegisterMappings(injector: Injector, items: seq<MapItem>) returns (err: Option<Error>)
    requires injector.Valid()
    modifies injector
    ensures injector.Valid()
    ensures injector.openTypeResolvers == old(injector.openTypeResolvers)
    ensures var regs := Registrations(items);
            injector.states == RegisterAll(injector.generation, injector.runtime, injector.openTypeResolvers, old(injector.states),
                                           regs[..FirstRejected(regs)])
    ensures var regs := Registrations(items);
            err.None? <==> FirstRejected(regs) == |regs|
    ensures var regs := Registrations(items);
            err.Some? ==> FirstRejected(regs) < |regs| && err == Some(ConstraintViolation(regs[FirstRejected(regs)].concreteClass))
  {
    ghost var before := injector.states;
    var regs := Registrations(items);
    for k := 0 to |regs|
      invariant injector.Valid()
      invariant injector.openTypeResolvers == old(injector.openTypeResolvers)
      invariant k <= FirstRejected(regs)
      invariant injector.states == RegisterAll(injector.generation, injector.runtime, injector.openTypeResolvers, before, regs[..k])
    {
      if regs[k].concreteClass.isValueType {
        assert FirstRejected(regs) == k;
        return Some(ConstraintViolation(regs[k].concreteClass));
      }
      RegisterAllStep(injector.generation, injector.runtime, injector.openTypeResolvers, before, regs, k);
      injector.SetResolver(regs[k].iface, Resolve(regs[k].concreteClass), None);
    }
    assert regs[..|regs|] == regs;
    err := None;
  }

  /** RegisterAllTypesAsImplementedInterfaces: scan, register, and hand back the assembly;
      a value-type class stops the registration with the constraint error. */
  method RegisterAllTypesAsImplementedInterfaces(injector: Injector, assembly: seq<Type>) returns (result: Result<seq<Type>, Error>)
    requires injector.Valid()
    modifies injector
    ensures injector.Valid()
    ensures injector.openTypeResolvers == old(injector.openTypeResolvers)
    ensures injector.states == RegisterAll(injector.generation, injector.runtime, injector.openTypeResolvers, old(injector.states),
                                           Applied(assembly))
    ensures var regs := Registrations(FinalMap(ScannedPairs(assembly)));
            result.Success? <==> FirstRejected(regs) == |regs|
    ensures result.Success? ==> result.value == assembly
    ensures var regs := Registrations(FinalMap(ScannedPairs(assembly)));
            result.Failure? ==> FirstRejected(regs) < |regs| && result.error == ConstraintViolation(regs[FirstRejected(regs)].concreteClass)
  {
    var items := ScanAssembly(assembly);
    var err := RegisterMappings(injector, items);
    if err.Some? {
      return Failure(err.value);
    }
    result := Success(assembly);
  }
}
