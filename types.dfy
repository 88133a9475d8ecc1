/**
 * Runtime type descriptors: the part of .NET reflection that the resolution
 * engine reads. A type is a finite tree (its generic arguments, its base type
 * and its interfaces are smaller values), so every chain of base types ends.
 */
module Types {
  import opened Wrappers

  /** A public or non-public constructor, with its parameter types and the markers on it. */
  datatype Ctor = Ctor(parameters: seq<Type>, isPublic: bool, injectHere: bool, ignored: bool)

  /** A member as returned by GetMembers / GetProperties / GetMethods. */
  datatype Member =
    | Method(methodName: string, parameters: seq<Type>, isPublic: bool, injectHere: bool)
    | Property(propertyName: string, propertyType: Type, isPublic: bool, injectHere: bool)
    | OtherMember(memberName: string)   // fields, events, nested types, constructors

  /**
   * `name` is Type.Name (a generic keeps its arity suffix: "List`1");
   * `definition` identifies the generic type definition the type was made from
   * (equal for IEnumerable<> and every IEnumerable<X>); `interfaces` is
   * Type.GetInterfaces, the full list of implemented interfaces, inherited ones
   * included (Assignable also follows each interface's own list, which adds
   * nothing for a descriptor built from GetInterfaces); `ignored` is the
   * IgnoreDuringRegistration marker.
   */
  datatype Type = Type(
    name: string,
    definition: string,
    isGeneric: bool,
    isDefinition: bool,
    isGenericParameter: bool,
    args: seq<Type>,
    baseType: Option<Type>,
    interfaces: seq<Type>,
    isInterface: bool,
    isAbstract: bool,
    isValueType: bool,
    ignored: bool,
    constructors: seq<Ctor>,
    members: seq<Member>)

  /** System.Object: the root of every class chain; it has no base type. */
  const Object: Type := Type("Object", "System.Object", false, false, false, [], None, [],
                             false, false, false, false, [Ctor([], true, false, false)], [])

  /** The message of the NullReferenceException the runtime raises on a null dereference. */
  const ErrorNullReference := "Object reference not set to an instance of an object."

  /** System.IDisposable. */
  const IDisposable: Type := Type("IDisposable", "System.IDisposable", false, false, false, [], None, [],
                                  true, true, false, false, [], [])

  /** Type.IsAssignableFrom: `b` is `d`, an ancestor of `d` on its base chain, one of its
      interfaces (transitively), or Object. Generic variance is not part of the model. */
  predicate Assignable(b: Type, d: Type)
    decreases d
  {
    || b == d
    || b == Object
    || (d.baseType.Some? && Assignable(b, d.baseType.value))
    || (exists i :: 0 <= i < |d.interfaces| && Assignable(b, d.interfaces[i]))
  }

  /** `b` is a strict ancestor of `d` on its base-type chain. */
  predicate OnBaseChain(d: Type, b: Type)
    decreases d
  {
    d.baseType.Some? && (d.baseType.value == b || OnBaseChain(d.baseType.value, b))
  }

  /** Type.IsSubclassOf: a strict ancestor on the base-type chain; the runtime also counts
      every type other than Object as a subclass of Object, interfaces included, although an
      interface has no base type. */
  predicate IsSubclassOf(d: Type, b: Type)
  {
    OnBaseChain(d, b) || (b == Object && d != Object)
  }

  /** Every type but Object is a subclass of Object; below another type, being a subclass
      means having it on the base-type chain. */
  lemma SubclassOfObject(d: Type, b: Type)
    ensures IsSubclassOf(d, Object) <==> d != Object
    ensures b != Object ==> (IsSubclassOf(d, b) <==> OnBaseChain(d, b))
  {
    if d == Object {
      assert !OnBaseChain(d, Object);
    }
  }

  /** Number of BaseType steps from `d` up to its strict ancestor `b`. */
  function Hops(d: Type, b: Type): (n: nat)
    requires OnBaseChain(d, b)
    ensures n >= 1
    decreases d
  {
    if d.baseType.value == b then 1 else 1 + Hops(d.baseType.value, b)
  }

  /** Type.ContainsGenericParameters. */
  predicate ContainsGenericParameters(t: Type)
    decreases t
  {
    t.isGenericParameter || exists i :: 0 <= i < |t.args| && ContainsGenericParameters(t.args[i])
  }

  /** `closed.GetGenericTypeDefinition() == open`: both generic, `open` is a definition and
      `closed` was made from it. */
  predicate DefinitionIs(closed: Type, open: Type)
  {
    closed.isGeneric && open.isGeneric && open.isDefinition && closed.definition == open.definition
  }

  /** The reflection runtime: `close(open, args)` is Type.MakeGenericType. */
  datatype Runtime = Runtime(close: (Type, seq<Type>) -> Type)

  lemma {:induction false} SubclassIsAssignable(d: Type, b: Type)
    requires IsSubclassOf(d, b)
    ensures Assignable(b, d)
    decreases d
  {
    if b != Object && d.baseType.value != b {
      assert OnBaseChain(d.baseType.value, b);
      SubclassIsAssignable(d.baseType.value, b);
    }
  }

  /** Length of the base-type chain above `t`. */
  function Depth(t: Type): nat
    decreases t
  {
    if t.baseType.None? then 0 else 1 + Depth(t.baseType.value)
  }

  /** A strict ancestor sits higher in the chain, so no type is its own ancestor. */
  lemma {:induction false} SubclassDepth(d: Type, b: Type)
    requires OnBaseChain(d, b)
    ensures Depth(b) < Depth(d) && b != d
    decreases d
  {
    if d.baseType.value != b {
      SubclassDepth(d.baseType.value, b);
    }
  }
}
