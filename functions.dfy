/**
 * Type names and errors shared by the engine: FancyTypeName in its two
 * renderings, the error value raised in place of an exception, the error
 * message templates, and the null guard.
 */
module Functions {
  import opened Wrappers
  import opened Types
  import opened Strings

  /** The names of a type's generic arguments, in order, each rendered by the
      FancyTypeName of its generation. */
  function ArgNames(t: Type, legacy: bool): (r: seq<string>)
    ensures |r| == |t.args|
    ensures forall i :: 0 <= i < |t.args| ==> r[i] == if legacy then LegacyFancyTypeName(t.args[i]) else FancyTypeName(t.args[i])
    decreases t, 0
  {
    seq(|t.args|, i requires 0 <= i < |t.args| => if legacy then LegacyFancyTypeName(t.args[i]) else FancyTypeName(t.args[i]))
  }

  /**
   * Functions.FancyTypeName: a non-generic type is shown by its Name, untouched;
   * a generic one by the Name up to its backtick followed by its arguments'
   * fancy names in angle brackets, separated by commas.
   */
  function FancyTypeName(t: Type): (r: string)
    ensures !t.isGeneric ==> r == t.name
    ensures t.isGeneric ==> |r| >= |BeforeTick(t.name)| + 2 && r[|r| - 1] == '>' && r[|BeforeTick(t.name)|] == '<'
    ensures t.isGeneric ==> r[..|BeforeTick(t.name)|] == BeforeTick(t.name) && '`' !in r[..|BeforeTick(t.name)|]
    ensures t.isGeneric ==> r[|BeforeTick(t.name)| + 1..|r| - 1] == Join(ArgNames(t, false))
    decreases t, 1
  {
    if t.isGeneric then BeforeTick(t.name) + "<" + Join(ArgNames(t, false)) + ">" else t.name
  }

  /**
   * The older FancyTypeName (Injector.cs, and the private copy in the
   * connection-scoped lifetime manager): the Name is always cut at its first
   * backtick, and "<args>" is appended for generic types only.
   */
  function LegacyFancyTypeName(t: Type): (r: string)
    ensures !t.isGeneric ==> r == BeforeTick(t.name) && '`' !in r
    ensures t.isGeneric ==> |r| >= |BeforeTick(t.name)| + 2 && r[|r| - 1] == '>'
    ensures t.isGeneric ==> r[|BeforeTick(t.name)|] == '<'
    ensures t.isGeneric ==> r[|BeforeTick(t.name)| + 1..|r| - 1] == Join(ArgNames(t, true))
    ensures r[..|BeforeTick(t.name)|] == BeforeTick(t.name)
    decreases t, 1
  {
    if t.isGeneric then BeforeTick(t.name) + "<" + Join(ArgNames(t, true)) + ">" else BeforeTick(t.name)
  }

  /**
   * The text between the angle brackets gives back the argument names, in
   * order, when split at its commas, provided no argument name holds a comma
   * itself (a generic argument with two or more arguments of its own does).
   */
  lemma FancyTypeNameArguments(t: Type, legacy: bool)
    requires t.isGeneric && |t.args| >= 1
    requires forall i :: 0 <= i < |t.args| ==> ',' !in ArgNames(t, legacy)[i]
    ensures Split(Inside(t, if legacy then LegacyFancyTypeName(t) else FancyTypeName(t))) == ArgNames(t, legacy)
  {
    SplitJoin(ArgNames(t, legacy));
    if legacy {
      InsideLegacy(t);
    } else {
      InsideFancy(t);
    }
  }

  lemma InsideFancy(t: Type)
    requires t.isGeneric
    ensures Inside(t, FancyTypeName(t)) == Join(ArgNames(t, false))
  {
  }

  lemma InsideLegacy(t: Type)
    requires t.isGeneric
    ensures Inside(t, LegacyFancyTypeName(t)) == Join(ArgNames(t, true))
  {
  }

  /** The text of a generic type's rendering between its '<' and its final '>'. */
  function Inside(t: Type, r: string): string
  {
    if |BeforeTick(t.name)| + 1 <= |r| - 1 then r[|BeforeTick(t.name)| + 1..|r| - 1] else []
  }

  /** No non-generic type inside `t` has a backtick in its Name. */
  predicate PlainNames(t: Type)
    decreases t
  {
    (!t.isGeneric ==> '`' !in t.name) && forall i :: 0 <= i < |t.args| ==> PlainNames(t.args[i])
  }

  /** The two renderings differ only on a non-generic Name that contains a backtick. */
  lemma {:induction false} FancyTypeNamesAgree(t: Type)
    requires PlainNames(t)
    ensures FancyTypeName(t) == LegacyFancyTypeName(t)
    decreases t
  {
    if t.isGeneric {
      forall i | 0 <= i < |t.args|
        ensures ArgNames(t, false)[i] == ArgNames(t, true)[i]
      {
        FancyTypeNamesAgree(t.args[i]);
      }
      assert ArgNames(t, false) == ArgNames(t, true);
      Bracketed(BeforeTick(t.name), Join(ArgNames(t, true)));
    } else {
      BeforeTickNoTick(t.name);
    }
  }

  lemma Bracketed(name: string, inner: string)
    ensures name + "<" + inner + ">" == name + ("<" + inner + ">")
  {
  }

  /** A Name without a backtick is left whole by Split('`')[0]. */
  lemma {:induction false} BeforeTickNoTick(s: string)
    requires '`' !in s
    ensures BeforeTick(s) == s
  {
    if s != [] {
      BeforeTickNoTick(s[1..]);
      assert [s[0]] + s[1..] == s;
    }
  }

  /** A non-generic Name with a backtick is where the renderings part. */
  lemma FancyTypeNamesDiffer(t: Type)
    requires !t.isGeneric && '`' in t.name
    ensures FancyTypeName(t) != LegacyFancyTypeName(t)
  {
    assert '`' in FancyTypeName(t);
  }

  /** An exception: its message and the exception it wraps. */
  datatype Error = Error(message: string, inner: Option<Error>)

  /** Functions.CreateExceptionInternal(message, innerException). */
  function CreateExceptionInternal(message: string, inner: Option<Error>): (e: Error)
    ensures e.message == message && e.inner == inner
  {
    Error(message, inner)
  }

  /** Functions.CreateExceptionInternal(exception): the same message, wrapping the exception. */
  function WrapException(exception: Error): (e: Error)
    ensures e.message == exception.message && e.inner == Some(exception)
  {
    CreateExceptionInternal(exception.message, Some(exception))
  }

  /** The ArgumentNullException for `argumentName` (its framework text is approximated). */
  function ArgumentNullException(argumentName: string): (e: Error)
    ensures Contains(e.message, argumentName)
  {
    var prefix := "Value cannot be null. Parameter name: ";
    assert (prefix + argumentName)[|prefix|..|prefix| + |argumentName|] == argumentName;
    assert OccursAt(prefix + argumentName, argumentName, |prefix|);
    Error(prefix + argumentName, None)
  }

  /** Functions.ArgumentNullGuard: the argument itself when present, a wrapped ArgumentNullException otherwise. */
  function ArgumentNullGuard<T>(argumentValue: Option<T>, argumentName: string): (r: Result<T, Error>)
    ensures argumentValue.Some? <==> r.Success?
    ensures r.Success? ==> r.value == argumentValue.value
    ensures r.Failure? ==> r.error.inner == Some(ArgumentNullException(argumentName))
                           && r.error.message == ArgumentNullException(argumentName).message
  {
    match argumentValue
    case Some(v) => Success(v)
    case None => Failure(WrapException(ArgumentNullException(argumentName)))
  }

  /** Message templates (Injector.cs and ErrorConstants.cs). */
  const ErrorUnableToResolveInterface := "Error on " + "{0}" + ". Unable to resolve Interface and Abstract classes without a configuration."
  const LegacyErrorMissingConstructor := "Error on " + "{0}" + ".  Unable to locate a suitable constructor.  To use a private constructor, locate with Reflection and pass the 'ConstructorInfo' object to SetResolver<{0}>(constructorInfo)"
  const ErrorMissingConstructor := "Error on " + "{0}" + ".  Unable to locate a suitable constructor."

  /** Every message template names the type it is filled with. */
  lemma TemplatesHavePlaceholder()
    ensures Contains(ErrorUnableToResolveInterface, "{0}")
    ensures Contains(LegacyErrorMissingConstructor, "{0}")
    ensures Contains(ErrorMissingConstructor, "{0}")
  {
    PlaceholderAfter("Error on ", ". Unable to resolve Interface and Abstract classes without a configuration.");
    PlaceholderAfter("Error on ", ".  Unable to locate a suitable constructor.  To use a private constructor, locate with Reflection and pass the 'ConstructorInfo' object to SetResolver<{0}>(constructorInfo)");
    PlaceholderAfter("Error on ", ".  Unable to locate a suitable constructor.");
  }

  lemma PlaceholderAfter(before: string, after: string)
    ensures Contains(before + "{0}" + after, "{0}")
  {
    assert (before + "{0}" + after)[|before|..|before| + 3] == "{0}";
    assert OccursAt(before + "{0}" + after, "{0}", |before|);
  }
}
