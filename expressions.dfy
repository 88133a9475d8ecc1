/**
 * Expression trees and ReplaceVisitor: substitution of one node (compared by
 * identity) by another, used to bind an initializer's parameter to the
 * freshly constructed object.
 */
module Expressions {
  import opened Wrappers
  import opened Functions

  /** A node of an expression tree: `id` stands for its reference identity,
      `nodeClass` for its runtime class (ParameterExpression, MethodCallExpression, …). */
  datatype Expr = Node(id: nat, nodeClass: string, children: seq<Expr>)

  /** A lambda expression: its parameters and its body. */
  datatype Lambda = Lambda(parameters: seq<Expr>, body: Expr)

  /** `x` occurs somewhere in `e`. */
  predicate Occurs(x: Expr, e: Expr)
    decreases e
  {
    e == x || exists i :: 0 <= i < |e.children| && Occurs(x, e.children[i])
  }

  /** ReplaceVisitor.Visit: a node that is the original becomes the replacement, whose own
      subtree is not visited; any other node is rebuilt from its visited children. A rebuilt
      node keeps the `id` of the node it was built from. ExpressionVisitor allocates a new
      node for every ancestor of a replaced node, so on such an ancestor `id` only records
      where the node came from; it is not a reference identity the rebuilt tree shares with
      the old one. A node with no replaced descendant is given back as it was
      (ReplaceAbsent), as ExpressionVisitor does. */
  function Replace(e: Expr, original: Expr, replacement: Expr): (r: Expr)
    ensures e == original ==> r == replacement
    ensures e != original ==> r.id == e.id && r.nodeClass == e.nodeClass && |r.children| == |e.children|
    decreases e
  {
    if e == original then replacement
    else Node(e.id, e.nodeClass, seq(|e.children|, i requires 0 <= i < |e.children| => Replace(e.children[i], original, replacement)))
  }

  /** Where the original does not occur, the visitor gives back the same tree. */
  lemma {:induction false} ReplaceAbsent(e: Expr, original: Expr, replacement: Expr)
    requires !Occurs(original, e)
    ensures Replace(e, original, replacement) == e
    decreases e
  {
    forall i | 0 <= i < |e.children|
      ensures Replace(e.children[i], original, replacement) == e.children[i]
    {
      ReplaceAbsent(e.children[i], original, replacement);
    }
    assert Replace(e, original, replacement).children == e.children;
  }

  /** No node of `e` other than `x` itself carries `x`'s identity. */
  predicate IdentityOf(x: Expr, e: Expr)
    decreases e
  {
    (e.id == x.id ==> e == x) && forall i :: 0 <= i < |e.children| ==> IdentityOf(x, e.children[i])
  }

  /** Every occurrence is replaced: unless the replacement itself holds the original, it is gone. */
  lemma {:induction false} ReplaceRemovesAll(e: Expr, original: Expr, replacement: Expr)
    requires !Occurs(original, replacement)
    requires IdentityOf(original, e)
    ensures !Occurs(original, Replace(e, original, replacement))
    decreases e
  {
    if e != original {
      var r := Replace(e, original, replacement);
      forall i | 0 <= i < |r.children|
        ensures !Occurs(original, r.children[i])
      {
        ReplaceRemovesAll(e.children[i], original, replacement);
      }
      assert r.id == e.id;
    }
  }

  /** The parameters of `ps` whose class is `nodeClass`. */
  function OfClass(ps: seq<Expr>, nodeClass: string): (r: seq<Expr>)
    ensures forall x :: x in r <==> x in ps && x.nodeClass == nodeClass
  {
    if ps == [] then [] else (if ps[0].nodeClass == nodeClass then [ps[0]] else []) + OfClass(ps[1..], nodeClass)
  }

  /** Visiting a lambda visits its parameters and its body. */
  function ReplaceInLambda(l: Lambda, original: Expr, replacement: Expr): (r: Lambda)
    ensures |r.parameters| == |l.parameters|
  {
    Lambda(seq(|l.parameters|, i requires 0 <= i < |l.parameters| => Replace(l.parameters[i], original, replacement)),
           Replace(l.body, original, replacement))
  }

  /**
   * Functions.ReplaceParameterWith: the one parameter whose class is the
   * replacement's is replaced throughout the lambda; when there is no such
   * parameter, or more than one, Single() throws.
   */
  function ReplaceParameterWith(l: Lambda, replacement: Expr): (r: Result<Lambda, Error>)
    ensures r.Success? <==> |OfClass(l.parameters, replacement.nodeClass)| == 1
    ensures r.Success? ==> exists p :: p in l.parameters && p.nodeClass == replacement.nodeClass
                                   && r.value == ReplaceInLambda(l, p, replacement)
  {
    var candidates := OfClass(l.parameters, replacement.nodeClass);
    if |candidates| == 1 then
      assert candidates[0] in candidates;
      Success(ReplaceInLambda(l, candidates[0], replacement))
    else
      Failure(Error("Sequence contains no matching element or more than one matching element", None))
  }

  /** After a successful ReplaceParameterWith the chosen parameter is gone from the body. */
  lemma ReplaceParameterWithRemovesParameter(l: Lambda, replacement: Expr, p: Expr)
    requires OfClass(l.parameters, replacement.nodeClass) == [p]
    requires !Occurs(p, replacement)
    requires IdentityOf(p, l.body)
    ensures ReplaceParameterWith(l, replacement).Success?
    ensures !Occurs(p, ReplaceParameterWith(l, replacement).value.body)
  {
    ReplaceRemovesAll(l.body, p, replacement);
  }
}
