/** The test modifier org.qi4j.test.model2.FooModifier: before passing a call
    on, it appends the value of the method's FooAnnotation to the first
    argument. */
module FooModifier {
  import opened Results

  type ProxyId = nat
  type MethodId = nat

  /** An argument: null, a string, or another object with its toString(). */
  datatype Value = Null | Str(s: string) | Other(repr: string)

  /** What string concatenation makes of a value: "null" for null. */
  function StringOf(v: Value): string {
    match v
    case Null => "null"
    case Str(s) => s
    case Other(repr) => repr
  }

  datatype InvokeError =
    | NullArguments
    | ArrayIndexOutOfBounds
    | MissingAnnotation
    | Thrown(reason: string)

  /** A call passed on to the next handler. */
  datatype Call = Call(proxy: ProxyId, target: MethodId, args: seq<Value>)

  /** The calls made, what invoke returned or threw, and the caller's
      argument array afterwards: the rewrite of args[0] is made in the
      caller's own array, so the caller sees it whatever next does. */
  datatype Invocation = Invocation(calls: seq<Call>, result: Result<Value, InvokeError>, callerArgs: Option<seq<Value>>)

  /** The in-place update of args[0]; `annotation` is the value of the
      FooAnnotation on the modified method, if it carries one. */
  function RewriteArguments(args: Option<seq<Value>>, annotation: Option<string>): (r: Result<seq<Value>, InvokeError>)
    ensures args.None? ==> r == Err(NullArguments)
    ensures args.Some? && |args.value| == 0 ==> r == Err(ArrayIndexOutOfBounds)
    ensures args.Some? && |args.value| > 0 && annotation.None? ==> r == Err(MissingAnnotation)
    ensures r.Ok? ==>
      && args.Some? && annotation.Some?
      && |r.value| == |args.value| > 0
      && r.value[0] == Str(StringOf(args.value[0]) + annotation.value)
      && r.value[1..] == args.value[1..]
  {
    match args
    case None => Err(NullArguments)
    case Some(a) =>
      if |a| == 0 then Err(ArrayIndexOutOfBounds)
      else match annotation
        case None => Err(MissingAnnotation)
        case Some(value) => Ok(a[0 := Str(StringOf(a[0]) + value)])
  }

  /** invoke(proxy, method, args): rewrite the first argument, then call the
      next handler once with the same proxy and method and return whatever
      it returns or throws. */
  function Invoke(next: Call -> Result<Value, InvokeError>, proxy: ProxyId, target: MethodId,
                  args: Option<seq<Value>>, annotation: Option<string>): (r: Invocation)
    ensures RewriteArguments(args, annotation).Err? ==>
      r.calls == [] && r.result == Err(RewriteArguments(args, annotation).error) && r.callerArgs == args
    ensures RewriteArguments(args, annotation).Ok? ==>
      && |r.calls| == 1
      && r.calls[0].proxy == proxy && r.calls[0].target == target
      && r.calls[0].args == RewriteArguments(args, annotation).value
      && r.result == next(r.calls[0])
      && r.callerArgs == Some(RewriteArguments(args, annotation).value)
  {
    match RewriteArguments(args, annotation)
    case Err(e) => Invocation([], Err(e), args)
    case Ok(rewritten) =>
      var call := Call(proxy, target, rewritten);
      Invocation([call], next(call), Some(rewritten))
  }

  /** @AppliesTo(FooAnnotation.class): the modifier applies to a method
      exactly when it carries the annotation. */
  predicate AppliesTo(annotation: Option<string>) {
    annotation.Some?
  }

  /** On a method the modifier applies to, with at least one argument,
      invoke fails only when the next handler does, and then with the same
      exception; whether or not it fails, the caller's array now holds the
      rewritten first argument and its other arguments untouched. */
  lemma InvokeFailsOnlyThroughNext(next: Call -> Result<Value, InvokeError>, proxy: ProxyId, target: MethodId,
                                   args: seq<Value>, annotation: Option<string>)
    requires AppliesTo(annotation) && |args| > 0
    ensures var r := Invoke(next, proxy, target, Some(args), annotation);
      && |r.calls| == 1
      && r.calls[0].args[0] == Str(StringOf(args[0]) + annotation.value)
      && (forall k :: 1 <= k < |args| ==> r.calls[0].args[k] == args[k])
      && r.result == next(r.calls[0])
      && r.callerArgs == Some(r.calls[0].args) && |r.calls[0].args| == |args|
  {
    var r := RewriteArguments(Some(args), annotation);
    assert forall k :: 1 <= k < |args| ==> r.value[k] == r.value[1..][k - 1];
  }
}
