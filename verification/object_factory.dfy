/** The object factory (iop.runtime.ObjectFactoryImpl): creating proxies,
    casting an object to another interface by wrapping it, and the
    wrapping-aware instance test. */
module ObjectFactory {
  import opened Results
  import opened Hierarchy

  /** The invocation handler behind a proxy. WrappedObjectInvocationHandler
      is an ObjectInvocationHandler that holds the wrapped instance. */
  datatype Handler =
    | ObjectHandler
    | WrappedHandler(wrapped: Obj)
    | ReferenceHandler(referenced: Obj)
    | OtherHandler

  /** A Java reference: null, an ordinary object of some class, or a dynamic
      proxy implementing one interface. */
  datatype Obj = Null | Plain(cls: TypeId) | Proxy(iface: TypeId, handler: Handler)

  /** Every class an object mentions, wrapped objects included, is known. */
  predicate ObjOk(g: Hierarchy, o: Obj) {
    match o
    case Null => true
    case Plain(c) => c < |g.types|
    case Proxy(i, h) =>
      i < |g.types| &&
      match h
      case WrappedHandler(w) => ObjOk(g, w)
      case ReferenceHandler(p) => ObjOk(g, p)
      case _ => true
  }

  /** `t.isInstance(o)`: null is an instance of nothing; a proxy is an
      instance of the supertypes of its interface. */
  predicate DirectInstance(g: Hierarchy, t: TypeId, o: Obj)
    requires WF(g) && ObjOk(g, o)
  {
    match o
    case Null => false
    case Plain(c) => SubtypeOf(g, c, t)
    case Proxy(i, _) => SubtypeOf(g, i, t)
  }

  /** The object a wrapping proxy wraps, if `o` is one. */
  function Unwrapped(o: Obj): Option<Obj> {
    if o.Proxy? && o.handler.WrappedHandler? then Some(o.handler.wrapped) else None
  }

  /** isInstance(type, object): a direct instance, or a wrapping proxy whose
      wrapped instance passes the same test. */
  predicate IsInstance(g: Hierarchy, t: TypeId, o: Obj)
    requires WF(g) && ObjOk(g, o)
  {
    DirectInstance(g, t, o) || (Unwrapped(o).Some? && IsInstance(g, t, Unwrapped(o).value))
  }

  /** The object, the object it wraps, the object that one wraps, and so on. */
  function WrapChain(o: Obj): (r: seq<Obj>)
    ensures |r| > 0 && r[0] == o
  {
    match Unwrapped(o)
    case None => [o]
    case Some(w) => [o] + WrapChain(w)
  }

  lemma {:induction false} WrapChainOk(g: Hierarchy, o: Obj)
    requires ObjOk(g, o)
    ensures forall k :: 0 <= k < |WrapChain(o)| ==> ObjOk(g, WrapChain(o)[k])
  {
    match Unwrapped(o)
    case None =>
    case Some(w) =>
      WrapChainOk(g, w);
      assert forall k :: 1 <= k < |WrapChain(o)| ==> WrapChain(o)[k] == WrapChain(w)[k - 1];
  }

  /** isInstance holds exactly when some object of the wrapping chain is a
      direct instance. */
  lemma {:induction false} IsInstanceSearchesWrapChain(g: Hierarchy, t: TypeId, o: Obj)
    requires WF(g) && ObjOk(g, o)
    ensures forall k :: 0 <= k < |WrapChain(o)| ==> ObjOk(g, WrapChain(o)[k])
    ensures IsInstance(g, t, o) <==> exists k :: 0 <= k < |WrapChain(o)| && DirectInstance(g, t, WrapChain(o)[k])
  {
    WrapChainOk(g, o);
    match Unwrapped(o)
    case None =>
      assert WrapChain(o) == [o];
    case Some(w) =>
      IsInstanceSearchesWrapChain(g, t, w);
      var c := WrapChain(o);
      assert forall k :: 1 <= k < |c| ==> c[k] == WrapChain(w)[k - 1];
      if exists k :: 0 <= k < |c| && DirectInstance(g, t, c[k]) {
        var k :| 0 <= k < |c| && DirectInstance(g, t, c[k]);
        if k > 0 {
          assert DirectInstance(g, t, WrapChain(w)[k - 1]);
        }
      }
      if IsInstance(g, t, w) {
        var k :| 0 <= k < |WrapChain(w)| && DirectInstance(g, t, WrapChain(w)[k]);
        assert c[k + 1] == WrapChain(w)[k];
      }
  }

  /** Why creating a proxy failed; the factory rethrows it wrapped in an
      ObjectInstantiationException. */
  datatype Cause = ContextFailure(reason: string) | NotAnInterface

  datatype FactoryError = ObjectInstantiation(cause: Cause)

  /** newInstance(type): a proxy for the type with a fresh object handler.
      Building the object context can fail (an input here), and
      Proxy.newProxyInstance rejects a type that is not an interface. */
  function NewInstance(g: Hierarchy, t: TypeId, context: Option<string>): (r: Result<Obj, FactoryError>)
    requires WF(g) && t < |g.types|
    ensures r.Ok? <==> context.None? && g.types[t].isInterface
    ensures r.Ok? ==> r.value == Proxy(t, ObjectHandler)
    ensures context.Some? ==> r == Err(ObjectInstantiation(ContextFailure(context.value)))
  {
    match context
    case Some(reason) => Err(ObjectInstantiation(ContextFailure(reason)))
    case None =>
      if g.types[t].isInterface then Ok(Proxy(t, ObjectHandler)) else Err(ObjectInstantiation(NotAnInterface))
  }

  /** The object cast wraps: the wrapped instance of a wrapping proxy when
      that instance is already of the target type, else the object itself. */
  function CastTarget(g: Hierarchy, t: TypeId, o: Obj): (w: Obj)
    requires WF(g) && ObjOk(g, o)
    ensures ObjOk(g, w)
    ensures w == o || (Unwrapped(o) == Some(w) && DirectInstance(g, t, w))
    ensures Unwrapped(o).Some? && DirectInstance(g, t, Unwrapped(o).value) ==> w == Unwrapped(o).value
  {
    match Unwrapped(o)
    case Some(inner) => if DirectInstance(g, t, inner) then inner else o
    case None => o
  }

  /** cast(type, object): a new wrapping proxy for the type around the cast
      target. */
  function Cast(g: Hierarchy, t: TypeId, o: Obj, context: Option<string>): (r: Result<Obj, FactoryError>)
    requires WF(g) && t < |g.types| && ObjOk(g, o)
    ensures r.Ok? <==> context.None? && g.types[t].isInterface
    ensures r.Ok? ==> r.value == Proxy(t, WrappedHandler(CastTarget(g, t, o))) && ObjOk(g, r.value)
    ensures context.Some? ==> r == Err(ObjectInstantiation(ContextFailure(context.value)))
  {
    var w := CastTarget(g, t, o);
    match context
    case Some(reason) => Err(ObjectInstantiation(ContextFailure(reason)))
    case None =>
      if g.types[t].isInterface then Ok(Proxy(t, WrappedHandler(w))) else Err(ObjectInstantiation(NotAnInterface))
  }

  /** A cast result is an instance of exactly the supertypes of the target
      type and whatever the cast target is an instance of; at most one level
      of wrapping is removed. */
  lemma CastInstances(g: Hierarchy, t: TypeId, o: Obj, u: TypeId)
    requires WF(g) && t < |g.types| && ObjOk(g, o)
    requires Cast(g, t, o, None).Ok?
    ensures IsInstance(g, t, Cast(g, t, o, None).value)
    ensures IsInstance(g, u, Cast(g, t, o, None).value) <==> SubtypeOf(g, t, u) || IsInstance(g, u, CastTarget(g, t, o))
    ensures WrapChain(Cast(g, t, o, None).value)[1..] == WrapChain(CastTarget(g, t, o))
    ensures |WrapChain(o)| <= |WrapChain(Cast(g, t, o, None).value)| <= |WrapChain(o)| + 1
  {
    assert SubtypeOf(g, t, t);
  }

  /** Casting a cast result to the same type again gives the same proxy
      exactly when the first cast wrapped a direct instance of the type. */
  lemma CastStable(g: Hierarchy, t: TypeId, o: Obj)
    requires WF(g) && t < |g.types| && ObjOk(g, o)
    requires Cast(g, t, o, None).Ok?
    ensures Cast(g, t, Cast(g, t, o, None).value, None) == Cast(g, t, o, None)
            <==> DirectInstance(g, t, CastTarget(g, t, o))
  {
  }

  datatype ThatError = NullProxy | NotAProxy

  /** getThat(proxy): the proxy a reference handler points to, the proxy
      itself for an object handler (wrapping handlers included), null for
      any other handler. Proxy.getInvocationHandler throws on null and on an
      object that is not a proxy. */
  function GetThat(o: Obj): (r: Result<Obj, ThatError>)
    ensures o.Null? ==> r == Err(NullProxy)
    ensures o.Plain? ==> r == Err(NotAProxy)
    ensures o.Proxy? ==> r.Ok? && r.value == match o.handler
      case ReferenceHandler(p) => p
      case ObjectHandler => o
      case WrappedHandler(_) => o
      case OtherHandler => Null
  {
    match o
    case Null => Err(NullProxy)
    case Plain(_) => Err(NotAProxy)
    case Proxy(_, h) =>
      match h
      case ReferenceHandler(p) => Ok(p)
      case ObjectHandler => Ok(o)
      case WrappedHandler(_) => Ok(o)
      case OtherHandler => Ok(Null)
  }

  /** The factory's own proxies answer getThat with themselves. */
  lemma GetThatOfFactoryProxies(g: Hierarchy, t: TypeId, o: Obj)
    requires WF(g) && t < |g.types| && ObjOk(g, o)
    ensures NewInstance(g, t, None).Ok? ==> GetThat(NewInstance(g, t, None).value) == Ok(NewInstance(g, t, None).value)
    ensures Cast(g, t, o, None).Ok? ==> GetThat(Cast(g, t, o, None).value) == Ok(Cast(g, t, o, None).value)
  {
  }
}
