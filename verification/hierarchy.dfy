/** The Java type hierarchy the runtime reads by reflection, as explicit data.

    Types are numbered so that every super-interface and every superclass of a
    type has a larger number than the type itself. Any acyclic hierarchy can be
    numbered this way, and the walks below terminate because they move to
    larger numbers. */
module Hierarchy {
  import opened Results
  import opened Seqs

  type TypeId = nat
  type MemberId = nat

  /** A `java.lang.reflect.Type`: a plain class or interface, or a
      parameterized type such as `Association<Foo>`. */
  datatype JType = Cls(id: TypeId) | Param(raw: TypeId, args: seq<JType>)

  /** The class a type stands for: itself, or the raw type of a
      parameterized type. */
  function IdOf(ty: JType): TypeId {
    match ty
    case Cls(id) => id
    case Param(raw, _) => raw
  }

  /** The class-level annotations the runtime looks up. */
  datatype Annotation = Mixins | Assertions | SideEffects | Constraints | ModifiedBy

  /** The kinds of declared members `ClassUtil` collects. */
  datatype MemberKind = Methods | Fields | Constructors

  datatype TypeDecl = TypeDecl(
    name: string,
    isInterface: bool,
    /** getGenericInterfaces(), in declaration order */
    superInterfaces: seq<JType>,
    /** getSuperclass(); absent for interfaces and for Object */
    superclass: Option<TypeId>,
    /** annotation type -> its value() list; a missing key is an absent annotation */
    annotations: map<Annotation, seq<TypeId>>,
    declaredMethods: seq<MemberId>,
    declaredFields: seq<MemberId>,
    declaredConstructors: seq<MemberId>,
    /** getMethods() */
    publicMethods: seq<MemberId>,
    /** the composite methods a fragment class reaches through "this-as" injection */
    thisAsMethods: seq<MemberId>)

  /** All types known to the runtime, plus the few classes it names directly. */
  datatype Hierarchy = Hierarchy(
    types: seq<TypeDecl>,
    objectClass: TypeId,
    composite: TypeId,
    entityComposite: TypeId,
    entity: TypeId,
    compositeMixin: TypeId,
    entityImpl: TypeId,
    abstractAssociation: TypeId)

  predicate JTypeOk(g: Hierarchy, ty: JType) {
    match ty
    case Cls(id) => id < |g.types|
    case Param(raw, args) => raw < |g.types| && |args| > 0
  }

  /** The facts the JVM guarantees about one loaded type. */
  predicate NodeOk(g: Hierarchy, i: nat)
    requires i < |g.types|
  {
    var d := g.types[i];
    && (forall k :: 0 <= k < |d.superInterfaces| ==>
          JTypeOk(g, d.superInterfaces[k]) && i < IdOf(d.superInterfaces[k])
          && g.types[IdOf(d.superInterfaces[k])].isInterface)
    && (match d.superclass
        case None => d.isInterface || i == g.objectClass
        case Some(c) => !d.isInterface && i != g.objectClass && i < c < |g.types| && !g.types[c].isInterface)
    && (forall a, f :: a in d.annotations && f in d.annotations[a] ==> f < |g.types|)
  }

  predicate WF(g: Hierarchy) {
    && g.objectClass < |g.types|
    && g.composite < |g.types|
    && g.entityComposite < |g.types|
    && g.entity < |g.types|
    && g.compositeMixin < |g.types|
    && g.entityImpl < |g.types|
    && g.abstractAssociation < |g.types|
    && !g.types[g.objectClass].isInterface
    && (forall i :: 0 <= i < |g.types| ==> NodeOk(g, i))
  }

  /** getGenericInterfaces() of a type. */
  function SuperInterfaces(g: Hierarchy, id: TypeId): (r: seq<JType>)
    requires WF(g) && id < |g.types|
    ensures forall k :: 0 <= k < |r| ==>
      JTypeOk(g, r[k]) && id < IdOf(r[k]) < |g.types| && g.types[IdOf(r[k])].isInterface
  {
    assert NodeOk(g, id);
    g.types[id].superInterfaces
  }

  /** getSuperclass() of a type. */
  function Superclass(g: Hierarchy, id: TypeId): (r: Option<TypeId>)
    requires WF(g) && id < |g.types|
    ensures r.None? <==> g.types[id].isInterface || id == g.objectClass
    ensures r.Some? ==> id < r.value < |g.types| && !g.types[r.value].isInterface
  {
    assert NodeOk(g, id);
    g.types[id].superclass
  }

  /** The value() list of an annotation on a type; empty when it is absent. */
  function Declared(g: Hierarchy, id: TypeId, a: Annotation): (r: seq<TypeId>)
    ensures WF(g) && id < |g.types| ==> forall k :: 0 <= k < |r| ==> r[k] < |g.types|
  {
    if id < |g.types| && a in g.types[id].annotations then
      var r := g.types[id].annotations[a];
      assert WF(g) ==> NodeOk(g, id);
      assert forall k :: 0 <= k < |r| ==> r[k] in g.types[id].annotations[a];
      r
    else []
  }

  /** getInterfaces(): the raw classes of the generic super-interfaces. */
  function Interfaces(g: Hierarchy, id: TypeId): (r: seq<TypeId>)
    requires WF(g) && id < |g.types|
    ensures |r| == |SuperInterfaces(g, id)|
    ensures forall k :: 0 <= k < |r| ==> r[k] == IdOf(SuperInterfaces(g, id)[k]) && id < r[k] < |g.types|
  {
    var s := SuperInterfaces(g, id);
    seq(|s|, k requires 0 <= k < |s| => IdOf(s[k]))
  }

  /** Direct supertypes: super-interfaces, then the superclass. */
  function Parents(g: Hierarchy, id: TypeId): (r: seq<TypeId>)
    requires WF(g) && id < |g.types|
    ensures forall k :: 0 <= k < |r| ==> id < r[k] < |g.types|
  {
    Interfaces(g, id) + match Superclass(g, id) case Some(c) => [c] case None => []
  }

  /** `t.isAssignableFrom(s)`: `s` is `t`, or `t` is Object, or some direct
      supertype of `s` is a subtype of `t`. */
  predicate SubtypeOf(g: Hierarchy, s: TypeId, t: TypeId)
    requires WF(g) && s < |g.types|
    decreases |g.types| - s
  {
    || s == t
    || t == g.objectClass
    || exists k :: 0 <= k < |Parents(g, s)| && SubtypeOf(g, Parents(g, s)[k], t)
  }

  /** The pre-order walk over getInterfaces() that the composite model factory
      performs: a type, then the walk of each super-interface, left to right.
      There is no visited set, so a shared ancestor appears once per path. */
  function PreOrder(g: Hierarchy, id: TypeId): (r: seq<TypeId>)
    requires WF(g) && id < |g.types|
    ensures |r| > 0 && r[0] == id
    ensures forall k :: 0 <= k < |r| ==> id <= r[k] < |g.types|
    decreases |g.types| - id, 1, 0
  {
    [id] + PreOrderFrom(g, id, 0)
  }

  /** The walks of the super-interfaces of `id` from position `k` on. */
  function PreOrderFrom(g: Hierarchy, id: TypeId, k: nat): (r: seq<TypeId>)
    requires WF(g) && id < |g.types| && k <= |Interfaces(g, id)|
    ensures forall j :: 0 <= j < |r| ==> id < r[j] < |g.types|
    decreases |g.types| - id, 0, |Interfaces(g, id)| - k
  {
    if k == |Interfaces(g, id)| then []
    else PreOrder(g, Interfaces(g, id)[k]) + PreOrderFrom(g, id, k + 1)
  }

  /** Number of super-interface paths from `id` down to `target`: an
      independent count of how often the walk meets `target`. */
  function PathCount(g: Hierarchy, id: TypeId, target: TypeId): nat
    requires WF(g) && id < |g.types|
    decreases |g.types| - id, 1, 0
  {
    (if id == target then 1 else 0) + PathCountFrom(g, id, 0, target)
  }

  function PathCountFrom(g: Hierarchy, id: TypeId, k: nat, target: TypeId): nat
    requires WF(g) && id < |g.types| && k <= |Interfaces(g, id)|
    decreases |g.types| - id, 0, |Interfaces(g, id)| - k
  {
    if k == |Interfaces(g, id)| then 0
    else PathCount(g, Interfaces(g, id)[k], target) + PathCountFrom(g, id, k + 1, target)
  }

  /** The pre-order walk meets each type once per path that leads to it. */
  lemma {:induction false} PreOrderCountsPaths(g: Hierarchy, id: TypeId, target: TypeId)
    requires WF(g) && id < |g.types|
    ensures Count(PreOrder(g, id), target) == PathCount(g, id, target)
    decreases |g.types| - id, 1, 0
  {
    PreOrderFromCountsPaths(g, id, 0, target);
    assert PreOrder(g, id)[1..] == PreOrderFrom(g, id, 0);
  }

  lemma {:induction false} PreOrderFromCountsPaths(g: Hierarchy, id: TypeId, k: nat, target: TypeId)
    requires WF(g) && id < |g.types| && k <= |Interfaces(g, id)|
    ensures Count(PreOrderFrom(g, id, k), target) == PathCountFrom(g, id, k, target)
    decreases |g.types| - id, 0, |Interfaces(g, id)| - k
  {
    if k < |Interfaces(g, id)| {
      var p := Interfaces(g, id)[k];
      PreOrderCountsPaths(g, p, target);
      PreOrderFromCountsPaths(g, id, k + 1, target);
      CountAppend(PreOrder(g, p), PreOrderFrom(g, id, k + 1), target);
    }
  }

  /** The superclass chain: the type, its superclass, and so on up to and
      including Object (just the type itself for an interface). */
  function SuperclassChain(g: Hierarchy, id: TypeId): (r: seq<TypeId>)
    requires WF(g) && id < |g.types|
    ensures |r| > 0 && r[0] == id
    ensures forall k :: 0 <= k < |r| ==> id <= r[k] < |g.types|
    ensures forall k :: 0 < k < |r| ==> r[k - 1] < r[k]
    decreases |g.types| - id
  {
    match Superclass(g, id)
    case None => [id]
    case Some(c) => [id] + SuperclassChain(g, c)
  }

  /** A class's chain ends at Object; an interface's chain is the interface
      alone. No element of a class's chain is an interface. */
  lemma {:induction false} SuperclassChainShape(g: Hierarchy, id: TypeId)
    requires WF(g) && id < |g.types|
    ensures var r := SuperclassChain(g, id);
      if g.types[id].isInterface then r == [id]
      else r[|r| - 1] == g.objectClass && forall k :: 0 <= k < |r| ==> !g.types[r[k]].isInterface
    decreases |g.types| - id
  {
    match Superclass(g, id)
    case None =>
    case Some(c) =>
      SuperclassChainShape(g, c);
  }

  /** The value() lists of annotation `a` on each type of `ids`, concatenated
      in order. */
  function GatherDeclared(g: Hierarchy, a: Annotation, ids: seq<TypeId>): seq<TypeId>
    decreases |ids|
  {
    if ids == [] then [] else Declared(g, ids[0], a) + GatherDeclared(g, a, ids[1..])
  }

  /** Every type the pre-order walk visits is a supertype of the start. */
  lemma {:induction false} PreOrderVisitsSupertypes(g: Hierarchy, id: TypeId)
    requires WF(g) && id < |g.types|
    ensures forall k :: 0 <= k < |PreOrder(g, id)| ==> SubtypeOf(g, id, PreOrder(g, id)[k])
    decreases |g.types| - id, 1, 0
  {
    PreOrderFromVisitsSupertypes(g, id, 0);
    var r := PreOrder(g, id);
    forall k | 0 <= k < |r| ensures SubtypeOf(g, id, r[k]) {
      if k > 0 {
        assert r[k] == PreOrderFrom(g, id, 0)[k - 1];
      }
    }
  }

  lemma {:induction false} PreOrderFromVisitsSupertypes(g: Hierarchy, id: TypeId, k: nat)
    requires WF(g) && id < |g.types| && k <= |Interfaces(g, id)|
    ensures forall j :: 0 <= j < |PreOrderFrom(g, id, k)| ==> SubtypeOf(g, id, PreOrderFrom(g, id, k)[j])
    decreases |g.types| - id, 0, |Interfaces(g, id)| - k
  {
    if k < |Interfaces(g, id)| {
      var p := Interfaces(g, id)[k];
      PreOrderVisitsSupertypes(g, p);
      PreOrderFromVisitsSupertypes(g, id, k + 1);
      var head := PreOrder(g, p);
      var r := PreOrderFrom(g, id, k);
      assert r == head + PreOrderFrom(g, id, k + 1);
      assert Parents(g, id)[k] == p;
      forall j | 0 <= j < |r| ensures SubtypeOf(g, id, r[j]) {
        if j < |head| {
          assert SubtypeOf(g, p, head[j]);
        } else {
          assert r[j] == PreOrderFrom(g, id, k + 1)[j - |head|];
        }
      }
    }
  }
}
