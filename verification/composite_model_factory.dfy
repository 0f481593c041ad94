/** The composite model factory (org.qi4j.runtime.CompositeModelFactory):
    validates a composite interface and collects the fragments its type
    hierarchy declares. */
module CompositeModelFactory {
  import opened Results
  import opened Seqs
  import opened Hierarchy

  /** A fragment class found in an annotation, with the type that declared it. */
  datatype Declaration = Declaration(fragment: TypeId, declaredBy: TypeId)

  datatype FragmentKind = MixinFragment | AssertionFragment | SideEffectFragment

  datatype FragmentModel = FragmentModel(
    kind: FragmentKind,
    fragmentClass: TypeId,
    compositeType: TypeId,
    declaredBy: TypeId,
    /** getThisAsMethods() */
    thisAsMethods: seq<MemberId>)

  datatype MethodModel = MethodModel(member: MemberId)

  datatype ConstraintDeclarationModel = ConstraintDeclarationModel(
    constraint: TypeId, annotationType: TypeId, parameterType: TypeId, declaredBy: TypeId)

  datatype CompositeModel = CompositeModel(
    compositeType: TypeId,
    methods: seq<MethodModel>,
    mixins: seq<FragmentModel>,
    constraints: seq<ConstraintDeclarationModel>,
    assertions: seq<FragmentModel>,
    sideEffects: seq<FragmentModel>,
    thisAsModels: map<MemberId, MethodModel>)

  datatype ModelError =
    | NullArgument(argument: string)
    | InvalidComposite(message: string, compositeType: TypeId)
    | ClassCast
    | ArrayIndexOutOfBounds

  /** validateClass: a missing class, then a class that is not an interface,
      then an interface that does not extend Composite, is rejected; `None`
      means the class is accepted. */
  function ValidateClass(g: Hierarchy, c: Option<TypeId>): (r: Option<ModelError>)
    requires WF(g) && (c.Some? ==> c.value < |g.types|)
    ensures r.None? <==> c.Some? && g.types[c.value].isInterface && SubtypeOf(g, c.value, g.composite)
    ensures c.None? ==> r == Some(NullArgument("compositeClass"))
    ensures c.Some? && !g.types[c.value].isInterface ==>
      r == Some(InvalidComposite(g.types[c.value].name + " is not an interface.", c.value))
    ensures c.Some? && g.types[c.value].isInterface && !SubtypeOf(g, c.value, g.composite) ==>
      r == Some(InvalidComposite(g.types[c.value].name + " does not extend from " + g.types[g.composite].name, c.value))
  {
    match c
    case None => Some(NullArgument("compositeClass"))
    case Some(t) =>
      if !g.types[t].isInterface then
        Some(InvalidComposite(g.types[t].name + " is not an interface.", t))
      else if !SubtypeOf(g, t, g.composite) then
        Some(InvalidComposite(g.types[t].name + " does not extend from " + g.types[g.composite].name, t))
      else None
  }

  /** Fragment classes tagged with the type that declares them. */
  function Tag(fs: seq<TypeId>, owner: TypeId): (r: seq<Declaration>)
    ensures |r| == |fs|
    ensures forall k :: 0 <= k < |r| ==> r[k] == Declaration(fs[k], owner)
    decreases |fs|
  {
    if fs == [] then [] else [Declaration(fs[0], owner)] + Tag(fs[1..], owner)
  }

  /** The walk shared by findMixins, getModifiers and
      getConstraintDeclarations: the type's own entries of annotation `a`,
      then the walk of each getInterfaces() entry, left to right, with no
      visited set. */
  function Collect(g: Hierarchy, a: Annotation, id: TypeId): (r: seq<Declaration>)
    requires WF(g) && id < |g.types|
    ensures forall k :: 0 <= k < |r| ==>
      id <= r[k].declaredBy < |g.types| && r[k].fragment in Declared(g, r[k].declaredBy, a)
    decreases |g.types| - id, 1, 0
  {
    Tag(Declared(g, id, a), id) + CollectFrom(g, a, id, 0)
  }

  function CollectFrom(g: Hierarchy, a: Annotation, id: TypeId, k: nat): (r: seq<Declaration>)
    requires WF(g) && id < |g.types| && k <= |Interfaces(g, id)|
    ensures forall j :: 0 <= j < |r| ==>
      id < r[j].declaredBy < |g.types| && r[j].fragment in Declared(g, r[j].declaredBy, a)
    decreases |g.types| - id, 0, |Interfaces(g, id)| - k
  {
    if k == |Interfaces(g, id)| then []
    else Collect(g, a, Interfaces(g, id)[k]) + CollectFrom(g, a, id, k + 1)
  }

  /** Reference definition: the own entries of each type of `ids`, in order. */
  function GatherOwn(g: Hierarchy, a: Annotation, ids: seq<TypeId>): seq<Declaration>
    decreases |ids|
  {
    if ids == [] then [] else Tag(Declared(g, ids[0], a), ids[0]) + GatherOwn(g, a, ids[1..])
  }

  lemma {:induction false} GatherOwnAppend(g: Hierarchy, a: Annotation, x: seq<TypeId>, y: seq<TypeId>)
    ensures GatherOwn(g, a, x + y) == GatherOwn(g, a, x) + GatherOwn(g, a, y)
    decreases |x|
  {
    if x == [] {
      assert x + y == y;
    } else {
      assert (x + y)[0] == x[0];
      assert (x + y)[1..] == x[1..] + y;
      GatherOwnAppend(g, a, x[1..], y);
    }
  }

  /** The collected declarations are the own entries of the types of the
      pre-order super-interface walk: own entries left to right first, then
      each super-interface depth-first. */
  lemma {:induction false} CollectFollowsPreOrder(g: Hierarchy, a: Annotation, id: TypeId)
    requires WF(g) && id < |g.types|
    ensures Collect(g, a, id) == GatherOwn(g, a, PreOrder(g, id))
    decreases |g.types| - id, 1, 0
  {
    CollectFromFollowsPreOrder(g, a, id, 0);
    var w := PreOrder(g, id);
    assert w == [id] + PreOrderFrom(g, id, 0);
    GatherOwnAppend(g, a, [id], PreOrderFrom(g, id, 0));
    assert GatherOwn(g, a, [id]) == Tag(Declared(g, id, a), id) + GatherOwn(g, a, []);
  }

  lemma {:induction false} CollectFromFollowsPreOrder(g: Hierarchy, a: Annotation, id: TypeId, k: nat)
    requires WF(g) && id < |g.types| && k <= |Interfaces(g, id)|
    ensures CollectFrom(g, a, id, k) == GatherOwn(g, a, PreOrderFrom(g, id, k))
    decreases |g.types| - id, 0, |Interfaces(g, id)| - k
  {
    if k < |Interfaces(g, id)| {
      var p := Interfaces(g, id)[k];
      CollectFollowsPreOrder(g, a, p);
      CollectFromFollowsPreOrder(g, a, id, k + 1);
      GatherOwnAppend(g, a, PreOrder(g, p), PreOrderFrom(g, id, k + 1));
    }
  }

  lemma {:induction false} TagCount(fs: seq<TypeId>, owner: TypeId, f: TypeId, n: TypeId)
    ensures Count(Tag(fs, owner), Declaration(f, n)) == if owner == n then Count(fs, f) else 0
    decreases |fs|
  {
    if fs != [] {
      TagCount(fs[1..], owner, f, n);
      assert Tag(fs, owner)[1..] == Tag(fs[1..], owner);
    }
  }

  lemma {:induction false} GatherOwnCount(g: Hierarchy, a: Annotation, ids: seq<TypeId>, f: TypeId, n: TypeId)
    ensures Count(GatherOwn(g, a, ids), Declaration(f, n)) == Count(ids, n) * Count(Declared(g, n, a), f)
    decreases |ids|
  {
    if ids != [] {
      var own := Tag(Declared(g, ids[0], a), ids[0]);
      var tail := GatherOwn(g, a, ids[1..]);
      assert GatherOwn(g, a, ids) == own + tail;
      GatherOwnCount(g, a, ids[1..], f, n);
      TagCount(Declared(g, ids[0], a), ids[0], f, n);
      CountAppend(own, tail, Declaration(f, n));
      var here := if ids[0] == n then 1 else 0;
      assert Count(ids, n) == here + Count(ids[1..], n);
      MulAddRight(here, Count(ids[1..], n), Count(Declared(g, n, a), f));
    }
  }

  lemma MulAddRight(x: nat, y: nat, c: nat)
    ensures (x + y) * c == x * c + y * c
  {
  }

  /** No deduplication: a declaration of type `n` is collected once per
      super-interface path from `id` to `n` (and once per repetition in the
      annotation). */
  lemma CollectCountsPaths(g: Hierarchy, a: Annotation, id: TypeId, f: TypeId, n: TypeId)
    requires WF(g) && id < |g.types| && n < |g.types|
    ensures Count(Collect(g, a, id), Declaration(f, n)) == PathCount(g, id, n) * Count(Declared(g, n, a), f)
  {
    CollectFollowsPreOrder(g, a, id);
    GatherOwnCount(g, a, PreOrder(g, id), f, n);
    PreOrderCountsPaths(g, id, n);
  }

  /** Every collected declaration comes from a supertype of the start. */
  lemma CollectFromSupertypes(g: Hierarchy, a: Annotation, id: TypeId)
    requires WF(g) && id < |g.types|
    ensures forall k :: 0 <= k < |Collect(g, a, id)| ==> SubtypeOf(g, id, Collect(g, a, id)[k].declaredBy)
  {
    CollectFollowsPreOrder(g, a, id);
    PreOrderVisitsSupertypes(g, id);
    GatherOwnFrom(g, a, PreOrder(g, id));
  }

  lemma {:induction false} GatherOwnFrom(g: Hierarchy, a: Annotation, ids: seq<TypeId>)
    ensures forall k :: 0 <= k < |GatherOwn(g, a, ids)| ==> GatherOwn(g, a, ids)[k].declaredBy in ids
    decreases |ids|
  {
    if ids != [] {
      GatherOwnFrom(g, a, ids[1..]);
      var own := Tag(Declared(g, ids[0], a), ids[0]);
      var rest := GatherOwn(g, a, ids[1..]);
      var r := GatherOwn(g, a, ids);
      assert r == own + rest;
      assert ids[0] in ids;
      forall k | 0 <= k < |r| ensures r[k].declaredBy in ids {
        if k < |own| {
          assert r[k] == own[k];
        } else {
          assert r[k] == rest[k - |own|];
          var x := rest[k - |own|].declaredBy;
          assert x in ids[1..];
          var j :| 0 <= j < |ids[1..]| && ids[1..][j] == x;
          assert ids[j + 1] == x;
        }
      }
    }
  }

  /** newFragmentModel(fragment, compositeType, declaredBy) as seen here:
      the model records the three classes and the fragment's this-as
      methods. */
  function NewFragmentModel(g: Hierarchy, kind: FragmentKind, fragment: TypeId, composite: TypeId, declaredBy: TypeId): (m: FragmentModel)
    requires WF(g) && fragment < |g.types|
    ensures m.kind == kind && m.fragmentClass == fragment && m.compositeType == composite && m.declaredBy == declaredBy
    ensures m.thisAsMethods == g.types[fragment].thisAsMethods
  {
    FragmentModel(kind, fragment, composite, declaredBy, g.types[fragment].thisAsMethods)
  }

  /** One fragment model per declaration, in order. */
  function FragmentModels(g: Hierarchy, kind: FragmentKind, composite: TypeId, ds: seq<Declaration>): (r: seq<FragmentModel>)
    requires WF(g) && forall k :: 0 <= k < |ds| ==> ds[k].fragment < |g.types|
    ensures |r| == |ds|
    ensures forall k :: 0 <= k < |r| ==>
      r[k] == NewFragmentModel(g, kind, ds[k].fragment, composite, ds[k].declaredBy)
  {
    seq(|ds|, k requires 0 <= k < |ds| => NewFragmentModel(g, kind, ds[k].fragment, composite, ds[k].declaredBy))
  }

  /** findMixins(aType, compositeType). */
  function FindMixins(g: Hierarchy, aType: TypeId, composite: TypeId): (r: seq<FragmentModel>)
    requires WF(g) && aType < |g.types|
    ensures |r| == |Collect(g, Mixins, aType)|
    ensures forall k :: 0 <= k < |r| ==>
      && r[k].kind == MixinFragment && r[k].compositeType == composite
      && r[k].fragmentClass == Collect(g, Mixins, aType)[k].fragment
      && r[k].declaredBy == Collect(g, Mixins, aType)[k].declaredBy
  {
    FragmentModels(g, MixinFragment, composite, Collect(g, Mixins, aType))
  }

  /** getModifiers(aClass, compositeType, annotationClass, factory), for the
      assertion and the side-effect annotations. */
  function GetModifiers(g: Hierarchy, aClass: TypeId, composite: TypeId, a: Annotation, kind: FragmentKind): (r: seq<FragmentModel>)
    requires WF(g) && aClass < |g.types|
    ensures |r| == |Collect(g, a, aClass)|
    ensures forall k :: 0 <= k < |r| ==>
      && r[k].kind == kind && r[k].compositeType == composite
      && r[k].fragmentClass == Collect(g, a, aClass)[k].fragment
      && r[k].declaredBy == Collect(g, a, aClass)[k].declaredBy
  {
    FragmentModels(g, kind, composite, Collect(g, a, aClass))
  }

  /** The mixin list of a composite: the discovered mixins, then
      CompositeMixin declared by Composite, then EntityImpl declared by Entity
      exactly when the composite is an EntityComposite. */
  function AllMixins(g: Hierarchy, t: TypeId): (r: seq<FragmentModel>)
    requires WF(g) && t < |g.types|
    ensures var found := FindMixins(g, t, t);
      && |r| == |found| + 1 + (if SubtypeOf(g, t, g.entityComposite) then 1 else 0)
      && r[..|found|] == found
      && r[|found|] == NewFragmentModel(g, MixinFragment, g.compositeMixin, t, g.composite)
      && (SubtypeOf(g, t, g.entityComposite) ==>
            r[|found| + 1] == NewFragmentModel(g, MixinFragment, g.entityImpl, t, g.entity))
  {
    FindMixins(g, t, t)
      + [NewFragmentModel(g, MixinFragment, g.compositeMixin, t, g.composite)]
      + (if SubtypeOf(g, t, g.entityComposite) then [NewFragmentModel(g, MixinFragment, g.entityImpl, t, g.entity)] else [])
  }

  /** findMethods: one method model per public method, in getMethods() order. */
  function FindMethods(g: Hierarchy, t: TypeId): (r: seq<MethodModel>)
    requires WF(g) && t < |g.types|
    ensures |r| == |g.types[t].publicMethods|
    ensures forall k :: 0 <= k < |r| ==> r[k] == MethodModel(g.types[t].publicMethods[k])
  {
    var ms := g.types[t].publicMethods;
    seq(|ms|, k requires 0 <= k < |ms| => MethodModel(ms[k]))
  }

  /** The constraint model of one @Constraints entry, read from the type
      arguments of the implementation's first generic interface: the two
      casts to ParameterizedType and Class and the two array reads fail in
      Java's evaluation order. */
  function ConstraintModelOf(g: Hierarchy, d: Declaration): (r: Result<ConstraintDeclarationModel, ModelError>)
    requires WF(g) && d.fragment < |g.types|
    ensures var s := SuperInterfaces(g, d.fragment);
      r.Ok? <==> |s| > 0 && s[0].Param? && |s[0].args| >= 2 && s[0].args[0].Cls? && s[0].args[1].Cls?
    ensures var s := SuperInterfaces(g, d.fragment);
      r.Ok? ==> r.value == ConstraintDeclarationModel(d.fragment, s[0].args[0].id, s[0].args[1].id, d.declaredBy)
    ensures var s := SuperInterfaces(g, d.fragment);
      r.Err? ==> r.error == (if |s| == 0 || (s[0].Param? && s[0].args[0].Cls? && |s[0].args| < 2) then ArrayIndexOutOfBounds else ClassCast)
  {
    var s := SuperInterfaces(g, d.fragment);
    if |s| == 0 then Err(ArrayIndexOutOfBounds)
    else match s[0]
      case Cls(_) => Err(ClassCast)
      case Param(_, args) =>
        assert JTypeOk(g, s[0]);
        if !args[0].Cls? then Err(ClassCast)
        else if |args| < 2 then Err(ArrayIndexOutOfBounds)
        else if !args[1].Cls? then Err(ClassCast)
        else Ok(ConstraintDeclarationModel(d.fragment, args[0].id, args[1].id, d.declaredBy))
  }

  /** Every declaration of `ds` gives a constraint model. */
  predicate AllConvert(g: Hierarchy, ds: seq<Declaration>)
    requires WF(g) && forall k :: 0 <= k < |ds| ==> ds[k].fragment < |g.types|
  {
    forall k :: 0 <= k < |ds| ==> ConstraintModelOf(g, ds[k]).Ok?
  }

  /** The constraint models of a list of declarations, each naming its
      constraint and declaring type; the first failing entry's exception
      escapes. */
  function ConstraintModels(g: Hierarchy, ds: seq<Declaration>): (r: Result<seq<ConstraintDeclarationModel>, ModelError>)
    requires WF(g) && forall k :: 0 <= k < |ds| ==> ds[k].fragment < |g.types|
    ensures r.Ok? <==> AllConvert(g, ds)
    ensures r.Ok? ==> |r.value| == |ds| && forall k :: 0 <= k < |ds| ==> r.value[k] == ConstraintModelOf(g, ds[k]).value
    ensures r.Ok? ==> forall k :: 0 <= k < |ds| ==>
      r.value[k].constraint == ds[k].fragment && r.value[k].declaredBy == ds[k].declaredBy
    ensures r.Err? ==> exists k :: 0 <= k < |ds| && ConstraintModelOf(g, ds[k]) == Err(r.error) && AllConvert(g, ds[..k])
    decreases |ds|
  {
    if ds == [] then Ok([])
    else
      var head := ConstraintModelOf(g, ds[0]);
      if head.Err? then
        assert ds[..0] == [];
        Err(head.error)
      else
        var rest := ConstraintModels(g, ds[1..]);
        if rest.Err? then
          ShiftFailure(g, ds, rest.error);
          Err(rest.error)
        else
          assert forall k :: 1 <= k < |ds| ==> ds[1..][k - 1] == ds[k];
          Ok([head.value] + rest.value)
  }

  /** A failure found after the first declaration, which converts, is a
      failure of the whole list with all earlier entries converting. */
  lemma ShiftFailure(g: Hierarchy, ds: seq<Declaration>, e: ModelError)
    requires WF(g) && forall k :: 0 <= k < |ds| ==> ds[k].fragment < |g.types|
    requires |ds| > 0 && ConstraintModelOf(g, ds[0]).Ok?
    requires exists k :: 0 <= k < |ds[1..]| && ConstraintModelOf(g, ds[1..][k]) == Err(e) && AllConvert(g, ds[1..][..k])
    ensures exists k :: 0 <= k < |ds| && ConstraintModelOf(g, ds[k]) == Err(e) && AllConvert(g, ds[..k])
  {
    var k :| 0 <= k < |ds[1..]| && ConstraintModelOf(g, ds[1..][k]) == Err(e) && AllConvert(g, ds[1..][..k]);
    assert ds[1..][k] == ds[k + 1];
    assert ds[..k + 1] == [ds[0]] + ds[1..][..k];
    assert AllConvert(g, ds[..k + 1]);
  }

  /** getConstraintDeclarations(compositeClass). */
  function GetConstraintDeclarations(g: Hierarchy, t: TypeId): (r: Result<seq<ConstraintDeclarationModel>, ModelError>)
    requires WF(g) && t < |g.types|
    ensures var ds := Collect(g, Constraints, t);
      && (r.Ok? <==> AllConvert(g, ds))
      && (r.Ok? ==> |r.value| == |ds| && forall k :: 0 <= k < |ds| ==>
            r.value[k].constraint == ds[k].fragment && r.value[k].declaredBy == ds[k].declaredBy)
  {
    ConstraintModels(g, Collect(g, Constraints, t))
  }

  /** Every method reached through this-as injection by some fragment. */
  function ThisAsUnion(fs: seq<FragmentModel>, n: nat): set<MemberId>
    requires n <= |fs|
  {
    set k, m | 0 <= k < n && m in fs[k].thisAsMethods :: m
  }

  /** getThisAsModels: a map from each distinct this-as method of the
      fragments to its single method model. */
  method ThisAsModels(fs: seq<FragmentModel>) returns (models: map<MemberId, MethodModel>)
    ensures models.Keys == ThisAsUnion(fs, |fs|)
    ensures forall m :: m in models ==> models[m] == MethodModel(m)
  {
    models := map[];
    var i := 0;
    while i < |fs|
      invariant 0 <= i <= |fs|
      invariant models.Keys == ThisAsUnion(fs, i)
      invariant forall m :: m in models ==> models[m] == MethodModel(m)
    {
      var methods := fs[i].thisAsMethods;
      var j := 0;
      while j < |methods|
        invariant 0 <= j <= |methods|
        invariant models.Keys == ThisAsUnion(fs, i) + set x | x in methods[..j]
        invariant forall m :: m in models ==> models[m] == MethodModel(m)
      {
        if methods[j] !in models {
          models := models[methods[j] := MethodModel(methods[j])];
        }
        assert methods[..j + 1] == methods[..j] + [methods[j]];
        j := j + 1;
      }
      assert methods[..j] == methods;
      assert ThisAsUnion(fs, i + 1) == ThisAsUnion(fs, i) + set x | x in fs[i].thisAsMethods;
      i := i + 1;
    }
  }

  /** newCompositeModel(compositeClass): validation first; then the model of
      a valid composite, unless a constraint declaration is malformed. The
      fragments handed to getThisAsModels are the mixins, then the assertions,
      then the side-effects. */
  method NewCompositeModel(g: Hierarchy, c: Option<TypeId>) returns (r: Result<CompositeModel, ModelError>)
    requires WF(g) && (c.Some? ==> c.value < |g.types|)
    ensures ValidateClass(g, c).Some? ==> r == Err(ValidateClass(g, c).value)
    ensures ValidateClass(g, c).None? ==>
      (r.Err? <==> GetConstraintDeclarations(g, c.value).Err?)
      && (r.Err? ==> r.error == GetConstraintDeclarations(g, c.value).error)
    ensures r.Ok? ==> (ValidateClass(g, c).None? &&
      var t := c.value;
      var m := r.value;
      && m.compositeType == t
      && m.methods == FindMethods(g, t)
      && m.mixins == AllMixins(g, t)
      && m.assertions == GetModifiers(g, t, t, Assertions, AssertionFragment)
      && m.sideEffects == GetModifiers(g, t, t, SideEffects, SideEffectFragment)
      && m.constraints == GetConstraintDeclarations(g, t).value
      && m.thisAsModels.Keys == ThisAsUnion(m.mixins + m.assertions + m.sideEffects, |m.mixins + m.assertions + m.sideEffects|)
      && (forall x :: x in m.thisAsModels ==> m.thisAsModels[x] == MethodModel(x)))
  {
    var invalid := ValidateClass(g, c);
    if invalid.Some? {
      return Err(invalid.value);
    }
    var t := c.value;
    var methods := FindMethods(g, t);
    var mixins := AllMixins(g, t);
    var assertions := GetModifiers(g, t, t, Assertions, AssertionFragment);
    var sideEffects := GetModifiers(g, t, t, SideEffects, SideEffectFragment);
    var fragments := mixins + assertions + sideEffects;
    var thisAs := ThisAsModels(fragments);
    var constraints := GetConstraintDeclarations(g, t);
    if constraints.Err? {
      return Err(constraints.error);
    }
    r := Ok(CompositeModel(t, methods, mixins, constraints.value, assertions, sideEffects, thisAs));
  }
}
