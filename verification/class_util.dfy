/** Class-related utilities (org.qi4j.util.ClassUtil): the interface closure
    of a type, its type closure, and the superclass-chain member walks. */
module ClassUtil {
  import opened Results
  import opened Seqs
  import opened Hierarchy

  datatype ReflectionError = ClassCast

  /** A plain (non-parameterized) interface of the hierarchy. */
  predicate IsInterfaceClass(g: Hierarchy, ty: JType) {
    ty.Cls? && ty.id < |g.types| && g.types[ty.id].isInterface
  }

  predicate AllInterfaceClasses(g: Hierarchy, s: seq<JType>) {
    forall k :: 0 <= k < |s| ==> IsInterfaceClass(g, s[k])
  }

  predicate AllOk(g: Hierarchy, s: seq<JType>) {
    forall k :: 0 <= k < |s| ==> JTypeOk(g, s[k])
  }

  // ---------------------------------------------------------------------
  // interfacesOf / addInterfaces

  /** addInterfaces(type, interfaces): `acc` is the LinkedHashSet in insertion
      order. A type already present is skipped together with its ancestors; a
      parameterized type is neither added nor descended into; a class is
      descended into but only an interface is added. */
  function AddInterfaces(g: Hierarchy, ty: JType, acc: seq<JType>): (r: seq<JType>)
    requires WF(g) && JTypeOk(g, ty)
    ensures |acc| <= |r| && r[..|acc|] == acc
    ensures AllInterfaceClasses(g, acc) ==> AllInterfaceClasses(g, r)
    ensures NoDup(acc) ==> NoDup(r)
    decreases |g.types| - IdOf(ty), 1, 0
  {
    if ty in acc then acc
    else match ty
      case Param(_, _) => acc
      case Cls(id) =>
        var acc1 := if g.types[id].isInterface then acc + [ty] else acc;
        assert NoDup(acc) ==> NoDup(acc1) by {
          if NoDup(acc) && acc1 != acc {
            forall i, j | 0 <= i < j < |acc1| ensures acc1[i] != acc1[j] {
              if j == |acc| { assert acc1[i] in acc; }
            }
          }
        }
        AddSupers(g, id, 0, acc1)
  }

  /** The loop over getGenericInterfaces() from position `k` on. */
  function AddSupers(g: Hierarchy, id: TypeId, k: nat, acc: seq<JType>): (r: seq<JType>)
    requires WF(g) && id < |g.types| && k <= |SuperInterfaces(g, id)|
    ensures |acc| <= |r| && r[..|acc|] == acc
    ensures AllInterfaceClasses(g, acc) ==> AllInterfaceClasses(g, r)
    ensures NoDup(acc) ==> NoDup(r)
    decreases |g.types| - id, 0, |SuperInterfaces(g, id)| - k
  {
    if k == |SuperInterfaces(g, id)| then acc
    else
      var acc' := AddInterfaces(g, SuperInterfaces(g, id)[k], acc);
      var r := AddSupers(g, id, k + 1, acc');
      assert r[..|acc|] == r[..|acc'|][..|acc|];
      r
  }

  /** interfacesOf(type): every interface reachable from the type through
      plain super-interfaces, each once, in pre-order. */
  function InterfacesOf(g: Hierarchy, ty: JType): (r: seq<JType>)
    requires WF(g) && JTypeOk(g, ty)
    ensures NoDup(r)
    ensures AllInterfaceClasses(g, r)
    ensures ty in r <==> IsInterfaceClass(g, ty)
    ensures IsInterfaceClass(g, ty) ==> r[0] == ty
  {
    var r := AddInterfaces(g, ty, []);
    assert ty in r ==> IsInterfaceClass(g, ty) by {
      if ty in r { var k :| 0 <= k < |r| && r[k] == ty; }
    }
    r
  }

  // ---------------------------------------------------------------------
  // the reference walk

  /** Pre-order walk over plain super-interfaces, with repetition: the type
      itself, then the walk of each Class-typed super-interface, left to
      right. Parameterized types contribute nothing. */
  function ClassWalk(g: Hierarchy, ty: JType): (r: seq<JType>)
    requires WF(g) && JTypeOk(g, ty)
    ensures forall k :: 0 <= k < |r| ==> r[k].Cls? && IdOf(ty) <= r[k].id < |g.types|
    decreases |g.types| - IdOf(ty), 1, 0
  {
    match ty
    case Param(_, _) => []
    case Cls(id) => [ty] + ClassWalkFrom(g, id, 0)
  }

  function ClassWalkFrom(g: Hierarchy, id: TypeId, k: nat): (r: seq<JType>)
    requires WF(g) && id < |g.types| && k <= |SuperInterfaces(g, id)|
    ensures forall j :: 0 <= j < |r| ==> r[j].Cls? && id < r[j].id < |g.types|
    decreases |g.types| - id, 0, |SuperInterfaces(g, id)| - k
  {
    if k == |SuperInterfaces(g, id)| then []
    else ClassWalk(g, SuperInterfaces(g, id)[k]) + ClassWalkFrom(g, id, k + 1)
  }

  /** The interfaces among `s`, in order. */
  function OnlyInterfaces(g: Hierarchy, s: seq<JType>): (r: seq<JType>)
    ensures forall y :: y in r <==> y in s && IsInterfaceClass(g, y)
    decreases |s|
  {
    if s == [] then []
    else (if IsInterfaceClass(g, s[0]) then [s[0]] else []) + OnlyInterfaces(g, s[1..])
  }

  lemma {:induction false} OnlyInterfacesAppend(g: Hierarchy, a: seq<JType>, b: seq<JType>)
    ensures OnlyInterfaces(g, a + b) == OnlyInterfaces(g, a) + OnlyInterfaces(g, b)
    decreases |a|
  {
    if a == [] {
      assert a + b == b;
    } else {
      assert (a + b)[1..] == a[1..] + b;
      OnlyInterfacesAppend(g, a[1..], b);
    }
  }

  /** Everything met while walking from a type met in a walk is met in that
      walk too. */
  lemma {:induction false} ClassWalkTransitive(g: Hierarchy, ty: JType, x: JType)
    requires WF(g) && JTypeOk(g, ty) && x in ClassWalk(g, ty)
    ensures JTypeOk(g, x)
    ensures forall y :: y in ClassWalk(g, x) ==> y in ClassWalk(g, ty)
    decreases |g.types| - IdOf(ty), 1, 0
  {
    match ty
    case Cls(id) =>
      if x != ty {
        assert x in ClassWalkFrom(g, id, 0);
        ClassWalkFromTransitive(g, id, 0, x);
      }
  }

  lemma {:induction false} ClassWalkFromTransitive(g: Hierarchy, id: TypeId, k: nat, x: JType)
    requires WF(g) && id < |g.types| && k <= |SuperInterfaces(g, id)|
    requires x in ClassWalkFrom(g, id, k)
    ensures JTypeOk(g, x)
    ensures forall y :: y in ClassWalk(g, x) ==> y in ClassWalkFrom(g, id, k)
    decreases |g.types| - id, 0, |SuperInterfaces(g, id)| - k
  {
    var s := SuperInterfaces(g, id)[k];
    if x in ClassWalk(g, s) {
      ClassWalkTransitive(g, s, x);
    } else {
      ClassWalkFromTransitive(g, id, k + 1, x);
    }
  }

  /** Every interface met by walking from `x` is already in `acc`. */
  ghost predicate Covered(g: Hierarchy, acc: seq<JType>, x: JType)
    requires WF(g) && JTypeOk(g, x)
  {
    forall y :: y in OnlyInterfaces(g, ClassWalk(g, x)) ==> y in acc
  }

  /** Every element of `acc` numbered `lo` or above is Covered. The elements
      below `lo` are the interfaces whose descent is still in progress. */
  ghost predicate Closed(g: Hierarchy, acc: seq<JType>, lo: nat)
    requires WF(g)
  {
    forall x :: x in acc && JTypeOk(g, x) && lo <= IdOf(x) ==> Covered(g, acc, x)
  }

  /** Adding the interfaces met from `s` to a set Closed above `lo <= IdOf(s)`
      keeps it Closed above `lo`. */
  lemma ClosedAfterWalk(g: Hierarchy, acc: seq<JType>, s: JType, lo: nat)
    requires WF(g) && JTypeOk(g, s) && lo <= IdOf(s)
    requires Closed(g, acc, lo)
    ensures Closed(g, DedupOnto(acc, OnlyInterfaces(g, ClassWalk(g, s))), lo)
  {
    var w := OnlyInterfaces(g, ClassWalk(g, s));
    var acc' := DedupOnto(acc, w);
    DedupOntoContents(acc, w);
    forall x | x in acc' && JTypeOk(g, x) && lo <= IdOf(x) ensures Covered(g, acc', x) {
      if x in acc {
        assert Covered(g, acc, x);
      } else {
        assert x in ClassWalk(g, s);
        ClassWalkTransitive(g, s, x);
      }
    }
  }

  /** The dedup walk equals keeping the first occurrence of each interface in
      the pre-order walk, when the set it starts from is Closed. */
  lemma {:induction false} AddInterfacesIsDedupWalk(g: Hierarchy, ty: JType, acc: seq<JType>)
    requires WF(g) && JTypeOk(g, ty)
    requires Closed(g, acc, IdOf(ty))
    ensures AddInterfaces(g, ty, acc) == DedupOnto(acc, OnlyInterfaces(g, ClassWalk(g, ty)))
    decreases |g.types| - IdOf(ty), 1, 0
  {
    if ty in acc {
      if ty.Cls? {
        assert Covered(g, acc, ty);
        DedupOntoCovered(acc, OnlyInterfaces(g, ClassWalk(g, ty)));
      }
    } else if ty.Cls? {
      var id := ty.id;
      var acc1 := if g.types[id].isInterface then acc + [ty] else acc;
      OnlyInterfacesAppend(g, [ty], ClassWalkFrom(g, id, 0));
      DedupOntoAppend(acc, OnlyInterfaces(g, [ty]), OnlyInterfaces(g, ClassWalkFrom(g, id, 0)));
      assert OnlyInterfaces(g, [ty]) == if g.types[id].isInterface then [ty] else [];
      assert DedupOnto(acc, OnlyInterfaces(g, [ty])) == acc1;
      forall x | x in acc1 && JTypeOk(g, x) && id + 1 <= IdOf(x) ensures Covered(g, acc1, x) {
        assert x in acc;
        assert Covered(g, acc, x);
      }
      AddSupersIsDedupWalk(g, id, 0, acc1);
    }
  }

  lemma {:induction false} AddSupersIsDedupWalk(g: Hierarchy, id: TypeId, k: nat, acc: seq<JType>)
    requires WF(g) && id < |g.types| && k <= |SuperInterfaces(g, id)|
    requires Closed(g, acc, id + 1)
    ensures AddSupers(g, id, k, acc) == DedupOnto(acc, OnlyInterfaces(g, ClassWalkFrom(g, id, k)))
    decreases |g.types| - id, 0, |SuperInterfaces(g, id)| - k
  {
    if k < |SuperInterfaces(g, id)| {
      var s := SuperInterfaces(g, id)[k];
      var w := OnlyInterfaces(g, ClassWalk(g, s));
      assert Closed(g, acc, IdOf(s));
      AddInterfacesIsDedupWalk(g, s, acc);
      var acc' := DedupOnto(acc, w);
      ClosedAfterWalk(g, acc, s, id + 1);
      AddSupersIsDedupWalk(g, id, k + 1, acc');
      OnlyInterfacesAppend(g, ClassWalk(g, s), ClassWalkFrom(g, id, k + 1));
      DedupOntoAppend(acc, w, OnlyInterfaces(g, ClassWalkFrom(g, id, k + 1)));
    }
  }

  /** interfacesOf lists exactly the interfaces met in the pre-order walk over
      plain super-interfaces, each at its first occurrence. */
  lemma InterfacesOfIsFirstOccurrenceWalk(g: Hierarchy, ty: JType)
    requires WF(g) && JTypeOk(g, ty)
    ensures InterfacesOf(g, ty) == DedupOnto([], OnlyInterfaces(g, ClassWalk(g, ty)))
    ensures forall x :: x in InterfacesOf(g, ty) <==> x in ClassWalk(g, ty) && IsInterfaceClass(g, x)
  {
    AddInterfacesIsDedupWalk(g, ty, []);
    DedupOntoContents([], OnlyInterfaces(g, ClassWalk(g, ty)));
  }

  // ---------------------------------------------------------------------
  // actualTypeOf

  /** `s[k]` is the first parameterized type in `s`. */
  predicate FirstParamAt(s: seq<JType>, k: int) {
    0 <= k < |s| && s[k].Param? && forall j :: 0 <= j < k ==> !s[j].Param?
  }

  /** The first type argument of the first parameterized type in `s`. */
  function FirstTypeArgument(g: Hierarchy, s: seq<JType>): (r: Option<JType>)
    requires AllOk(g, s)
    ensures r.None? <==> forall k :: 0 <= k < |s| ==> !s[k].Param?
    ensures r.Some? ==> exists k :: FirstParamAt(s, k) && r.value == s[k].args[0]
    decreases |s|
  {
    if s == [] then None
    else if s[0].Param? then
      assert FirstParamAt(s, 0);
      Some(s[0].args[0])
    else
      var r := FirstTypeArgument(g, s[1..]);
      assert r.Some? ==> exists k :: FirstParamAt(s, k) && r.value == s[k].args[0] by {
        if r.Some? {
          var k :| FirstParamAt(s[1..], k) && r.value == s[1..][k].args[0];
          assert forall j :: 1 <= j < k + 1 ==> s[j] == s[1..][j - 1];
          assert FirstParamAt(s, k + 1);
        }
      }
      assert r.None? ==> forall k :: 0 <= k < |s| ==> !s[k].Param? by {
        if r.None? {
          assert forall k :: 1 <= k < |s| ==> s[k] == s[1..][k - 1];
        }
      }
      r
  }

  /** actualTypeOf(type) as written: it looks for a parameterized type in
      interfacesOf(type). */
  function ActualTypeOf(g: Hierarchy, ty: JType): Option<JType>
    requires WF(g) && JTypeOk(g, ty)
  {
    var s := InterfacesOf(g, ty);
    assert AllOk(g, s);
    FirstTypeArgument(g, s)
  }

  /** interfacesOf holds only plain classes, so actualTypeOf can never find a
      parameterized type and always returns null. */
  lemma ActualTypeOfIsAlwaysNull(g: Hierarchy, ty: JType)
    requires WF(g) && JTypeOk(g, ty)
    ensures ActualTypeOf(g, ty) == None
  {
    var s := InterfacesOf(g, ty);
    assert forall k :: 0 <= k < |s| ==> !s[k].Param?;
  }

  /** Pre-order walk over all generic super-interfaces, parameterized ones
      included, descending into the raw type of a parameterized type. */
  function GenericWalk(g: Hierarchy, ty: JType): (r: seq<JType>)
    requires WF(g) && JTypeOk(g, ty)
    ensures |r| > 0 && r[0] == ty
    ensures AllOk(g, r)
    decreases |g.types| - IdOf(ty), 1, 0
  {
    [ty] + GenericWalkFrom(g, IdOf(ty), 0)
  }

  function GenericWalkFrom(g: Hierarchy, id: TypeId, k: nat): (r: seq<JType>)
    requires WF(g) && id < |g.types| && k <= |SuperInterfaces(g, id)|
    ensures AllOk(g, r)
    ensures forall j :: k <= j < |SuperInterfaces(g, id)| ==> SuperInterfaces(g, id)[j] in r
    decreases |g.types| - id, 0, |SuperInterfaces(g, id)| - k
  {
    if k == |SuperInterfaces(g, id)| then []
    else GenericWalk(g, SuperInterfaces(g, id)[k]) + GenericWalkFrom(g, id, k + 1)
  }

  /** actualTypeOf as evidently intended: the first type argument of the
      first parameterized type met in the generic pre-order walk, or null
      when the walk meets none. A class whose first super-interface is
      parameterized yields that interface's first type argument. */
  function ActualTypeOfFixed(g: Hierarchy, ty: JType): (r: Option<JType>)
    requires WF(g) && JTypeOk(g, ty)
    ensures r.None? <==> forall k :: 0 <= k < |GenericWalk(g, ty)| ==> !GenericWalk(g, ty)[k].Param?
    ensures r.Some? ==> exists k :: FirstParamAt(GenericWalk(g, ty), k) && r.value == GenericWalk(g, ty)[k].args[0]
    ensures ty.Param? ==> r == Some(ty.args[0])
    ensures ty.Cls? && |SuperInterfaces(g, ty.id)| > 0 && SuperInterfaces(g, ty.id)[0].Param?
            ==> r == Some(SuperInterfaces(g, ty.id)[0].args[0])
    ensures ty.Cls? && (exists k :: 0 <= k < |SuperInterfaces(g, ty.id)| && SuperInterfaces(g, ty.id)[k].Param?)
            ==> r.Some?
  {
    var w := GenericWalk(g, ty);
    var found := FirstTypeArgument(g, w);
    assert ty.Param? ==> FirstParamAt(w, 0);
    assert ty.Cls? && |SuperInterfaces(g, ty.id)| > 0 && SuperInterfaces(g, ty.id)[0].Param?
           ==> found == Some(SuperInterfaces(g, ty.id)[0].args[0]) by {
      if ty.Cls? && |SuperInterfaces(g, ty.id)| > 0 && SuperInterfaces(g, ty.id)[0].Param? {
        var first := SuperInterfaces(g, ty.id)[0];
        assert GenericWalkFrom(g, ty.id, 0) == GenericWalk(g, first) + GenericWalkFrom(g, ty.id, 1);
        assert w[1] == first;
        assert FirstParamAt(w, 1);
      }
    }
    assert ty.Cls? && (exists k :: 0 <= k < |SuperInterfaces(g, ty.id)| && SuperInterfaces(g, ty.id)[k].Param?)
           ==> exists j :: 0 <= j < |w| && w[j].Param? by {
      if ty.Cls? && (exists k :: 0 <= k < |SuperInterfaces(g, ty.id)| && SuperInterfaces(g, ty.id)[k].Param?) {
        var k :| 0 <= k < |SuperInterfaces(g, ty.id)| && SuperInterfaces(g, ty.id)[k].Param?;
        assert SuperInterfaces(g, ty.id)[k] in w;
      }
    }
    assert found.Some? ==> exists k :: FirstParamAt(GenericWalk(g, ty), k) && found.value == GenericWalk(g, ty)[k].args[0] by {
      if found.Some? {
        var k :| FirstParamAt(w, k) && found.value == w[k].args[0];
        assert FirstParamAt(GenericWalk(g, ty), k);
      }
    }
    found
  }

  // ---------------------------------------------------------------------
  // typesOf, toClassArray, interfacesWithMethods

  /** The superclass chain as Class types. */
  function ChainTypes(g: Hierarchy, id: TypeId): (r: seq<JType>)
    requires WF(g) && id < |g.types|
    ensures |r| == |SuperclassChain(g, id)|
    ensures forall k :: 0 <= k < |r| ==> r[k] == Cls(SuperclassChain(g, id)[k])
  {
    var c := SuperclassChain(g, id);
    seq(|c|, k requires 0 <= k < |c| => Cls(c[k]))
  }

  /** typesOf(type): interfacesOf(type), then the class and each superclass
      up to Object, still in a LinkedHashSet. */
  function TypesOf(g: Hierarchy, ty: JType): seq<JType>
    requires WF(g) && JTypeOk(g, ty)
  {
    match ty
    case Param(_, _) => InterfacesOf(g, ty)
    case Cls(id) => DedupOnto(InterfacesOf(g, ty), ChainTypes(g, id))
  }

  /** For a class, typesOf is its interfaces followed by its whole superclass
      chain ending in Object; for an interface it is interfacesOf; for a
      parameterized type it is empty. No type appears twice. */
  lemma TypesOfShape(g: Hierarchy, ty: JType)
    requires WF(g) && JTypeOk(g, ty)
    ensures NoDup(TypesOf(g, ty))
    ensures ty.Param? ==> TypesOf(g, ty) == []
    ensures ty.Cls? && g.types[ty.id].isInterface ==> TypesOf(g, ty) == InterfacesOf(g, ty)
    ensures ty.Cls? && !g.types[ty.id].isInterface ==>
      TypesOf(g, ty) == InterfacesOf(g, ty) + ChainTypes(g, ty.id)
      && TypesOf(g, ty)[|TypesOf(g, ty)| - 1] == Cls(g.objectClass)
  {
    match ty
    case Param(_, _) =>
      assert InterfacesOf(g, ty) == AddInterfaces(g, ty, []);
    case Cls(id) =>
      if g.types[id].isInterface {
        TypesOfInterface(g, id);
      } else {
        TypesOfClass(g, id);
      }
  }

  lemma TypesOfInterface(g: Hierarchy, id: TypeId)
    requires WF(g) && id < |g.types| && g.types[id].isInterface
    ensures TypesOf(g, Cls(id)) == InterfacesOf(g, Cls(id))
  {
    var ifaces := InterfacesOf(g, Cls(id));
    var chain := ChainTypes(g, id);
    SuperclassChainShape(g, id);
    assert chain == [Cls(id)];
    DedupOntoCovered(ifaces, chain);
  }

  lemma TypesOfClass(g: Hierarchy, id: TypeId)
    requires WF(g) && id < |g.types| && !g.types[id].isInterface
    ensures TypesOf(g, Cls(id)) == InterfacesOf(g, Cls(id)) + ChainTypes(g, id)
    ensures NoDup(InterfacesOf(g, Cls(id)) + ChainTypes(g, id))
    ensures ChainTypes(g, id)[|ChainTypes(g, id)| - 1] == Cls(g.objectClass)
  {
    var ifaces := InterfacesOf(g, Cls(id));
    var chain := ChainTypes(g, id);
    SuperclassChainShape(g, id);
    ChainNoInterfaces(g, id, ifaces);
    ChainNoDup(g, id);
    DedupOntoFresh(ifaces, chain);
    NoDupAppend(ifaces, chain);
  }

  lemma ChainNoInterfaces(g: Hierarchy, id: TypeId, ifaces: seq<JType>)
    requires WF(g) && id < |g.types| && !g.types[id].isInterface
    requires AllInterfaceClasses(g, ifaces)
    ensures forall x :: x in ChainTypes(g, id) ==> x !in ifaces
  {
    var chain := ChainTypes(g, id);
    SuperclassChainShape(g, id);
    forall x | x in chain ensures x !in ifaces {
      var k :| 0 <= k < |chain| && chain[k] == x;
      assert !IsInterfaceClass(g, x);
    }
  }

  lemma ChainNoDup(g: Hierarchy, id: TypeId)
    requires WF(g) && id < |g.types|
    ensures NoDup(ChainTypes(g, id))
  {
    var chain := ChainTypes(g, id);
    forall i, j | 0 <= i < j < |chain| ensures chain[i] != chain[j] {
      ChainIncreasing(g, id, i, j);
    }
  }

  lemma {:induction false} ChainIncreasing(g: Hierarchy, id: TypeId, i: nat, j: nat)
    requires WF(g) && id < |g.types|
    requires i < j < |SuperclassChain(g, id)|
    ensures SuperclassChain(g, id)[i] < SuperclassChain(g, id)[j]
    decreases j - i
  {
    var c := SuperclassChain(g, id);
    if i + 1 < j {
      ChainIncreasing(g, id, i + 1, j);
    }
  }

  lemma NoDupAppend<T>(a: seq<T>, b: seq<T>)
    requires NoDup(a) && NoDup(b)
    requires forall x :: x in b ==> x !in a
    ensures NoDup(a + b)
  {
    forall i, j | 0 <= i < j < |a + b| ensures (a + b)[i] != (a + b)[j] {
      if i < |a| <= j {
        assert (a + b)[j] in b;
        assert (a + b)[i] in a;
      } else if |a| <= i {
        assert (a + b)[i] == b[i - |a|] && (a + b)[j] == b[j - |a|];
      }
    }
  }

  /** toClassArray(types): each element cast to Class; a parameterized type
      makes the cast throw. */
  function ToClassArray(types: seq<JType>): (r: Result<seq<TypeId>, ReflectionError>)
    ensures r.Ok? <==> forall k :: 0 <= k < |types| ==> types[k].Cls?
    ensures r.Ok? ==> |r.value| == |types| && forall k :: 0 <= k < |types| ==> r.value[k] == types[k].id
    decreases |types|
  {
    if types == [] then Ok([])
    else if types[0].Param? then Err(ClassCast)
    else match ToClassArray(types[1..])
      case Err(e) => Err(e)
      case Ok(rest) => Ok([types[0].id] + rest)
  }

  /** The interface closure always converts to a class array. */
  lemma InterfacesToClassArray(g: Hierarchy, ty: JType)
    requires WF(g) && JTypeOk(g, ty)
    ensures ToClassArray(InterfacesOf(g, ty)).Ok?
    ensures |ToClassArray(InterfacesOf(g, ty)).value| == |InterfacesOf(g, ty)|
  {
    var s := InterfacesOf(g, ty);
    assert forall k :: 0 <= k < |s| ==> IsInterfaceClass(g, s[k]);
  }

  /** interfacesWithMethods: keep the interfaces declaring at least one method. */
  predicate HasMethods(g: Hierarchy, ty: JType) {
    ty.Cls? && ty.id < |g.types| && g.types[ty.id].isInterface && |g.types[ty.id].declaredMethods| > 0
  }

  function InterfacesWithMethods(g: Hierarchy, types: seq<JType>): (r: seq<JType>)
    ensures forall y :: y in r <==> y in types && HasMethods(g, y)
    ensures |r| <= |types|
    decreases |types|
  {
    if types == [] then []
    else (if HasMethods(g, types[0]) then [types[0]] else []) + InterfacesWithMethods(g, types[1..])
  }

  /** The filter keeps the relative order: filtering a concatenation
      concatenates the filtered parts, and a duplicate-free set stays so. */
  lemma {:induction false} InterfacesWithMethodsKeepsOrder(g: Hierarchy, a: seq<JType>, b: seq<JType>)
    ensures InterfacesWithMethods(g, a + b) == InterfacesWithMethods(g, a) + InterfacesWithMethods(g, b)
    ensures NoDup(a) ==> NoDup(InterfacesWithMethods(g, a))
    decreases |a|
  {
    if a == [] {
      assert a + b == b;
    } else {
      assert (a + b)[1..] == a[1..] + b;
      InterfacesWithMethodsKeepsOrder(g, a[1..], b);
      if NoDup(a) {
        assert NoDup(a[1..]);
        var rest := InterfacesWithMethods(g, a[1..]);
        if HasMethods(g, a[0]) {
          assert a[0] !in a[1..];
          assert a[0] !in rest;
          NoDupAppend([a[0]], rest);
        }
      }
    }
  }

  // ---------------------------------------------------------------------
  // methodsOf / fieldsOf / constructorsOf

  function DeclaredMembers(g: Hierarchy, id: TypeId, kind: MemberKind): seq<MemberId>
    requires id < |g.types|
  {
    match kind
    case Methods => g.types[id].declaredMethods
    case Fields => g.types[id].declaredFields
    case Constructors => g.types[id].declaredConstructors
  }

  /** addMethods / addFields / addConstructors: the declared members of the
      class, then of its superclass, and so on, stopping before Object; a
      null class gives nothing. */
  function MembersOf(g: Hierarchy, c: Option<TypeId>, kind: MemberKind): seq<MemberId>
    requires WF(g) && (c.Some? ==> c.value < |g.types|)
    decreases if c.Some? then |g.types| - c.value else 0, if c.Some? then 1 else 0
  {
    match c
    case None => []
    case Some(id) =>
      if id == g.objectClass then [] else DeclaredMembers(g, id, kind) + MembersOf(g, Superclass(g, id), kind)
  }

  /** The declared members of each type of `ids`, concatenated in order. */
  function GatherMembers(g: Hierarchy, kind: MemberKind, ids: seq<TypeId>): seq<MemberId>
    requires forall k :: 0 <= k < |ids| ==> ids[k] < |g.types|
    decreases |ids|
  {
    if ids == [] then [] else DeclaredMembers(g, ids[0], kind) + GatherMembers(g, kind, ids[1..])
  }

  /** The members collected are those of the superclass chain without its
      Object element: all but the last element for a class, the interface
      itself for an interface. */
  lemma {:induction false} MembersOfFollowsChain(g: Hierarchy, id: TypeId, kind: MemberKind)
    requires WF(g) && id < |g.types|
    ensures var chain := SuperclassChain(g, id);
      if g.types[id].isInterface then MembersOf(g, Some(id), kind) == DeclaredMembers(g, id, kind)
      else MembersOf(g, Some(id), kind) == GatherMembers(g, kind, chain[..|chain| - 1])
    decreases |g.types| - id
  {
    var chain := SuperclassChain(g, id);
    SuperclassChainShape(g, id);
    match Superclass(g, id)
    case None =>
      if !g.types[id].isInterface {
        assert chain[..|chain| - 1] == [];
      } else {
        assert id != g.objectClass;
        assert MembersOf(g, Some(id), kind) == DeclaredMembers(g, id, kind) + [];
      }
    case Some(sc) =>
      MembersOfFollowsChain(g, sc, kind);
      var rest := SuperclassChain(g, sc);
      assert chain == [id] + rest;
      assert chain[..|chain| - 1] == [id] + rest[..|rest| - 1];
      assert (chain[..|chain| - 1])[1..] == rest[..|rest| - 1];
  }
}
