/** Association metadata (org.qi4j.api.entity.association.GenericAssociationInfo):
    the entity-type URI to qualified-name rewrite, the search for the type an
    association refers to, and the meta-info flags. */
module AssociationInfo {
  import opened Results
  import opened Hierarchy
  import opened ClassUtil

  /** The URI prefix whose length toQualifiedName skips. */
  const EntityTypeUrnPrefix: string := "urn:qi4j:entitytype:"

  datatype StringError = StringIndexOutOfBounds

  /** `s` with every `#` replaced by `:`. */
  function ReplaceHash(s: string): (r: string)
    ensures |r| == |s|
    ensures forall k :: 0 <= k < |r| ==> r[k] == (if s[k] == '#' then ':' else s[k])
    decreases |s|
  {
    if s == [] then [] else [if s[0] == '#' then ':' else s[0]] + ReplaceHash(s[1..])
  }

  /** toQualifiedName(uri): drops as many characters as the prefix has,
      without comparing them, then turns each `#` into `:`. A URI shorter
      than the prefix makes substring throw. */
  function ToQualifiedName(uri: string): (r: Result<string, StringError>)
    ensures r.Err? <==> |uri| < |EntityTypeUrnPrefix|
    ensures r.Ok? ==> |r.value| == |uri| - |EntityTypeUrnPrefix| && '#' !in r.value
    ensures r.Ok? ==> forall k :: 0 <= k < |r.value| ==>
      r.value[k] == (if uri[k + |EntityTypeUrnPrefix|] == '#' then ':' else uri[k + |EntityTypeUrnPrefix|])
  {
    if |uri| < |EntityTypeUrnPrefix| then Err(StringIndexOutOfBounds)
    else
      ReplaceHashKeepsNoHash(uri[|EntityTypeUrnPrefix|..]);
      Ok(ReplaceHash(uri[|EntityTypeUrnPrefix|..]))
  }

  lemma ReplaceHashKeepsNoHash(s: string)
    ensures '#' !in ReplaceHash(s)
  {
    var r := ReplaceHash(s);
    forall k | 0 <= k < |r| ensures r[k] != '#' {
    }
  }

  /** The URI of a qualified name, the inverse direction: the prefix, then
      the name with each `:` written as `#`. */
  function ToUri(name: string): (u: string)
    ensures |u| == |EntityTypeUrnPrefix| + |name|
    ensures u[..|EntityTypeUrnPrefix|] == EntityTypeUrnPrefix
  {
    EntityTypeUrnPrefix + seq(|name|, k requires 0 <= k < |name| => if name[k] == ':' then '#' else name[k])
  }

  /** A name survives the round trip through its URI exactly when it holds no
      `#`. */
  lemma QualifiedNameRoundTrip(name: string)
    ensures ToQualifiedName(ToUri(name)) == Ok(name) <==> '#' !in name
  {
    var u := ToUri(name);
    var r := ToQualifiedName(u);
    if '#' !in name {
      assert r.Ok? && |r.value| == |name|;
      forall k | 0 <= k < |name| ensures r.value[k] == name[k] {
        assert u[k + |EntityTypeUrnPrefix|] == if name[k] == ':' then '#' else name[k];
      }
      assert r.value == name;
    }
  }

  /** The prefix characters are never inspected. */
  lemma PrefixIgnored(p: string, q: string, s: string)
    requires |p| == |q| == |EntityTypeUrnPrefix|
    ensures ToQualifiedName(p + s) == ToQualifiedName(q + s)
  {
    assert (p + s)[|p|..] == s;
    assert (q + s)[|q|..] == s;
  }

  // getAssociationType

  predicate IsAssociationType(g: Hierarchy, ty: JType)
    requires WF(g) && JTypeOk(g, ty)
  {
    ty.Param? && SubtypeOf(g, ty.raw, g.abstractAssociation)
  }

  /** getAssociationType(type) as written: the first type argument of an
      AbstractAssociation parameterization, else the first result found among
      the generic super-interfaces; any other parameterized type reaches the
      cast to Class and throws ClassCastException. */
  function AssociationTypeAsWritten(g: Hierarchy, ty: JType): Result<Option<JType>, ReflectionError>
    requires WF(g) && JTypeOk(g, ty)
    decreases |g.types| - IdOf(ty), 1, 0
  {
    if IsAssociationType(g, ty) then Ok(Some(ty.args[0]))
    else if ty.Param? then Err(ClassCast)
    else SearchAsWritten(g, ty.id, 0)
  }

  function SearchAsWritten(g: Hierarchy, id: TypeId, k: nat): Result<Option<JType>, ReflectionError>
    requires WF(g) && id < |g.types| && k <= |SuperInterfaces(g, id)|
    decreases |g.types| - id, 0, |SuperInterfaces(g, id)| - k
  {
    if k == |SuperInterfaces(g, id)| then Ok(None)
    else match AssociationTypeAsWritten(g, SuperInterfaces(g, id)[k])
      case Err(e) => Err(e)
      case Ok(Some(t)) => Ok(Some(t))
      case Ok(None) => SearchAsWritten(g, id, k + 1)
  }

  /** getAssociationType as evidently intended: a parameterized type that is
      not an association is searched through its raw type instead of being
      cast. */
  function AssociationType(g: Hierarchy, ty: JType): (r: Option<JType>)
    requires WF(g) && JTypeOk(g, ty)
    ensures IsAssociationType(g, ty) ==> r == Some(ty.args[0])
    decreases |g.types| - IdOf(ty), 1, 0
  {
    if IsAssociationType(g, ty) then Some(ty.args[0])
    else Search(g, IdOf(ty), 0)
  }

  function Search(g: Hierarchy, id: TypeId, k: nat): Option<JType>
    requires WF(g) && id < |g.types| && k <= |SuperInterfaces(g, id)|
    decreases |g.types| - id, 0, |SuperInterfaces(g, id)| - k
  {
    if k == |SuperInterfaces(g, id)| then None
    else match AssociationType(g, SuperInterfaces(g, id)[k])
      case Some(t) => Some(t)
      case None => Search(g, id, k + 1)
  }

  /** Reference definition: the first type argument of the first association
      parameterization in a list of types. */
  function FirstAssociation(g: Hierarchy, s: seq<JType>): (r: Option<JType>)
    requires WF(g) && AllOk(g, s)
    ensures r.Some? <==> exists k :: 0 <= k < |s| && IsAssociationType(g, s[k])
    decreases |s|
  {
    if s == [] then None
    else if IsAssociationType(g, s[0]) then Some(s[0].args[0])
    else
      var r := FirstAssociation(g, s[1..]);
      assert r.Some? ==> exists k :: 0 <= k < |s| && IsAssociationType(g, s[k]) by {
        if r.Some? {
          var k :| 0 <= k < |s[1..]| && IsAssociationType(g, s[1..][k]);
          assert s[k + 1] == s[1..][k];
        }
      }
      r
  }

  lemma {:induction false} FirstAssociationAppend(g: Hierarchy, a: seq<JType>, b: seq<JType>)
    requires WF(g) && AllOk(g, a) && AllOk(g, b)
    ensures AllOk(g, a + b)
    ensures FirstAssociation(g, a + b) == if FirstAssociation(g, a).Some? then FirstAssociation(g, a) else FirstAssociation(g, b)
    decreases |a|
  {
    assert forall k :: 0 <= k < |a + b| ==> (a + b)[k] == if k < |a| then a[k] else b[k - |a|];
    if a == [] {
      assert a + b == b;
    } else {
      assert (a + b)[1..] == a[1..] + b;
      FirstAssociationAppend(g, a[1..], b);
    }
  }

  /** The search returns the first association parameterization met in the
      generic pre-order walk of the type. */
  lemma {:induction false} AssociationTypeIsFirstInWalk(g: Hierarchy, ty: JType)
    requires WF(g) && JTypeOk(g, ty)
    ensures AssociationType(g, ty) == FirstAssociation(g, GenericWalk(g, ty))
    decreases |g.types| - IdOf(ty), 1, 0
  {
    var w := GenericWalk(g, ty);
    assert w == [ty] + GenericWalkFrom(g, IdOf(ty), 0);
    if !IsAssociationType(g, ty) {
      SearchIsFirstInWalk(g, IdOf(ty), 0);
      assert w[1..] == GenericWalkFrom(g, IdOf(ty), 0);
    }
  }

  lemma {:induction false} SearchIsFirstInWalk(g: Hierarchy, id: TypeId, k: nat)
    requires WF(g) && id < |g.types| && k <= |SuperInterfaces(g, id)|
    ensures Search(g, id, k) == FirstAssociation(g, GenericWalkFrom(g, id, k))
    decreases |g.types| - id, 0, |SuperInterfaces(g, id)| - k
  {
    if k < |SuperInterfaces(g, id)| {
      var s := SuperInterfaces(g, id)[k];
      AssociationTypeIsFirstInWalk(g, s);
      SearchIsFirstInWalk(g, id, k + 1);
      FirstAssociationAppend(g, GenericWalk(g, s), GenericWalkFrom(g, id, k + 1));
    }
  }

  /** Whenever the code as written does not throw, it agrees with the
      corrected search. */
  lemma {:induction false} AsWrittenAgreesWhenItReturns(g: Hierarchy, ty: JType)
    requires WF(g) && JTypeOk(g, ty)
    ensures AssociationTypeAsWritten(g, ty).Ok? ==> AssociationTypeAsWritten(g, ty).value == AssociationType(g, ty)
    decreases |g.types| - IdOf(ty), 1, 0
  {
    if !IsAssociationType(g, ty) && ty.Cls? {
      SearchAsWrittenAgrees(g, ty.id, 0);
    }
  }

  lemma {:induction false} SearchAsWrittenAgrees(g: Hierarchy, id: TypeId, k: nat)
    requires WF(g) && id < |g.types| && k <= |SuperInterfaces(g, id)|
    ensures SearchAsWritten(g, id, k).Ok? ==> SearchAsWritten(g, id, k).value == Search(g, id, k)
    decreases |g.types| - id, 0, |SuperInterfaces(g, id)| - k
  {
    if k < |SuperInterfaces(g, id)| {
      AsWrittenAgreesWhenItReturns(g, SuperInterfaces(g, id)[k]);
      SearchAsWrittenAgrees(g, id, k + 1);
    }
  }

  // the constructor and its flags

  /** The meta-info kinds the constructor looks up. */
  datatype MetaInfoKind = Immutable | Aggregated | OtherInfo(name: string)

  datatype ConstructionError = NullMetaInfo

  datatype AssociationInfo = AssociationInfo(
    qualifiedName: string,
    associationType: Option<JType>,
    metaInfo: set<MetaInfoKind>,
    immutable: bool,
    aggregated: bool)

  /** new GenericAssociationInfo(accessor, metainfo), with the accessor given
      by its qualified name and generic return type. A null meta-info object
      throws at the first lookup. */
  function NewAssociationInfo(g: Hierarchy, qualifiedName: string, returnType: JType, metaInfo: Option<set<MetaInfoKind>>): (r: Result<AssociationInfo, ConstructionError>)
    requires WF(g) && JTypeOk(g, returnType)
    ensures r.Err? <==> metaInfo.None?
    ensures r.Ok? ==>
      && r.value.qualifiedName == qualifiedName && r.value.metaInfo == metaInfo.value
      && r.value.associationType == FirstAssociation(g, GenericWalk(g, returnType))
  {
    match metaInfo
    case None => Err(NullMetaInfo)
    case Some(info) =>
      AssociationTypeIsFirstInWalk(g, returnType);
      Ok(AssociationInfo(qualifiedName, AssociationType(g, returnType), info, Immutable in info, Aggregated in info))
  }

  function IsImmutable(a: AssociationInfo): bool { a.immutable }

  function IsAggregated(a: AssociationInfo): bool { a.aggregated }

  /** isImmutable() and isAggregated() report exactly whether the
      corresponding meta-info was present at construction. */
  lemma FlagsReflectMetaInfo(g: Hierarchy, qualifiedName: string, returnType: JType, info: set<MetaInfoKind>)
    requires WF(g) && JTypeOk(g, returnType)
    ensures var r := NewAssociationInfo(g, qualifiedName, returnType, Some(info));
      && r.Ok?
      && (IsImmutable(r.value) <==> Immutable in info)
      && (IsAggregated(r.value) <==> Aggregated in info)
  {
  }
}
