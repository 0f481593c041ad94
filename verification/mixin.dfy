/** The mixin descriptor (org.qi4j.api.model.Mixin): an implementation class
    together with the modifiers its class hierarchy declares. */
module MixinModel {
  import opened Hierarchy

  datatype Modifier = Modifier(modifierClass: TypeId)

  datatype Mixin = Mixin(mixinClass: TypeId, modifiers: seq<Modifier>)

  /** findModifiers(aClass): the class's own @ModifiedBy entries, then those
      found from its superclass. The annotation of an interface or of Object
      is read, but the walk does not go past it. */
  function FindModifiers(g: Hierarchy, c: TypeId): seq<TypeId>
    requires WF(g) && c < |g.types|
    decreases |g.types| - c
  {
    Declared(g, c, ModifiedBy)
      + if !g.types[c].isInterface && c != g.objectClass then FindModifiers(g, Superclass(g, c).value) else []
  }

  /** new Mixin(mixinClass): one Modifier per class found by findModifiers,
      in that order. */
  function NewMixin(g: Hierarchy, c: TypeId): (m: Mixin)
    requires WF(g) && c < |g.types|
    ensures m.mixinClass == c
    ensures |m.modifiers| == |FindModifiers(g, c)|
    ensures forall k :: 0 <= k < |m.modifiers| ==> m.modifiers[k].modifierClass == FindModifiers(g, c)[k]
  {
    var found := FindModifiers(g, c);
    Mixin(c, seq(|found|, k requires 0 <= k < |found| => Modifier(found[k])))
  }

  function GetModifiers(m: Mixin): seq<Modifier> {
    m.modifiers
  }

  /** The modifiers are the @ModifiedBy entries of each class of the
      superclass chain, Object included, in chain order. */
  lemma {:induction false} FindModifiersFollowsChain(g: Hierarchy, c: TypeId)
    requires WF(g) && c < |g.types|
    ensures FindModifiers(g, c) == GatherDeclared(g, ModifiedBy, SuperclassChain(g, c))
    decreases |g.types| - c
  {
    var chain := SuperclassChain(g, c);
    match Superclass(g, c)
    case None =>
      assert chain == [c];
      assert GatherDeclared(g, ModifiedBy, chain) == Declared(g, c, ModifiedBy) + GatherDeclared(g, ModifiedBy, []);
    case Some(sc) =>
      FindModifiersFollowsChain(g, sc);
      assert chain[1..] == SuperclassChain(g, sc);
  }

  /** A mixin's modifiers are exactly what construction found; when no class
      of the chain carries @ModifiedBy the list is empty. */
  lemma GetModifiersOfNewMixin(g: Hierarchy, c: TypeId)
    requires WF(g) && c < |g.types|
    ensures |GetModifiers(NewMixin(g, c))| == |GatherDeclared(g, ModifiedBy, SuperclassChain(g, c))|
    ensures forall k :: 0 <= k < |GetModifiers(NewMixin(g, c))| ==>
      GetModifiers(NewMixin(g, c))[k] == Modifier(GatherDeclared(g, ModifiedBy, SuperclassChain(g, c))[k])
    ensures (forall k :: 0 <= k < |SuperclassChain(g, c)| ==> Declared(g, SuperclassChain(g, c)[k], ModifiedBy) == [])
            ==> GetModifiers(NewMixin(g, c)) == []
  {
    FindModifiersFollowsChain(g, c);
    var chain := SuperclassChain(g, c);
    if forall k :: 0 <= k < |chain| ==> Declared(g, chain[k], ModifiedBy) == [] {
      NothingGathered(g, ModifiedBy, chain);
    }
  }

  lemma {:induction false} NothingGathered(g: Hierarchy, a: Annotation, ids: seq<TypeId>)
    requires forall k :: 0 <= k < |ids| ==> Declared(g, ids[k], a) == []
    ensures GatherDeclared(g, a, ids) == []
    decreases |ids|
  {
    if ids != [] {
      NothingGathered(g, a, ids[1..]);
    }
  }
}
