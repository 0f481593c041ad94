/** Small concrete hierarchies that exhibit the behaviour of the walks on
    particular inputs. */
module ConcreteHierarchies {
  import opened Results
  import opened Hierarchy
  import opened ClassUtil
  import opened AssociationInfo
  import CompositeModelFactory

  function Interface(name: string, supers: seq<JType>, annotations: map<Annotation, seq<TypeId>>): TypeDecl {
    TypeDecl(name, true, supers, None, annotations, [], [], [], [], [])
  }

  function Class(name: string, superclass: Option<TypeId>): TypeDecl {
    TypeDecl(name, false, [], superclass, map[], [], [], [], [], [])
  }

  /** interface Tagged extends Comparable<Tagged>, Association<Person>;
      interface StringList extends List<String>. */
  function Generics(): Hierarchy {
    Hierarchy(
      [ Interface("Tagged", [Param(2, [Cls(0)]), Param(3, [Cls(5)])], map[]),
        Interface("StringList", [Param(4, [Cls(6)])], map[]),
        Interface("Comparable", [], map[]),
        Interface("Association", [Cls(7)], map[]),
        Interface("List", [], map[]),
        Interface("Person", [], map[]),
        Class("String", Some(8)),
        Interface("AbstractAssociation", [], map[]),
        Class("Object", None) ],
      8, 7, 7, 7, 6, 6, 7)
  }

  lemma GenericsWF()
    ensures WF(Generics())
  {
    var g := Generics();
    forall i | 0 <= i < |g.types| ensures NodeOk(g, i) {
      assert i in {0, 1, 2, 3, 4, 5, 6, 7, 8};
    }
  }

  /** actualTypeOf(StringList) is null as written, although StringList
      extends List<String>; the corrected search finds String. */
  lemma ActualTypeOfMissesStringList()
    ensures WF(Generics())
    ensures ActualTypeOf(Generics(), Cls(1)) == None
    ensures ActualTypeOfFixed(Generics(), Cls(1)) == Some(Cls(6))
  {
    GenericsWF();
    var g := Generics();
    ActualTypeOfIsAlwaysNull(g, Cls(1));
    var w := GenericWalk(g, Cls(1));
    assert w[0] == Cls(1);
    assert w[1] == Param(4, [Cls(6)]) by {
      assert GenericWalkFrom(g, 1, 0) == GenericWalk(g, Param(4, [Cls(6)])) + GenericWalkFrom(g, 1, 1);
    }
    assert FirstTypeArgument(g, w) == FirstTypeArgument(g, w[1..]);
  }

  lemma AssociationIsAnAssociation()
    ensures WF(Generics())
    ensures IsAssociationType(Generics(), Param(3, [Cls(5)]))
    ensures !IsAssociationType(Generics(), Param(2, [Cls(0)]))
  {
    GenericsWF();
    var g := Generics();
    assert Parents(g, 3)[0] == 7;
    assert SubtypeOf(g, 7, 7);
    assert Parents(g, 2) == [];
  }

  /** getAssociationType(Tagged) throws ClassCastException as written: it
      casts Comparable<Tagged> to Class before reaching Association<Person>.
      The corrected search returns Person. */
  lemma AssociationTypeThrowsOnComparable()
    ensures WF(Generics())
    ensures AssociationTypeAsWritten(Generics(), Cls(0)) == Err(ClassCast)
    ensures AssociationType(Generics(), Cls(0)) == Some(Cls(5))
  {
    GenericsWF();
    AssociationIsAnAssociation();
    var g := Generics();
    assert SuperInterfaces(g, 0) == [Param(2, [Cls(0)]), Param(3, [Cls(5)])];
    assert SuperInterfaces(g, 2) == [];
    assert AssociationTypeAsWritten(g, Param(2, [Cls(0)])) == Err(ClassCast);
    assert Search(g, 2, 0) == None;
    assert AssociationType(g, Param(2, [Cls(0)])) == None;
    assert Search(g, 0, 1) == Some(Cls(5));
  }

  /** interface D extends B, C; interface B extends A; interface C extends A;
      @Mixins(AImpl.class) interface A. */
  function Diamond(): Hierarchy {
    Hierarchy(
      [ Interface("D", [Cls(1), Cls(2)], map[]),
        Interface("B", [Cls(3)], map[]),
        Interface("C", [Cls(3)], map[]),
        Interface("A", [], map[Mixins := [4]]),
        Class("AImpl", Some(5)),
        Class("Object", None) ],
      5, 3, 3, 3, 4, 4, 3)
  }

  lemma DiamondWF()
    ensures WF(Diamond())
  {
    var g := Diamond();
    forall i | 0 <= i < |g.types| ensures NodeOk(g, i) {
      assert i in {0, 1, 2, 3, 4, 5};
    }
  }

  /** The mixin declared on the shared ancestor A is collected twice from D,
      once through B and once through C. */
  lemma DiamondCollectsSharedMixinTwice()
    ensures WF(Diamond())
    ensures CompositeModelFactory.Collect(Diamond(), Mixins, 0)
      == [CompositeModelFactory.Declaration(4, 3), CompositeModelFactory.Declaration(4, 3)]
  {
    DiamondWF();
    var g := Diamond();
    var fromA := CompositeModelFactory.Collect(g, Mixins, 3);
    assert Declared(g, 3, Mixins) == [4];
    assert Interfaces(g, 3) == [];
    assert fromA == [CompositeModelFactory.Declaration(4, 3)];
    assert Declared(g, 1, Mixins) == [] && Interfaces(g, 1) == [3];
    assert CompositeModelFactory.CollectFrom(g, Mixins, 1, 0) == fromA + CompositeModelFactory.CollectFrom(g, Mixins, 1, 1);
    assert CompositeModelFactory.Collect(g, Mixins, 1) == fromA;
    assert Declared(g, 2, Mixins) == [] && Interfaces(g, 2) == [3];
    assert CompositeModelFactory.CollectFrom(g, Mixins, 2, 0) == fromA + CompositeModelFactory.CollectFrom(g, Mixins, 2, 1);
    assert CompositeModelFactory.Collect(g, Mixins, 2) == fromA;
    assert Declared(g, 0, Mixins) == [] && Interfaces(g, 0) == [1, 2];
    assert CompositeModelFactory.CollectFrom(g, Mixins, 0, 1) == fromA + CompositeModelFactory.CollectFrom(g, Mixins, 0, 2);
  }
}
