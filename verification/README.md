# qi4j core, modelled in Dafny

This project models the composite-model core of qi4j, a composite-oriented
programming runtime for Java:

- **Composite models.** `CompositeModelFactory` checks that a composite class
  is an interface extending `Composite`. It then builds the composite's model:
  - the public methods;
  - the mixins declared with `@Mixins`, plus the standard `CompositeMixin` and
    `EntityImpl`;
  - the assertions and side-effects;
  - the constraint declarations;
  - the "this-as" method models of the fragments.

  Every fragment list comes from the same walk over the composite's
  super-interfaces.
- **Reflection helpers.** `ClassUtil` provides interface closures, type sets,
  the declared members along a superclass chain, and the first type argument
  of a generic type.
- **Modifiers.** `Mixin` collects the `@ModifiedBy` modifiers along the
  superclass chain of a mixin class.
- **Associations.** `GenericAssociationInfo` finds the type an association
  refers to and rewrites entity-type URNs.
- **Lock discipline.** The unit of work of `ConcurrentModificationCheckConcern`
  remembers the version of each entity state it loads. It checks and forgets
  those versions under a read-write lock.
- **Object factory.** `ObjectFactoryImpl` creates proxies, casts objects by
  wrapping them, and tests instances through the wrapping.
- **Service lookup.** `LayerServiceLocator` looks up services across the
  modules of a layer.
- **Small classes.** `PropertyInstance`, `EntityCompositeAlreadyExistsException`
  and two test fragments, `AccountMixin` and `FooModifier`.

How Java is represented:

- **Types.** The class universe is a `Hierarchy`: a sequence of `TypeDecl`s
  indexed by `TypeId`. Every super-interface and superclass edge points to a
  larger index. This is a topological numbering of the JVM's acyclic type
  graph, and it gives every walk a termination measure.
- **Generic types.** A generic type (`java.lang.reflect.Type`) is a
  `JType`: a plain class `Cls(id)` or a parameterized type `Param(raw, args)`.
  - `getGenericInterfaces()` keeps the parameterized types.
  - `getInterfaces()` keeps only their raw classes.
- **Annotations.** A class annotation is an entry of a map from `Annotation`
  to the list in its `value()`. A missing key is an absent annotation.
- **Exceptions** are `Err` values of a `Result`. `null` is `None`, or an
  explicit `Null` constructor where the object is a Java reference.
- **Collections.**
  - A `LinkedHashSet` is an insertion-ordered, duplicate-free sequence, built
    by `Seqs.DedupOnto`.
  - A `HashMap` is a Dafny `map`.
  - Java `int` arithmetic is written out as wrap-around modulo 2^32.
- **The unit of work** is a value: the loaded states plus a log of every call
  it makes. The calls go to the lock, the wrapped unit of work (the
  delegate) and the shared version registry.
  - Lock holds and the lock discipline (`Guarded`) are read off the log.
  - What the delegate and the version registry do is an input of each
    operation.

Modules, one per file:
- `Results`, `Seqs` and `Hierarchy` are shared definitions.
- `ClassUtil`, `MixinModel`, `CompositeModelFactory`, `AssociationInfo`,
  `ConcurrentModification`, `ObjectFactory`, `LayerServiceLocator`,
  `PropertyInstance`, `AccountMixin`, `FooModifier` and `EntityExists` follow
  the source classes.
- `ConcreteHierarchies` holds small example hierarchies with the facts proved
  about them.

## Model

| member | source | states |
|---|---|---|
| ClassUtil.InterfacesOf | api/src/main/java/org/qi4j/util/ClassUtil.java:53-66 | interfacesOf has no duplicates and holds only interfaces. It contains the type itself exactly when the type is an interface, and then lists it first. |
| ClassUtil.AddInterfacesIsDedupWalk | api/src/main/java/org/qi4j/util/ClassUtil.java:174-194 | addInterfaces adds the interfaces met in a pre-order walk over plain super-interfaces, each at its first occurrence. A type already in the set is skipped with its ancestors. A parameterized type is neither added nor descended into. |
| ClassUtil.InterfacesOfIsFirstOccurrenceWalk | api/src/main/java/org/qi4j/util/ClassUtil.java:53-66 | interfacesOf equals the first-occurrence deduplication of that walk. Its members are exactly the interfaces the walk meets. |
| ClassUtil.InterfacesWithMethods | api/src/main/java/org/qi4j/util/ClassUtil.java:68-80 | A type is kept exactly when it is in the input and is an interface declaring at least one method. The result is no longer than the input. |
| ClassUtil.InterfacesWithMethodsKeepsOrder | api/src/main/java/org/qi4j/util/ClassUtil.java:68-80 | The filter keeps relative order: filtering a concatenation concatenates the filtered parts. A duplicate-free input gives a duplicate-free result. |
| ClassUtil.TypesOfShape | api/src/main/java/org/qi4j/util/ClassUtil.java:82-98 | For a class, typesOf is its interfaces followed by its whole superclass chain, ending in Object. For an interface it is interfacesOf; for a parameterized type it is empty. It never holds a type twice. |
| ClassUtil.ToClassArray | api/src/main/java/org/qi4j/util/ClassUtil.java:101-111 | toClassArray succeeds exactly when every element is a plain class and then keeps them in order. Otherwise the cast throws ClassCastException. |
| ClassUtil.InterfacesToClassArray | api/src/main/java/org/qi4j/util/ClassUtil.java:101-111 | The result of interfacesOf always converts to a class array of the same length. |
| ClassUtil.ActualTypeOfIsAlwaysNull | api/src/main/java/org/qi4j/util/ClassUtil.java:113-124 | As written, actualTypeOf returns null for every type, because interfacesOf never contains a parameterized type (see Findings). |
| ClassUtil.ActualTypeOfFixed | api/src/main/java/org/qi4j/util/ClassUtil.java:113-124 | Corrected actualTypeOf: the result is the first type argument of the first parameterized type met in the generic walk over super-interfaces, and null exactly when the walk meets none. A parameterized type yields its own first argument, and a class whose first super-interface is parameterized yields that interface's first argument. |
| ClassUtil.MembersOfFollowsChain | api/src/main/java/org/qi4j/util/ClassUtil.java:126-172 | methodsOf, fieldsOf and constructorsOf collect the declared members of the class and of each superclass in chain order, stopping before Object. For an interface they give its own members only. |
| MixinModel.NewMixin | api/src/main/java/org/qi4j/api/model/Mixin.java:32-38 | A new Mixin records its class and one Modifier per class found by findModifiers, in order. |
| MixinModel.FindModifiersFollowsChain | api/src/main/java/org/qi4j/api/model/Mixin.java:46-62 | findModifiers gathers the @ModifiedBy entries of each class of the superclass chain, Object included, in chain order. For an interface it reads only the interface itself. |
| MixinModel.GetModifiersOfNewMixin | api/src/main/java/org/qi4j/api/model/Mixin.java:40-43 | getModifiers of a new Mixin is exactly the gathered chain entries, as Modifiers. The list is empty when no class of the chain declares @ModifiedBy. |
| CompositeModelFactory.ValidateClass | runtime/src/main/java/org/qi4j/runtime/CompositeModelFactory.java:159-174 | A class is accepted exactly when it is present, is an interface, and extends Composite. The rejections come in the source's order (null argument, not an interface, not a Composite) with the source's messages. |
| CompositeModelFactory.Collect | runtime/src/main/java/org/qi4j/runtime/CompositeModelFactory.java:176-197 | Every declaration the recursive walk collects names the type declaring it (the start or a super-interface) and appears in that type's annotation. |
| CompositeModelFactory.CollectFollowsPreOrder | runtime/src/main/java/org/qi4j/runtime/CompositeModelFactory.java:189-194 | The walk collects the own annotation entries of each type of the depth-first, left-to-right super-interface pre-order walk. |
| CompositeModelFactory.CollectCountsPaths | runtime/src/main/java/org/qi4j/runtime/CompositeModelFactory.java:190-194 | There is no deduplication: a declaration of a type is collected once per super-interface path from the composite to that type, times its repetitions in the annotation. |
| CompositeModelFactory.CollectFromSupertypes | runtime/src/main/java/org/qi4j/runtime/CompositeModelFactory.java:222-227 | Every collected declaration comes from a supertype of the starting type. |
| CompositeModelFactory.FindMixins | runtime/src/main/java/org/qi4j/runtime/CompositeModelFactory.java:176-197 | findMixins makes one mixin model per collected @Mixins declaration, in walk order, for the given composite and declaring type. |
| CompositeModelFactory.GetModifiers | runtime/src/main/java/org/qi4j/runtime/CompositeModelFactory.java:199-230 | getModifiers makes one fragment model per collected @Assertions or @SideEffects declaration, in walk order. |
| CompositeModelFactory.AllMixins | runtime/src/main/java/org/qi4j/runtime/CompositeModelFactory.java:80-89 | The mixin list is the found mixins, then CompositeMixin declared by Composite. EntityImpl declared by Entity comes last exactly when the composite is an EntityComposite. |
| CompositeModelFactory.FindMethods | runtime/src/main/java/org/qi4j/runtime/CompositeModelFactory.java:146-157 | One method model per public method, in getMethods() order. |
| CompositeModelFactory.NewFragmentModel | runtime/src/main/java/org/qi4j/runtime/CompositeModelFactory.java:84-88 | A fragment model records the fragment class, the composite type and the declaring type, with the fragment's this-as methods. |
| CompositeModelFactory.ConstraintModelOf | runtime/src/main/java/org/qi4j/runtime/CompositeModelFactory.java:124-127 | A constraint entry gives a model exactly when the implementation's first generic interface is parameterized with at least two class arguments. The model holds the annotation type and parameter type from those arguments. Otherwise it fails with ClassCastException or ArrayIndexOutOfBoundsException, in Java's evaluation order. |
| CompositeModelFactory.ConstraintModels | runtime/src/main/java/org/qi4j/runtime/CompositeModelFactory.java:121-128 | The declarations convert exactly when each one does, in order. Otherwise the exception of the first failing entry escapes. |
| CompositeModelFactory.GetConstraintDeclarations | runtime/src/main/java/org/qi4j/runtime/CompositeModelFactory.java:113-144 | It succeeds exactly when every collected @Constraints entry converts. It then gives one model per entry, in walk order, naming the constraint and its declaring type. |
| CompositeModelFactory.ThisAsModels | runtime/src/main/java/org/qi4j/runtime/CompositeModelFactory.java:232-251 | The map's keys are exactly the this-as methods of all fragments, and each key maps to its own method model, created once. |
| CompositeModelFactory.NewCompositeModel | runtime/src/main/java/org/qi4j/runtime/CompositeModelFactory.java:72-111 | A rejected class yields validateClass's error. Otherwise the result fails exactly when a constraint declaration fails. A success holds the composite type, its methods, the mixins, the assertions, the side-effects, the constraints and the this-as models of mixins, assertions and side-effects. |
| AssociationInfo.ToQualifiedName | api/src/main/java/org/qi4j/api/entity/association/GenericAssociationInfo.java:65-68 | toQualifiedName fails exactly when the URI is shorter than "urn:qi4j:entitytype:". Otherwise it is the rest of the URI with every '#' replaced by ':', so it contains no '#'. |
| AssociationInfo.QualifiedNameRoundTrip | api/src/main/java/org/qi4j/api/entity/association/GenericAssociationInfo.java:65-68 | Prefixing a name with the URN and converting back gives the name exactly when it contains no '#'. |
| AssociationInfo.PrefixIgnored | api/src/main/java/org/qi4j/api/entity/association/GenericAssociationInfo.java:67 | Only the length of the prefix matters: its characters are not checked. |
| AssociationInfo.AsWrittenAgreesWhenItReturns | api/src/main/java/org/qi4j/api/entity/association/GenericAssociationInfo.java:36-57 | Whenever getAssociationType as written returns without throwing, it returns what the corrected search returns. |
| AssociationInfo.AssociationType | api/src/main/java/org/qi4j/api/entity/association/GenericAssociationInfo.java:36-57 | Corrected getAssociationType: a parameterized AbstractAssociation yields its first type argument. |
| AssociationInfo.AssociationTypeIsFirstInWalk | api/src/main/java/org/qi4j/api/entity/association/GenericAssociationInfo.java:47-56 | The corrected search returns the type argument of the first association type in the pre-order walk over generic super-interfaces, or null when there is none. |
| AssociationInfo.NewAssociationInfo | api/src/main/java/org/qi4j/api/entity/association/GenericAssociationInfo.java:76-84 | Construction fails exactly when the meta-info is null. Otherwise it records the name, the meta-info and the first association type argument in the return type's walk. |
| AssociationInfo.FlagsReflectMetaInfo | api/src/main/java/org/qi4j/api/entity/association/GenericAssociationInfo.java:106-114 | isImmutable and isAggregated hold exactly when the Immutable or Aggregated meta-info was present at construction. |
| ConcurrentModification.Identity | spi/src/main/java/org/qi4j/spi/entitystore/ConcurrentModificationCheckConcern.java:84-87 | identity() returns or throws what the delegate does. It makes one delegate call and takes no lock. |
| ConcurrentModification.NewEntityState | spi/src/main/java/org/qi4j/spi/entitystore/ConcurrentModificationCheckConcern.java:89-93 | newEntityState returns or throws what the delegate does. The new state is not added to the loaded states, and no lock is taken. |
| ConcurrentModification.GetEntityState | spi/src/main/java/org/qi4j/spi/entitystore/ConcurrentModificationCheckConcern.java:151-166 | getEntityState takes the read lock, calls the delegate and then, only on success, remembers the version and records the state as loaded. It releases the read lock on both paths, so the holds are unchanged and the lock discipline is kept. |
| ConcurrentModification.ApplyChangesAsWritten | spi/src/main/java/org/qi4j/spi/entitystore/ConcurrentModificationCheckConcern.java:95-129 | As written, the write lock stays held after success. It also stays held after any failure that is not an EntityStoreException (see Findings). |
| ConcurrentModification.ApplyChanges | spi/src/main/java/org/qi4j/spi/entitystore/ConcurrentModificationCheckConcern.java:95-129 | Corrected applyChanges: take the write lock, check the loaded versions, then apply the delegate's changes. Success leaves exactly one write hold for the committer; every failure releases it. |
| ConcurrentModification.ApplyChangesAgreesOnStoreFailures | spi/src/main/java/org/qi4j/spi/entitystore/ConcurrentModificationCheckConcern.java:124-128 | When every failure is an EntityStoreException, the code as written and the corrected version agree. |
| ConcurrentModification.CompleteAsWritten | spi/src/main/java/org/qi4j/spi/entitystore/ConcurrentModificationCheckConcern.java:108-123 | As written, the committer's commit or cancel forgets the versions and releases the write lock exactly when the delegate succeeds (see Findings). |
| ConcurrentModification.Complete | spi/src/main/java/org/qi4j/spi/entitystore/ConcurrentModificationCheckConcern.java:108-123 | Corrected commit or cancel: after the delegate call, the versions of the loaded states are always forgotten and the write lock is always released. |
| ConcurrentModification.CompleteAgreesWhenDelegateSucceeds | spi/src/main/java/org/qi4j/spi/entitystore/ConcurrentModificationCheckConcern.java:110-122 | When the delegate succeeds, the committer as written and the corrected one agree. |
| ConcurrentModification.Discard | spi/src/main/java/org/qi4j/spi/entitystore/ConcurrentModificationCheckConcern.java:131-149 | discard calls the delegate, then, whatever it did, forgets the loaded versions under the write lock and releases it. The delegate's exception propagates. |
| ConcurrentModification.GetAllBalanced | spi/src/main/java/org/qi4j/spi/entitystore/ConcurrentModificationCheckConcern.java:151-166 | Any sequence of getEntityState calls keeps the lock holds balanced and the log guarded, and loads exactly the successful answers, in order. |
| ConcurrentModification.SessionReleasesEverything | spi/src/main/java/org/qi4j/spi/entitystore/ConcurrentModificationCheckConcern.java:95-166 | With the corrected committer, every unit of work ends holding no lock and obeys the lock discipline throughout. Its last step before the final unlock forgets the versions of exactly the states it loaded. |
| ObjectFactory.IsInstanceSearchesWrapChain | runtime/src/main/java/iop/runtime/ObjectFactoryImpl.java:92-108 | isInstance holds exactly when some object of the wrapping chain is a direct instance of the type. |
| ObjectFactory.NewInstance | runtime/src/main/java/iop/runtime/ObjectFactoryImpl.java:44-60 | newInstance succeeds exactly when the context can be built and the type is an interface. The result is a proxy of that type with an object handler. Every failure is an ObjectInstantiationException wrapping its cause. |
| ObjectFactory.CastTarget | runtime/src/main/java/iop/runtime/ObjectFactoryImpl.java:66-77 | cast unwraps one level exactly when the object is a wrapping proxy whose wrapped instance is already of the target type. |
| ObjectFactory.Cast | runtime/src/main/java/iop/runtime/ObjectFactoryImpl.java:62-90 | cast succeeds exactly when newInstance would. The result is a wrapping proxy of the target type around the cast target, and failures are ObjectInstantiationExceptions. |
| ObjectFactory.CastInstances | runtime/src/main/java/iop/runtime/ObjectFactoryImpl.java:62-108 | A cast result is an instance of the target type. It is an instance of another type exactly when the target is a subtype of it or the cast target is an instance of it. At most one level of wrapping is removed. |
| ObjectFactory.CastStable | runtime/src/main/java/iop/runtime/ObjectFactoryImpl.java:62-90 | Casting a cast result again to the same type gives the same proxy exactly when the first cast wrapped a direct instance of that type. |
| ObjectFactory.GetThat | runtime/src/main/java/iop/runtime/ObjectFactoryImpl.java:110-122 | getThat returns the referenced proxy for a reference handler and the proxy itself for any object handler. It returns null for other handlers and throws for null or a non-proxy. |
| ObjectFactory.GetThatOfFactoryProxies | runtime/src/main/java/iop/runtime/ObjectFactoryImpl.java:110-122 | The proxies newInstance and cast create answer getThat with themselves. |
| LayerServiceLocator.LookupService | runtime/src/main/java/org/qi4j/runtime/structure/LayerServiceLocator.java:40-50 | lookupService gives null for an unpublished type and the first module's answer otherwise. An empty module list makes get(0) throw. |
| LayerServiceLocator.LookupServices | runtime/src/main/java/org/qi4j/runtime/structure/LayerServiceLocator.java:52-71 | lookupServices gives an empty list for an unpublished type. Otherwise it gives every module's references, module after module, in order. |
| LayerServiceLocator.FlattenCountsAndMembers | runtime/src/main/java/org/qi4j/runtime/structure/LayerServiceLocator.java:52-71 | The result holds as many references as the modules together, and a reference is in it exactly when some module returns it. |
| LayerServiceLocator.LookupServiceSeesFirstModuleOnly | runtime/src/main/java/org/qi4j/runtime/structure/LayerServiceLocator.java:40-71 | With consistent modules, lookupService returns the first element of lookupServices when the first module publishes a reference. It returns null when the first module has none, even if a later one does. |
| PropertyInstance.NewProperty | spi/src/main/java/org/qi4j/spi/property/PropertyInstance.java:32-42 | Construction fails with IllegalArgumentException exactly when the property info is null. Otherwise get returns the initial value. |
| PropertyInstance.Set | spi/src/main/java/org/qi4j/spi/property/PropertyInstance.java:60-64 | set stores the value, keeps the info, and returns the value it was given. |
| PropertyInstance.ToString | spi/src/main/java/org/qi4j/spi/property/PropertyInstance.java:72-76 | toString is empty for a null value and the value's own string otherwise. |
| PropertyInstance.PropertyLaws | spi/src/main/java/org/qi4j/spi/property/PropertyInstance.java:37-64 | get after set gives the value set. Setting the current value changes nothing, and of two sets only the last counts. |
| AccountMixin.Add | tests/src/main/java/org/qi4j/test/entity/AccountMixin.java:32-35 | add fails with a NullPointerException exactly when the balance is null. Otherwise the new balance is the old one plus the amount, wrapped to a Java int. |
| AccountMixin.Remove | tests/src/main/java/org/qi4j/test/entity/AccountMixin.java:37-40 | remove is the same, with the amount subtracted. |
| AccountMixin.AddThenRemoveRestores | tests/src/main/java/org/qi4j/test/entity/AccountMixin.java:32-40 | Adding and then removing the same amount restores the balance, overflow or not. |
| FooModifier.RewriteArguments | tests/src/main/java/org/qi4j/test/model2/FooModifier.java:34-38 | The first argument becomes its string value followed by the annotation value, and the other arguments are unchanged. Null arguments, an empty argument array and a missing annotation fail, in that order. |
| FooModifier.Invoke | tests/src/main/java/org/qi4j/test/model2/FooModifier.java:34-38 | If rewriting fails, next is never called and the caller's array is unchanged. Otherwise next is called exactly once, with the same proxy and method and the rewritten arguments, and its result is returned. The caller's own array holds the rewritten arguments afterwards, also when next throws. |
| FooModifier.InvokeFailsOnlyThroughNext | tests/src/main/java/org/qi4j/test/model2/FooModifier.java:25-38 | On a method the modifier applies to, with at least one argument, invoke fails only when next does, and with the same exception. Either way, the caller's array keeps its length and holds the rewritten first argument. |
| EntityExists.NewAlreadyExists | api/src/main/java/org/qi4j/api/unitofwork/EntityCompositeAlreadyExistsException.java:32-37 | The exception keeps the identity and type it is given. The message's length is the sum of its fixed parts and the two values as strings. |
| EntityExists.AlreadyExistsShape | api/src/main/java/org/qi4j/api/unitofwork/EntityCompositeAlreadyExistsException.java:29-47 | identity() and type() return the constructor's arguments. The message reads "EntityComposite (", the identity, " of type ", the type, ") already exists.". |
| EntityExists.NullIsSpelledOut | api/src/main/java/org/qi4j/api/unitofwork/EntityCompositeAlreadyExistsException.java:34 | A null identity appears in the message as "null". |
| ConcreteHierarchies.DiamondCollectsSharedMixinTwice | runtime/src/main/java/org/qi4j/runtime/CompositeModelFactory.java:189-194 | In a diamond D extends B, C, where both extend A, the mixin declared on A is collected twice from D. |

## Left out

- Reflection itself (class loading, annotation instances, `Method` objects), and the proxy class the composite model carries, which `Proxy.getProxyClass` creates. Types, methods and annotation values are indices and lists.
- `ClassUtil.propertyMethodOf` (lines 36-51) builds a dynamic proxy with an anonymous handler. It has no logic beyond the JDK proxy machinery.
- Type variables, wildcards and generic array types: a generic type here is a class or a parameterized class.
- `MixinModelFactory`, `AssertionModelFactory`, `SideEffectModelFactory` and `ConstraintModelFactory` are not part of this model. A fragment model records the three classes and the fragment's this-as methods, and a method model records only its method. The `MethodConstraint` is left out.
- CompositeModelFactory.GetModifiers: the `printStackTrace` branch (line 213) is left out. The model assumes `value()` can always be read reflectively, as the annotations here guarantee.
- ConcurrentModification: thread interleaving, reentrancy and blocking are left out. The lock is a count of holds read off the log.
- ConcurrentModification: `EntityStateVersions` is not part of this model. `rememberVersion` and `forgetVersions` never fail, and `checkForConcurrentModification` fails as its input says.
- ConcurrentModification: `newUnitOfWork` (lines 56-60) only wraps the delegate's unit of work, so a session starts from an empty unit of work.
- ObjectFactory: `ObjectContext`, the invocation instance pool and the handler classes are not part of this model. Building the context can fail, and that failure is an input. The class-loader argument is left out, and so are null type arguments.
- LayerServiceLocator: `ModuleInstance` is not part of this model. Each module's two lookups are inputs, and `Consistent` states what the proof assumes of them.
- AssociationInfo: `QualifiedName.fromMethod`, `metaInfo(Class)` and `name()` are left out. The qualified name is an input string, and the meta-info is a set of kinds.
- AssociationInfo.NewAssociationInfo: uses the corrected association search (see Findings). The code as written would throw ClassCastException where the table's input shows it.
- PropertyInstance: `ComputedPropertyInstance` and the property-info lookups are left out.
- AccountMixin: the constructor (lines 27-30) captures the composite's own `balance()` property, so `add` and `remove` write through to it. The model passes that property in and returns its new state, and it does not model the aliasing between the mixin and the composite.
- AssociationInfo.ToQualifiedName: lengths count characters, not UTF-16 code units as Java's `substring(20)` does. A URI with a supplementary character in its first 20 code units would fail at a different point and give a different suffix.
- FooModifier.Invoke: `next` is a function of the call. A write that the next handler makes into the shared argument array is not modelled, so the caller's array afterwards is the rewritten one.
- The query, bootstrap and test-support code of the repository is outside this core.

## Findings

| source | as written | input that shows it | evidently intended | confidence | as-written member | corrected member |
|---|---|---|---|---|---|---|
| api/src/main/java/org/qi4j/util/ClassUtil.java:113-124 | actualTypeOf searches interfacesOf(type) for a ParameterizedType, but addInterfaces only ever adds plain classes | `interface StringList extends List<String>`: actualTypeOf gives null | the first type argument of the first parameterized super-interface, here String | high; not executed | ClassUtil.ActualTypeOf, with ConcreteHierarchies.ActualTypeOfMissesStringList | ClassUtil.ActualTypeOfFixed |
| api/src/main/java/org/qi4j/api/entity/association/GenericAssociationInfo.java:47 | any type that is not a parameterized association is cast to Class, including a parameterized non-association super-interface | `interface Tagged extends Comparable<Tagged>, Association<Person>`: ClassCastException | skip the non-association interface, keep searching, and return Person | high; not executed | AssociationInfo.AssociationTypeAsWritten, with ConcreteHierarchies.AssociationTypeThrowsOnComparable | AssociationInfo.AssociationType |
| spi/src/main/java/org/qi4j/spi/entitystore/ConcurrentModificationCheckConcern.java:124-128 | only EntityStoreException releases the write lock taken at line 98 | the delegate's applyChanges throws a RuntimeException: the write lock stays held | release the lock on every failure | medium; not executed | ConcurrentModification.ApplyChangesAsWritten, with ConcurrentModification.ApplyChangesAsWrittenLeaksLock | ConcurrentModification.ApplyChanges |
| spi/src/main/java/org/qi4j/spi/entitystore/ConcurrentModificationCheckConcern.java:110-122 | commit() and cancel() forget the versions and unlock only after the delegate returns normally | the delegate's commit throws: the write lock stays held and the versions stay remembered (ConcurrentModification.SessionAsWrittenCanLeakLock shows a whole session ending with one write hold) | forget and unlock in a finally block, as discard does | medium; not executed | ConcurrentModification.CompleteAsWritten, with ConcurrentModification.CompleteAsWrittenLeaksLock | ConcurrentModification.Complete |
