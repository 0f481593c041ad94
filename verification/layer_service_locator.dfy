/** The service locator of a layer (org.qi4j.runtime.structure.LayerServiceLocator):
    a map from service type to the modules that publish it. */
module LayerServiceLocator {
  import opened Results
  import opened Hierarchy

  /** What the locator asks of a module: its first reference for a type and
      all its references for a type. */
  datatype ModuleInstance<R> = ModuleInstance(lookupService: TypeId -> Option<R>, lookupServices: TypeId -> seq<R>)

  type ModulesForPublicServices<R> = map<TypeId, seq<ModuleInstance<R>>>

  datatype LookupError = IndexOutOfBounds

  /** lookupService(type): null when no module publishes the type, else the
      first listed module's answer; an empty module list makes get(0) throw. */
  function LookupService<R>(m: ModulesForPublicServices<R>, t: TypeId): (r: Result<Option<R>, LookupError>)
    ensures t !in m ==> r == Ok(None)
    ensures t in m && m[t] == [] ==> r == Err(IndexOutOfBounds)
    ensures t in m && m[t] != [] ==> r == Ok(m[t][0].lookupService(t))
  {
    if t !in m then Ok(None)
    else if m[t] == [] then Err(IndexOutOfBounds)
    else Ok(m[t][0].lookupService(t))
  }

  /** Reference definition: the modules' references for `t`, module after
      module. */
  function Flatten<R>(mods: seq<ModuleInstance<R>>, t: TypeId): seq<R>
    decreases |mods|
  {
    if mods == [] then [] else Flatten(mods[..|mods| - 1], t) + mods[|mods| - 1].lookupServices(t)
  }

  /** Total number of references the modules hold for `t`. */
  function SumCounts<R>(mods: seq<ModuleInstance<R>>, t: TypeId): nat
    decreases |mods|
  {
    if mods == [] then 0 else |mods[0].lookupServices(t)| + SumCounts(mods[1..], t)
  }

  /** lookupServices(type): every module's references in list order, or
      an empty list when no module publishes the type. */
  method LookupServices<R>(m: ModulesForPublicServices<R>, t: TypeId) returns (refs: seq<R>)
    ensures t !in m ==> refs == []
    ensures t in m ==> refs == Flatten(m[t], t)
  {
    refs := [];
    if t in m {
      var modules := m[t];
      var i := 0;
      while i < |modules|
        invariant 0 <= i <= |modules|
        invariant refs == Flatten(modules[..i], t)
      {
        var moduleServices := modules[i].lookupServices(t);
        var j := 0;
        while j < |moduleServices|
          invariant 0 <= j <= |moduleServices|
          invariant refs == Flatten(modules[..i], t) + moduleServices[..j]
        {
          refs := refs + [moduleServices[j]];
          assert moduleServices[..j + 1] == moduleServices[..j] + [moduleServices[j]];
          j := j + 1;
        }
        assert moduleServices[..j] == moduleServices;
        assert modules[..i + 1][..i] == modules[..i];
        i := i + 1;
      }
      assert modules[..i] == modules;
    }
  }

  lemma {:induction false} FlattenAppend<R>(a: seq<ModuleInstance<R>>, b: seq<ModuleInstance<R>>, t: TypeId)
    ensures Flatten(a + b, t) == Flatten(a, t) + Flatten(b, t)
    decreases |b|
  {
    if b == [] {
      assert a + b == a;
    } else {
      var b' := b[..|b| - 1];
      assert (a + b)[..|a + b| - 1] == a + b';
      FlattenAppend(a, b', t);
    }
  }

  /** The concatenation holds as many references as the modules together,
      and a reference is in it exactly when some module returns it. */
  lemma {:induction false} FlattenCountsAndMembers<R>(mods: seq<ModuleInstance<R>>, t: TypeId)
    ensures |Flatten(mods, t)| == SumCounts(mods, t)
    ensures forall x :: x in Flatten(mods, t) <==> exists k :: 0 <= k < |mods| && x in mods[k].lookupServices(t)
    decreases |mods|
  {
    if mods != [] {
      FlattenCountsAndMembers(mods[1..], t);
      FlattenAppend([mods[0]], mods[1..], t);
      assert [mods[0]] + mods[1..] == mods;
      assert Flatten([mods[0]], t) == mods[0].lookupServices(t) by {
        assert [mods[0]][..0] == [];
      }
      forall x ensures x in Flatten(mods, t) <==> exists k :: 0 <= k < |mods| && x in mods[k].lookupServices(t) {
        if x in Flatten(mods[1..], t) {
          var k :| 0 <= k < |mods[1..]| && x in mods[1..][k].lookupServices(t);
          assert mods[k + 1] == mods[1..][k];
        }
        if exists k :: 0 <= k < |mods| && x in mods[k].lookupServices(t) {
          var k :| 0 <= k < |mods| && x in mods[k].lookupServices(t);
          if k > 0 {
            assert mods[1..][k - 1] == mods[k];
          }
        }
      }
    }
  }

  /** A module whose single lookup returns the first of its references. */
  ghost predicate Consistent<R>(mod: ModuleInstance<R>, t: TypeId) {
    mod.lookupService(t) == if mod.lookupServices(t) == [] then None else Some(mod.lookupServices(t)[0])
  }

  /** With consistent modules, lookupService returns the first reference of
      lookupServices when the first module publishes one, and null when it
      publishes none, even if a later module does. */
  lemma LookupServiceSeesFirstModuleOnly<R>(m: ModulesForPublicServices<R>, t: TypeId, all: seq<R>)
    requires t in m && m[t] != []
    requires forall k :: 0 <= k < |m[t]| ==> Consistent(m[t][k], t)
    requires all == Flatten(m[t], t)
    ensures m[t][0].lookupServices(t) != [] ==> all != [] && LookupService(m, t) == Ok(Some(all[0]))
    ensures m[t][0].lookupServices(t) == [] ==> LookupService(m, t) == Ok(None)
  {
    var mods := m[t];
    FlattenAppend([mods[0]], mods[1..], t);
    assert [mods[0]] + mods[1..] == mods;
    assert Flatten([mods[0]], t) == mods[0].lookupServices(t) by {
      assert [mods[0]][..0] == [];
    }
    assert Consistent(mods[0], t);
  }
}
