/** The dependency-injection container (framework/di/di_container.hpp): a depth-first,
    memoising resolution with cycle detection and clean-up. A type is registered with the list of
    types its constructor takes; a component is named by its position in the order of construction. */
module DiContainer {
  type TypeId = nat

  /** One constructor call: the type made, and the components its arguments were bound to. */
  datatype Made = Made(t: TypeId, deps: seq<TypeId>, args: seq<nat>)

  datatype Fault = NotRegistered | Circular | ConstructorThrew

  datatype Outcome = Found(component: nat) | Failed(fault: Fault, at: TypeId)

  type Registry = map<TypeId, seq<TypeId>>

  // ---- The graph of dependencies ---------------------------------------------------

  /** A chain of dependencies through types that are not in the cache. */
  predicate Chain(reg: Registry, cached: set<TypeId>, p: seq<TypeId>) {
    && (forall i | 0 <= i < |p| :: p[i] !in cached)
    && (forall i | 0 <= i < |p| - 1 :: p[i] in reg && p[i + 1] in reg[p[i]])
  }

  predicate Distinct(p: seq<TypeId>) { forall i, j | 0 <= i < j < |p| :: p[i] != p[j] }

  predicate Buildable(reg: Registry, throwing: set<TypeId>, p: seq<TypeId>) {
    forall i | 0 <= i < |p| :: p[i] in reg && p[i] !in throwing
  }

  predicate ChainFrom(reg: Registry, cached: set<TypeId>, p: seq<TypeId>, t: TypeId) {
    p != [] && p[0] == t && Chain(reg, cached, p)
  }

  /** Every type reachable from `t` is registered and constructible, and no chain of
      dependencies comes back to a type. */
  ghost predicate Resolvable(reg: Registry, throwing: set<TypeId>, cached: set<TypeId>, t: TypeId) {
    forall p | ChainFrom(reg, cached, p, t) :: Buildable(reg, throwing, p) && Distinct(p)
  }

  /** A chain that shows why resolving `t` fails, under the types already being resolved. */
  predicate Shows(reg: Registry, throwing: set<TypeId>, cached: set<TypeId>, resolving: set<TypeId>,
                  p: seq<TypeId>, t: TypeId, fault: Fault, at: TypeId)
  {
    && ChainFrom(reg, cached, p, t) && p[|p| - 1] == at
    && match fault
       case NotRegistered => at !in reg
       case Circular => at in resolving || at in p[..|p| - 1]
       case ConstructorThrew => at in throwing
  }

  /** A fault met with nothing else being resolved refutes resolvability. */
  lemma {:induction false} ShownFault(reg: Registry, throwing: set<TypeId>, cached: set<TypeId>,
                                      p: seq<TypeId>, t: TypeId, fault: Fault, at: TypeId)
    requires Shows(reg, throwing, cached, {}, p, t, fault, at)
    ensures !Resolvable(reg, throwing, cached, t)
  {
    if fault == Circular {
      var i :| 0 <= i < |p| - 1 && p[i] == at;
      assert !Distinct(p);
    } else {
      assert !Buildable(reg, throwing, p);
    }
  }

  /** A fault below `t` is a fault of `t`. */
  lemma {:induction false} FaultAbove(reg: Registry, throwing: set<TypeId>, before: set<TypeId>, cached: set<TypeId>,
                                      resolving: set<TypeId>, p: seq<TypeId>, t: TypeId, d: TypeId,
                                      fault: Fault, at: TypeId)
    requires before <= cached && t !in before && t in reg && d in reg[t]
    requires Shows(reg, throwing, cached, resolving + {t}, p, d, fault, at)
    ensures Shows(reg, throwing, before, resolving, [t] + p, t, fault, at)
  {
    var q := [t] + p;
    assert forall i | 0 < i < |q| :: q[i] == p[i - 1];
    if fault == Circular && at !in resolving {
      assert q[..|q| - 1] == [t] + p[..|p| - 1];
    }
  }

  // ---- The components made ------------------------------------------------------------

  /** The cache names the components made, one for each type, and each was given the cached
      components of its argument types, all made before it. */
  predicate Sound(singletons: map<TypeId, nat>, made: seq<Made>) {
    && (forall t | t in singletons :: singletons[t] < |made| && made[singletons[t]].t == t)
    && (forall k | 0 <= k < |made| :: made[k].t in singletons && singletons[made[k].t] == k)
    && (forall k | 0 <= k < |made| :: WellMade(made, k))
  }

  predicate WellMade(made: seq<Made>, k: nat)
    requires k < |made|
  {
    && |made[k].args| == |made[k].deps|
    && forall i | 0 <= i < |made[k].args| :: made[k].args[i] < k && made[made[k].args[i]].t == made[k].deps[i]
  }

  predicate Follows(reg: Registry, throwing: set<TypeId>, m: Made) {
    m.t in reg && m.deps == reg[m.t] && m.t !in throwing
  }

  /** Only components that follow the registry were added. */
  predicate Extends(reg: Registry, throwing: set<TypeId>, before: seq<Made>, after: seq<Made>) {
    before <= after && forall k | |before| <= k < |after| :: Follows(reg, throwing, after[k])
  }

  lemma {:induction false} ExtendsOn(reg: Registry, throwing: set<TypeId>, a: seq<Made>, b: seq<Made>, c: seq<Made>)
    requires Extends(reg, throwing, a, b) && Extends(reg, throwing, b, c)
    ensures Extends(reg, throwing, a, c)
  {
    assert c[..|b|] == b && b[..|a|] == a;
  }

  /** The next link of a chain from a newly made component is a component made before it. */
  lemma {:induction false} Descends(reg: Registry, throwing: set<TypeId>, singletons: map<TypeId, nat>,
                                    made: seq<Made>, from: nat, t: TypeId, d: TypeId)
    requires Sound(singletons, made) && t in singletons && from <= singletons[t]
    requires forall k | from <= k < |made| :: Follows(reg, throwing, made[k])
    requires t in reg && d in reg[t]
    ensures d in singletons && singletons[d] < singletons[t]
  {
    var m := made[singletons[t]];
    assert WellMade(made, singletons[t]);
    var i :| 0 <= i < |m.deps| && m.deps[i] == d;
    assert made[m.args[i]].t == d;
  }

  /** The types of the components made before `from`. */
  function TypesOf(made: seq<Made>, from: nat): set<TypeId>
    requires from <= |made|
  {
    set k | 0 <= k < from :: made[k].t
  }

  /** Once `t` has been made, every chain from it went through types made for it, each link
      before the last: the chain is buildable and never repeats. */
  lemma {:induction false} ChainMade(reg: Registry, throwing: set<TypeId>, singletons: map<TypeId, nat>,
                                     made: seq<Made>, from: nat, p: seq<TypeId>)
    requires Sound(singletons, made) && from <= |made|
    requires forall k | from <= k < |made| :: Follows(reg, throwing, made[k])
    requires p != [] && p[0] in singletons && Chain(reg, TypesOf(made, from), p)
    ensures Buildable(reg, throwing, p) && Distinct(p)
    ensures forall i | 0 <= i < |p| :: p[i] in singletons && singletons[p[i]] <= singletons[p[0]]
  {
    Newer(singletons, made, from, p[0]);
    if |p| > 1 {
      var q := p[1..];
      assert forall i | 0 <= i < |q| :: q[i] == p[i + 1];
      Descends(reg, throwing, singletons, made, from, p[0], p[1]);
      ChainMade(reg, throwing, singletons, made, from, q);
    }
  }

  lemma {:induction false} Newer(singletons: map<TypeId, nat>, made: seq<Made>, from: nat, t: TypeId)
    requires Sound(singletons, made) && from <= |made| && t in singletons
    ensures singletons[t] >= from || t in TypesOf(made, from)
  {
    if singletons[t] < from {
      assert made[singletons[t]].t in TypesOf(made, from);
    }
  }

  lemma {:induction false} CachedTypes(singletons: map<TypeId, nat>, made: seq<Made>)
    requires Sound(singletons, made)
    ensures TypesOf(made, |made|) == singletons.Keys
  {
    forall t | t in singletons ensures t in TypesOf(made, |made|) {
      assert made[singletons[t]].t == t;
    }
  }

  /** What was resolved was resolvable. */
  lemma {:induction false} FoundIsResolvable(reg: Registry, throwing: set<TypeId>, singletons: map<TypeId, nat>,
                                             made: seq<Made>, from: nat, t: TypeId)
    requires Sound(singletons, made) && from <= |made| && t in singletons
    requires forall k | from <= k < |made| :: Follows(reg, throwing, made[k])
    ensures Resolvable(reg, throwing, TypesOf(made, from), t)
  {
    forall p | ChainFrom(reg, TypesOf(made, from), p, t) ensures Buildable(reg, throwing, p) && Distinct(p) {
      ChainMade(reg, throwing, singletons, made, from, p);
    }
  }

  /** With a cache built under the present registry, cached types can be ignored: resolvability
      is a property of the registry alone. */
  lemma {:induction false} CacheDoesNotMatter(reg: Registry, throwing: set<TypeId>, singletons: map<TypeId, nat>,
                                              made: seq<Made>, t: TypeId)
    requires Sound(singletons, made) && Extends(reg, throwing, [], made)
    ensures Resolvable(reg, throwing, singletons.Keys, t) <==> Resolvable(reg, throwing, {}, t)
  {
    if Resolvable(reg, throwing, singletons.Keys, t) {
      forall p | ChainFrom(reg, {}, p, t) ensures Buildable(reg, throwing, p) && Distinct(p) {
        WholeChain(reg, throwing, singletons, made, p, 0);
        forall i | 0 <= i <= |p| && Fresh(singletons, p, i)
          ensures Buildable(reg, throwing, p[..i]) && Distinct(p[..i])
        {
          if i > 0 {
            assert ChainFrom(reg, singletons.Keys, p[..i], t);
          }
        }
      }
    }
    if Resolvable(reg, throwing, {}, t) {
      forall p | ChainFrom(reg, singletons.Keys, p, t) ensures Buildable(reg, throwing, p) && Distinct(p) {
        assert ChainFrom(reg, {}, p, t);
      }
    }
  }

  predicate Fresh(singletons: map<TypeId, nat>, p: seq<TypeId>, i: int)
    requires 0 <= i <= |p|
  {
    forall j | 0 <= j < i :: p[j] !in singletons
  }

  /** A chain splits into types not cached followed by cached ones, which are sound already. */
  lemma {:induction false} WholeChain(reg: Registry, throwing: set<TypeId>, singletons: map<TypeId, nat>,
                                      made: seq<Made>, p: seq<TypeId>, i: nat)
    requires Sound(singletons, made) && Extends(reg, throwing, [], made)
    requires Chain(reg, {}, p) && i <= |p| && Fresh(singletons, p, i)
    ensures
      (forall k | 0 <= k <= |p| && Fresh(singletons, p, k) :: Buildable(reg, throwing, p[..k]) && Distinct(p[..k])) ==>
        Buildable(reg, throwing, p) && Distinct(p)
    decreases |p| - i
  {
    if i == |p| {
      assert p[..i] == p;
    } else if p[i] !in singletons {
      WholeChain(reg, throwing, singletons, made, p, i + 1);
    } else {
      var q := p[i..];
      assert TypesOf(made, 0) == {};
      ChainMade(reg, throwing, singletons, made, 0, q);
      Joined(reg, throwing, singletons, p, i);
    }
  }

  lemma {:induction false} Joined(reg: Registry, throwing: set<TypeId>, singletons: map<TypeId, nat>,
                                  p: seq<TypeId>, i: nat)
    requires i <= |p| && Fresh(singletons, p, i)
    requires Buildable(reg, throwing, p[i..]) && Distinct(p[i..])
    requires forall j | 0 <= j < |p[i..]| :: p[i..][j] in singletons
    ensures Buildable(reg, throwing, p[..i]) && Distinct(p[..i]) ==> Buildable(reg, throwing, p) && Distinct(p)
  {
    assert forall j | i <= j < |p| :: p[j] == p[i..][j - i];
    assert forall j | 0 <= j < i :: p[j] == p[..i][j];
  }

  // ---- The container ----------------------------------------------------------------

  /** Types whose constructor throws are given to `Resolve`; the container does not know them. */
  class Container {
    var factories: Registry
    var singletons: map<TypeId, nat>
    var resolving: set<TypeId>
    var made: seq<Made>

    ghost predicate Valid()
      reads this
    {
      Sound(singletons, made) && resolving !! singletons.Keys && resolving <= factories.Keys
    }

    constructor ()
      ensures Valid() && factories == map[] && singletons == map[] && resolving == {} && made == []
    {
      factories, singletons, resolving, made := map[], map[], {}, [];
    }

    method RegisterComponent(t: TypeId, deps: seq<TypeId>)
      requires Valid()
      modifies this`factories
      ensures Valid() && factories == old(factories)[t := deps]
    {
      factories := factories[t := deps];
    }

    method Clear()
      modifies this
      ensures Valid() && factories == map[] && singletons == map[] && resolving == {} && made == []
    {
      factories, singletons, resolving, made := map[], map[], {}, [];
    }

    /** Resolving `t`: with nothing else being resolved, exactly the resolvable types resolve.
        Each type is made at most once (`Valid`), nothing cached is lost or replaced, and no
        type is left marked. On a failure `why` is the chain of types that shows it. */
    method Resolve(t: TypeId, throwing: set<TypeId>) returns (r: Outcome, ghost why: seq<TypeId>)
      requires Valid()
      modifies this`singletons, this`resolving, this`made
      ensures Valid() && resolving == old(resolving)
      ensures Extends(factories, throwing, old(made), made) && Keeps(old(singletons), singletons)
      ensures r.Found? ==> t in singletons && r.component == singletons[t]
      ensures r.Failed? ==> t !in old(singletons)
      ensures r.Failed? ==> Shows(factories, throwing, old(singletons.Keys), old(resolving), why, t, r.fault, r.at)
      ensures old(resolving) == {} ==> (r.Found? <==> Resolvable(factories, throwing, old(singletons.Keys), t))
      ensures t in old(singletons) ==> made == old(made)
      decreases |factories.Keys - resolving|, 1
    {
      ghost var before, cache := made, singletons;
      why := [t];
      if t in singletons {
        r := Found(singletons[t]);
      } else if t in resolving {
        r := Failed(Circular, t);
      } else if t !in factories {
        r := Failed(NotRegistered, t);
      } else {
        r, why := Make(t, throwing);
      }
      Verdict(factories, throwing, cache, before, singletons, made, t, r, why);
    }

    /** The factory call, between marking and unmarking the type. */
    method Make(t: TypeId, throwing: set<TypeId>) returns (r: Outcome, ghost why: seq<TypeId>)
      requires Valid() && t !in singletons && t !in resolving && t in factories
      modifies this`singletons, this`resolving, this`made
      ensures Valid() && resolving == old(resolving)
      ensures Extends(factories, throwing, old(made), made) && Keeps(old(singletons), singletons)
      ensures r.Found? ==> t in singletons && r.component == singletons[t]
      ensures r.Failed? ==> Shows(factories, throwing, old(singletons.Keys), old(resolving), why, t, r.fault, r.at)
      decreases |factories.Keys - resolving|, 0
    {
      ghost var before := made;
      FewerLeft(factories.Keys, resolving, t);
      resolving := resolving + {t};
      var args;
      r, args, why := MakeArguments(t, throwing);
      resolving := resolving - {t};
      if r.Found? && t in throwing {
        r, why := Failed(ConstructorThrew, t), [t];
      }
      if r.Found? {
        r := Found(|made|);
        SoundPush(singletons, made, t, factories[t], args);
        ExtendsOn(factories, throwing, before, made, made + [Made(t, factories[t], args)]);
        singletons := singletons[t := |made|];
        made := made + [Made(t, factories[t], args)];
      }
    }

    /** The argument list of the factory, evaluated in an order the language leaves open. */
    method MakeArguments(t: TypeId, throwing: set<TypeId>)
      returns (r: Outcome, args: seq<nat>, ghost why: seq<TypeId>)
      requires Valid() && t in resolving && t in factories
      modifies this`singletons, this`resolving, this`made
      ensures Valid() && resolving == old(resolving)
      ensures Extends(factories, throwing, old(made), made) && Keeps(old(singletons), singletons)
      ensures r.Found? ==> Bound(singletons, factories[t], args, {})
      ensures r.Failed? ==>
        Shows(factories, throwing, old(singletons.Keys), old(resolving) - {t}, why, t, r.fault, r.at)
      decreases |factories.Keys - resolving|, 2
    {
      var deps := factories[t];
      ghost var before, cache := made, singletons;
      r, why := Found(0), [];
      args := seq(|deps|, _ => 0);
      var todo := Positions(|deps|);
      while todo != {}
        invariant Valid() && resolving == old(resolving) && r.Found?
        invariant forall i | i in todo :: 0 <= i < |deps|
        invariant Extends(factories, throwing, before, made) && Keeps(cache, singletons)
        invariant Bound(singletons, deps, args, todo)
        decreases todo
      {
        var i :| i in todo;
        todo := todo - {i};
        ghost var made0, cache0 := made, singletons;
        r, why := Resolve(deps[i], throwing);
        if r.Failed? {
          assert resolving - {t} + {t} == resolving;
          FaultAbove(factories, throwing, cache.Keys, cache0.Keys, resolving - {t}, why, t, deps[i], r.fault, r.at);
          why := [t] + why;
        }
        ExtendsOn(factories, throwing, before, made0, made);
        if r.Failed? {
          return;
        }
        args := args[i := r.component];
      }
    }
  }

  // ---- Facts used by the methods --------------------------------------------------------

  /** The cache only grows. */
  predicate Keeps(before: map<TypeId, nat>, after: map<TypeId, nat>) {
    forall t | t in before :: t in after && after[t] == before[t]
  }

  /** The arguments not in `todo` are bound to the cached components of their types. */
  predicate Bound(singletons: map<TypeId, nat>, deps: seq<TypeId>, args: seq<nat>, todo: set<int>) {
    && |args| == |deps|
    && forall i | 0 <= i < |deps| && i !in todo :: deps[i] in singletons && args[i] == singletons[deps[i]]
  }

  function Positions(n: nat): (r: set<int>)
    ensures forall i :: i in r <==> 0 <= i < n
  {
    if n == 0 then {} else Positions(n - 1) + {n - 1}
  }

  lemma {:induction false} FewerLeft(keys: set<TypeId>, resolving: set<TypeId>, t: TypeId)
    requires t in keys && t !in resolving
    ensures |keys - (resolving + {t})| < |keys - resolving|
  {
    assert keys - (resolving + {t}) == (keys - resolving) - {t};
  }

  lemma {:induction false} SoundPush(singletons: map<TypeId, nat>, made: seq<Made>, t: TypeId,
                                     deps: seq<TypeId>, args: seq<nat>)
    requires Sound(singletons, made) && t !in singletons && Bound(singletons, deps, args, {})
    ensures Sound(singletons[t := |made|], made + [Made(t, deps, args)])
  {
    var after := made + [Made(t, deps, args)];
    forall k | 0 <= k < |after| ensures WellMade(after, k) {
      if k < |made| {
        assert WellMade(made, k);
      }
    }
  }

  lemma {:induction false} Verdict(
    reg: Registry, throwing: set<TypeId>, cache: map<TypeId, nat>, before: seq<Made>,
    singletons: map<TypeId, nat>, made: seq<Made>, t: TypeId, r: Outcome, why: seq<TypeId>)
    requires Sound(cache, before) && Sound(singletons, made) && Extends(reg, throwing, before, made)
    requires r.Found? ==> t in singletons
    ensures r.Found? ==> Resolvable(reg, throwing, cache.Keys, t)
    ensures r.Failed? && Shows(reg, throwing, cache.Keys, {}, why, t, r.fault, r.at) ==>
              !Resolvable(reg, throwing, cache.Keys, t)
  {
    if r.Found? {
      FoundIsResolvable(reg, throwing, singletons, made, |before|, t);
      CachedTypes(cache, before);
      assert TypesOf(made, |before|) == TypesOf(before, |before|);
    } else if Shows(reg, throwing, cache.Keys, {}, why, t, r.fault, r.at) {
      ShownFault(reg, throwing, cache.Keys, why, t, r.fault, r.at);
    }
  }
}
