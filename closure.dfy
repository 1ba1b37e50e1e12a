/** The low-cardinality closure walk of UserRelationCacheBuilder
    (getLowCardinalityRelations and the seed loop of buildUserRelations).

    The walk has no visited check: it recurses into every tuple that a nested
    relation yields, so on a cyclic tuple graph it recurses without bound (in
    Java, until a StackOverflowError). The model
    therefore carries a ghost `fuel` as its termination measure and only speaks
    about calls for which `Enough` fuel exists; `NoFuelSufficesOnCycle` shows
    that no amount of fuel is enough once the graph has a cycle. */
module Closure {
  import opened Domain

  /** The (namespace, object, relation) a walk step starts from. */
  datatype Userset = Userset(namespace: Option<string>, obj: Option<string>, relation: Option<string>) {
    /** The null guard of the walk: only complete triples are expanded. */
    predicate Complete() { namespace.Some? && obj.Some? && relation.Some? }
  }

  function UsersetOf(a: Acl): (u: Userset) { Userset(Some(a.namespace), Some(a.obj), a.relation) }

  function PairOf(a: Acl): (p: NsObject) { NsObject(a.namespace, a.obj) }

  /** The tuples findAllForCache returns for the given relations of `t`. */
  function ChildrenVia(env: Env, t: Userset, rels: set<string>): (acls: set<Acl>)
    requires t.Complete()
  {
    set rel, a | rel in rels && a in env.findAllForCache(t.namespace.value, t.obj.value, rel) :: a
  }

  /** The tuples one walk step from `t` visits: those findAllForCache returns
      for some nested relation of `t`. */
  function Children(env: Env, t: Userset): (acls: set<Acl>) {
    if t.Complete() then
      ChildrenVia(env, t, env.nestedRelations(t.namespace.value, t.obj.value, t.relation.value))
    else {}
  }

  /** `fuel` bounds the depth of every recursive call the walk from `t` makes,
      so the walk returns. */
  ghost predicate Enough(env: Env, t: Userset, fuel: nat)
    decreases fuel
  {
    t.Complete() ==>
      fuel > 0 && forall a :: a in Children(env, t) ==> Enough(env, UsersetOf(a), fuel - 1)
  }

  /** The pairs the walk from `t` adds, defined without an accumulator. */
  ghost function Reach(env: Env, t: Userset, fuel: nat): (pairs: set<NsObject>)
    decreases fuel, 0
  {
    if !t.Complete() || fuel == 0 then {} else ExpandAll(env, Children(env, t), fuel - 1)
  }

  /** The pair of every tuple in `acls` together with what the walk from each adds. */
  ghost function ExpandAll(env: Env, acls: set<Acl>, fuel: nat): (pairs: set<NsObject>)
    decreases fuel, 1
  {
    (set a | a in acls :: PairOf(a)) + (set a, p | a in acls && p in Reach(env, UsersetOf(a), fuel) :: p)
  }

  /** The closure of a user: the directly held tuples and the walk from each. */
  ghost function UserClosure(env: Env, user: string, fuel: nat): (pairs: set<NsObject>) {
    ExpandAll(env, env.findAllByPrincipal(user), fuel)
  }

  /** Every user's walk returns: each directly held tuple has enough fuel. */
  ghost predicate Terminates(env: Env, fuel: nat) {
    forall user, a :: a in env.findAllByPrincipal(user) ==> Enough(env, UsersetOf(a), fuel)
  }

  /** A pair obtained from a tuple that findAllForCache returned for a nested relation. */
  ghost predicate NestedTarget(env: Env, p: NsObject) {
    exists ns, obj, relation, rel, a ::
      rel in env.nestedRelations(ns, obj, relation) && a in env.findAllForCache(ns, obj, rel) && p == PairOf(a)
  }

  /** `cycle` is a cycle of the tuple graph: each of its triples is complete and
      `next` names, for each, a tuple one walk step away whose triple is again
      in `cycle`. */
  ghost predicate Cyclic(env: Env, cycle: set<Userset>, next: map<Userset, Acl>) {
    forall u :: u in cycle ==>
      u.Complete() && u in next && next[u] in Children(env, u) && UsersetOf(next[u]) in cycle
  }

  /** Every pair the walk adds comes from a tuple that findAllForCache returned
      for a nested relation. */
  lemma {:induction false} ReachYieldsNestedTargets(env: Env, t: Userset, fuel: nat, p: NsObject)
    requires p in Reach(env, t, fuel)
    ensures NestedTarget(env, p)
    decreases fuel
  {
    var a :| a in Children(env, t) && (p == PairOf(a) || p in Reach(env, UsersetOf(a), fuel - 1));
    if p == PairOf(a) {
      var ns, obj, relation := t.namespace.value, t.obj.value, t.relation.value;
      var rel :| rel in env.nestedRelations(ns, obj, relation) && a in env.findAllForCache(ns, obj, rel);
      assert rel in env.nestedRelations(ns, obj, relation) && a in env.findAllForCache(ns, obj, rel) && p == PairOf(a);
    } else {
      ReachYieldsNestedTargets(env, UsersetOf(a), fuel - 1, p);
    }
  }

  /** Once the fuel suffices, more fuel changes nothing: the walk's result does
      not depend on the measure chosen. */
  lemma {:induction false} MoreFuelSameReach(env: Env, t: Userset, fuel: nat, more: nat)
    requires Enough(env, t, fuel) && fuel <= more
    ensures Enough(env, t, more)
    ensures Reach(env, t, fuel) == Reach(env, t, more)
    decreases fuel
  {
    if t.Complete() {
      forall a | a in Children(env, t)
        ensures Enough(env, UsersetOf(a), more - 1)
        ensures Reach(env, UsersetOf(a), fuel - 1) == Reach(env, UsersetOf(a), more - 1)
      {
        MoreFuelSameReach(env, UsersetOf(a), fuel - 1, more - 1);
      }
    }
  }

  /** The walk recurses without bound on a cyclic tuple graph: no fuel is
      enough for a triple on a cycle. */
  lemma {:induction false} NoFuelSufficesOnCycle(env: Env, cycle: set<Userset>, next: map<Userset, Acl>, fuel: nat)
    requires Cyclic(env, cycle, next)
    ensures forall u :: u in cycle ==> !Enough(env, u, fuel)
    decreases fuel
  {
    if fuel > 0 {
      NoFuelSufficesOnCycle(env, cycle, next, fuel - 1);
      forall u | u in cycle
        ensures !Enough(env, u, fuel)
      {
        var a := next[u];
        assert a in Children(env, u) && !Enough(env, UsersetOf(a), fuel - 1);
      }
    }
  }

  /** The closure holds the pair of every directly held tuple. */
  lemma DirectPairsInClosure(env: Env, user: string, fuel: nat, a: Acl)
    requires a in env.findAllByPrincipal(user)
    ensures PairOf(a) in UserClosure(env, user, fuel)
  {
  }

  lemma ExpandAllAdd(env: Env, acls: set<Acl>, a: Acl, fuel: nat)
    ensures ExpandAll(env, acls + {a}, fuel)
         == ExpandAll(env, acls, fuel) + {PairOf(a)} + Reach(env, UsersetOf(a), fuel)
  {
  }

  lemma ExpandAllUnion(env: Env, xs: set<Acl>, ys: set<Acl>, fuel: nat)
    ensures ExpandAll(env, xs + ys, fuel) == ExpandAll(env, xs, fuel) + ExpandAll(env, ys, fuel)
  {
  }

  lemma ChildrenViaAdd(env: Env, t: Userset, rels: set<string>, rel: string)
    requires t.Complete()
    ensures ChildrenVia(env, t, rels + {rel})
         == ChildrenVia(env, t, rels) + env.findAllForCache(t.namespace.value, t.obj.value, rel)
  {
  }

  /** One more relation of the outer loop contributes what its tuples expand to. */
  lemma ExpandChildrenViaAdd(env: Env, t: Userset, rels: set<string>, rel: string, fuel: nat)
    requires t.Complete()
    ensures ExpandAll(env, ChildrenVia(env, t, rels + {rel}), fuel)
         == ExpandAll(env, ChildrenVia(env, t, rels), fuel)
          + ExpandAll(env, env.findAllForCache(t.namespace.value, t.obj.value, rel), fuel)
  {
    ChildrenViaAdd(env, t, rels, rel);
    ExpandAllUnion(env, ChildrenVia(env, t, rels), env.findAllForCache(t.namespace.value, t.obj.value, rel), fuel);
  }

  /** The outer loop's accumulator after one more relation: what the tuples of
      that relation expand to is added, and nothing when it has none. */
  lemma AccumulateRelation(env: Env, t: Userset, doneRels: set<string>, rel: string, fuel: nat,
                           cache: set<NsObject>, r: set<NsObject>, r': set<NsObject>)
    requires t.Complete()
    requires r == cache + ExpandAll(env, ChildrenVia(env, t, doneRels), fuel)
    requires env.findAllForCache(t.namespace.value, t.obj.value, rel) == {} ==> r' == r
    requires env.findAllForCache(t.namespace.value, t.obj.value, rel) != {} ==>
               r' == r + ExpandAll(env, env.findAllForCache(t.namespace.value, t.obj.value, rel), fuel)
    ensures r' == cache + ExpandAll(env, ChildrenVia(env, t, doneRels + {rel}), fuel)
  {
    ExpandChildrenViaAdd(env, t, doneRels, rel, fuel);
  }

  /** Every tuple a nested relation of `t` yields has one unit of fuel less. */
  lemma ChildrenEnough(env: Env, t: Userset, rel: string, fuel: nat)
    requires t.Complete() && Enough(env, t, fuel)
    requires rel in env.nestedRelations(t.namespace.value, t.obj.value, t.relation.value)
    ensures fuel > 0
    ensures forall a :: a in env.findAllForCache(t.namespace.value, t.obj.value, rel) ==> Enough(env, UsersetOf(a), fuel - 1)
  {
    forall a | a in env.findAllForCache(t.namespace.value, t.obj.value, rel)
      ensures Enough(env, UsersetOf(a), fuel - 1)
    {
      assert a in Children(env, t);
    }
  }

  /** getLowCardinalityRelations: adds to `cache` the pair of every tuple that a
      nested relation of (usersetNamespace, usersetObject, relation) yields, and
      recurses into each such tuple. */
  method LowCardinalityRelations(env: Env, usersetNamespace: Option<string>, usersetObject: Option<string>,
                                 relation: Option<string>, cache: set<NsObject>, ghost fuel: nat)
    returns (r: set<NsObject>)
    requires Enough(env, Userset(usersetNamespace, usersetObject, relation), fuel)
    ensures r == cache + Reach(env, Userset(usersetNamespace, usersetObject, relation), fuel)
    ensures usersetNamespace.None? || usersetObject.None? || relation.None? ==> r == cache
    decreases fuel, 1
  {
    if usersetNamespace.None? || usersetObject.None? || relation.None? {
      return cache;
    }
    ghost var t := Userset(usersetNamespace, usersetObject, relation);
    var ns, obj := usersetNamespace.value, usersetObject.value;
    var relations := env.nestedRelations(ns, obj, relation.value);
    r := cache;
    var rels := relations;
    ghost var doneRels: set<string> := {};
    while rels != {}
      invariant rels + doneRels == relations && rels !! doneRels
      invariant r == cache + ExpandAll(env, ChildrenVia(env, t, doneRels), fuel - 1)
      decreases rels
    {
      var rel :| rel in rels;
      var acls := env.findAllForCache(ns, obj, rel);
      ChildrenEnough(env, t, rel, fuel);
      ghost var before := r;
      if acls != {} {
        r := AddNested(env, acls, r, fuel - 1);
      }
      AccumulateRelation(env, t, doneRels, rel, fuel - 1, cache, before, r);
      rels := rels - {rel};
      doneRels := doneRels + {rel};
    }
  }

  /** The inner loop of getLowCardinalityRelations: for each tuple, add its
      pair and what the walk from it adds. */
  method AddNested(env: Env, acls: set<Acl>, cache: set<NsObject>, ghost fuel: nat) returns (r: set<NsObject>)
    requires forall a :: a in acls ==> Enough(env, UsersetOf(a), fuel)
    ensures r == cache + ExpandAll(env, acls, fuel)
    decreases fuel, 2
  {
    r := cache;
    var todo := acls;
    ghost var done: set<Acl> := {};
    while todo != {}
      invariant todo + done == acls && todo !! done
      invariant r == cache + ExpandAll(env, done, fuel)
      decreases todo
    {
      var acl :| acl in todo;
      r := r + {PairOf(acl)};
      var res := LowCardinalityRelations(env, Some(acl.namespace), Some(acl.obj), acl.relation, r, fuel);
      r := r + res;
      ExpandAllAdd(env, done, acl, fuel);
      todo := todo - {acl};
      done := done + {acl};
    }
  }
}
