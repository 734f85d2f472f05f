/** The `BelongsToTenantHierarchy` trait. Booting a model class installs
    scopes on the full id list of every relevant column and hooks record
    stamping onto creation; the trait's `delete` and `update` go ahead only
    for a model whose relevant columns hold the primary id of the first
    registered column, and report "not found" otherwise. */
module TenantHierarchy {
  import opened TenantValues
  import opened TenantRegistry
  import opened TenantManager

  /** `bootBelongsToTenantHierarchy`, given a fresh instance `e` of the
      class: the hierarchy policy, so an enabled query on the class admits
      every registered id of each relevant column. The model is queued only
      while no tenant is registered, and only the scopes of its relevant
      columns change. */
  function Boot(s: State, e: Entity): (t: State)
    requires ValidState(s)
    ensures ValidState(t)
    ensures t.tenants == s.tenants && t.lists == s.lists && t.enabled == s.enabled
    ensures s.tenants == [] ==> t.deferred == s.deferred + [e] && Query(t, e.cls) == Query(s, e.cls)
    ensures s.tenants == [] ==> t == s.(deferred := s.deferred + [e])
    ensures s.tenants != [] ==>
      && t == s.(scopes := t.scopes)
      && ScopedFor(s.tenants, s.lists, e, Hierarchy, s.scopes, t.scopes)
    ensures s.tenants != [] && s.enabled ==>
      forall c :: c in e.declared && c in Keys(s.tenants) ==>
        c in Query(t, e.cls) && Query(t, e.cls)[c] == GetOrEmpty(s.tenants, c)
  {
    ApplyTenantHierarchyScopes(s, e)
  }

  // ---------------------------------------------------------------------
  // The delete/update guard.

  /** Column `c` lets a mutation of `e` through: it is relevant (declared
      and registered) and holds, strictly equal, the first id of the FIRST
      registered column, whatever column `c` is. */
  predicate Matches(s: State, e: Entity, c: Column) {
    && c in e.declared
    && c in Keys(s.tenants)
    && c in e.attrs
    && FirstPrimary(s.tenants) == Some(e.attrs[c])
  }

  /** The columns that let a mutation of `e` through. */
  function Matching(s: State, e: Entity): set<Column> {
    set c | c in Keys(s.tenants) && Matches(s, e, c)
  }

  /** How many entries of `rel` hold `target` in `attrs`: the number of
      times the guard's closure calls the parent operation. */
  function MatchCount(rel: Registry, attrs: map<Column, Id>, target: Option<Id>): nat {
    if rel == [] then 0
    else
      (if rel[0].0 in attrs && Some(attrs[rel[0].0]) == target then 1 else 0)
      + MatchCount(rel[1..], attrs, target)
  }

  /** Over distinct columns, the guard calls the parent once per matching
      column. */
  lemma {:induction false} MatchCountCard(rel: Registry, attrs: map<Column, Id>, target: Option<Id>)
    requires Distinct(Keys(rel))
    ensures MatchCount(rel, attrs, target)
      == |set c | c in Keys(rel) && c in attrs && Some(attrs[c]) == target|
  {
    if rel != [] {
      var h, t := rel[0], rel[1..];
      assert rel == [h] + t;
      KeysCons(h, t);
      MatchCountCard(t, attrs, target);
      var tail := set c | c in Keys(t) && c in attrs && Some(attrs[c]) == target;
      var all := set c | c in Keys(rel) && c in attrs && Some(attrs[c]) == target;
      assert h.0 !in tail;
      if h.0 in attrs && Some(attrs[h.0]) == target {
        assert all == {h.0} + tail;
      } else {
        assert all == tail;
      }
    }
  }

  /** The number of parent calls the guard makes for `e`. */
  function GuardCount(s: State, e: Entity): (n: nat)
    requires Valid(s.tenants)
    ensures n == |Matching(s, e)|
    ensures n > 0 <==> exists c :: Matches(s, e, c)
  {
    var rel := Only(s.tenants, e.declared);
    RelevantColumns(s.tenants, e.declared);
    MatchCountCard(rel, e.attrs, FirstPrimary(s.tenants));
    var n := MatchCount(rel, e.attrs, FirstPrimary(s.tenants));
    assert (set c | c in Keys(rel) && c in e.attrs && Some(e.attrs[c]) == FirstPrimary(s.tenants))
      == Matching(s, e);
    assert (exists c :: Matches(s, e, c)) ==> |Matching(s, e)| > 0 by {
      if exists c :: Matches(s, e, c) {
        var c :| Matches(s, e, c);
        assert c in Matching(s, e);
      }
    }
    n
  }

  /** The trait's `delete`: `Ok(n)` when the parent `delete` ran `n` times,
      once per matching column; `ModelNotFound` when no column matched,
      which always happens when no column is relevant. */
  function Delete(s: State, e: Entity): (r: Result<nat>)
    requires Valid(s.tenants)
    ensures r.Ok? <==> exists c :: Matches(s, e, c)
    ensures r.Err? ==> r.error == ModelNotFound
    ensures r.Ok? ==> r.value == |Matching(s, e)|
  {
    var n := GuardCount(s, e);
    if n == 0 then Err(ModelNotFound) else Ok(n)
  }

  /** The trait's `update`: the same guard as `delete`; on success the
      parent `update` is called once per matching column, each time with the
      caller's attributes and options unchanged. */
  function Update<A, O>(s: State, e: Entity, attributes: A, options: O): (r: Result<seq<(A, O)>>)
    requires Valid(s.tenants)
    ensures r.Ok? <==> exists c :: Matches(s, e, c)
    ensures r.Err? ==> r.error == ModelNotFound
    ensures r.Ok? ==> |r.value| == |Matching(s, e)|
    ensures r.Ok? ==> forall i :: 0 <= i < |r.value| ==> r.value[i] == (attributes, options)
  {
    var n := GuardCount(s, e);
    if n == 0 then Err(ModelNotFound)
    else Ok(seq(n, _ => (attributes, options)))
  }

  // ---------------------------------------------------------------------
  // Properties.

  /** With no relevant column, and so with an empty registry, `delete` and
      `update` always report not found. */
  lemma NoRelevantColumnNotFound<A, O>(s: State, e: Entity, attributes: A, options: O)
    requires Valid(s.tenants)
    requires forall c :: c in e.declared ==> c !in Keys(s.tenants)
    ensures Delete(s, e) == Err(ModelNotFound)
    ensures Update(s, e, attributes, options) == Err(ModelNotFound)
  {
  }

  /** `update` succeeds exactly when `delete` would, with as many parent
      calls. */
  lemma UpdateGuardIsDeleteGuard<A, O>(s: State, e: Entity, attributes: A, options: O)
    requires Valid(s.tenants)
    ensures Update(s, e, attributes, options).Ok? <==> Delete(s, e).Ok?
    ensures Delete(s, e).Ok? ==> |Update(s, e, attributes, options).value| == Delete(s, e).value
  {
  }

  /** Right after boot on a class without scopes, an enabled query admits
      exactly the rows whose relevant columns each hold one of that column's
      registered ids. */
  lemma BootAdmitsRegisteredIds(s: State, e: Entity, row: map<Column, Id>)
    requires ValidState(s) && s.enabled && s.tenants != []
    requires forall k :: k in s.scopes ==> k.0 != e.cls
    ensures RowVisible(Query(Boot(s, e), e.cls), row) <==>
      forall c :: c in e.declared && c in Keys(s.tenants) ==> c in row && row[c] in GetOrEmpty(s.tenants, c)
  {
    var t := Boot(s, e);
    var f := Query(t, e.cls);
    forall c ensures c in f <==> c in e.declared && c in Keys(s.tenants) {
      assert c in f <==> (e.cls, c) in t.scopes;
    }
  }

  /** A record created through the hook that boot registers, with none of
      its tenant columns set, passes the scopes boot installed on its class. */
  lemma CreatedRecordVisible(s: State, booted: Entity, e: Entity)
    requires ValidState(s) && s.enabled && s.tenants != []
    requires forall k :: k in s.scopes ==> k.0 != booted.cls
    requires e.cls == booted.cls && e.declared == booted.declared
    requires forall c :: c in e.declared ==> c !in e.attrs
    ensures RowVisible(Query(Boot(s, booted), e.cls), NewModel(Boot(s, booted), e).1.attrs)
  {
    var t := Boot(s, booted);
    var row := NewModel(t, e).1.attrs;
    BootAdmitsRegisteredIds(s, booted, row);
    forall c | c in e.declared && c in Keys(s.tenants)
      ensures c in row && row[c] in GetOrEmpty(s.tenants, c)
    {
      GetValid(s.tenants, c);
      assert Primary(s.tenants, c) == Some(GetOrEmpty(s.tenants, c)[0]);
    }
  }

  /** The guard compares every relevant column with the primary id of the
      first registered column, not with that column's own primary id: a
      model holding its own column's primary id is reported not found when
      that column is not registered first. */
  lemma GuardTargetIsFirstColumn()
    ensures var s := Initial.(tenants := [("tenant_a_id", [IntId(1)]), ("tenant_b_id", [IntId(2)])]);
      && Delete(s, Entity("B", false, ["tenant_b_id"], map["tenant_b_id" := IntId(2)])) == Err(ModelNotFound)
      && Delete(s, Entity("B", false, ["tenant_b_id"], map["tenant_b_id" := IntId(1)])) == Ok(1)
  {
    var s := Initial.(tenants := [("tenant_a_id", [IntId(1)]), ("tenant_b_id", [IntId(2)])]);
    var e2 := Entity("B", false, ["tenant_b_id"], map["tenant_b_id" := IntId(2)]);
    var e1 := Entity("B", false, ["tenant_b_id"], map["tenant_b_id" := IntId(1)]);
    assert FirstPrimary(s.tenants) == Some(IntId(1));
    assert Keys(s.tenants) == ["tenant_a_id", "tenant_b_id"];
    assert Matches(s, e1, "tenant_b_id");
    assert Matching(s, e1) == {"tenant_b_id"};
    forall c ensures !Matches(s, e2, c) {
    }
  }
}
