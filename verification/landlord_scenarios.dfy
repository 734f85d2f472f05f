/** The repository's test cases, restated as lemmas about the model. */
module LandlordScenarios {
  import opened TenantValues
  import opened TenantRegistry
  import opened TenantManager
  import TenantHierarchy

  const A: Column := "tenant_a_id"
  const B: Column := "tenant_b_id"

  /** A non-null integer id. */
  function SomeId(n: int): Option<Id> {
    Some(IntId(n))
  }

  /** A manager holding `tenants`, each column in the first list object
      allocated for it, with no scope and no queued model: the state the
      `addTenant` calls of a test leave behind. */
  function Holding(tenants: Registry): State {
    Initial.(tenants := tenants, lists := Lists(map c | c in Keys(tenants) :: 0, map[]))
  }

  /** The list objects `Holding` allocates for one or two columns. */
  lemma HoldingLists(a: seq<Id>, b: seq<Id>)
    ensures Holding([(A, a)]).lists == Lists(map[A := 0], map[])
    ensures Holding([(A, a), (B, b)]).lists == Lists(map[A := 0, B := 0], map[])
  {
    assert Keys([(A, a)]) == [A];
    assert Keys([(A, a), (B, b)]) == [A, B];
  }

  /** `ModelStub`: uses `BelongsToTenants`, declares `tenant_a_id`. */
  const Stub: Entity := Entity("ModelStub", true, [A], map[])

  /** `ModelBStub`: uses `BelongsToTenantHierarchy`, declares `tenant_a_id`. */
  const BStub: Entity := Entity("ModelBStub", false, [A], map[])

  /** Adding two columns then removing the only id of the first leaves the
      second alone. */
  lemma TenantsWithStrings()
    ensures var s1 := AddTenant(Initial, ColumnName(A), Passed(SomeId(1))).value;
      var s2 := AddTenant(s1, ColumnName(B), Passed(SomeId(2))).value;
      var s3 := RemoveTenant(s2, ColumnName(A), SomeId(1)).value;
      && s1.tenants == [(A, [IntId(1)])]
      && s2.tenants == [(A, [IntId(1)]), (B, [IntId(2)])]
      && s3.tenants == [(B, [IntId(2)])]
      && HasTenant(s3, ColumnName(B)) == Ok(true)
      && HasTenant(s3, ColumnName(A)) == Ok(false)
  {
    OneIdEach();
    assert Keys([(B, [IntId(2)])]) == [B];
  }

  /** The registry steps of the string and the model tests: one id for
      each of two columns, then the first removed. */
  lemma OneIdEach()
    ensures Push([], A, IntId(1)) == [(A, [IntId(1)])]
    ensures Push([(A, [IntId(1)])], B, IntId(2)) == [(A, [IntId(1)]), (B, [IntId(2)])]
    ensures Remove([(A, [IntId(1)]), (B, [IntId(2)])], A, SomeId(1)) == [(B, [IntId(2)])]
  {
    PushFresh([], A, IntId(1));
    assert Keys([(A, [IntId(1)])]) == [A];
    PushFresh([(A, [IntId(1)])], B, IntId(2));
    assert RemoveValue([IntId(1)], SomeId(1)) == [];
    RemoveInPlace([], A, [IntId(1)], [(B, [IntId(2)])], SomeId(1));
  }

  /** Ids accumulate in insertion order; removing the first id of a column
      keeps the column while other ids remain. */
  lemma TenantWithMultipleIds()
    ensures var s1 := AddTenant(Initial, ColumnName(A), Passed(SomeId(1))).value;
      var s2 := AddTenant(s1, ColumnName(A), Passed(SomeId(11))).value;
      var s3 := AddTenant(s2, ColumnName(B), Passed(SomeId(2))).value;
      var s4 := AddTenant(s3, ColumnName(B), Passed(SomeId(22))).value;
      var s5 := RemoveTenant(s4, ColumnName(A), SomeId(1)).value;
      && s2.tenants == [(A, [IntId(1), IntId(11)])]
      && s4.tenants == [(A, [IntId(1), IntId(11)]), (B, [IntId(2), IntId(22)])]
      && s5.tenants == [(A, [IntId(11)]), (B, [IntId(2), IntId(22)])]
      && HasTenant(s5, ColumnName(A)) == Ok(true)
  {
    var s2 := AddTenant(AddTenant(Initial, ColumnName(A), Passed(SomeId(1))).value, ColumnName(A), Passed(SomeId(11))).value;
    TwoIdsOneColumn(Initial, A, 1, 11);
    assert Keys([(A, [IntId(1), IntId(11)])]) == [A];
    assert s2 == Holding([(A, [IntId(1), IntId(11)])]);
    TwoColumnsTwoIds();
    RemoveFirstOfTwo();
  }

  lemma TwoColumnsTwoIds()
    ensures var s2 := Holding([(A, [IntId(1), IntId(11)])]);
      var s3 := AddTenant(s2, ColumnName(B), Passed(SomeId(2))).value;
      AddTenant(s3, ColumnName(B), Passed(SomeId(22))).value
        == Holding([(A, [IntId(1), IntId(11)]), (B, [IntId(2), IntId(22)])])
  {
    var s2 := Holding([(A, [IntId(1), IntId(11)])]);
    HoldingLists([IntId(1), IntId(11)], [IntId(2), IntId(22)]);
    assert Keys(s2.tenants) == [A];
    TwoIdsOneColumn(s2, B, 2, 22);
    assert FreshList(s2.lists, B) == 0;
    assert s2.tenants + [(B, [IntId(2), IntId(22)])] == [(A, [IntId(1), IntId(11)]), (B, [IntId(2), IntId(22)])];
  }

  lemma RemoveFirstOfTwo()
    ensures var s4 := Holding([(A, [IntId(1), IntId(11)]), (B, [IntId(2), IntId(22)])]);
      var s5 := RemoveTenant(s4, ColumnName(A), SomeId(1)).value;
      && s5.tenants == [(A, [IntId(11)]), (B, [IntId(2), IntId(22)])]
      && HasTenant(s5, ColumnName(A)) == Ok(true)
  {
    var r5: Registry := [(A, [IntId(11)]), (B, [IntId(2), IntId(22)])];
    assert RemoveValue([IntId(1), IntId(11)], SomeId(1)) == [IntId(11)];
    RemoveInPlace([], A, [IntId(1), IntId(11)], [(B, [IntId(2), IntId(22)])], SomeId(1));
    assert [] + [(A, [IntId(1), IntId(11)])] + [(B, [IntId(2), IntId(22)])]
      == [(A, [IntId(1), IntId(11)]), (B, [IntId(2), IntId(22)])];
    assert Keys(r5) == [A, B];
  }

  /** Two ids added in a row to a column that is not yet registered land
      behind the registered columns, in order. */
  lemma TwoIdsOneColumn(s: State, c: Column, m: int, n: int)
    requires c !in Keys(s.tenants)
    ensures var s1 := AddTenant(s, ColumnName(c), Passed(SomeId(m))).value;
      AddTenant(s1, ColumnName(c), Passed(SomeId(n))).value
        == s.(tenants := s.tenants + [(c, [IntId(m), IntId(n)])],
              lists := s.lists.(current := s.lists.current[c := FreshList(s.lists, c)]))
  {
    var pre := s.tenants;
    PushFresh(pre, c, IntId(m));
    PushInPlace(pre, c, [IntId(m)], [], IntId(n));
    assert [IntId(m)] + [IntId(n)] == [IntId(m), IntId(n)];
    assert pre + [(c, [IntId(m)])] + [] == pre + [(c, [IntId(m)])];
    assert pre + [(c, [IntId(m), IntId(n)])] + [] == pre + [(c, [IntId(m), IntId(n)])];
  }

  /** A model passed alone registers its key under its foreign key. */
  lemma TenantsWithModels()
    ensures var a := ModelRef(A, SomeId(1));
      var b := ModelRef(B, SomeId(2));
      var s1 := AddTenant(Initial, a, Omitted).value;
      var s2 := AddTenant(s1, b, Omitted).value;
      var s3 := RemoveTenant(s2, a, SomeId(1)).value;
      && s1.tenants == [(A, [IntId(1)])]
      && s2.tenants == [(A, [IntId(1)]), (B, [IntId(2)])]
      && s3.tenants == [(B, [IntId(2)])]
  {
    OneIdEach();
  }

  /** The null checks: a column alone, a model without a key, or an
      explicit null all raise `TenantNullId`, even for an unresolvable
      reference; a non-null id with an unresolvable reference raises
      `TenantColumnUnknown`. */
  lemma NullIds()
    ensures AddTenant(Initial, ColumnName(A), Omitted) == Err(TenantNullId)
    ensures AddTenant(Initial, ModelRef(A, None), Omitted) == Err(TenantNullId)
    ensures AddTenant(Initial, ModelRef(A, SomeId(1)), Passed(None)) == Err(TenantNullId)
    ensures AddTenant(Initial, OtherValue, Omitted) == Err(TenantNullId)
    ensures AddTenant(Initial, OtherValue, Passed(SomeId(1))) == Err(TenantColumnUnknown)
  {
  }

  /** Only the declared column gets a scope. */
  lemma ApplyTenantScopesScenario()
    ensures var s := Holding([(A, [IntId(1)]), (B, [IntId(2)])]);
      var t := ApplyTenantScopes(s, Stub);
      && (Stub.cls, A) in t.scopes
      && (Stub.cls, B) !in t.scopes
  {
    var s := Holding([(A, [IntId(1)]), (B, [IntId(2)])]);
    assert Keys(s.tenants) == [A, B];
    assert Primary(s.tenants, A) == Some(IntId(1));
  }

  /** With `{a: [1, 11], b: [2, 22]}` the single policy filters `a` on `[1]`
      and `b` gets no scope. */
  lemma SinglePolicyScenario()
    ensures var s := Holding([(A, [IntId(1), IntId(11)]), (B, [IntId(2), IntId(22)])]);
      Query(ApplyTenantScopes(s, Stub), Stub.cls) == map[A := [IntId(1)]]
  {
    var s := Holding([(A, [IntId(1), IntId(11)]), (B, [IntId(2), IntId(22)])]);
    PolicyScenario(s, Stub, Single);
  }

  /** With the same registry the hierarchy policy filters `a` on `[1, 11]`. */
  lemma HierarchyPolicyScenario()
    ensures var s := Holding([(A, [IntId(1), IntId(11)]), (B, [IntId(2), IntId(22)])]);
      Query(ApplyTenantHierarchyScopes(s, BStub), BStub.cls) == map[A := [IntId(1), IntId(11)]]
  {
    var s := Holding([(A, [IntId(1), IntId(11)]), (B, [IntId(2), IntId(22)])]);
    PolicyScenario(s, BStub, Hierarchy);
  }

  /** The filters on the model classes of the two tests above. */
  lemma PolicyScenario(s: State, e: Entity, p: Policy)
    requires s == Holding([(A, [IntId(1), IntId(11)]), (B, [IntId(2), IntId(22)])])
    requires e.declared == [A]
    ensures Query(ApplyScopes(s, e, p), e.cls) == map[A := PolicyIds(p, [IntId(1), IntId(11)])]
  {
    assert Keys(s.tenants) == [A, B];
    HoldingLists([IntId(1), IntId(11)], [IntId(2), IntId(22)]);
    assert ValidState(s);
    assert GetOrEmpty(s.tenants, A) == [IntId(1), IntId(11)];
    QueryOfFreshClass(s, e, p);
    var q := Query(ApplyScopes(s, e, p), e.cls);
    assert forall c :: c in q <==> c == A;
  }

  /** A model created before any tenant is deferred, unstamped, and stays
      queued while tenants are added. */
  lemma DeferredModelsScenario(e: Entity)
    requires e == Stub || e == BStub
    ensures var (s1, m1) := NewModel(Initial, e);
      var s2 := AddTenant(s1, ColumnName(A), Passed(SomeId(1))).value;
      var s3 := AddTenant(s2, ColumnName(A), Passed(SomeId(11))).value;
      && s1.deferred == [e]
      && A !in m1.attrs
      && s3 == Holding([(A, [IntId(1), IntId(11)])]).(deferred := [e])
  {
    var s1 := NewModel(Initial, e).0;
    assert s1 == Initial.(deferred := [e]);
    TwoIdsOneColumn(s1, A, 1, 11);
    assert [] + [(A, [IntId(1), IntId(11)])] == [(A, [IntId(1), IntId(11)])];
    assert Keys([(A, [IntId(1), IntId(11)])]) == [A];
  }

  /** Stamping a model that declares `a` alone against `{a: [1, 11]}` sets
      `a` to 1. */
  lemma StampPrimary(e: Entity)
    requires e == Stub || e == BStub
    ensures StampEntity([(A, [IntId(1), IntId(11)])], e) == e.(attrs := map[A := IntId(1)])
  {
    var tenants: Registry := [(A, [IntId(1), IntId(11)])];
    assert Keys(tenants) == [A];
    assert Primary(tenants, A) == Some(IntId(1));
    var m := StampEntity(tenants, e).attrs;
    assert forall c :: c in m <==> c == A;
    assert m == map[A := IntId(1)];
  }

  /** The flush that follows stamps the queued model with the primary id
      and empties the queue. */
  lemma FlushStampsScenario(e: Entity)
    requires e == Stub || e == BStub
    ensures var (s4, flushed) := Flush(Holding([(A, [IntId(1), IntId(11)])]).(deferred := [e]));
      && flushed == [e.(attrs := map[A := IntId(1)])]
      && s4.deferred == []
  {
    var s3 := Holding([(A, [IntId(1), IntId(11)])]).(deferred := [e]);
    StampPrimary(e);
    var flushed := Flush(s3).1;
    assert flushed[0] == StampEntity(s3.tenants, e);
  }

  /** The flush scopes the class of the queued model by the traits the
      class uses itself: a copy of `[1]` for a `BelongsToTenants` model, the
      column's list object `[1, 11]` for any other. */
  lemma FlushScopesScenario(e: Entity)
    requires e.declared == [A]
    ensures var s4 := Flush(Holding([(A, [IntId(1), IntId(11)])]).(deferred := [e])).0;
      && s4.scopes == map[(e.cls, A) := if e.usesBelongsToTenants then Copy([IntId(1)]) else Shared(0)]
      && Query(s4, e.cls) == map[A := if e.usesBelongsToTenants then [IntId(1)] else [IntId(1), IntId(11)]]
  {
    var s4 := Flush(Holding([(A, [IntId(1), IntId(11)])]).(deferred := [e])).0;
    FlushedScopes(e);
    QueryOf(s4, e.cls, A);
    assert Keys(s4.tenants) == [A];
  }

  /** The scopes the flush of the scenario above installs. */
  lemma FlushedScopes(e: Entity)
    requires e.declared == [A]
    ensures var s4 := Flush(Holding([(A, [IntId(1), IntId(11)])]).(deferred := [e])).0;
      && s4.tenants == [(A, [IntId(1), IntId(11)])]
      && s4.lists == Lists(map[A := 0], map[])
      && s4.enabled
      && s4.scopes == map[(e.cls, A) := if e.usesBelongsToTenants then Copy([IntId(1)]) else Shared(0)]
  {
    var s := Holding([(A, [IntId(1), IntId(11)])]);
    assert Keys(s.tenants) == [A];
    HoldingLists([IntId(1), IntId(11)], []);
    assert GetOrEmpty(s.tenants, A) == [IntId(1), IntId(11)];
    var r := ScopesFor(s.tenants, s.lists, map[], e, FlushPolicy(e));
    assert FlushScopes(s.tenants, s.lists, [e], map[]) == r by {
      assert [e][1..] == [];
    }
    assert Touches(s.tenants, e, (e.cls, A));
    forall k ensures k in r <==> k == (e.cls, A) {
      assert k in r <==> Touches(s.tenants, e, k);
    }
    assert r[(e.cls, A)] == Capture(s.tenants, s.lists, FlushPolicy(e), A);
    assert r == map[(e.cls, A) := if e.usesBelongsToTenants then Copy([IntId(1)]) else Shared(0)];
    assert Flush(s.(deferred := [e])).0 == s.(scopes := r);
  }

  /** A subclass of `ModelStub`: it inherits `BelongsToTenants` but does
      not use the trait itself. */
  const Child: Entity := Entity("ModelStubChild", false, [A], map[])

  /** Booting the subclass applies the single policy, through the parent's
      trait; deferred while no tenant is registered, the flush scopes it by
      the traits the class itself uses, so with the hierarchy policy: the
      same registry gives a deferred instance `[1, 11]` and an instance
      booted after the tenants were added `[1]`. */
  lemma SubclassFlushScenario()
    ensures var s1 := ApplyTenantScopes(Initial, Child);
      var s2 := AddTenant(s1, ColumnName(A), Passed(SomeId(1))).value;
      var s3 := AddTenant(s2, ColumnName(A), Passed(SomeId(11))).value;
      && s1.deferred == [Child]
      && Query(Flush(s3).0, Child.cls) == map[A := [IntId(1), IntId(11)]]
      && Query(ApplyTenantScopes(Holding(s3.tenants), Child), Child.cls) == map[A := [IntId(1)]]
  {
    SubclassDeferred();
    FlushScopesScenario(Child);
    SubclassBootedLate();
  }

  lemma SubclassDeferred()
    ensures var s1 := ApplyTenantScopes(Initial, Child);
      var s2 := AddTenant(s1, ColumnName(A), Passed(SomeId(1))).value;
      AddTenant(s2, ColumnName(A), Passed(SomeId(11))).value == Holding([(A, [IntId(1), IntId(11)])]).(deferred := [Child])
  {
    var s1 := ApplyTenantScopes(Initial, Child);
    assert s1 == Initial.(deferred := [Child]);
    TwoIdsOneColumn(s1, A, 1, 11);
    assert [] + [(A, [IntId(1), IntId(11)])] == [(A, [IntId(1), IntId(11)])];
    HoldingLists([IntId(1), IntId(11)], []);
    assert FreshList(s1.lists, A) == 0;
  }

  lemma SubclassBootedLate()
    ensures Query(ApplyTenantScopes(Holding([(A, [IntId(1), IntId(11)])]), Child), Child.cls) == map[A := [IntId(1)]]
  {
    var s := Holding([(A, [IntId(1), IntId(11)])]);
    assert Keys(s.tenants) == [A];
    QueryOfFreshClass(s, Child, Single);
    var q := Query(ApplyTenantScopes(s, Child), Child.cls);
    assert GetOrEmpty(s.tenants, A) == [IntId(1), IntId(11)];
    assert forall c :: c in q <==> c == A;
  }

  /** The scopes of `ModelBStub` and `ModelStub` booted against `{a: [1]}`:
      the hierarchy scope shares the first list object of `a`, the single
      scope holds a copy of the primary id. */
  const Booted: Scopes := map[(BStub.cls, A) := Shared(0), (Stub.cls, A) := Copy([IntId(1)])]

  /** The manager after booting both stub classes against `{a: [1]}`. */
  const S1: State := Initial.(tenants := [(A, [IntId(1)])], lists := Lists(map[A := 0], map[]), scopes := Booted)

  /** The list objects of `a` once `11` is removed again: the second
      object holds `[1]`, the first is retired holding `[1, 11]`. */
  const L3: Lists := Lists(map[A := 1], map[(A, 0) := [IntId(1), IntId(11)]])

  /** The manager after each later step of the scenario below. */
  const S2: State := S1.(tenants := [(A, [IntId(1), IntId(11)])])
  const S3: State := S1.(lists := L3)
  const S4: State := S1.(tenants := [(A, [IntId(1), IntId(12)])], lists := L3)

  /** A hierarchy scope shares the list object of column `a`, a single
      scope holds a copy: an id added afterwards reaches the hierarchy
      filter only. Removing that id again restores the registry, but the
      survivors go into a new list object, so the hierarchy filter keeps
      the removed id and no longer follows the column: a later id does not
      reach it either. The scenario starts from `S1`, the manager holding
      `{a: [1]}` once `ModelBStub` and `ModelStub` have booted (`BootBoth`). */
  lemma SharedListScenario()
    ensures var s1 := S1;
      var s2 := AddTenant(s1, ColumnName(A), Passed(SomeId(11))).value;
      var s3 := RemoveTenant(s2, ColumnName(A), SomeId(11)).value;
      var s4 := AddTenant(s3, ColumnName(A), Passed(SomeId(12))).value;
      && Query(s1, BStub.cls) == map[A := [IntId(1)]]
      && Query(s1, Stub.cls) == map[A := [IntId(1)]]
      && Query(s2, BStub.cls) == map[A := [IntId(1), IntId(11)]]
      && Query(s2, Stub.cls) == map[A := [IntId(1)]]
      && s3.tenants == s1.tenants
      && Query(s3, BStub.cls) == map[A := [IntId(1), IntId(11)]]
      && s4.tenants == [(A, [IntId(1), IntId(12)])]
      && Query(s4, BStub.cls) == map[A := [IntId(1), IntId(11)]]
  {
    AddElevenStep();
    RemoveElevenStep();
    AddTwelveStep();
    SharedListQueries();
  }

  lemma AddElevenStep()
    ensures AddTenant(S1, ColumnName(A), Passed(SomeId(11))) == Ok(S2)
  {
    assert Keys([(A, [IntId(1)])]) == [A];
    assert [] + [(A, [IntId(1)])] + [] == [(A, [IntId(1)])];
    PushInPlace([], A, [IntId(1)], [], IntId(11));
    assert [IntId(1)] + [IntId(11)] == [IntId(1), IntId(11)];
    assert [] + [(A, [IntId(1), IntId(11)])] + [] == [(A, [IntId(1), IntId(11)])];
    assert PushTenant(S1, A, IntId(11)) == S2;
  }

  lemma RemoveElevenStep()
    ensures RemoveTenant(S2, ColumnName(A), SomeId(11)) == Ok(S3)
  {
    PullEleven();
  }

  lemma PullEleven()
    ensures PullTenant(S2, A, SomeId(11)) == S3
  {
    assert Keys(S2.tenants) == [A];
    assert [] + [(A, [IntId(1), IntId(11)])] + [] == [(A, [IntId(1), IntId(11)])];
    assert RemoveValue([IntId(1), IntId(11)], SomeId(11)) == [IntId(1)];
    RemoveInPlace([], A, [IntId(1), IntId(11)], [], SomeId(11));
    assert [] + [(A, [IntId(1)])] + [] == [(A, [IntId(1)])];
    assert GetOrEmpty(S2.tenants, A) == [IntId(1), IntId(11)];
    assert FreshList(S2.lists, A) == 1;
  }

  lemma AddTwelveStep()
    ensures AddTenant(S3, ColumnName(A), Passed(SomeId(12))) == Ok(S4)
  {
    assert Keys(S3.tenants) == [A];
    assert [] + [(A, [IntId(1)])] + [] == [(A, [IntId(1)])];
    PushInPlace([], A, [IntId(1)], [], IntId(12));
    assert [IntId(1)] + [IntId(12)] == [IntId(1), IntId(12)];
    assert [] + [(A, [IntId(1), IntId(12)])] + [] == [(A, [IntId(1), IntId(12)])];
    assert PushTenant(S3, A, IntId(12)) == S4;
  }

  /** The filters of the two classes after each step of the scenario. */
  lemma SharedListQueries()
    ensures Query(S1, BStub.cls) == map[A := [IntId(1)]]
    ensures Query(S1, Stub.cls) == map[A := [IntId(1)]]
    ensures Query(S2, BStub.cls) == map[A := [IntId(1), IntId(11)]]
    ensures Query(S2, Stub.cls) == map[A := [IntId(1)]]
    ensures Query(S3, BStub.cls) == map[A := [IntId(1), IntId(11)]]
    ensures Query(S4, BStub.cls) == map[A := [IntId(1), IntId(11)]]
  {
    assert Keys(S1.tenants) == [A];
    assert Keys(S2.tenants) == [A];
    assert Keys(S4.tenants) == [A];
    QueryOf(S1, BStub.cls, A);
    QueryOf(S1, Stub.cls, A);
    QueryOf(S2, BStub.cls, A);
    QueryOf(S2, Stub.cls, A);
    QueryOf(S3, BStub.cls, A);
    QueryOf(S4, BStub.cls, A);
  }

  /** Booting `ModelBStub`, then `ModelStub`, against `{a: [1]}`. */
  lemma BootBoth()
    ensures var s0 := Holding([(A, [IntId(1)])]);
      ApplyTenantScopes(TenantHierarchy.Boot(s0, BStub), Stub)
        == S1
  {
    var s0 := Holding([(A, [IntId(1)])]);
    var b := Initial.(tenants := [(A, [IntId(1)])], lists := Lists(map[A := 0], map[]),
                      scopes := map[(BStub.cls, A) := Shared(0)]);
    BootHierarchyStep();
    assert TenantHierarchy.Boot(s0, BStub) == b;
    BootSingleStep(b);
  }

  lemma BootHierarchyStep()
    ensures TenantHierarchy.Boot(Holding([(A, [IntId(1)])]), BStub)
      == Initial.(tenants := [(A, [IntId(1)])], lists := Lists(map[A := 0], map[]),
                  scopes := map[(BStub.cls, A) := Shared(0)])
  {
    var s0 := Holding([(A, [IntId(1)])]);
    assert Keys(s0.tenants) == [A];
    assert s0.lists == Lists(map[A := 0], map[]);
    var b := ApplyScopes(s0, BStub, Hierarchy);
    forall k ensures k in b.scopes <==> k == (BStub.cls, A) {
      assert k in b.scopes <==> Touches(s0.tenants, BStub, k);
    }
    assert Touches(s0.tenants, BStub, (BStub.cls, A));
    assert b.scopes == map[(BStub.cls, A) := Shared(0)];
  }

  lemma BootSingleStep(b: State)
    requires b == Initial.(tenants := [(A, [IntId(1)])], lists := Lists(map[A := 0], map[]),
                           scopes := map[(BStub.cls, A) := Shared(0)])
    ensures ApplyTenantScopes(b, Stub) == b.(scopes := Booted)
  {
    assert Keys(b.tenants) == [A];
    var s1 := ApplyScopes(b, Stub, Single);
    assert Touches(b.tenants, Stub, (Stub.cls, A));
    forall k ensures k in s1.scopes <==> k in Booted {
      assert k in s1.scopes <==> k in b.scopes || Touches(b.tenants, Stub, k);
    }
    assert s1.scopes == Booted;
  }

  /** A query of class `cls` whose only scope is on column `c`. */
  lemma QueryOf(s: State, cls: string, c: Column)
    requires s.enabled && (cls, c) in s.scopes
    requires forall k :: k in s.scopes && k.0 == cls ==> k.1 == c
    ensures Query(s, cls) == map[c := Reads(s.tenants, s.lists, c, s.scopes[(cls, c)])]
  {
    var q := Query(s, cls);
    forall x ensures x in q <==> x == c {
      assert x in q <==> (cls, x) in s.scopes;
    }
  }

  /** Creating a model stamps its declared column only. */
  lemma NewModelScenario()
    ensures var s := Holding([(A, [IntId(1)]), (B, [IntId(2)])]);
      NewModel(s, Stub).1.attrs == map[A := IntId(1)]
  {
    var s := Holding([(A, [IntId(1)]), (B, [IntId(2)])]);
    assert Keys(s.tenants) == [A, B];
    assert Primary(s.tenants, A) == Some(IntId(1));
  }

  lemma GetTenantIdsScenario()
    ensures var s := AddTenant(Initial, ColumnName(A), Passed(SomeId(1))).value;
      && GetTenantIds(s, ColumnName(A)) == Ok([IntId(1)])
      && GetTenantIds(s, ColumnName(B)) == Err(TenantColumnUnknown)
  {
    PushFresh([], A, IntId(1));
    assert Keys([(A, [IntId(1)])]) == [A];
  }

  /** A deleted or updated hierarchy model needs a relevant column holding
      the first registered primary id. */
  lemma GuardScenario()
    ensures var s := Initial.(tenants := [(A, [IntId(1), IntId(11)])]);
      && TenantHierarchy.Delete(s, BStub.(attrs := map[A := IntId(1)])) == Ok(1)
      && TenantHierarchy.Delete(s, BStub.(attrs := map[A := IntId(11)])) == Err(ModelNotFound)
      && TenantHierarchy.Delete(s, BStub) == Err(ModelNotFound)
  {
    var s := Initial.(tenants := [(A, [IntId(1), IntId(11)])]);
    assert Keys(s.tenants) == [A];
    assert TenantHierarchy.Matching(s, BStub.(attrs := map[A := IntId(1)])) == {A};
    assert TenantHierarchy.Matches(s, BStub.(attrs := map[A := IntId(1)]), A);
  }
}
