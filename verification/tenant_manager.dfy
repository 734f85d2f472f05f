/** The tenant-scoping engine. One immutable state record holds the global
    enable switch, the registry of active tenants, the queue of models
    deferred because no tenant was registered yet, and the scopes installed
    on model classes. Every operation of the manager is a pure transition
    on that record; the manager's exceptions are `Err` results. */
module TenantManager {
  import opened TenantValues
  import opened TenantRegistry

  /** What a caller may pass as a tenant: a column name, a model (its
      foreign key names the column, its key is the id, possibly null), or
      any other value. */
  datatype TenantRef =
    | ColumnName(name: Column)
    | ModelRef(foreignKey: Column, key: Option<Id>)
    | OtherValue

  /** The second argument of `addTenant`: left out, or passed (possibly
      as null). */
  datatype IdArg = Omitted | Passed(id: Option<Id>)

  datatype Error = TenantNullId | TenantColumnUnknown | ModelNotFound

  datatype Result<+T> = Ok(value: T) | Err(error: Error)

  /** Which ids a scope filters on: only the primary id, or the full list. */
  datatype Policy = Single | Hierarchy

  /** A model instance as the engine sees it: its class, whether that class
      itself (not a parent) uses the `BelongsToTenants` trait, the tenant
      columns it declares, and its set attributes. A column missing from
      `attrs` is unset (PHP `isset` is false for a null attribute too). */
  datatype Entity = Entity(
    cls: string,
    usesBelongsToTenants: bool,
    declared: seq<Column>,
    attrs: map<Column, Id>)

  /** Global scopes are stored per model class and scope name; the engine
      names each scope after its tenant column. */
  type ScopeKey = (string, Column)

  /** What an installed scope holds on to. `Copy` is a list of its own,
      fixed when the scope is installed. `Shared(n)` is the `n`th id list
      object the registry allocated for the scope's column: the scope reads
      that object when a query runs, so ids pushed onto it later reach the
      query, while a replacement list does not. */
  datatype Captured = Copy(ids: seq<Id>) | Shared(list: nat)

  type Scopes = map<ScopeKey, Captured>

  /** Which list object holds the ids of each column. The list objects of a
      column are numbered in allocation order: `current[c]` is the number
      of the latest one, and `retired` keeps the final contents of every
      list object a column no longer holds, for the scopes that still
      share it. A list object belongs to one column for its whole life. */
  datatype Lists = Lists(current: map<Column, nat>, retired: map<(Column, nat), seq<Id>>)

  datatype State = State(
    enabled: bool,
    tenants: Registry,
    lists: Lists,
    deferred: seq<Entity>,
    scopes: Scopes)

  /** A freshly constructed manager. */
  const Initial: State := State(true, [], Lists(map[], map[]), [], map[])

  /** The number of the next list object allocated for column `c`. */
  function FreshList(lists: Lists, c: Column): (n: nat)
    ensures c in lists.current ==> n > lists.current[c]
  {
    if c in lists.current then lists.current[c] + 1 else 0
  }

  /** A scope on column `c` holding `v` shares the list object the column
      holds now. */
  predicate Live(tenants: Registry, lists: Lists, c: Column, v: Captured) {
    v.Shared? && c in Keys(tenants) && c in lists.current && lists.current[c] == v.list
  }

  /** The ids a scope on column `c` holding `v` filters on when a query
      runs: its own list, the column's current ids, or the final contents
      of the retired list object it shares. */
  function Reads(tenants: Registry, lists: Lists, c: Column, v: Captured): seq<Id> {
    match v
    case Copy(ids) => ids
    case Shared(n) =>
      if Live(tenants, lists, c, v) then GetOrEmpty(tenants, c)
      else if (c, n) in lists.retired then lists.retired[(c, n)]
      else []
  }

  /** A shared list named by a scope on column `c` was allocated for `c`. */
  predicate Allocated(lists: Lists, c: Column, v: Captured) {
    v.Shared? ==> c in lists.current && v.list <= lists.current[c]
  }

  /** Every registered column has a list object, every retired one is
      older than its column's current one, and every scope reads a
      non-empty list allocated for its column. */
  predicate Coherent(tenants: Registry, lists: Lists, scopes: Scopes) {
    && (forall c :: c in Keys(tenants) ==> c in lists.current)
    && (forall l :: l in lists.retired ==> l.0 in lists.current && l.1 < lists.current[l.0])
    && (forall k :: k in scopes ==> Allocated(lists, k.1, scopes[k]) && Reads(tenants, lists, k.1, scopes[k]) != [])
  }

  /** The manager's invariant: a valid registry, coherent with the list
      objects and the scopes. */
  predicate ValidState(s: State) {
    Valid(s.tenants) && Coherent(s.tenants, s.lists, s.scopes)
  }

  // ---------------------------------------------------------------------
  // The switch.

  /** `enable`: the switch goes on and nothing else changes. */
  function Enable(s: State): (t: State)
    ensures t.enabled && t == s.(enabled := t.enabled)
  {
    s.(enabled := true)
  }

  /** `disable`: the switch goes off and nothing else changes. */
  function Disable(s: State): (t: State)
    ensures !t.enabled && t == s.(enabled := t.enabled)
  {
    s.(enabled := false)
  }

  // ---------------------------------------------------------------------
  // Key resolution and the registry operations.

  /** `getTenantKey`: a string is its own column, a model resolves to its
      foreign key, anything else is rejected. */
  function TenantKey(t: TenantRef): (r: Result<Column>)
    ensures r.Err? <==> t.OtherValue?
    ensures r.Err? ==> r.error == TenantColumnUnknown
    ensures t.ColumnName? ==> r == Ok(t.name)
    ensures t.ModelRef? ==> r == Ok(t.foreignKey)
  {
    match t
    case ColumnName(n) => Ok(n)
    case ModelRef(fk, _) => Ok(fk)
    case OtherValue => Err(TenantColumnUnknown)
  }

  /** The id `addTenant` works with: a model passed alone supplies its own
      key, a passed id is taken as is, and a left-out id is null. */
  function ResolvedId(t: TenantRef, id: IdArg): Option<Id> {
    match id
    case Passed(v) => v
    case Omitted => if t.ModelRef? then t.key else None
  }

  /** `addToCollection` on the manager's registry: the id is pushed onto
      the list object a registered column already holds; a new column gets
      a new list object. */
  function PushTenant(s: State, c: Column, v: Id): (u: State)
    ensures u == s.(tenants := u.tenants, lists := u.lists)
    ensures Appended(s.tenants, u.tenants, c, v)
    ensures u.lists.retired == s.lists.retired
    ensures c in Keys(s.tenants) ==> u.lists == s.lists
    ensures c !in Keys(s.tenants) ==>
      && c in u.lists.current && (c in s.lists.current ==> u.lists.current[c] > s.lists.current[c])
      && (forall c' :: c' != c ==> (c' in u.lists.current <==> c' in s.lists.current))
      && (forall c' :: c' != c && c' in s.lists.current ==> u.lists.current[c'] == s.lists.current[c'])
  {
    var lists := if c in Keys(s.tenants) then s.lists
      else s.lists.(current := s.lists.current[c := FreshList(s.lists, c)]);
    s.(tenants := Push(s.tenants, c, v), lists := lists)
  }

  /** `removeFromCollection` on the manager's registry: the surviving ids of
      a registered column go into a new list object, and the old one,
      unchanged, is retired; an empty survivor list is dropped with its
      column. A column that is not registered is left alone. */
  function PullTenant(s: State, c: Column, id: Option<Id>): (u: State)
    ensures u == s.(tenants := u.tenants, lists := u.lists)
    ensures Valid(s.tenants) && c !in Keys(s.tenants) ==> u == s
    ensures c in Keys(s.tenants) && c in s.lists.current ==>
      var n := s.lists.current[c];
      && u.tenants == Remove(s.tenants, c, id)
      && u.lists.retired == s.lists.retired[(c, n) := GetOrEmpty(s.tenants, c)]
      && c in u.lists.current && u.lists.current[c] > n
      && (forall c' :: c' != c ==> (c' in u.lists.current <==> c' in s.lists.current))
      && (forall c' :: c' != c && c' in s.lists.current ==> u.lists.current[c'] == s.lists.current[c'])
  {
    if c in Keys(s.tenants) && c in s.lists.current then
      var n := s.lists.current[c];
      var lists := Lists(s.lists.current[c := FreshList(s.lists, c)],
                         s.lists.retired[(c, n) := GetOrEmpty(s.tenants, c)]);
      s.(tenants := Remove(s.tenants, c, id), lists := lists)
    else s
  }

  /** `addTenant`: the null check comes before key resolution. */
  function AddTenant(s: State, t: TenantRef, id: IdArg): (r: Result<State>)
    ensures ResolvedId(t, id).None? ==> r == Err(TenantNullId)
    ensures ResolvedId(t, id).Some? && t.OtherValue? ==> r == Err(TenantColumnUnknown)
    ensures ResolvedId(t, id).Some? && !t.OtherValue? ==>
      && r.Ok?
      && r.value == s.(tenants := r.value.tenants, lists := r.value.lists)
      && Appended(s.tenants, r.value.tenants, TenantKey(t).value, ResolvedId(t, id).value)
      && (ValidState(s) ==> ValidState(r.value))
  {
    match ResolvedId(t, id)
    case None => Err(TenantNullId)
    case Some(v) =>
      match TenantKey(t)
      case Err(e) => Err(e)
      case Ok(c) =>
        var u := PushTenant(s, c, v);
        assert ValidState(s) ==> ValidState(u) by {
          if ValidState(s) {
            PushKeepsValid(s, c, v);
          }
        }
        Ok(u)
  }

  /** `removeTenant`: drops every id strictly equal to `id` from the column,
      and the column with its last id. */
  function RemoveTenant(s: State, t: TenantRef, id: Option<Id>): (r: Result<State>)
    ensures r.Err? <==> t.OtherValue?
    ensures r.Err? ==> r.error == TenantColumnUnknown
    ensures r.Ok? ==> r.value == s.(tenants := r.value.tenants, lists := r.value.lists)
    ensures r.Ok? && ValidState(s) ==>
      && ValidState(r.value)
      && Removed(s.tenants, r.value.tenants, TenantKey(t).value, id)
      && (TenantKey(t).value !in Keys(s.tenants) ==> r.value == s)
  {
    match TenantKey(t)
    case Err(e) => Err(e)
    case Ok(c) =>
      var u := PullTenant(s, c, id);
      assert ValidState(s) ==> ValidState(u) && u.tenants == Remove(s.tenants, c, id) by {
        if ValidState(s) {
          PullKeepsValid(s, c, id);
        }
      }
      Ok(u)
  }

  /** `hasTenant`. */
  function HasTenant(s: State, t: TenantRef): (r: Result<bool>)
    ensures r.Err? <==> t.OtherValue?
    ensures r.Err? ==> r.error == TenantColumnUnknown
    ensures r.Ok? ==> (r.value <==> Get(s.tenants, TenantKey(t).value).Some?)
  {
    match TenantKey(t)
    case Err(e) => Err(e)
    case Ok(c) => Ok(c in Keys(s.tenants))
  }

  /** `getTenantIds`: the ids of a registered column in insertion order;
      an unregistered column and an unresolvable reference both raise
      `TenantColumnUnknown`. */
  function GetTenantIds(s: State, t: TenantRef): (r: Result<seq<Id>>)
    ensures r.Err? <==> HasTenant(s, t) != Ok(true)
    ensures r.Err? ==> r.error == TenantColumnUnknown
    ensures r.Ok? ==> Get(s.tenants, TenantKey(t).value) == Some(r.value)
    ensures r.Ok? && Valid(s.tenants) ==> r.value != []
  {
    match HasTenant(s, t)
    case Err(e) => Err(e)
    case Ok(b) =>
      if !b then Err(TenantColumnUnknown)
      else Ok(GetOrEmpty(s.tenants, TenantKey(t).value))
  }

  // ---------------------------------------------------------------------
  // What the registry operations do to installed scopes.

  /** After `addToCollection` on `c`, a scope reads what it read before,
      plus the new id when it shares the list object of `c`. */
  lemma PushReads(s: State, c: Column, v: Id, x: Column, w: Captured)
    requires ValidState(s) && Allocated(s.lists, x, w)
    ensures var u := PushTenant(s, c, v);
      && Allocated(u.lists, x, w)
      && (Live(u.tenants, u.lists, x, w) <==> Live(s.tenants, s.lists, x, w))
      && Reads(u.tenants, u.lists, x, w) == if x == c && Live(s.tenants, s.lists, x, w) then Reads(s.tenants, s.lists, x, w) + [v] else Reads(s.tenants, s.lists, x, w)
  {
    var u := PushTenant(s, c, v);
    if x != c {
      assert Get(u.tenants, x) == Get(s.tenants, x);
    } else if w.Shared? && c !in Keys(s.tenants) {
      assert !Live(u.tenants, u.lists, x, w);
    }
  }

  /** After `removeFromCollection` on `c`, every scope reads what it read
      before, and none shares the list object `c` holds now. */
  lemma PullReads(s: State, c: Column, id: Option<Id>, x: Column, w: Captured)
    requires ValidState(s) && Allocated(s.lists, x, w)
    ensures var u := PullTenant(s, c, id);
      && Allocated(u.lists, x, w)
      && Reads(u.tenants, u.lists, x, w) == Reads(s.tenants, s.lists, x, w)
      && (x == c ==> !Live(u.tenants, u.lists, x, w))
  {
    var u := PullTenant(s, c, id);
    if c in Keys(s.tenants) {
      if x != c {
        assert Get(u.tenants, x) == Get(s.tenants, x);
      }
    } else if x == c && w.Shared? {
      assert !Live(s.tenants, s.lists, x, w);
    }
  }

  lemma PushKeepsValid(s: State, c: Column, v: Id)
    requires ValidState(s)
    ensures ValidState(PushTenant(s, c, v))
  {
    var u := PushTenant(s, c, v);
    forall k | k in u.scopes
      ensures Allocated(u.lists, k.1, u.scopes[k]) && Reads(u.tenants, u.lists, k.1, u.scopes[k]) != []
    {
      PushReads(s, c, v, k.1, s.scopes[k]);
    }
  }

  lemma PullKeepsValid(s: State, c: Column, id: Option<Id>)
    requires ValidState(s)
    ensures ValidState(PullTenant(s, c, id))
  {
    var u := PullTenant(s, c, id);
    if c in Keys(s.tenants) {
      assert forall x :: x in Keys(u.tenants) ==> x in Keys(s.tenants) by {
        forall x | x in Keys(u.tenants) ensures x in Keys(s.tenants) {
          if x != c {
            assert Get(u.tenants, x) == Get(s.tenants, x);
          }
        }
      }
      forall k | k in u.scopes
        ensures Allocated(u.lists, k.1, u.scopes[k]) && Reads(u.tenants, u.lists, k.1, u.scopes[k]) != []
      {
        PullReads(s, c, id, k.1, s.scopes[k]);
      }
    }
  }

  // ---------------------------------------------------------------------
  // Scope installation.

  /** The ids a scope of policy `p` filters on when installed: the primary
      id alone for the single policy, the whole list for the hierarchy
      policy. */
  function PolicyIds(p: Policy, ids: seq<Id>): seq<Id> {
    match p
    case Single => if ids == [] then [] else [ids[0]]
    case Hierarchy => ids
  }

  /** What a scope of policy `p` on column `c` holds on to: a new list with
      the primary id for the single policy, the column's own list object
      for the hierarchy policy. */
  function Capture(tenants: Registry, lists: Lists, p: Policy, c: Column): Captured {
    match p
    case Single => Copy(PolicyIds(Single, GetOrEmpty(tenants, c)))
    case Hierarchy => Shared(if c in lists.current then lists.current[c] else 0)
  }

  /** Right after installation a scope reads its policy ids, and a
      hierarchy scope shares the column's list object. */
  lemma CaptureReads(tenants: Registry, lists: Lists, p: Policy, c: Column)
    requires Valid(tenants) && c in Keys(tenants) && c in lists.current
    ensures var v := Capture(tenants, lists, p, c);
      && Allocated(lists, c, v)
      && Reads(tenants, lists, c, v) == PolicyIds(p, GetOrEmpty(tenants, c)) != []
      && (Live(tenants, lists, c, v) <==> p == Hierarchy)
  {
    GetValid(tenants, c);
  }

  /** Does scoping entity `e` against `tenants` write the scope `k`? Exactly
      the columns the entity declares that are registered. */
  predicate Touches(tenants: Registry, e: Entity, k: ScopeKey) {
    k.0 == e.cls && k.1 in e.declared && k.1 in Keys(tenants)
  }

  /** `after` is `before` with one scope per relevant column of `e`,
      installed with policy `p`; an existing scope of the same name is
      replaced, every other scope is kept. */
  ghost predicate ScopedFor(tenants: Registry, lists: Lists, e: Entity, p: Policy, before: Scopes, after: Scopes) {
    && (forall k :: k in after <==> k in before || Touches(tenants, e, k))
    && (forall k :: k in after ==>
          after[k] == if Touches(tenants, e, k) then Capture(tenants, lists, p, k.1) else before[k])
  }

  /** `addGlobalScopeToSingleModel` for each column of `cols`, in order. */
  function Install(scopes: Scopes, cls: string, cols: seq<Column>, tenants: Registry, lists: Lists, p: Policy): (r: Scopes)
    ensures forall k :: k in r <==> k in scopes || (k.0 == cls && k.1 in cols)
    ensures forall k :: k in r ==>
      r[k] == if k.0 == cls && k.1 in cols then Capture(tenants, lists, p, k.1) else scopes[k]
    decreases |cols|
  {
    if cols == [] then scopes
    else Install(scopes[(cls, cols[0]) := Capture(tenants, lists, p, cols[0])], cls, cols[1..], tenants, lists, p)
  }

  /** The scopes installed for entity `e` with policy `p`: one per
      registered column the entity declares. */
  function ScopesFor(tenants: Registry, lists: Lists, scopes: Scopes, e: Entity, p: Policy): (r: Scopes)
    requires Valid(tenants)
    ensures ScopedFor(tenants, lists, e, p, scopes, r)
  {
    var cols := Keys(Only(tenants, e.declared));
    RelevantColumns(tenants, e.declared);
    assert forall k :: Touches(tenants, e, k) <==> k.0 == e.cls && k.1 in cols;
    Install(scopes, e.cls, cols, tenants, lists, p)
  }

  /** Installing scopes keeps the manager's invariant. */
  lemma ScopesForKeepsValid(tenants: Registry, lists: Lists, scopes: Scopes, e: Entity, p: Policy)
    requires Valid(tenants) && Coherent(tenants, lists, scopes)
    ensures Coherent(tenants, lists, ScopesFor(tenants, lists, scopes, e, p))
  {
    var r := ScopesFor(tenants, lists, scopes, e, p);
    forall k | k in r
      ensures Allocated(lists, k.1, r[k]) && Reads(tenants, lists, k.1, r[k]) != []
    {
      if Touches(tenants, e, k) {
        CaptureReads(tenants, lists, p, k.1);
      } else {
        assert r[k] == scopes[k];
      }
    }
  }

  /** The relevant columns of a model, `modelTenants`: its declared columns
      that are registered, each with its registered, non-empty, ids. */
  lemma RelevantColumns(tenants: Registry, declared: seq<Column>)
    requires Valid(tenants)
    ensures var rel := Only(tenants, declared);
      && Distinct(Keys(rel))
      && (forall c :: c in Keys(rel) <==> c in declared && c in Keys(tenants))
      && (forall c :: c in declared ==> GetOrEmpty(rel, c) == GetOrEmpty(tenants, c))
      && (forall c :: c in Keys(tenants) ==> GetOrEmpty(tenants, c) != [])
  {
    var rel := Only(tenants, declared);
    forall c ensures c in Keys(rel) <==> c in declared && c in Keys(tenants) {
      assert Get(rel, c) == if c in declared then Get(tenants, c) else None;
    }
    forall c | c in Keys(tenants) ensures GetOrEmpty(tenants, c) != [] {
      GetValid(tenants, c);
    }
  }

  /** The shared body of `applyTenantScopes` and
      `applyTenantHierarchyScopes`: with no tenant registered at all the
      model is deferred and nothing is installed; otherwise the relevant
      scopes are installed and nothing is deferred, even when no column is
      relevant. */
  function ApplyScopes(s: State, e: Entity, p: Policy): (t: State)
    requires Valid(s.tenants)
    ensures t.scopes == s.scopes ==> t == s.(deferred := t.deferred)
    ensures s.tenants == [] ==> t == s.(deferred := s.deferred + [e])
    ensures s.tenants != [] ==>
      && t == s.(scopes := t.scopes)
      && ScopedFor(s.tenants, s.lists, e, p, s.scopes, t.scopes)
    ensures ValidState(s) ==> ValidState(t)
  {
    if s.tenants == [] then s.(deferred := s.deferred + [e])
    else
      var t := s.(scopes := ScopesFor(s.tenants, s.lists, s.scopes, e, p));
      assert ValidState(s) ==> ValidState(t) by {
        if ValidState(s) {
          ScopesForKeepsValid(s.tenants, s.lists, s.scopes, e, p);
        }
      }
      t
  }

  /** `applyTenantScopes`: each relevant column is filtered on a list of
      its own holding the primary id. */
  function ApplyTenantScopes(s: State, e: Entity): (t: State)
    requires ValidState(s)
    ensures ValidState(t)
    ensures s.tenants == [] ==> t == s.(deferred := s.deferred + [e])
    ensures s.tenants != [] ==> t.deferred == s.deferred
    ensures s.tenants != [] ==>
      && t == s.(scopes := t.scopes)
      && ScopedFor(s.tenants, s.lists, e, Single, s.scopes, t.scopes)
    ensures forall c :: c in e.declared && Primary(s.tenants, c).Some? ==>
      (e.cls, c) in t.scopes && t.scopes[(e.cls, c)] == Copy([Primary(s.tenants, c).value])
    ensures forall k :: k in t.scopes && k !in s.scopes ==>
      k.0 == e.cls && k.1 in e.declared && Primary(s.tenants, k.1).Some?
  {
    ApplyScopes(s, e, Single)
  }

  /** `applyTenantHierarchyScopes`: each relevant column is filtered on the
      list object the registry holds for it, which reads its full id
      list. */
  function ApplyTenantHierarchyScopes(s: State, e: Entity): (t: State)
    requires ValidState(s)
    ensures ValidState(t)
    ensures s.tenants == [] ==> t == s.(deferred := s.deferred + [e])
    ensures s.tenants != [] ==> t.deferred == s.deferred
    ensures s.tenants != [] ==>
      && t == s.(scopes := t.scopes)
      && ScopedFor(s.tenants, s.lists, e, Hierarchy, s.scopes, t.scopes)
    ensures forall c :: c in e.declared && Get(s.tenants, c).Some? ==>
      && (e.cls, c) in t.scopes
      && Live(t.tenants, t.lists, c, t.scopes[(e.cls, c)])
      && Reads(t.tenants, t.lists, c, t.scopes[(e.cls, c)]) == Get(s.tenants, c).value
    ensures forall k :: k in t.scopes && k !in s.scopes ==>
      k.0 == e.cls && k.1 in e.declared && Get(s.tenants, k.1).Some?
  {
    var t := ApplyScopes(s, e, Hierarchy);
    assert forall c :: c in e.declared && Get(s.tenants, c).Some? ==>
      && (e.cls, c) in t.scopes
      && Live(t.tenants, t.lists, c, t.scopes[(e.cls, c)])
      && Reads(t.tenants, t.lists, c, t.scopes[(e.cls, c)]) == Get(s.tenants, c).value
    by {
      forall c | c in e.declared && Get(s.tenants, c).Some?
        ensures (e.cls, c) in t.scopes && Live(t.tenants, t.lists, c, t.scopes[(e.cls, c)])
        ensures Reads(t.tenants, t.lists, c, t.scopes[(e.cls, c)]) == Get(s.tenants, c).value
      {
        assert Touches(s.tenants, e, (e.cls, c));
        CaptureReads(s.tenants, s.lists, Hierarchy, c);
      }
    }
    t
  }

  // ---------------------------------------------------------------------
  // Record stamping.

  /** `after` is `before` with every unset relevant column set to its
      primary id; set values are never overwritten, undeclared and
      unregistered columns stay unset, and nothing but the attributes
      changes. */
  ghost predicate Stamped(tenants: Registry, before: Entity, after: Entity) {
    && after == before.(attrs := after.attrs)
    && (forall c :: c in after.attrs <==>
          c in before.attrs || (c in before.declared && Primary(tenants, c).Some?))
    && (forall c :: c in after.attrs ==>
          after.attrs[c] == if c in before.attrs then before.attrs[c] else Primary(tenants, c).value)
  }

  /** For each entry of `rel`, an unset attribute of that column is set to
      the entry's first id. Setting an attribute to null leaves it unset,
      which is what an empty list would give. */
  function StampAttrs(rel: Registry, attrs: map<Column, Id>): (r: map<Column, Id>)
    requires Distinct(Keys(rel))
    ensures forall c :: c in r <==> c in attrs || (c in Keys(rel) && GetOrEmpty(rel, c) != [])
    ensures forall c :: c in r ==> r[c] == if c in attrs then attrs[c] else GetOrEmpty(rel, c)[0]
  {
    if rel == [] then attrs
    else
      var h, t := rel[0], rel[1..];
      assert rel == [h] + t;
      KeysCons(h, t);
      GetCons(h, t);
      var attrs' := if h.0 in attrs || h.1 == [] then attrs else attrs[h.0 := h.1[0]];
      StampAttrs(t, attrs')
  }

  /** Stamp entity `e` with the primary ids of its relevant columns. */
  function StampEntity(tenants: Registry, e: Entity): (r: Entity)
    requires Valid(tenants)
    ensures Stamped(tenants, e, r)
  {
    var rel := Only(tenants, e.declared);
    RelevantColumns(tenants, e.declared);
    e.(attrs := StampAttrs(rel, e.attrs))
  }

  /** `newModel`: a no-op while disabled (no deferral either); with no
      tenant registered the model is deferred; otherwise it is stamped. */
  function NewModel(s: State, e: Entity): (r: (State, Entity))
    requires Valid(s.tenants)
    ensures !s.enabled ==> r == (s, e)
    ensures s.enabled && s.tenants == [] ==> r == (s.(deferred := s.deferred + [e]), e)
    ensures s.enabled && s.tenants != [] ==> r.0 == s && Stamped(s.tenants, e, r.1)
  {
    if !s.enabled then (s, e)
    else if s.tenants == [] then (s.(deferred := s.deferred + [e]), e)
    else (s, StampEntity(s.tenants, e))
  }

  // ---------------------------------------------------------------------
  // The deferral queue.

  /** The policy a deferred model is scoped with: single only when its class
      itself uses `BelongsToTenants` (`class_uses`), full lists otherwise. */
  function FlushPolicy(e: Entity): Policy {
    if e.usesBelongsToTenants then Single else Hierarchy
  }

  /** Entities of the same class agree on their declared columns and on the
      traits their class uses. */
  ghost predicate ClassesAgree(q: seq<Entity>) {
    forall i, j :: 0 <= i < |q| && 0 <= j < |q| && q[i].cls == q[j].cls ==>
      q[i].declared == q[j].declared && q[i].usesBelongsToTenants == q[j].usesBelongsToTenants
  }

  /** `after` is `before` after flushing the queue `q`: the scopes of every
      queued model's relevant columns are (re)installed, each with the
      policy of some model that touches it, and no other scope changes. */
  ghost predicate FlushedScopes(tenants: Registry, lists: Lists, q: seq<Entity>, before: Scopes, after: Scopes) {
    && (forall k :: k in after <==> k in before || exists i :: 0 <= i < |q| && Touches(tenants, q[i], k))
    && (forall k :: k in after ==>
          || (k in before && after[k] == before[k] && forall i :: 0 <= i < |q| ==> !Touches(tenants, q[i], k))
          || exists i :: 0 <= i < |q| && Touches(tenants, q[i], k)
               && after[k] == Capture(tenants, lists, FlushPolicy(q[i]), k.1))
  }

  /** Scopes installed by flushing the queue `q`, front to back: every scope
      already installed is kept or replaced, and the scopes of the first
      queued model's relevant columns are installed. */
  function FlushScopes(tenants: Registry, lists: Lists, q: seq<Entity>, scopes: Scopes): (r: Scopes)
    requires Valid(tenants)
    ensures forall k :: k in scopes ==> k in r
    ensures q != [] ==> forall k :: Touches(tenants, q[0], k) ==> k in r
    decreases |q|
  {
    if q == [] then scopes
    else FlushScopes(tenants, lists, q[1..], ScopesFor(tenants, lists, scopes, q[0], FlushPolicy(q[0])))
  }

  lemma {:induction false} FlushScopesCorrect(tenants: Registry, lists: Lists, q: seq<Entity>, scopes: Scopes)
    requires Valid(tenants)
    ensures FlushedScopes(tenants, lists, q, scopes, FlushScopes(tenants, lists, q, scopes))
    decreases |q|
  {
    if q != [] {
      var scopes' := ScopesFor(tenants, lists, scopes, q[0], FlushPolicy(q[0]));
      var r := FlushScopes(tenants, lists, q[1..], scopes');
      var tail := q[1..];
      FlushScopesCorrect(tenants, lists, tail, scopes');
      assert forall i :: 0 < i < |q| ==> q[i] == tail[i - 1];
      forall k ensures k in r <==> k in scopes || exists i :: 0 <= i < |q| && Touches(tenants, q[i], k) {
        if exists i :: 0 <= i < |q| && Touches(tenants, q[i], k) {
          var i :| 0 <= i < |q| && Touches(tenants, q[i], k);
          if i > 0 {
            assert Touches(tenants, tail[i - 1], k);
          }
        }
        if exists i :: 0 <= i < |tail| && Touches(tenants, tail[i], k) {
          var i :| 0 <= i < |tail| && Touches(tenants, tail[i], k);
          assert Touches(tenants, q[i + 1], k);
        }
      }
      forall k | k in r
        ensures || (k in scopes && r[k] == scopes[k] && forall i :: 0 <= i < |q| ==> !Touches(tenants, q[i], k))
                || exists i :: 0 <= i < |q| && Touches(tenants, q[i], k)
                     && r[k] == Capture(tenants, lists, FlushPolicy(q[i]), k.1)
      {
        if exists i :: 0 <= i < |tail| && Touches(tenants, tail[i], k)
             && r[k] == Capture(tenants, lists, FlushPolicy(tail[i]), k.1) {
          var i :| 0 <= i < |tail| && Touches(tenants, tail[i], k)
             && r[k] == Capture(tenants, lists, FlushPolicy(tail[i]), k.1);
          assert q[i + 1] == tail[i];
        } else if Touches(tenants, q[0], k) {
          assert r[k] == Capture(tenants, lists, FlushPolicy(q[0]), k.1);
        } else {
          assert forall i :: 0 < i < |q| ==> !Touches(tenants, q[i], k) by {
            forall i | 0 < i < |q| ensures !Touches(tenants, q[i], k) {
              assert q[i] == tail[i - 1];
            }
          }
        }
      }
    }
  }

  /** `applyTenantScopesToDeferredModels`: every queued model is stamped and
      scoped against the current registry, and the queue is emptied, also
      for models that got nothing. The stamped models are returned in queue
      order. */
  function Flush(s: State): (r: (State, seq<Entity>))
    requires Valid(s.tenants)
    ensures r.0 == s.(deferred := [], scopes := r.0.scopes)
    ensures |r.1| == |s.deferred|
    ensures forall i :: 0 <= i < |r.1| ==> Stamped(s.tenants, s.deferred[i], r.1[i])
    ensures FlushedScopes(s.tenants, s.lists, s.deferred, s.scopes, r.0.scopes)
  {
    FlushScopesCorrect(s.tenants, s.lists, s.deferred, s.scopes);
    var stamped := seq(|s.deferred|, i requires 0 <= i < |s.deferred| => StampEntity(s.tenants, s.deferred[i]));
    (s.(deferred := [], scopes := FlushScopes(s.tenants, s.lists, s.deferred, s.scopes)), stamped)
  }

  // ---------------------------------------------------------------------
  // Query-time filtering.

  /** The `whereIn` constraints a query on class `cls` receives from its
      installed scopes, leaving out the scopes named in `without`. Each
      scope reads its ids when the query runs. While the switch is off
      every scope returns without a constraint. */
  function Filters(s: State, cls: string, without: set<Column>): (f: map<Column, seq<Id>>)
    ensures forall c :: c in f <==> s.enabled && (cls, c) in s.scopes && c !in without
    ensures forall c :: c in f ==> f[c] == Reads(s.tenants, s.lists, c, s.scopes[(cls, c)])
  {
    if !s.enabled then map[]
    else
      var cols := set k | k in s.scopes && k.0 == cls :: k.1;
      map c | c in cols && c !in without && (cls, c) in s.scopes :: Reads(s.tenants, s.lists, c, s.scopes[(cls, c)])
  }

  /** A row of class `cls` passes the constraints `f` when each constrained
      column holds one of the ids its scope reads. */
  predicate RowVisible(f: map<Column, seq<Id>>, row: map<Column, Id>) {
    forall c :: c in f ==> c in row && row[c] in f[c]
  }

  /** A plain query on class `cls`. */
  function Query(s: State, cls: string): map<Column, seq<Id>> {
    Filters(s, cls, {})
  }

  /** `newQueryWithoutTenants`: a query with the scopes named by the
      currently registered columns removed. */
  function NewQueryWithoutTenants(s: State, e: Entity): (f: map<Column, seq<Id>>)
    ensures forall c :: c in f <==> s.enabled && (e.cls, c) in s.scopes && c !in Keys(s.tenants)
    ensures forall c :: c in f ==> f[c] == Reads(s.tenants, s.lists, c, s.scopes[(e.cls, c)])
  {
    Filters(s, e.cls, set c | c in Keys(s.tenants))
  }

  // ---------------------------------------------------------------------
  // Properties across operations.

  /** `addTenant` reaches the scopes that share the column's list object:
      their filters gain the new id. Every other filter stays as it was. */
  lemma AddTenantFilters(s: State, c: Column, id: Id, cls: string)
    requires ValidState(s)
    ensures var u := AddTenant(s, ColumnName(c), Passed(Some(id))).value;
      && (forall x :: x in Query(u, cls) <==> x in Query(s, cls))
      && (forall x :: x in Query(u, cls) ==>
            Query(u, cls)[x] == if x == c && Live(s.tenants, s.lists, c, s.scopes[(cls, c)]) then Query(s, cls)[x] + [id] else Query(s, cls)[x])
  {
    var u := AddTenant(s, ColumnName(c), Passed(Some(id))).value;
    assert u == PushTenant(s, c, id);
    forall x | x in Query(u, cls)
      ensures Query(u, cls)[x] == if x == c && Live(s.tenants, s.lists, c, s.scopes[(cls, c)]) then Query(s, cls)[x] + [id] else Query(s, cls)[x]
    {
      PushReads(s, c, id, x, s.scopes[(cls, x)]);
    }
  }

  /** `removeTenant` never changes an installed filter: the surviving ids
      go into a new list object, and a scope that shared the old one keeps
      reading it, so no scope shares the column's list afterwards. */
  lemma RemoveTenantKeepsFilters(s: State, t: TenantRef, id: Option<Id>, cls: string)
    requires ValidState(s) && !t.OtherValue?
    ensures var u := RemoveTenant(s, t, id).value;
      && Query(u, cls) == Query(s, cls)
      && forall k :: k in u.scopes && k.1 == TenantKey(t).value ==> !Live(u.tenants, u.lists, k.1, u.scopes[k])
  {
    var c := TenantKey(t).value;
    var u := RemoveTenant(s, t, id).value;
    assert u == PullTenant(s, c, id);
    forall x | (cls, x) in s.scopes
      ensures Reads(u.tenants, u.lists, x, s.scopes[(cls, x)]) == Reads(s.tenants, s.lists, x, s.scopes[(cls, x)])
    {
      PullReads(s, c, id, x, s.scopes[(cls, x)]);
    }
    forall k | k in u.scopes && k.1 == c ensures !Live(u.tenants, u.lists, k.1, u.scopes[k]) {
      PullReads(s, c, id, k.1, s.scopes[k]);
    }
  }

  /** `newQueryWithoutTenants` drops only the scopes named by the columns
      registered now: once the last id of a column is removed, the scope
      installed for it earlier comes back, with the filter it had. */
  lemma WithoutTenantsKeepsStaleScope(s: State, e: Entity, c: Column, id: Id)
    requires ValidState(s) && s.enabled
    requires (e.cls, c) in s.scopes
    requires Get(s.tenants, c) == Some([id])
    ensures c !in NewQueryWithoutTenants(s, e)
    ensures var u := RemoveTenant(s, ColumnName(c), Some(id)).value;
      && c in NewQueryWithoutTenants(u, e)
      && NewQueryWithoutTenants(u, e)[c] == Query(s, e.cls)[c]
  {
    assert RemoveValue([id], Some(id)) == [];
    RemoveTenantKeepsFilters(s, ColumnName(c), Some(id), e.cls);
  }

  /** Adding an id and removing it again gives back the registry, the
      queue, the scopes and the switch, as long as the id was not already
      registered for that column. Only the list objects differ. */
  lemma AddThenRemove(s: State, c: Column, id: Id)
    requires ValidState(s)
    requires id !in GetOrEmpty(s.tenants, c)
    ensures AddTenant(s, ColumnName(c), Passed(Some(id))).Ok?
    ensures var u := RemoveTenant(AddTenant(s, ColumnName(c), Passed(Some(id))).value, ColumnName(c), Some(id));
      && u.Ok?
      && u.value == s.(lists := u.value.lists)
  {
    RemoveUndoesPush(s.tenants, c, id);
  }

  /** After a successful add the column is registered and its ids are the
      previous ones followed by the new id. */
  lemma AddThenGetIds(s: State, t: TenantRef, id: Id)
    requires Valid(s.tenants)
    requires !t.OtherValue?
    ensures AddTenant(s, t, Passed(Some(id))).Ok?
    ensures var s' := AddTenant(s, t, Passed(Some(id))).value;
      && HasTenant(s', t) == Ok(true)
      && GetTenantIds(s', t) == Ok(GetOrEmpty(s.tenants, TenantKey(t).value) + [id])
  {
  }

  /** In a valid registry a column is registered exactly when it has at
      least one id, so `getTenantIds` fails exactly when `hasTenant` is
      false. */
  lemma HasTenantIffIds(s: State, c: Column)
    requires Valid(s.tenants)
    ensures HasTenant(s, ColumnName(c)) == Ok(true) <==> GetOrEmpty(s.tenants, c) != []
    ensures GetTenantIds(s, ColumnName(c)).Err? <==> GetOrEmpty(s.tenants, c) == []
  {
    GetValid(s.tenants, c);
  }

  /** When queued models of one class agree on their columns and traits,
      flushing leaves each touched scope with that class's policy. */
  lemma FlushScopesAgree(tenants: Registry, lists: Lists, q: seq<Entity>, scopes: Scopes, i: nat, k: ScopeKey)
    requires Valid(tenants) && ClassesAgree(q)
    requires i < |q| && Touches(tenants, q[i], k)
    ensures k in FlushScopes(tenants, lists, q, scopes)
    ensures FlushScopes(tenants, lists, q, scopes)[k] == Capture(tenants, lists, FlushPolicy(q[i]), k.1)
  {
    FlushScopesCorrect(tenants, lists, q, scopes);
    var r := FlushScopes(tenants, lists, q, scopes);
    assert k in r;
    assert !(forall i' :: 0 <= i' < |q| ==> !Touches(tenants, q[i'], k));
    var j :| 0 <= j < |q| && Touches(tenants, q[j], k)
      && r[k] == Capture(tenants, lists, FlushPolicy(q[j]), k.1);
    assert q[j].cls == q[i].cls;
    assert FlushPolicy(q[j]) == FlushPolicy(q[i]);
  }

  /** Flushing the queue `q` keeps the manager's invariant. */
  lemma {:induction false} FlushScopesValid(tenants: Registry, lists: Lists, q: seq<Entity>, scopes: Scopes)
    requires Valid(tenants) && Coherent(tenants, lists, scopes)
    ensures Coherent(tenants, lists, FlushScopes(tenants, lists, q, scopes))
    decreases |q|
  {
    if q != [] {
      ScopesForKeepsValid(tenants, lists, scopes, q[0], FlushPolicy(q[0]));
      FlushScopesValid(tenants, lists, q[1..], ScopesFor(tenants, lists, scopes, q[0], FlushPolicy(q[0])));
    }
  }

  /** Flushing keeps the manager's invariant. */
  lemma FlushKeepsValid(s: State)
    requires ValidState(s)
    ensures ValidState(Flush(s).0)
  {
    FlushScopesValid(s.tenants, s.lists, s.deferred, s.scopes);
  }

  /** A model booted while no tenant was registered, then flushed after
      tenants were added, ends up with the scopes it would have got had it
      booted after the tenants were added, when its class itself uses the
      trait it booted with. */
  lemma DeferredBootCatchesUp(s: State, e: Entity, p: Policy, tenants: Registry)
    requires s.tenants == [] && s.deferred == []
    requires Valid(tenants) && tenants != []
    requires FlushPolicy(e) == p
    ensures ApplyScopes(s, e, p).deferred == [e]
    ensures Flush(ApplyScopes(s, e, p).(tenants := tenants)).0 == ApplyScopes(s.(tenants := tenants), e, p)
  {
    var later := ApplyScopes(s, e, p).(tenants := tenants);
    assert later == s.(deferred := [e], tenants := tenants);
    assert [e][1..] == [];
    var sc := ScopesFor(tenants, s.lists, s.scopes, e, p);
    assert FlushScopes(tenants, s.lists, [e], s.scopes) == FlushScopes(tenants, s.lists, [], sc) == sc;
    assert Flush(later).0 == later.(deferred := [], scopes := sc);
  }

  /** A model created while no tenant was registered, then flushed, is
      stamped as it would have been had it been created afterwards. */
  lemma DeferredCreateCatchesUp(s: State, e: Entity, tenants: Registry)
    requires s.enabled && s.tenants == [] && s.deferred == []
    requires Valid(tenants) && tenants != []
    ensures NewModel(s, e).0.deferred == [e]
    ensures Flush(NewModel(s, e).0.(tenants := tenants)).1 == [NewModel(s.(tenants := tenants), e).1]
  {
  }

  /** The switch is read when a query runs: while off, every row is
      visible though no scope was removed; switching back on restores the
      same filters. */
  lemma SwitchReadAtQueryTime(s: State, cls: string, row: map<Column, Id>)
    ensures Disable(s).scopes == s.scopes && RowVisible(Query(Disable(s), cls), row)
    ensures Query(Enable(Disable(s)), cls) == Query(Enable(s), cls)
  {
  }

  /** On a class without scopes, with tenants registered, the filters an
      enabled query receives after scoping with policy `p` are exactly the
      relevant columns, each on its policy ids. */
  lemma QueryOfFreshClass(s: State, e: Entity, p: Policy)
    requires ValidState(s) && s.enabled && s.tenants != []
    requires forall k :: k in s.scopes ==> k.0 != e.cls
    ensures var q := Query(ApplyScopes(s, e, p), e.cls);
      && (forall c :: c in q <==> c in e.declared && c in Keys(s.tenants))
      && (forall c :: c in q ==> q[c] == PolicyIds(p, GetOrEmpty(s.tenants, c)))
  {
    var t := ApplyScopes(s, e, p);
    var q := Query(t, e.cls);
    forall c ensures c in q <==> c in e.declared && c in Keys(s.tenants) {
      assert c in q <==> (e.cls, c) in t.scopes;
    }
    forall c | c in q ensures q[c] == PolicyIds(p, GetOrEmpty(s.tenants, c)) {
      assert Touches(s.tenants, e, (e.cls, c));
      CaptureReads(s.tenants, s.lists, p, c);
    }
  }

  /** Right after `applyTenantScopes` on a class without scopes, an enabled
      query shows exactly the rows holding the primary id of every relevant
      column. */
  lemma SingleScopeAdmitsPrimary(s: State, e: Entity, row: map<Column, Id>)
    requires ValidState(s) && s.enabled && s.tenants != []
    requires forall k :: k in s.scopes ==> k.0 != e.cls
    ensures RowVisible(Query(ApplyTenantScopes(s, e), e.cls), row) <==>
      forall c :: c in e.declared && c in Keys(s.tenants) ==> c in row && Some(row[c]) == Primary(s.tenants, c)
  {
    QueryOfFreshClass(s, e, Single);
    PrimaryFilters(s.tenants, e.declared, Query(ApplyTenantScopes(s, e), e.cls), row);
  }

  /** Constraints holding each relevant column's primary id admit exactly
      the rows that carry those primary ids. */
  lemma PrimaryFilters(tenants: Registry, declared: seq<Column>, f: map<Column, seq<Id>>, row: map<Column, Id>)
    requires Valid(tenants)
    requires forall c :: c in f <==> c in declared && c in Keys(tenants)
    requires forall c :: c in f ==> f[c] == PolicyIds(Single, GetOrEmpty(tenants, c))
    ensures RowVisible(f, row) <==>
      forall c :: c in declared && c in Keys(tenants) ==> c in row && Some(row[c]) == Primary(tenants, c)
  {
    forall c | c in f ensures Primary(tenants, c).Some? && f[c] == [Primary(tenants, c).value] {
      GetValid(tenants, c);
    }
    if RowVisible(f, row) {
      forall c | c in declared && c in Keys(tenants)
        ensures c in row && Some(row[c]) == Primary(tenants, c)
      {
        assert c in f;
      }
    }
  }
}
