# Landlord tenant scoping, modelled in Dafny

Landlord is a multi-tenancy package for Laravel's Eloquent ORM. This project models
its scoping engine, the `TenantManager`, and the `BelongsToTenantHierarchy` model
trait.

The manager keeps four things:

- a registry of active tenants: an ordered collection from tenant column, such as
  `tenant_a_id`, to the ids registered for it;
- a global enable switch;
- a queue of models that booted or were created before any tenant was registered;
- the global scopes it installs on model classes.

Every query on a scoped class is then restricted to rows whose tenant columns hold
one of the ids its scopes read. The hierarchy trait's `delete` and `update` also check
that the model holds the primary tenant id.

The model is one immutable state record (`TenantManager.State`) with pure
transition functions. The manager's exceptions (`TenantNullIdException`,
`TenantColumnUnknownException`, `ModelNotFoundException`) become `Err` results.

Files:

- `tenant_values.dfy` (`TenantValues`): ids, columns, `Option`.
  - An id is `IntId` or `StrId`, so PHP's strict `===` is visible: `1` and `"1"`
    differ. Ids of other PHP types (floats, booleans, arrays, objects) cannot be
    represented.
  - `null` is `None`.
- `tenant_registry.dfy` (`TenantRegistry`): the registry as a sequence of
  `(column, ids)` entries.
  - It carries the collection primitives the manager relies on: `put` (in place or
    appended), `get`, `only`, `reject`.
  - Its invariant `Valid`: distinct columns, non-empty id lists.
- `tenant_manager.dfy` (`TenantManager`): the state record and every manager
  operation.
  - The id list of each column is a PHP collection object. `addTenant` pushes onto
    the column's object in place (a new column gets a new object). `removeTenant`
    always puts the surviving ids into a new object. The model numbers each
    column's list objects in allocation order (`Lists`). It keeps the final
    contents of every object the registry no longer holds.
  - Scopes are a map from (model class, column) to what the scope's closure holds
    (`Captured`). A single-policy scope holds a new list with the primary id
    (`Copy`). A hierarchy scope holds the registry's own list object (`Shared`).
  - A query's filters are read from that map, the list objects and the switch at
    query time. So an id added later reaches a hierarchy scope's filter, until a
    removal on that column replaces the list object.
- `tenant_hierarchy.dfy` (`TenantHierarchy`): the trait's boot and its
  `delete`/`update` guard.
- `landlord_scenarios.dfy` (`LandlordScenarios`): the repository's test cases,
  stated as lemmas on concrete registries.

Several operations require an invariant of the state they are given:

- `ApplyScopes`, `NewModel`, `Flush` and the trait's `Delete` and `Update` require
  `Valid` of the registry: distinct columns, each with a non-empty id list.
- `ApplyTenantScopes`, `ApplyTenantHierarchyScopes` and `Boot` require the stronger
  `ValidState`. Besides `Valid`, it says that every registered column has a list
  object and that every scope reads a non-empty list allocated for its column.

Here is why these hold in practice:

- `Initial` satisfies both (an empty registry, no scope).
- `AddTenant` and `RemoveTenant` preserve `ValidState`, and so do the scoping
  operations and `Flush` (`FlushKeepsValid`).
- PHP collections cannot hold two entries for one key, and `removeFromCollection`
  rejects every entry left empty.

So every state the manager can reach satisfies them.

## Model

| member | source | states |
|---|---|---|
| TenantRegistry.Push | src/TenantManager.php:80-86 | The id goes at the end of the column's list. A new column is added after all existing columns, an existing one keeps its position. No other column changes, and the registry invariant is kept. |
| TenantRegistry.Remove | src/TenantManager.php:88-98 | Every id strictly equal to the given one leaves the column. A column left empty disappears from the column order. Other columns keep their ids and order. On an unregistered column it is a no-op. The invariant is kept. |
| TenantRegistry.Only | src/TenantManager.php:288-291 | `modelTenants`: exactly the entries whose column is declared, as a subsequence of the registry, so in registry order. A lookup gives the registry's ids for a declared column and nothing for others. The invariant is kept. |
| TenantRegistry.RemoveValueCounts | src/TenantManager.php:90-93 | The `reject` by `===` leaves no copy of the removed id and keeps every other id as many times as before. |
| TenantRegistry.RemoveValueAppend | src/TenantManager.php:90-93 | The `reject` works element by element, so the surviving ids keep their relative order. |
| TenantRegistry.RemoveUndoesPush | src/TenantManager.php:80-98 | Removing an id just pushed onto a column that did not hold it gives back the original registry, down to the order of the columns. |
| TenantRegistry.PushInPlace | src/TenantManager.php:82-83 | `put` on a registered column replaces its entry where it stands: the entries before and after stay put. |
| TenantRegistry.PushFresh | src/TenantManager.php:82-83 | `put` on an unregistered column appends a one-id entry at the end. |
| TenantRegistry.RemoveInPlace | src/TenantManager.php:88-98 | With non-empty neighbours, removal rewrites the column's entry in place, or drops just that entry when no id survives. |
| TenantManager.TenantKey | src/TenantManager.php:265-278 | `getTenantKey`: a string is its own column name, a model resolves to its foreign key, and exactly the other values raise `TenantColumnUnknown`. |
| TenantManager.Enable | src/TenantManager.php:44-47 | `enable` sets the switch and changes nothing else: the registry, the list objects, the queue and the installed scopes stay as they are. |
| TenantManager.Disable | src/TenantManager.php:54-57 | `disable` clears the switch and changes nothing else; the scopes stay installed (see `SwitchReadAtQueryTime`). |
| TenantManager.AddTenant | src/TenantManager.php:67-78 | A null resolved id raises `TenantNullId` before key resolution, even for an unresolvable reference. A model passed alone supplies its own key. An unresolvable non-null reference raises `TenantColumnUnknown`. Otherwise only the registry and its list objects change: the id is appended to the column, and the invariant is kept. |
| TenantManager.PushTenant | src/TenantManager.php:80-86 | `addToCollection`: a registered column keeps its list object, which receives the id. A new column gets a list object numbered after all earlier ones. No retired object and no other column's object changes. |
| TenantManager.PullTenant | src/TenantManager.php:88-98 | `removeFromCollection`: a registered column's ids go into a new list object, numbered after the old one, even when nothing is removed. The old object is retired with its contents unchanged. An unregistered column leaves the manager unchanged. |
| TenantManager.RemoveTenant | src/TenantManager.php:105-108 | It fails exactly for an unresolvable reference. Otherwise only the registry and its list objects change, as `Remove` and `PullTenant` describe. Removing from an absent column leaves the manager unchanged. |
| TenantManager.HasTenant | src/TenantManager.php:117-120 | It fails exactly for an unresolvable reference. Otherwise it is true exactly when the column is registered. |
| TenantManager.GetTenantIds | src/TenantManager.php:137-146 | It raises `TenantColumnUnknown` exactly when `hasTenant` is not true. Otherwise it returns the column's registered ids, which are non-empty in a valid registry. |
| TenantManager.PushReads | src/TenantManager.php:80-86 | After a push, a scope that shares the column's current list object reads the new id at the end of what it read before. Every other scope reads what it read before, and a scope shares the current object afterwards iff it did before. |
| TenantManager.PullReads | src/TenantManager.php:88-98 | After a removal every scope reads exactly what it read before, and no scope shares the column's list object any more. |
| TenantManager.PushKeepsValid | src/TenantManager.php:80-86 | A push keeps the manager's invariant. |
| TenantManager.PullKeepsValid | src/TenantManager.php:88-98 | A removal keeps the manager's invariant: a scope left on a dropped column still reads its non-empty retired list. |
| TenantManager.CaptureReads | src/TenantManager.php:209-218 | A scope just installed reads the policy ids of its column, which are not empty. It shares the column's current list object iff it is a hierarchy scope. |
| TenantManager.Install | src/TenantManager.php:209-218 | One scope per given column, named after the column, holding what the policy captures. A scope of the same name is replaced, and every other scope is kept. |
| TenantManager.ScopesFor | src/TenantManager.php:179-181 | The iteration over `modelTenants` installs a scope for exactly the declared, registered columns, replacing scopes of the same name and keeping every other one. |
| TenantManager.ScopesForKeepsValid | src/TenantManager.php:161-163 | Installing scopes keeps the manager's invariant. |
| TenantManager.ApplyScopes | src/TenantManager.php:153-182 | With no tenant at all, the model is queued and nothing is installed. Otherwise nothing is queued, even when no column is relevant. Exactly the scopes of declared and registered columns are (re)installed with the policy's ids, and every other scope is kept. The switch and the registry are untouched. The invariant is kept. |
| TenantManager.ApplyTenantScopes | src/TenantManager.php:153-164 | Queues the model exactly when no tenant is registered. Otherwise only the scopes change: each relevant column is filtered on a copy of `[primary id]`, a scope is added only for a declared column that has a primary id, and every other scope is kept. The switch, registry and list objects are untouched. |
| TenantManager.ApplyTenantHierarchyScopes | src/TenantManager.php:171-182 | Queues the model exactly when no tenant is registered. Otherwise only the scopes change: each relevant column is filtered on the column's own list object, which reads its full id list, a scope is added only for a declared, registered column, and every other scope is kept. The switch, registry and list objects are untouched. |
| TenantManager.StampEntity | src/TenantManager.php:237-241 | Each unset relevant column is set to its primary id. Set values are never overwritten, undeclared or unregistered columns stay unset, and nothing but the attributes changes. |
| TenantManager.NewModel | src/TenantManager.php:225-242 | While disabled it does nothing, not even queueing. With no tenant, the model is queued unstamped. Otherwise the manager is unchanged and the model is stamped. |
| TenantManager.FlushScopesCorrect | src/TenantManager.php:187-204 | The flush (re)installs a scope for every relevant column of every queued model. Each gets the policy of a model that touches it: single only for a class that itself uses `BelongsToTenants`, full list otherwise. No other scope changes. |
| TenantManager.Flush | src/TenantManager.php:187-204 | The queue is emptied unconditionally and nothing else but the scopes changes. One stamped model comes back per queued model, in queue order, each stamped as `newModel` would. The scopes are as `FlushScopesCorrect` states. |
| TenantManager.FlushScopesAgree | src/TenantManager.php:189-200 | When queued models of a class agree on columns and traits, every touched scope ends with that class's policy ids, whatever the queue order. |
| TenantManager.FlushKeepsValid | src/TenantManager.php:187-204 | Flushing keeps the manager's invariant: no installed scope filters on an empty list. |
| TenantManager.FlushScopes | src/TenantManager.php:189-201 | The flush's scope installation never removes a scope, and it installs one for every relevant column of the first queued model. |
| TenantManager.FlushScopesValid | src/TenantManager.php:189-201 | The scopes installed by the flush keep the manager's invariant: each reads a non-empty list allocated for its column. |
| TenantManager.Filters | src/TenantManager.php:209-218 | While disabled no scope adds a constraint. While enabled each installed scope of the class adds `column ∈ ids`, where the ids are read when the query runs: its copy, or the current contents of the list object it shares. |
| TenantManager.NewQueryWithoutTenants | src/TenantManager.php:251-254 | Exactly the class's scopes named by a currently registered column are dropped. The rest keep their filters. |
| TenantManager.AddTenantFilters | src/TenantManager.php:80-86 | After `addTenant`, a class's query filters the same columns. A filter from a scope sharing the column's list object gains the new id at the end. Every other filter is unchanged. |
| TenantManager.RemoveTenantKeepsFilters | src/TenantManager.php:88-98 | `removeTenant` changes no query's filters, even those of hierarchy scopes on the column. Afterwards no scope shares that column's list object, so later ids do not reach them. |
| TenantManager.WithoutTenantsKeepsStaleScope | src/TenantManager.php:251-254 | A scope of a column whose last id has been removed comes back in `newQueryWithoutTenants`, with the filter it had before the removal. |
| TenantManager.AddThenRemove | src/TenantManager.php:67-108 | Adding an id to a column that did not hold it, then removing it, gives back the same registry, switch, queue and scopes. Only the list objects differ (see `SharedListScenario`). |
| TenantManager.AddThenGetIds | src/TenantManager.php:137-146 | After a successful add the column is registered, and its ids are the previous ones followed by the new id. |
| TenantManager.HasTenantIffIds | src/TenantManager.php:117-146 | In a valid registry, `hasTenant` holds iff the column has at least one id, and `getTenantIds` fails iff it has none. |
| TenantManager.DeferredBootCatchesUp | src/TenantManager.php:187-204 | A model scoped while no tenant was registered, then flushed, ends up with the scopes it would have got had it been scoped afterwards. This needs its class to use the trait of the policy it was scoped with. |
| TenantManager.DeferredCreateCatchesUp | src/TenantManager.php:225-242 | A model created while no tenant was registered, then flushed, is stamped exactly as if it had been created afterwards. |
| TenantManager.SwitchReadAtQueryTime | src/TenantManager.php:44-57 | Disabling removes no scope yet lets every row through. Re-enabling restores the same filters. |
| TenantManager.QueryOfFreshClass | src/TenantManager.php:153-182 | On a class without scopes, the filters after scoping are exactly the relevant columns, each on its policy ids. |
| TenantManager.SingleScopeAdmitsPrimary | src/TenantManager.php:153-164 | After `applyTenantScopes` on a fresh class, an enabled query admits exactly the rows whose every relevant column holds its primary id. |
| TenantHierarchy.Boot | src/BelongsToTenantHierarchy.php:20-31 | Boot uses the hierarchy policy. With no tenant the model is queued and nothing else changes. Otherwise nothing is queued, only the scopes of the relevant columns are (re)installed, every other scope is kept, and an enabled query filters every relevant column on its full id list. |
| TenantHierarchy.MatchCountCard | src/BelongsToTenantHierarchy.php:37-42 | Over distinct columns, the closure calls the parent once per column holding the target id. |
| TenantHierarchy.GuardCount | src/BelongsToTenantHierarchy.php:37-42 | The number of parent calls is the number of relevant columns holding, by `===`, the first id of the first registered column. It is positive iff some column matches. |
| TenantHierarchy.Delete | src/BelongsToTenantHierarchy.php:34-46 | It goes ahead iff some relevant column matches, calling the parent once per matching column. Otherwise it raises `ModelNotFound`. |
| TenantHierarchy.Update | src/BelongsToTenantHierarchy.php:48-60 | The same guard as delete. On success the parent is called once per matching column, each time with the caller's attributes and options unchanged. |
| TenantHierarchy.NoRelevantColumnNotFound | src/BelongsToTenantHierarchy.php:34-60 | With no relevant column, which includes an empty registry, both `delete` and `update` raise `ModelNotFound`. |
| TenantHierarchy.UpdateGuardIsDeleteGuard | src/BelongsToTenantHierarchy.php:34-60 | `update` succeeds exactly when `delete` would, with as many parent calls. |
| TenantHierarchy.BootAdmitsRegisteredIds | src/BelongsToTenantHierarchy.php:20-31 | After boot on a fresh class, an enabled query admits exactly the rows whose relevant columns each hold one of that column's registered ids. |
| TenantHierarchy.CreatedRecordVisible | src/BelongsToTenantHierarchy.php:20-31 | A record created through boot's creating hook, with no tenant column set, passes the scopes boot installed. |
| TenantHierarchy.GuardTargetIsFirstColumn | src/BelongsToTenantHierarchy.php:38 | The target is the first registered column's primary id, not the checked column's own. A model holding its own column's primary id 2 is not found, and one holding 1 is. |
| LandlordScenarios.TenantsWithStrings | tests/LandlordTest.php:12-31 | The string test: the registry after each add and remove, and `hasTenant` afterwards. |
| LandlordScenarios.TenantWithMultipleIds | tests/LandlordTest.php:33-54 | Ids accumulate in order. Removing `1` from `[1, 11]` keeps the column with `[11]`. |
| LandlordScenarios.TenantsWithModels | tests/LandlordTest.php:56-85 | A model passed alone registers its key under its foreign key, and removal by model works the same way. |
| LandlordScenarios.NullIds | src/TenantManager.php:67-77 | A column alone, a model without a key and an explicit null all raise `TenantNullId`. An unresolvable reference raises `TenantColumnUnknown` only with a non-null id. |
| LandlordScenarios.ApplyTenantScopesScenario | tests/LandlordTest.php:87-104 | The declared column gets a scope and the undeclared one does not. |
| LandlordScenarios.SinglePolicyScenario | src/TenantManager.php:153-164 | With `{a: [1, 11], b: [2, 22]}` the single policy filters `a` on `[1]` alone. |
| LandlordScenarios.HierarchyPolicyScenario | tests/LandlordTest.php:168-187 | The same registry under the hierarchy policy: `a` on `[1, 11]`, no scope for `b`. |
| LandlordScenarios.DeferredModelsScenario | tests/LandlordTest.php:106-115 | A model created before any tenant is queued, unstamped, and stays queued while ids are added. |
| LandlordScenarios.FlushStampsScenario | tests/LandlordTest.php:117-135 | The flush stamps the queued model with `1`, the primary id, for both traits, and empties the queue. |
| LandlordScenarios.FlushScopesScenario | src/TenantManager.php:192-199 | The flush scopes a class that uses `BelongsToTenants` itself with a copy of `[1]`, and any other class with the list object of `[1, 11]`. |
| LandlordScenarios.SubclassFlushScenario | src/TenantManager.php:192-193 | A subclass of a `BelongsToTenants` model is queued by the single policy, but the flush scopes it on `[1, 11]`, where booting it after the tenants gives `[1]`. |
| LandlordScenarios.BootBoth | src/TenantManager.php:153-182 | Booting a hierarchy class and then a single-policy class against `{a: [1]}` gives a hierarchy scope sharing the first list object of `a` and a single scope holding a copy of `[1]`. Nothing else changes. |
| LandlordScenarios.SharedListScenario | src/TenantManager.php:80-98 | Starting from the state `BootBoth` gives, adding `11` widens the hierarchy filter to `[1, 11]` and leaves the single filter at `[1]`. Removing `11` restores the registry but leaves the hierarchy filter at `[1, 11]`, and adding `12` then does not reach it. |
| LandlordScenarios.NewModelScenario | tests/LandlordTest.php:138-155 | Creating a model stamps its declared column only. |
| LandlordScenarios.GetTenantIdsScenario | tests/LandlordTest.php:157-166 | `getTenantIds` returns `[1]` for the registered column and fails for an unregistered one. |
| LandlordScenarios.GuardScenario | src/BelongsToTenantHierarchy.php:34-46 | Delete goes ahead for a model holding the primary id `1`. It raises not found for `11` (registered, but not primary) and for an unset column. |

## Left out

- Eloquent plumbing is reduced to records: the query builder, the `whereIn` SQL and
  `getQualifiedTenant`. Also `addGlobalScope`/`withoutGlobalScopes` storage and
  `newQuery`, the persistence done by `parent::delete`/`parent::update`, and the
  `static::creating` registration.
  - A scope is the (class, column) key with what its closure holds.
  - A query's constraints are a map from column to ids.
  - The parent calls are counted (or listed, for `update`) rather than performed.
- A model's declared columns are given as `Entity.declared`, because
  `getTenantColumns` lives in the `BelongsTo` trait, which is not part of this
  model.
- `BelongsToTenants.php` is boot wiring only. It is represented by
  `Entity.usesBelongsToTenants` and the `Single` policy of `ApplyTenantScopes`.
- The `app()` container, the singleton lookup and the `Landlord` facade are not
  modelled; the manager state is passed explicitly.
- `getTenants` is not a separate member: it is the `tenants` field of the state.
- PHP dynamic typing is reduced to the `TenantRef` datatype (string, model or
  anything else). Ids are integers or strings compared by `===`. Floats,
  booleans and other PHP values cannot be represented as ids.
- A model is a value, not a shared reference. The flush returns the stamped models
  instead of mutating the queued instances in place.
- `modelTenants` is declared `protected` in the manager but is called from the
  trait's `delete` and `update`. The model gives the intended behaviour
  (`Only` of the declared columns), not the visibility error PHP would raise.
- The return value of the trait's `delete` (PHP `null`) is not modelled. `Delete`
  returns the number of parent calls instead.
- Concurrency and sharing a manager across requests are not modelled: the engine is
  single-threaded and in-memory.
- `removeTenant` rejects every id strictly (`===`) equal to the given one
  (src/TenantManager.php:90-93), however many times it occurs.
- The flush policy is decided by `class_uses`, which lists only the traits a class
  uses directly. So a subclass of a `BelongsToTenants` model, booted with the
  single policy through its parent's trait, is flushed with the hierarchy policy
  (`SubclassFlushScenario`). `Entity.usesBelongsToTenants` records that direct
  use.
- TenantManager.DeferredBootCatchesUp: it requires the class's flush policy to be
  the policy it was scoped with, so it says nothing about such a subclass.
- The guard compares every relevant column with the first id of the first
  registered column, and not with the column's own primary id. This is
  modelled as written (see `GuardTargetIsFirstColumn`).
- TenantManager.FlushScopesCorrect: when two queued models of one class disagree on
  their columns or traits, it says only that each scope ends with the capture of
  some model touching it, not which one. The last model wins, which is
  `FlushScopesAgree` once the models agree.
- TenantManager.ApplyScopes: `requires Valid` of the registry, the manager's
  invariant, which every reachable state satisfies. The source relies on the same
  invariant without checking it.
