/** Values shared by the tenant registry, the scoping engine and the
    hierarchy guard. */
module TenantValues {

  /** A tenant identifier. The engine compares ids with PHP's strict `===`,
      so an integer id and a numeric string id are different values; `null`
      is not an `Id` but the `None` of an `Option<Id>`. */
  datatype Id = IntId(n: int) | StrId(s: string)

  /** A tenant dimension: the registry key, and the attribute of an entity
      that holds that tenant's id. */
  type Column = string

  datatype Option<+T> = None | Some(value: T)
}
