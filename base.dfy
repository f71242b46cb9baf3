/** Identifiers and the optional value shared by every module of the model.
    A Django nullable foreign key becomes an `Option` of the referenced id. */
module Base {

  /** Primary keys of Organization, User and auth Group rows. */
  type OrgId = nat
  type UserId = nat
  type GroupId = nat

  datatype Option<+T> = None | Some(value: T)
}
