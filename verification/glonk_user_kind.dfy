/**
 * The single-tenant service's validation errors and its User kind. Its user request has the same
 * fields, column order and binder as the multi-tenant one; only validation differs, as nothing is
 * owner-scoped.
 */
module GlonkValidation {
  import Validation

  /** The single-tenant error type: there is no owner-mismatch variant. */
  datatype Error = MissingIdOnUpdate | MissingRequiredOnCreate(field: string) | IdProvidedOnCreate

  /** The `Display` text: each variant prints as the multi-tenant variant of the same name. */
  function Display(e: Error): (r: string)
    ensures r == Validation.Display(Embed(e))
  {
    match e
    case MissingIdOnUpdate => "id required for updates"
    case MissingRequiredOnCreate(s) => "missing required field `" + s + "`"
    case IdProvidedOnCreate => "id must not be provided for create"
  }

  /** The multi-tenant variant of the same name; none of them is an owner mismatch. */
  function Embed(e: Error): (v: Validation.ValidationError)
    ensures !v.InvalidOwnerId?
    ensures v.MissingRequiredOnCreate? <==> e.MissingRequiredOnCreate?
  {
    match e
    case MissingIdOnUpdate => Validation.MissingIdOnUpdate
    case MissingRequiredOnCreate(s) => Validation.MissingRequiredOnCreate(s)
    case IdProvidedOnCreate => Validation.IdProvidedOnCreate
  }
}

module GlonkUserKind {
  import opened Wrappers
  import opened Decimal
  import opened Values
  import Validation
  import GlonkValidation
  import Shape
  import UserKind
  import Criteria

  /** The users table of the single-tenant service: a schema without an owner column. */
  const Schema: Shape.Schema := Shape.Schema("users", ["id", "guid", "name", "email", "picture"], "id", {"guid"})

  /**
   * `validate_create`: guid, name, email and picture in that order, then that the id is absent;
   * the first failure is returned.
   */
  function ValidateCreate(r: UserKind.RequestUser): (res: Result<(), GlonkValidation.Error>)
    ensures res.Ok? <==> r.guid.Some? && r.name.Some? && r.email.Some? && r.picture.Some? && r.id.None?
    ensures r.guid.None? ==> res == Err(GlonkValidation.MissingRequiredOnCreate("guid"))
    ensures r.guid.Some? && r.name.None? ==> res == Err(GlonkValidation.MissingRequiredOnCreate("name"))
    ensures r.guid.Some? && r.name.Some? && r.email.None? ==> res == Err(GlonkValidation.MissingRequiredOnCreate("email"))
    ensures r.guid.Some? && r.name.Some? && r.email.Some? && r.picture.None?
            ==> res == Err(GlonkValidation.MissingRequiredOnCreate("picture"))
    ensures r.guid.Some? && r.name.Some? && r.email.Some? && r.picture.Some? && r.id.Some?
            ==> res == Err(GlonkValidation.IdProvidedOnCreate)
  {
    UserKind.ProfileOrder(r);
    var missing := Validation.FirstMissing(UserKind.Profile(r));
    if missing.Some? then Err(GlonkValidation.MissingRequiredOnCreate(missing.value))
    else if r.id.Some? then Err(GlonkValidation.IdProvidedOnCreate)
    else Ok(())
  }

  /** `validate_update`: the id must be present. */
  function ValidateUpdate(r: UserKind.RequestUser): (res: Result<(), GlonkValidation.Error>)
    ensures res.Ok? <==> r.id.Some?
    ensures res.Err? ==> res.error == GlonkValidation.MissingIdOnUpdate
  {
    if r.id.Some? then Ok(()) else Err(GlonkValidation.MissingIdOnUpdate)
  }

  /** The single-tenant `UserQuery::try_from`: only `byGuid`, matching the guid as text. */
  function ParseQuery(key: string, v: string): (r: Option<UserKind.UserQuery>)
    ensures r.Some? <==> key == "byGuid"
    ensures r.Some? ==> UserKind.ToCriteria(r.value) == Criteria.Equals("guid", Text(v))
  {
    UserKind.ParseQuery(key, v)
  }
}
