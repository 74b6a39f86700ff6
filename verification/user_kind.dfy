/**
 * The User kind of the multi-tenant service. A user owns itself: its owner column is its id column
 * and its owner accessor returns its id.
 */
module UserKind {
  import opened Wrappers
  import opened Decimal
  import opened Values
  import opened Validation
  import Shape
  import Strings
  import Criteria

  /** The users table; the schema declares `guid` NOT NULL. */
  const Descriptor: Shape.Descriptor :=
    Shape.Descriptor(Shape.Schema("users", ["id", "guid", "name", "email", "picture"], "id", {"guid"}), "id")

  /** The persisted user, as sessions hold it. */
  datatype User = User(id: I64, guid: string, name: string, email: string, picture: string)

  /** The row a user is stored as: exactly the schema's columns, and it decodes back to the user. */
  function ToRow(u: User): (r: Row)
    ensures forall c :: c in r <==> c in Descriptor.schema.columns
    ensures FromRow(r) == Some(u)
  {
    map["id" := Integer(u.id), "guid" := Text(u.guid), "name" := Text(u.name), "email" := Text(u.email),
        "picture" := Text(u.picture)]
  }

  /** Reads a text column; `None` when it is NULL or not text. */
  function TextColumn(row: Row, c: string): Option<string>
  {
    if c in row && row[c].Text? then Some(row[c].s) else None
  }

  /**
   * Decodes a returned row into a user. `None` stands for the rows whose columns do not all hold
   * values of the expected type.
   */
  function FromRow(row: Row): (u: Option<User>)
    ensures u.Some? ==> "id" in row && row["id"] == Integer(u.value.id)
    ensures u.Some? ==> forall c :: c in ["guid", "name", "email", "picture"] ==> c in row && row[c].Text?
    ensures u.Some? ==> row["guid"] == Text(u.value.guid)
  {
    if "id" in row && row["id"].Integer? then
      match (TextColumn(row, "guid"), TextColumn(row, "name"), TextColumn(row, "email"), TextColumn(row, "picture"))
      case (Some(g), Some(n), Some(e), Some(p)) => Some(User(row["id"].i, g, n, e, p))
      case _ => None
    else None
  }

  /** Reading a row of the users table back and storing it again gives the same columns. */
  lemma FromRowRestores(row: Row)
    requires FromRow(row).Some?
    ensures forall c :: c in Descriptor.schema.columns ==> c in row && ToRow(FromRow(row).value)[c] == row[c]
  {
  }

  datatype RequestUser = RequestUser(id: Option<I64>, guid: Option<string>, name: Option<string>,
                                     email: Option<string>, picture: Option<string>)

  /** The owner the request asserts: the value it writes to the owner column. */
  function OwnerId(r: RequestUser): (o: Option<I64>)
    ensures Fields(r)[0] == Shape.IntField(Descriptor.ownerCol, o)
  {
    r.id
  }

  /** The owner column is the id column, and the owner accessor returns the id. */
  lemma OwnerIsId(r: RequestUser)
    ensures Descriptor.ownerCol == Descriptor.schema.idCol == "id"
    ensures OwnerId(r) == r.id
  {
  }

  /** The request's fields in declaration order. */
  function Fields(r: RequestUser): seq<Shape.Field>
  {
    [Shape.IntField("id", r.id), Shape.TextField("guid", r.guid), Shape.TextField("name", r.name),
     Shape.TextField("email", r.email), Shape.TextField("picture", r.picture)]
  }

  /** `sql_cols` before joining: the present fields, in the order id, guid, name, email, picture. */
  function Columns(r: RequestUser): (cs: seq<string>)
    ensures cs == Shape.Listed(r.id.Some?, "id") + (Shape.Listed(r.guid.Some?, "guid") +
                  (Shape.Listed(r.name.Some?, "name") + (Shape.Listed(r.email.Some?, "email") +
                  (Shape.Listed(r.picture.Some?, "picture")))))
  {
    var id, guid, name := Shape.IntField("id", r.id), Shape.TextField("guid", r.guid), Shape.TextField("name", r.name);
    var email, picture := Shape.TextField("email", r.email), Shape.TextField("picture", r.picture);
    Shape.ColumnsOfThree(name, email, picture);
    Shape.ColumnsOfFour(guid, name, email, picture);
    Shape.ColumnsOfFive(id, guid, name, email, picture);
    Shape.Columns([id, guid, name, email, picture])
  }

  /**
   * The binder and the placeholders agree with `sql_cols`: one `?` per column, and the i-th
   * binding has index i + 1 and carries the i-th column's value.
   */
  lemma BinderMatchesColumns(r: RequestUser)
    ensures Strings.Count(Shape.SqlPlaceholders(Fields(r)), '?') == |Columns(r)|
    ensures |Shape.Bind(Fields(r))| == |Columns(r)|
    ensures forall i :: 0 <= i < |Columns(r)| ==>
              Shape.Bind(Fields(r))[i].index == i + 1
              && Shape.Field(Columns(r)[i], Some(Shape.Bind(Fields(r))[i].value)) in Fields(r)
  {
  }

  /** The profile fields `validate_create` requires, in its order. */
  function Profile(r: RequestUser): seq<Required>
  {
    [Required("guid", r.guid.Some?), Required("name", r.name.Some?), Required("email", r.email.Some?),
     Required("picture", r.picture.Some?)]
  }

  /** The first missing profile field, in the order guid, name, email, picture. */
  lemma ProfileOrder(r: RequestUser)
    ensures FirstMissing(Profile(r)) ==
              if r.guid.None? then Some("guid") else if r.name.None? then Some("name")
              else if r.email.None? then Some("email") else if r.picture.None? then Some("picture") else None
  {
    var g, n := Required("guid", r.guid.Some?), Required("name", r.name.Some?);
    var e, p := Required("email", r.email.Some?), Required("picture", r.picture.Some?);
    FirstMissingPair(e, p);
    FirstMissingCons(n, [e, p]);
    assert [n] + [e, p] == [n, e, p];
    FirstMissingCons(g, [n, e, p]);
    assert [g] + [n, e, p] == Profile(r);
  }

  /**
   * `validate_create`: the owner check on the id, then guid, name, email and picture, then that the
   * id is absent. The owner check needs the id present and the last check needs it absent, so no
   * request passes.
   */
  function ValidateCreate(r: RequestUser, header: Option<I64>): (res: Result<(), ValidationError>)
    ensures res.Err?
    ensures r.id.None? ==> res == Err(MissingRequiredOnCreate("owner_id"))
    ensures r.id.Some? && header.Some? && header.value != r.id.value
            ==> res == Err(InvalidOwnerId(MismatchDetail(r.id.value, header.value)))
    ensures OwnerAccepted(r.id, header) && r.guid.None? ==> res == Err(MissingRequiredOnCreate("guid"))
    ensures OwnerAccepted(r.id, header) && r.guid.Some? && r.name.None? ==> res == Err(MissingRequiredOnCreate("name"))
    ensures OwnerAccepted(r.id, header) && r.guid.Some? && r.name.Some? && r.email.None?
            ==> res == Err(MissingRequiredOnCreate("email"))
    ensures OwnerAccepted(r.id, header) && r.guid.Some? && r.name.Some? && r.email.Some? && r.picture.None?
            ==> res == Err(MissingRequiredOnCreate("picture"))
    ensures OwnerAccepted(r.id, header) && r.guid.Some? && r.name.Some? && r.email.Some? && r.picture.Some?
            ==> res == Err(IdProvidedOnCreate)
  {
    ProfileOrder(r);
    Validation.ValidateCreate(r.id, header, Profile(r), r.id.Some?)
  }

  /**
   * `validate_update`: the owner check on the id, then the id again. A missing id is reported as a
   * missing owner, so `MissingIdOnUpdate` never comes back.
   */
  function ValidateUpdate(r: RequestUser, header: Option<I64>): (res: Result<(), ValidationError>)
    ensures res.Ok? <==> r.id.Some? && (header.None? || header.value == r.id.value)
    ensures res != Err(MissingIdOnUpdate)
    ensures r.id.None? ==> res == Err(MissingRequiredOnCreate("owner_id"))
    ensures r.id.Some? && header.Some? && header.value != r.id.value
            ==> res == Err(InvalidOwnerId(MismatchDetail(r.id.value, header.value)))
  {
    Validation.ValidateUpdate(r.id, header, r.id.Some?)
  }

  datatype UserQuery = ByGuid(guid: string)

  /** The criteria each query wraps. */
  function ToCriteria(q: UserQuery): Criteria.Criteria
  {
    Criteria.Equals("guid", Text(q.guid))
  }

  /** `UserQuery::try_from` on one (key, value) pair; `None` is its `Err(())`. */
  function ParseQuery(key: string, v: string): (r: Option<UserQuery>)
    ensures r.Some? <==> key == "byGuid"
    ensures r.Some? ==> ToCriteria(r.value) == Criteria.Equals("guid", Text(v))
  {
    if key == "byGuid" then Some(ByGuid(v)) else None
  }
}
