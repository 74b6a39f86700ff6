/** The Punch kind of the multi-tenant service: descriptors, request shape, validation and query keys. */
module PunchKind {
  import opened Wrappers
  import opened Decimal
  import opened Values
  import opened Validation
  import Shape
  import Strings
  import Criteria

  const Descriptor: Shape.Descriptor :=
    Shape.Descriptor(Shape.Schema("punches", ["id", "owner_id", "geo"], "id", {}), "owner_id")

  /** The descriptors name distinct id and owner columns. */
  lemma OwnerIsNotId()
    ensures Descriptor.schema.table == "punches" && Descriptor.schema.idCol == "id" && Descriptor.ownerCol == "owner_id"
    ensures Descriptor.ownerCol != Descriptor.schema.idCol
  {
  }

  datatype RequestPunch = RequestPunch(id: Option<I64>, ownerId: Option<I64>, geo: Option<string>)

  /** The request's fields in declaration order. */
  function Fields(r: RequestPunch): seq<Shape.Field>
  {
    [Shape.IntField("id", r.id), Shape.IntField("owner_id", r.ownerId), Shape.TextField("geo", r.geo)]
  }

  /** `sql_cols` before joining: the present fields, in the order id, owner_id, geo. */
  function Columns(r: RequestPunch): (cs: seq<string>)
    ensures cs == Shape.Listed(r.id.Some?, "id") + (Shape.Listed(r.ownerId.Some?, "owner_id") +
                  (Shape.Listed(r.geo.Some?, "geo")))
  {
    var id, owner, geo := Shape.IntField("id", r.id), Shape.IntField("owner_id", r.ownerId),
                          Shape.TextField("geo", r.geo);
    Shape.ColumnsOfThree(id, owner, geo);
    Shape.Columns([id, owner, geo])
  }

  /**
   * The binder and the placeholders agree with `sql_cols`: one `?` per column, and the i-th
   * binding has index i + 1 and carries the i-th column's value.
   */
  lemma BinderMatchesColumns(r: RequestPunch)
    ensures Strings.Count(Shape.SqlPlaceholders(Fields(r)), '?') == |Columns(r)|
    ensures |Shape.Bind(Fields(r))| == |Columns(r)|
    ensures forall i :: 0 <= i < |Columns(r)| ==>
              Shape.Bind(Fields(r))[i].index == i + 1
              && Shape.Field(Columns(r)[i], Some(Shape.Bind(Fields(r))[i].value)) in Fields(r)
  {
  }

  /** `validate_create`: owner, then `geo`, then no id; the first failure is returned. */
  function ValidateCreate(r: RequestPunch, header: Option<I64>): (res: Result<(), ValidationError>)
    ensures res.Ok? <==> OwnerAccepted(r.ownerId, header) && r.geo.Some? && r.id.None?
    ensures r.ownerId.None? ==> res == Err(MissingRequiredOnCreate("owner_id"))
    ensures r.ownerId.Some? && header.Some? && header.value != r.ownerId.value
            ==> res == Err(InvalidOwnerId(MismatchDetail(r.ownerId.value, header.value)))
    ensures OwnerAccepted(r.ownerId, header) && r.geo.None? ==> res == Err(MissingRequiredOnCreate("geo"))
    ensures OwnerAccepted(r.ownerId, header) && r.geo.Some? && r.id.Some? ==> res == Err(IdProvidedOnCreate)
  {
    Validation.ValidateCreate(r.ownerId, header, [Required("geo", r.geo.Some?)], r.id.Some?)
  }

  /** `validate_update`: the owner check (reporting a missing owner as a create error), then the id. */
  function ValidateUpdate(r: RequestPunch, header: Option<I64>): (res: Result<(), ValidationError>)
    ensures res.Ok? <==> OwnerAccepted(r.ownerId, header) && r.id.Some?
    ensures r.ownerId.None? ==> res == Err(MissingRequiredOnCreate("owner_id"))
    ensures r.ownerId.Some? && header.Some? && header.value != r.ownerId.value
            ==> res == Err(InvalidOwnerId(MismatchDetail(r.ownerId.value, header.value)))
    ensures OwnerAccepted(r.ownerId, header) && r.id.None? ==> res == Err(MissingIdOnUpdate)
  {
    Validation.ValidateUpdate(r.ownerId, header, r.id.Some?)
  }

  datatype PunchQuery = ByOwnerId(owner: I64)

  /** The criteria each query wraps. */
  function ToCriteria(q: PunchQuery): Criteria.Criteria
  {
    Criteria.Equals("owner_id", Integer(q.owner))
  }

  /** `PunchQuery::try_from` on one (key, value) pair; `None` is its `Err(())`. */
  function ParseQuery(key: string, v: string): (r: Option<PunchQuery>)
    ensures r.Some? <==> key == "byOwnerId" && ParseI64(v).Some?
    ensures r.Some? ==> ToCriteria(r.value) == Criteria.Equals("owner_id", Integer(ParseI64(v).value))
  {
    if key == "byOwnerId" then
      match ParseI64(v)
      case Some(n) => Some(ByOwnerId(n))
      case None => None
    else None
  }
}
