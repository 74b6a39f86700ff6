/** The Comment kind of the multi-tenant service: descriptors, request shape, validation and query keys. */
module CommentKind {
  import opened Wrappers
  import opened Decimal
  import opened Values
  import opened Validation
  import Shape
  import Strings
  import Criteria

  const Descriptor: Shape.Descriptor :=
    Shape.Descriptor(Shape.Schema("comments", ["id", "owner_id", "note_id", "contents"], "id", {}), "owner_id")

  /** The descriptors name distinct id and owner columns. */
  lemma OwnerIsNotId()
    ensures Descriptor.schema.table == "comments" && Descriptor.schema.idCol == "id" && Descriptor.ownerCol == "owner_id"
    ensures Descriptor.ownerCol != Descriptor.schema.idCol
  {
  }

  datatype RequestComment =
    RequestComment(id: Option<I64>, ownerId: Option<I64>, noteId: Option<I64>, contents: Option<string>)

  /** The request's fields in declaration order. */
  function Fields(r: RequestComment): seq<Shape.Field>
  {
    [Shape.IntField("id", r.id), Shape.IntField("owner_id", r.ownerId), Shape.IntField("note_id", r.noteId),
     Shape.TextField("contents", r.contents)]
  }

  /** `sql_cols` before joining: the present fields, in the order id, owner_id, note_id, contents. */
  function Columns(r: RequestComment): (cs: seq<string>)
    ensures cs == Shape.Listed(r.id.Some?, "id") + (Shape.Listed(r.ownerId.Some?, "owner_id") +
                  (Shape.Listed(r.noteId.Some?, "note_id") + (Shape.Listed(r.contents.Some?, "contents"))))
  {
    var id, owner, note, contents := Shape.IntField("id", r.id), Shape.IntField("owner_id", r.ownerId),
                                     Shape.IntField("note_id", r.noteId), Shape.TextField("contents", r.contents);
    Shape.ColumnsOfThree(owner, note, contents);
    Shape.ColumnsOfFour(id, owner, note, contents);
    Shape.Columns([id, owner, note, contents])
  }

  /**
   * The binder and the placeholders agree with `sql_cols`: one `?` per column, and the i-th
   * binding has index i + 1 and carries the i-th column's value.
   */
  lemma BinderMatchesColumns(r: RequestComment)
    ensures Strings.Count(Shape.SqlPlaceholders(Fields(r)), '?') == |Columns(r)|
    ensures |Shape.Bind(Fields(r))| == |Columns(r)|
    ensures forall i :: 0 <= i < |Columns(r)| ==>
              Shape.Bind(Fields(r))[i].index == i + 1
              && Shape.Field(Columns(r)[i], Some(Shape.Bind(Fields(r))[i].value)) in Fields(r)
  {
  }

  /** `validate_create`: owner, then `contents`, then `note_id`, then no id; the first failure is returned. */
  function ValidateCreate(r: RequestComment, header: Option<I64>): (res: Result<(), ValidationError>)
    ensures res.Ok? <==> OwnerAccepted(r.ownerId, header) && r.contents.Some? && r.noteId.Some? && r.id.None?
    ensures r.ownerId.None? ==> res == Err(MissingRequiredOnCreate("owner_id"))
    ensures r.ownerId.Some? && header.Some? && header.value != r.ownerId.value
            ==> res == Err(InvalidOwnerId(MismatchDetail(r.ownerId.value, header.value)))
    ensures OwnerAccepted(r.ownerId, header) && r.contents.None? ==> res == Err(MissingRequiredOnCreate("contents"))
    ensures OwnerAccepted(r.ownerId, header) && r.contents.Some? && r.noteId.None?
            ==> res == Err(MissingRequiredOnCreate("note_id"))
    ensures OwnerAccepted(r.ownerId, header) && r.contents.Some? && r.noteId.Some? && r.id.Some?
            ==> res == Err(IdProvidedOnCreate)
  {
    var required := [Required("contents", r.contents.Some?), Required("note_id", r.noteId.Some?)];
    Validation.FirstMissingPair(required[0], required[1]);
    Validation.ValidateCreate(r.ownerId, header, required, r.id.Some?)
  }

  /** `validate_update`: the owner check (reporting a missing owner as a create error), then the id. */
  function ValidateUpdate(r: RequestComment, header: Option<I64>): (res: Result<(), ValidationError>)
    ensures res.Ok? <==> OwnerAccepted(r.ownerId, header) && r.id.Some?
    ensures r.ownerId.None? ==> res == Err(MissingRequiredOnCreate("owner_id"))
    ensures r.ownerId.Some? && header.Some? && header.value != r.ownerId.value
            ==> res == Err(InvalidOwnerId(MismatchDetail(r.ownerId.value, header.value)))
    ensures OwnerAccepted(r.ownerId, header) && r.id.None? ==> res == Err(MissingIdOnUpdate)
  {
    Validation.ValidateUpdate(r.ownerId, header, r.id.Some?)
  }

  datatype CommentQuery = ByContentsContains(needle: string) | ByOwnerId(owner: I64) | ByNoteId(note: I64)

  /** The criteria each query wraps. */
  function ToCriteria(q: CommentQuery): Criteria.Criteria
  {
    match q
    case ByContentsContains(s) => Criteria.Contains("contents", s)
    case ByOwnerId(n) => Criteria.Equals("owner_id", Integer(n))
    case ByNoteId(n) => Criteria.Equals("note_id", Integer(n))
  }

  /** `CommentQuery::try_from` on one (key, value) pair; `None` is its `Err(())`. */
  function ParseQuery(key: string, v: string): (r: Option<CommentQuery>)
    ensures key == "byContentsContains" ==> r.Some? && ToCriteria(r.value) == Criteria.Contains("contents", v)
    ensures key == "byOwnerId" || key == "byNoteId" ==> (r.Some? <==> ParseI64(v).Some?)
    ensures key == "byOwnerId" && r.Some? ==> ToCriteria(r.value) == Criteria.Equals("owner_id", Integer(ParseI64(v).value))
    ensures key == "byNoteId" && r.Some? ==> ToCriteria(r.value) == Criteria.Equals("note_id", Integer(ParseI64(v).value))
    ensures key != "byContentsContains" && key != "byOwnerId" && key != "byNoteId" ==> r.None?
  {
    if key == "byContentsContains" then Some(ByContentsContains(v))
    else if key == "byOwnerId" then
      match ParseI64(v)
      case Some(n) => Some(ByOwnerId(n))
      case None => None
    else if key == "byNoteId" then
      match ParseI64(v)
      case Some(n) => Some(ByNoteId(n))
      case None => None
    else None
  }
}
