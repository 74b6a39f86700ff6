/**
 * The multi-tenant service's handlers, as decisions over the four record tables: the owner header
 * extractor, create and update (validate before store), delete, `whoami` and `logout`.
 */
module App {
  import opened Wrappers
  import opened Decimal
  import opened Values
  import opened Http
  import opened Sessions
  import opened Validation
  import Shape
  import Strings
  import Store
  import Kinds
  import UserKind
  import NoteKind
  import CommentKind
  import PunchKind
  import Auth

  /** A request body of one of the four kinds. */
  datatype RequestObject =
    | UserRequest(user: UserKind.RequestUser)
    | NoteRequest(note: NoteKind.RequestNote)
    | CommentRequest(comment: CommentKind.RequestComment)
    | PunchRequest(punch: PunchKind.RequestPunch)

  function KindOf(p: RequestObject): Kinds.DataType
  {
    match p
    case UserRequest(_) => Kinds.User
    case NoteRequest(_) => Kinds.Note
    case CommentRequest(_) => Kinds.Comment
    case PunchRequest(_) => Kinds.Punch
  }

  function DescriptorOf(dt: Kinds.DataType): Shape.Descriptor
  {
    match dt
    case User => UserKind.Descriptor
    case Note => NoteKind.Descriptor
    case Comment => CommentKind.Descriptor
    case Punch => PunchKind.Descriptor
  }

  /**
   * Every statement the store sends for a request has one positional mark per positional binding:
   * no table, column or request field name contains a `?`.
   */
  lemma StatementsMatchBinders(p: RequestObject, id: I64, owner: Option<I64>)
    ensures var d, fs := DescriptorOf(KindOf(p)), Fields(p);
            Strings.Count(Store.InsertSql(d.schema, fs), '?') == |Shape.Bind(fs)|
            && Strings.Count(Store.UpdateSql(d, fs), '?') == |Shape.Bind(fs)|
            && Strings.Count(Store.GetSql(d.schema), '?') == 1
            && Strings.Count(Store.DeleteSql(d, Store.DeleteFilter(d, id, owner).0), '?')
               == |Store.DeleteFilter(d, id, owner).1|
  {
    var d, fs := DescriptorOf(KindOf(p)), Fields(p);
    MarkFreeNames(p);
    assert Strings.Count(Store.InsertSql(d.schema, fs), '?') == |Shape.Bind(fs)|;
    assert Strings.Count(Store.UpdateSql(d, fs), '?') == |Shape.Bind(fs)|;
    Store.DeleteStatementBinds(d, id, owner);
  }

  /** No table, column or request field name of any kind contains a `?`. */
  lemma MarkFreeNames(p: RequestObject)
    ensures Shape.MarkFreeSchema(DescriptorOf(KindOf(p)).schema) && '?' !in DescriptorOf(KindOf(p)).ownerCol
    ensures Shape.MarkFreeColumns(Fields(p))
  {
    MarkFreeDescriptor(KindOf(p));
    match p
    case UserRequest(u) => MarkFreeFields(UserKind.Fields(u));
    case NoteRequest(n) => MarkFreeFields(NoteKind.Fields(n));
    case CommentRequest(c) => MarkFreeFields(CommentKind.Fields(c));
    case PunchRequest(q) => MarkFreeFields(PunchKind.Fields(q));
  }

  /** Every column name any kind uses. */
  const ColumnNames: seq<string> := ["id", "owner_id", "note_id", "contents", "geo", "guid", "name", "email", "picture"]

  lemma ColumnNamesMarkFree()
    ensures forall i :: 0 <= i < |ColumnNames| ==> '?' !in ColumnNames[i]
  {
    forall i | 0 <= i < |ColumnNames| ensures '?' !in ColumnNames[i] {
      if i == 0 { assert ColumnNames[i] == "id"; }
      else if i == 1 { assert ColumnNames[i] == "owner_id"; }
      else if i == 2 { assert ColumnNames[i] == "note_id"; }
      else if i == 3 { assert ColumnNames[i] == "contents"; }
      else if i == 4 { assert ColumnNames[i] == "geo"; }
      else if i == 5 { assert ColumnNames[i] == "guid"; }
      else if i == 6 { assert ColumnNames[i] == "name"; }
      else if i == 7 { assert ColumnNames[i] == "email"; }
      else { assert ColumnNames[i] == "picture"; }
    }
  }

  /** The descriptors name no `?`. */
  lemma MarkFreeDescriptor(dt: Kinds.DataType)
    ensures Shape.MarkFreeSchema(DescriptorOf(dt).schema) && '?' !in DescriptorOf(dt).ownerCol
  {
    var s := DescriptorOf(dt).schema;
    ColumnNamesMarkFree();
    assert forall i :: 0 <= i < |s.columns| ==> s.columns[i] in ColumnNames;
  }

  /** The request fields of every kind are written to these columns. */
  lemma MarkFreeFields(fs: seq<Shape.Field>)
    requires forall i :: 0 <= i < |fs| ==> fs[i].column in ColumnNames
    ensures Shape.MarkFreeColumns(fs)
  {
    ColumnNamesMarkFree();
  }

  function ValidateCreate(p: RequestObject, owner: Option<I64>): Result<(), ValidationError>
  {
    match p
    case UserRequest(r) => UserKind.ValidateCreate(r, owner)
    case NoteRequest(r) => NoteKind.ValidateCreate(r, owner)
    case CommentRequest(r) => CommentKind.ValidateCreate(r, owner)
    case PunchRequest(r) => PunchKind.ValidateCreate(r, owner)
  }

  function ValidateUpdate(p: RequestObject, owner: Option<I64>): Result<(), ValidationError>
  {
    match p
    case UserRequest(r) => UserKind.ValidateUpdate(r, owner)
    case NoteRequest(r) => NoteKind.ValidateUpdate(r, owner)
    case CommentRequest(r) => CommentKind.ValidateUpdate(r, owner)
    case PunchRequest(r) => PunchKind.ValidateUpdate(r, owner)
  }

  function Fields(p: RequestObject): seq<Shape.Field>
  {
    match p
    case UserRequest(r) => UserKind.Fields(r)
    case NoteRequest(r) => NoteKind.Fields(r)
    case CommentRequest(r) => CommentKind.Fields(r)
    case PunchRequest(r) => PunchKind.Fields(r)
  }

  /** `id()` of the request. */
  function Id(p: RequestObject): Option<I64>
  {
    match p
    case UserRequest(r) => r.id
    case NoteRequest(r) => r.id
    case CommentRequest(r) => r.id
    case PunchRequest(r) => r.id
  }

  /** `owner_id()` of the request: the id itself for a user. */
  function OwnerId(p: RequestObject): Option<I64>
  {
    match p
    case UserRequest(r) => UserKind.OwnerId(r)
    case NoteRequest(r) => r.ownerId
    case CommentRequest(r) => r.ownerId
    case PunchRequest(r) => r.ownerId
  }

  /** The store's four tables. */
  datatype Db = Db(users: Store.Table, notes: Store.Table, comments: Store.Table, punches: Store.Table)

  function TableOf(db: Db, dt: Kinds.DataType): Store.Table
  {
    match dt
    case User => db.users
    case Note => db.notes
    case Comment => db.comments
    case Punch => db.punches
  }

  /** The store with one table replaced and the others kept. */
  function WithTable(db: Db, dt: Kinds.DataType, t: Store.Table): (r: Db)
    ensures TableOf(r, dt) == t
    ensures forall other :: other != dt ==> TableOf(r, other) == TableOf(db, other)
  {
    match dt
    case User => db.(users := t)
    case Note => db.(notes := t)
    case Comment => db.(comments := t)
    case Punch => db.(punches := t)
  }

  // ---- the owner header ----

  /**
   * `OwnerIdHeader::from_request_parts`: no `Owner-Id` header is `None`; a header that is not
   * visible ASCII or not an `i64` rejects the request; otherwise the parsed owner.
   */
  function OwnerIdHeader(headers: Headers): (r: Result<Option<I64>, ()>)
    ensures OwnerIdHeaderName !in headers <==> r == Ok(None)
    ensures r.Ok? && r.value.Some? ==> ParseI64(headers[OwnerIdHeaderName]) == Some(r.value.value)
    ensures OwnerIdHeaderName in headers && ParseI64(headers[OwnerIdHeaderName]).Some?
            ==> r == Ok(ParseI64(headers[OwnerIdHeaderName]))
    ensures OwnerIdHeaderName in headers && ParseI64(headers[OwnerIdHeaderName]).None? ==> r.Err?
  {
    if OwnerIdHeaderName !in headers then Ok(None)
    else
      var v := headers[OwnerIdHeaderName];
      if !HeaderText(v) then Err(())
      else match ParseI64(v)
        case Some(n) => Ok(Some(n))
        case None => Err(())
  }

  /** Every string `parse::<i64>` accepts is visible ASCII, so the text check never decides alone. */
  lemma ParsableIsHeaderText(v: string)
    requires ParseI64(v).Some?
    ensures HeaderText(v)
  {
  }

  /** Behind the multi-tenant gate, the owner every handler sees is the session's user. */
  lemma GateFixesOwner(sessions: map<string, Session>, jar: Jar, headers: Headers, now: Instant, lockOk: bool)
    requires Auth.Authorize(sessions, jar, headers, now, lockOk).Pass?
    ensures OwnerIdHeader(Auth.Authorize(sessions, jar, headers, now, lockOk).headers)
         == Ok(Some(Auth.CookieSession(sessions, jar, lockOk).value.user.id))
  {
  }

  // ---- handlers ----

  /**
   * `handle_create`: a request that fails `validate_create` answers 404 and never reaches the store;
   * otherwise the created record, or 404 when the store refuses.
   */
  function HandleCreate(p: RequestObject, owner: Option<I64>, db: Db, lockOk: bool, nextId: I64): (r: (Db, Response))
    ensures ValidateCreate(p, owner).Err? ==> r == (db, NotFound)
    ensures r.1 == NotFound || r.1.Json?
    ensures r.1 == NotFound ==> r.0 == db
    ensures r.1.Json? <==> (ValidateCreate(p, owner).Ok?
                            && Store.Create(DescriptorOf(KindOf(p)).schema, TableOf(db, KindOf(p)), Fields(p), lockOk, nextId).1.Ok?)
    ensures r.1.Json? ==> TableOf(r.0, KindOf(p)) == TableOf(db, KindOf(p)) + [r.1.body]
    ensures r.1.Json? ==> (TableOf(r.0, KindOf(p)), Ok(r.1.body))
                          == Store.Create(DescriptorOf(KindOf(p)).schema, TableOf(db, KindOf(p)), Fields(p), lockOk, nextId)
    ensures forall dt :: dt != KindOf(p) ==> TableOf(r.0, dt) == TableOf(db, dt)
  {
    if ValidateCreate(p, owner).Err? then (db, NotFound)
    else
      var dt := KindOf(p);
      var created := Store.Create(DescriptorOf(dt).schema, TableOf(db, dt), Fields(p), lockOk, nextId);
      match created.1
      case Ok(row) => (WithTable(db, dt, created.0), Json(row))
      case Err(_) => (db, NotFound)
  }

  /**
   * `handle_update`: a request that fails `validate_update` answers 404 and never reaches the store;
   * otherwise the updated record, or 404 when the store finds nothing to update.
   */
  function HandleUpdate(p: RequestObject, owner: Option<I64>, db: Db, lockOk: bool): (r: (Db, Response))
    ensures ValidateUpdate(p, owner).Err? ==> r == (db, NotFound)
    ensures r.1 == NotFound || r.1.Json?
    ensures r.1 == NotFound ==> r.0 == db
    ensures r.1.Json? <==> (ValidateUpdate(p, owner).Ok?
                            && Store.Update(DescriptorOf(KindOf(p)), TableOf(db, KindOf(p)), Fields(p), Id(p), OwnerId(p), lockOk).1.Ok?)
    ensures r.1.Json? ==> (TableOf(r.0, KindOf(p)), Ok(r.1.body))
                          == Store.Update(DescriptorOf(KindOf(p)), TableOf(db, KindOf(p)), Fields(p), Id(p), OwnerId(p), lockOk)
    ensures forall dt :: dt != KindOf(p) ==> TableOf(r.0, dt) == TableOf(db, dt)
  {
    if ValidateUpdate(p, owner).Err? then (db, NotFound)
    else
      var dt := KindOf(p);
      var updated := Store.Update(DescriptorOf(dt), TableOf(db, dt), Fields(p), Id(p), OwnerId(p), lockOk);
      match updated.1
      case Ok(row) => (WithTable(db, dt, updated.0), Json(row))
      case Err(_) => (db, NotFound)
  }

  /** `data_delete`: the header owner is handed to the store's delete; any error answers 404. */
  function DataDelete(dt: Kinds.DataType, id: I64, owner: Option<I64>, db: Db, lockOk: bool): (r: (Db, Response))
    ensures r.1 == NotFound || r.1.Json?
    ensures r.1 == NotFound ==> r.0 == db
    ensures r.1.Json? <==> lockOk && exists i :: 0 <= i < |TableOf(db, dt)|
                                        && Store.DeleteSelects(DescriptorOf(dt), TableOf(db, dt)[i], id, owner)
    ensures r.1.Json? ==> Store.HasInt(r.1.body, DescriptorOf(dt).schema.idCol, id)
    ensures r.1.Json? ==> (TableOf(r.0, dt), Ok(r.1.body)) == Store.Delete(DescriptorOf(dt), TableOf(db, dt), id, owner, lockOk)
    ensures forall other :: other != dt ==> TableOf(r.0, other) == TableOf(db, other)
  {
    var deleted := Store.Delete(DescriptorOf(dt), TableOf(db, dt), id, owner, lockOk);
    match deleted.1
    case Ok(row) => (WithTable(db, dt, deleted.0), Json(row))
    case Err(_) => (db, NotFound)
  }

  /** `whoami`: without an owner 404; otherwise the user whose id is the owner, or 404. */
  function Whoami(owner: Option<I64>, db: Db, lockOk: bool): (r: Response)
    ensures r == NotFound || r.Json?
    ensures owner.None? ==> r == NotFound
    ensures r.Json? ==> owner.Some? && r.body in db.users && Store.HasInt(r.body, "id", owner.value)
    ensures owner.Some? && lockOk && (exists i :: 0 <= i < |db.users| && Store.HasInt(db.users[i], "id", owner.value))
            ==> r.Json?
    ensures r.Json? <==> owner.Some? && Store.Get(UserKind.Descriptor.schema, db.users, owner.value, lockOk).Some?
    ensures r.Json? ==> r.body == Store.Get(UserKind.Descriptor.schema, db.users, owner.value, lockOk).value
  {
    if owner.None? then NotFound
    else match Store.Get(UserKind.Descriptor.schema, db.users, owner.value, lockOk)
      case Some(row) => Json(row)
      case None => NotFound
  }

  /**
   * `logout`: without a `session_id` cookie 400 "Missing session_id"; otherwise the session is
   * dropped (when the lock is taken; a missing entry is only logged) and the browser is sent to `/`
   * with the cookie expired a minute ago. The single-tenant service's `logout` is the same.
   */
  function Logout(st: AuthState, jar: Jar, lockOk: bool): (r: (AuthState, Response))
    ensures SessionCookie !in jar ==> r == (st, BadRequest("Missing session_id"))
    ensures SessionCookie in jar ==>
              var token := ValueTrimmed(jar[SessionCookie]);
              r.1 == Redirect("/", Some(SetCookie(SessionCookie, token, "/", -60, true)))
              && r.0.pending == st.pending
              && (lockOk ==> token !in r.0.sessions && r.0.sessions == st.sessions - {token})
              && (!lockOk ==> r.0 == st)
  {
    if SessionCookie !in jar then (st, BadRequest("Missing session_id"))
    else
      var token := ValueTrimmed(jar[SessionCookie]);
      var st' := if lockOk then st.(sessions := st.sessions - {token}) else st;
      (st', Redirect("/", Some(SetCookie(SessionCookie, token, "/", -60, true))))
  }

  /** After a logout that took the lock, the same cookie no longer passes the gate. */
  lemma LogoutThenDenied(st: AuthState, jar: Jar, headers: Headers, now: Instant, gateLockOk: bool)
    requires SessionCookie in jar
    ensures Auth.Authorize(Logout(st, jar, true).0.sessions, jar, headers, now, gateLockOk) == Auth.Deny
  {
  }

  /** Logging out leaves every other session in place. */
  lemma LogoutKeepsOthers(st: AuthState, jar: Jar, lockOk: bool, other: string)
    requires SessionCookie in jar && other != ValueTrimmed(jar[SessionCookie]) && other in st.sessions
    ensures other in Logout(st, jar, lockOk).0.sessions
    ensures Logout(st, jar, lockOk).0.sessions[other] == st.sessions[other]
  {
  }

  // ---- tenancy ----

  /** A multi-tenant user can never be created: `validate_create` of a user always fails. */
  lemma UserCreateNeverStores(u: UserKind.RequestUser, owner: Option<I64>, db: Db, lockOk: bool, nextId: I64)
    ensures HandleCreate(UserRequest(u), owner, db, lockOk, nextId) == (db, NotFound)
  {
  }

  /** The request's own columns are pairwise distinct, so each present field is written as given. */
  lemma FieldsDistinct(p: RequestObject)
    ensures Shape.DistinctColumns(Fields(p))
  {
  }

  /** Where the request keeps its owner among its fields. */
  function OwnerField(p: RequestObject): (k: nat)
    ensures k < |Fields(p)|
    ensures Fields(p)[k].column == DescriptorOf(KindOf(p)).ownerCol
    ensures Fields(p)[k].value == if OwnerId(p).Some? then Some(Integer(OwnerId(p).value)) else None
  {
    if p.UserRequest? then 0 else 1
  }

  /**
   * With an owner header, a record `handle_create` stores belongs to that owner: validation has
   * made the request's owner the header's, and the insert writes it.
   */
  lemma {:induction false} CreatedRecordIsCallers(p: RequestObject, owner: Option<I64>, db: Db, lockOk: bool, nextId: I64)
    requires owner.Some?
    ensures var r := HandleCreate(p, owner, db, lockOk, nextId);
            r.1.Json? ==> Store.HasInt(r.1.body, DescriptorOf(KindOf(p)).ownerCol, owner.value)
  {
    var r := HandleCreate(p, owner, db, lockOk, nextId);
    if r.1.Json? {
      var dt := KindOf(p);
      var fs := Fields(p);
      var created := Store.Create(DescriptorOf(dt).schema, TableOf(db, dt), fs, lockOk, nextId);
      assert created.1.Ok? && r.1.body == created.1.value;
      assert OwnerId(p) == owner by {
        match p
        case UserRequest(u) => assert false;
        case NoteRequest(n) => assert OwnerAccepted(n.ownerId, owner);
        case CommentRequest(c) => assert OwnerAccepted(c.ownerId, owner);
        case PunchRequest(q) => assert OwnerAccepted(q.ownerId, owner);
      }
      FieldsDistinct(p);
      var k := OwnerField(p);
      assert fs[k].value == Some(Integer(owner.value));
    }
  }

  /**
   * With an owner header, a record `handle_update` returns belongs to that owner: the store only
   * updates rows of the request's owner, which validation has made the header's.
   */
  lemma {:induction false} UpdatedRecordIsCallers(p: RequestObject, owner: Option<I64>, db: Db, lockOk: bool)
    requires owner.Some?
    ensures var r := HandleUpdate(p, owner, db, lockOk);
            r.1.Json? ==> Store.HasInt(r.1.body, DescriptorOf(KindOf(p)).ownerCol, owner.value)
  {
    var r := HandleUpdate(p, owner, db, lockOk);
    if r.1.Json? {
      UpdateOwnerIsHeader(p, owner);
      var d := DescriptorOf(KindOf(p));
      var t := TableOf(db, KindOf(p));
      var updated := Store.Update(d, t, Fields(p), Id(p), owner, lockOk);
      assert r.1.body == updated.1.value;
      var i :| 0 <= i < |t| && Store.Owned(d, t[i], Id(p).value, owner.value) && updated.1.value == updated.0[i];
      OwnerWritten(p, t[i]);
    }
  }

  /** A request that passes `validate_update` under an owner header carries that owner. */
  lemma UpdateOwnerIsHeader(p: RequestObject, owner: Option<I64>)
    requires owner.Some? && ValidateUpdate(p, owner).Ok?
    ensures OwnerId(p) == owner
  {
    match p
    case UserRequest(u) => assert u.id == owner;
    case NoteRequest(n) => assert OwnerAccepted(n.ownerId, owner);
    case CommentRequest(c) => assert OwnerAccepted(c.ownerId, owner);
    case PunchRequest(q) => assert OwnerAccepted(q.ownerId, owner);
  }

  /** Writing a request's fields over a row leaves the request's owner in the owner column. */
  lemma OwnerWritten(p: RequestObject, row: Row)
    requires OwnerId(p).Some?
    ensures Store.HasInt(row + Shape.Assignment(Fields(p)), DescriptorOf(KindOf(p)).ownerCol, OwnerId(p).value)
  {
    FieldsDistinct(p);
    var k := OwnerField(p);
    assert Fields(p)[k].value == Some(Integer(OwnerId(p).value));
  }
}
