/**
 * The single-tenant service's handlers: create and update validate first and never scope by owner,
 * and delete removes by id alone. Only the user kind's request shape is part of this model.
 */
module GlonkApp {
  import opened Wrappers
  import opened Decimal
  import opened Values
  import opened Http
  import Store
  import Shape
  import GlonkStore
  import GlonkTypes
  import GlonkUserKind
  import UserKind

  /** The single-tenant store's two tables. */
  datatype Db = Db(users: Store.Table, notes: Store.Table)

  function TableOf(db: Db, dt: GlonkTypes.DataType): Store.Table
  {
    match dt
    case User => db.users
    case Note => db.notes
  }

  /** `handle_create` for a user: 404 without touching the store when validation fails. */
  function HandleCreate(r: UserKind.RequestUser, db: Db, lockOk: bool, nextId: I64): (o: (Db, Response))
    ensures GlonkUserKind.ValidateCreate(r).Err? ==> o == (db, NotFound)
    ensures o.1 == NotFound || o.1.Json?
    ensures o.1 == NotFound ==> o.0 == db
    ensures o.1.Json? <==> (GlonkUserKind.ValidateCreate(r).Ok?
                            && Store.Create(GlonkUserKind.Schema, db.users, UserKind.Fields(r), lockOk, nextId).1.Ok?)
    ensures o.1.Json? ==> o.0 == db.(users := db.users + [o.1.body]) && Store.HasInt(o.1.body, "id", nextId)
    ensures o.1.Json? ==> (o.0.users, Ok(o.1.body)) == Store.Create(GlonkUserKind.Schema, db.users, UserKind.Fields(r), lockOk, nextId)
  {
    if GlonkUserKind.ValidateCreate(r).Err? then (db, NotFound)
    else
      var created := Store.Create(GlonkUserKind.Schema, db.users, UserKind.Fields(r), lockOk, nextId);
      match created.1
      case Ok(row) => NewUserRowId(r, nextId); (db.(users := created.0), Json(row))
      case Err(_) => (db, NotFound)
  }

  /** A request without an id leaves the id to the engine: the row it inserts carries `nextId`. */
  lemma NewUserRowId(r: UserKind.RequestUser, nextId: I64)
    requires r.id.None?
    ensures Store.HasInt(Store.NewRow(GlonkUserKind.Schema, UserKind.Fields(r), nextId), "id", nextId)
  {
    var fs := UserKind.Fields(r);
    assert fs[0].value.None?;
    assert forall i :: 1 <= i < |fs| ==> fs[i].column != "id";
    assert "id" !in Shape.Assignment(fs);
  }

  /** `handle_update` for a user: 404 without touching the store when the id is missing. */
  function HandleUpdate(r: UserKind.RequestUser, db: Db, lockOk: bool): (o: (Db, Response))
    ensures r.id.None? ==> o == (db, NotFound)
    ensures o.1 == NotFound || o.1.Json?
    ensures o.1 == NotFound ==> o.0 == db
    ensures o.1.Json? <==> r.id.Some? && lockOk
                           && exists i :: 0 <= i < |db.users| && Store.HasInt(db.users[i], "id", r.id.value)
    ensures o.1.Json? ==> (o.0.users, Ok(o.1.body)) == GlonkStore.Update(GlonkUserKind.Schema, db.users, UserKind.Fields(r), r.id, lockOk)
    ensures o.0.notes == db.notes
  {
    if GlonkUserKind.ValidateUpdate(r).Err? then (db, NotFound)
    else
      var updated := GlonkStore.Update(GlonkUserKind.Schema, db.users, UserKind.Fields(r), r.id, lockOk);
      match updated.1
      case Ok(row) => (db.(users := updated.0), Json(row))
      case Err(_) => (db, NotFound)
  }

  /** `data_delete`: delete by id from the kind's table; any error answers 404. */
  function DataDelete(dt: GlonkTypes.DataType, id: I64, db: Db, lockOk: bool): (o: (Db, Response))
    ensures o.1 == NotFound || o.1.Json?
    ensures o.1 == NotFound ==> o.0 == db
    ensures o.1.Json? <==> lockOk && exists i :: 0 <= i < |TableOf(db, dt)| && Store.HasInt(TableOf(db, dt)[i], "id", id)
    ensures o.1.Json? ==> Store.HasInt(o.1.body, "id", id)
    ensures o.1.Json? ==> (TableOf(o.0, dt), Ok(o.1.body)) == GlonkStore.Delete(TableOf(db, dt), id, lockOk)
    ensures o.1.Json? ==> forall row :: row in TableOf(o.0, dt) <==> row in TableOf(db, dt) && !Store.HasInt(row, "id", id)
    ensures dt.User? ==> o.0.notes == db.notes
    ensures dt.Note? ==> o.0.users == db.users
  {
    var deleted := GlonkStore.Delete(TableOf(db, dt), id, lockOk);
    match deleted.1
    case Ok(row) => (if dt.User? then db.(users := deleted.0) else db.(notes := deleted.0), Json(row))
    case Err(_) => (db, NotFound)
  }
}
