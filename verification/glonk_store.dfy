/**
 * The single-tenant store. `create` and `get_queries` are the same as the multi-tenant store's
 * (`Store.Create`, `Store.GetQueries`, `Store.SelectStatement`); `update` is scoped by id alone,
 * and `get` and `delete` filter on the literal column `id`.
 */
module GlonkStore {
  import opened Wrappers
  import opened Decimal
  import opened Values
  import opened Shape
  import opened Store
  import Sequences

  /** The column `get` and `delete` filter on, whatever the kind's id column. */
  const IdColumn: string := "id"

  /**
   * `update`: without an id on the request nothing is touched and the result is `NotCreated`;
   * otherwise every row with that id is overwritten, whoever owns it, and the first is returned.
   */
  function Update(s: Schema, t: Table, fs: seq<Field>, id: Option<I64>, lockOk: bool)
    : (r: (Table, Result<Row, StoreError>))
    ensures id.None? || !lockOk ==> r == (t, Err(NotCreated))
    ensures r.1.Ok? <==> id.Some? && lockOk && exists i :: 0 <= i < |t| && HasInt(t[i], s.idCol, id.value)
    ensures r.1.Err? ==> r.1.error == NotCreated && r.0 == t
    ensures |r.0| == |t|
    ensures r.1.Ok? ==> forall i :: 0 <= i < |t| ==>
              r.0[i] == if HasInt(t[i], s.idCol, id.value) then t[i] + Assignment(fs) else t[i]
    ensures r.1.Ok? ==> exists i :: 0 <= i < |t| && HasInt(t[i], s.idCol, id.value) && r.1.value == r.0[i]
  {
    if id.None? || !lockOk then (t, Err(NotCreated))
    else
      var selected := (row: Row) => HasInt(row, s.idCol, id.value);
      match Sequences.FirstIndex(selected, t)
      case None => (t, Err(NotCreated))
      case Some(k) =>
        var u := Overwrite(t, selected, fs);
        (u, Ok(u[k]))
  }

  /** `get`: the first row whose `id` column holds `id`; `None` when there is none or the lock fails. */
  function Get(t: Table, id: I64, lockOk: bool): (r: Option<Row>)
    ensures r.Some? <==> lockOk && exists i :: 0 <= i < |t| && HasInt(t[i], IdColumn, id)
    ensures r.Some? ==> exists i :: 0 <= i < |t| && t[i] == r.value && HasInt(t[i], IdColumn, id)
                                   && forall j :: 0 <= j < i ==> !HasInt(t[j], IdColumn, id)
  {
    if !lockOk then None
    else
      match Sequences.FirstIndex((row: Row) => HasInt(row, IdColumn, id), t)
      case None => None
      case Some(k) => Some(t[k])
  }

  /**
   * `delete`: remove every row whose `id` column holds `id` and return the first; no match, or a
   * failed lock, gives `NotFound` and leaves the table unchanged.
   */
  function Delete(t: Table, id: I64, lockOk: bool): (r: (Table, Result<Row, StoreError>))
    ensures r.1.Ok? <==> lockOk && exists i :: 0 <= i < |t| && HasInt(t[i], IdColumn, id)
    ensures r.1.Err? ==> r.1.error == NotFound && r.0 == t
    ensures r.1.Ok? ==> forall row :: row in r.0 <==> row in t && !HasInt(row, IdColumn, id)
    ensures r.1.Ok? ==> HasInt(r.1.value, IdColumn, id) && r.1.value in t
    ensures r.1.Ok? ==> r.0 == Kept(t, id)
  {
    if !lockOk then (t, Err(NotFound))
    else
      match Sequences.FirstIndex((row: Row) => HasInt(row, IdColumn, id), t)
      case None => (t, Err(NotFound))
      case Some(k) => (Kept(t, id), Ok(t[k]))
  }

  /** The rows a delete leaves behind: those whose `id` column does not hold `id`. */
  function Kept(t: Table, id: I64): Table
  {
    Sequences.Filter((row: Row) => !HasInt(row, IdColumn, id), t)
  }

  /**
   * The rows a delete leaves keep their table order and multiplicity: splitting the table splits
   * what remains the same way, and a single row stays exactly when its `id` column does not hold `id`.
   */
  lemma DeleteKeepsOrder(a: Table, b: Table, id: I64)
    ensures Kept(a + b, id) == Kept(a, id) + Kept(b, id)
    ensures forall row :: Kept([row], id) == if HasInt(row, IdColumn, id) then [] else [row]
  {
    Sequences.FilterConcat((row: Row) => !HasInt(row, IdColumn, id), a, b);
    forall row ensures Kept([row], id) == if HasInt(row, IdColumn, id) then [] else [row] {
      assert [row][1..] == [];
    }
  }

  /** A deleted id is gone: `get` finds nothing under it afterwards. */
  lemma DeleteThenGet(t: Table, id: I64)
    ensures Get(Delete(t, id, true).0, id, true).None?
  {
    var (t', r) := Delete(t, id, true);
    if r.Ok? {
      forall i | 0 <= i < |t'| ensures !HasInt(t'[i], IdColumn, id) {
        assert t'[i] in t';
      }
    }
  }

  /**
   * The single-tenant update is the multi-tenant one with the owner filter removed: on a kind whose
   * owner column is its id column, the two agree once the owner equals the id.
   */
  lemma UpdateIsUnscoped(d: Descriptor, t: Table, fs: seq<Field>, id: I64)
    requires d.ownerCol == d.schema.idCol
    ensures Update(d.schema, t, fs, Some(id), true) == Store.Update(d, t, fs, Some(id), Some(id), true)
  {
    var p := (row: Row) => HasInt(row, d.schema.idCol, id);
    var q := (row: Row) => Owned(d, row, id, id);
    assert forall i :: 0 <= i < |t| ==> p(t[i]) == q(t[i]);
    Sequences.FirstIndexCongruent(p, q, t);
    var u1, u2 := Overwrite(t, p, fs), Overwrite(t, q, fs);
    assert u1 == u2 by {
      assert forall i :: 0 <= i < |t| ==> u1[i] == u2[i];
    }
  }
}
