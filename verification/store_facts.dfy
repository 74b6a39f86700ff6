/** How the store's operations combine, and what the delete filter means for each record kind. */
module StoreFacts {
  import opened Wrappers
  import opened Decimal
  import opened Values
  import opened Shape
  import opened Store
  import Sequences
  import NoteKind
  import CommentKind
  import PunchKind
  import UserKind

  /** A created row is what `get` finds under its id afterwards: ids are unique after an insert. */
  lemma CreateThenGet(s: Schema, t: Table, fs: seq<Field>, nextId: I64)
    requires Create(s, t, fs, true, nextId).1.Ok?
    ensures var (t', r) := Create(s, t, fs, true, nextId);
            s.idCol in r.value && r.value[s.idCol].Integer?
            ==> Get(s, t', r.value[s.idCol].i, true) == Some(r.value)
  {
    var (t', r) := Create(s, t, fs, true, nextId);
    var row := r.value;
    if s.idCol in row && row[s.idCol].Integer? {
      var id := row[s.idCol].i;
      assert t' == t + [row];
      assert forall j :: 0 <= j < |t| ==> !HasInt(t'[j], s.idCol, id);
      assert HasInt(t'[|t|], s.idCol, id);
    }
  }

  /** After a delete filtered by id alone, nothing with that id is left to get. */
  lemma DeleteThenGet(d: Descriptor, t: Table, id: I64, owner: Option<I64>)
    requires !OwnerFiltered(d, owner)
    ensures Get(d.schema, Delete(d, t, id, owner, true).0, id, true).None?
  {
    var (t', r) := Delete(d, t, id, owner, true);
    if r.Ok? {
      forall i | 0 <= i < |t'| ensures !HasInt(t'[i], d.schema.idCol, id) {
        assert t'[i] in t';
      }
    }
  }

  /** For a kind whose owner column is not its id column, the owner given to delete is ignored. */
  lemma DeleteIgnoresOwner(d: Descriptor, t: Table, id: I64, owner: I64, lockOk: bool)
    requires d.ownerCol != d.schema.idCol
    ensures Delete(d, t, id, Some(owner), lockOk) == Delete(d, t, id, None, lockOk)
  {
    Sequences.FilterCongruent((row: Row) => !DeleteSelects(d, row, id, Some(owner)),
                              (row: Row) => !DeleteSelects(d, row, id, None), t);
    assert Kept(d, t, id, Some(owner)) == Kept(d, t, id, None);
  }

  /**
   * Notes, comments and punches are deleted by id alone: a caller asserting any owner removes the
   * row with that id, whoever owns it.
   */
  lemma OwnedKindsDeleteById(t: Table, id: I64, owner: I64, lockOk: bool)
    ensures Delete(NoteKind.Descriptor, t, id, Some(owner), lockOk) == Delete(NoteKind.Descriptor, t, id, None, lockOk)
    ensures Delete(CommentKind.Descriptor, t, id, Some(owner), lockOk)
         == Delete(CommentKind.Descriptor, t, id, None, lockOk)
    ensures Delete(PunchKind.Descriptor, t, id, Some(owner), lockOk) == Delete(PunchKind.Descriptor, t, id, None, lockOk)
  {
    DeleteIgnoresOwner(NoteKind.Descriptor, t, id, owner, lockOk);
    DeleteIgnoresOwner(CommentKind.Descriptor, t, id, owner, lockOk);
    DeleteIgnoresOwner(PunchKind.Descriptor, t, id, owner, lockOk);
  }

  /** A user record is deleted only by its own owner: with an owner given, the id must equal it. */
  lemma UserDeletesOnlySelf(t: Table, id: I64, owner: I64, lockOk: bool)
    ensures Delete(UserKind.Descriptor, t, id, Some(owner), lockOk).1.Ok? ==> id == owner
  {
    var r := Delete(UserKind.Descriptor, t, id, Some(owner), lockOk);
    if r.1.Ok? {
      var i :| 0 <= i < |t| && DeleteSelects(UserKind.Descriptor, t[i], id, Some(owner));
      assert HasInt(t[i], "id", id) && HasInt(t[i], "id", owner);
    }
  }
}
