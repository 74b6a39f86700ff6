/**
 * The record kinds of the single-tenant service: users and notes only. Its Note kind
 * (glonk/src/types/note.rs) is not part of this model, so its query parser is a parameter that
 * yields the criteria of the query it accepts.
 */
module GlonkTypes {
  import opened Wrappers
  import Criteria
  import Values
  import Sequences
  import Strings
  import UserKind
  import GlonkUserKind

  datatype DataType = User | Note

  datatype QueryTypes = UserQuery(user: UserKind.UserQuery) | NoteQuery(note: Criteria.Criteria)

  /** A Note query parser: the criteria a (key, value) pair denotes, or `None` for `Err(())`. */
  type NoteParser = (string, string) -> Option<Criteria.Criteria>

  function KindOf(q: QueryTypes): DataType
  {
    match q
    case UserQuery(_) => User
    case NoteQuery(_) => Note
  }

  /** `QueryTypes::build`: the wrapped query's fragment. */
  function Build(q: QueryTypes): (r: Criteria.Fragment)
    ensures q.UserQuery? ==> r.values == [Values.Text(q.user.guid)] && Strings.Count(r.sql, '?') == 1
    ensures q.NoteQuery? && Criteria.WellNamed(q.note) ==> Strings.Count(r.sql, '?') == |r.values|
  {
    match q
    case UserQuery(u) =>
      Criteria.PlaceholdersMatchValues(UserKind.ToCriteria(u));
      Criteria.Build(UserKind.ToCriteria(u))
    case NoteQuery(c) =>
      if Criteria.WellNamed(c) then Criteria.PlaceholdersMatchValues(c); Criteria.Build(c) else Criteria.Build(c)
  }

  /** `QueryTypes::try_from`: users go to the user parser, notes to the note parser; failure is passed on. */
  function TryFrom(dt: DataType, key: string, v: string, parseNote: NoteParser): (r: Option<QueryTypes>)
    ensures r.Some? ==> KindOf(r.value) == dt
    ensures dt == User ==> (r.Some? <==> key == "byGuid")
    ensures dt == User && r.Some? ==> Build(r.value) == Criteria.Build(Criteria.Equals("guid", Values.Text(v)))
    ensures dt == Note ==> r == (if parseNote(key, v).Some? then Some(NoteQuery(parseNote(key, v).value)) else None)
  {
    match dt
    case User =>
      (match GlonkUserKind.ParseQuery(key, v) case Some(u) => Some(UserQuery(u)) case None => None)
    case Note =>
      (match parseNote(key, v) case Some(c) => Some(NoteQuery(c)) case None => None)
  }

  function ParsePair(dt: DataType, parseNote: NoteParser): ((string, string)) -> Option<QueryTypes>
  {
    (p: (string, string)) => TryFrom(dt, p.0, p.1, parseNote)
  }

  /**
   * `ExtractGlonkQueries`: the query-string pairs, in the map's iteration order, each parsed for the
   * path's kind; pairs that do not parse are dropped.
   */
  function ExtractQueries(dt: DataType, pairs: seq<(string, string)>, parseNote: NoteParser): (qs: seq<QueryTypes>)
    ensures |qs| <= |pairs|
    ensures forall q :: q in qs ==> KindOf(q) == dt
    ensures forall q :: q in qs ==>
              exists i :: 0 <= i < |pairs| && TryFrom(dt, pairs[i].0, pairs[i].1, parseNote) == Some(q)
    ensures forall i :: 0 <= i < |pairs| && TryFrom(dt, pairs[i].0, pairs[i].1, parseNote).Some?
                        ==> TryFrom(dt, pairs[i].0, pairs[i].1, parseNote).value in qs
  {
    var r := Sequences.FilterMap(ParsePair(dt, parseNote), pairs);
    assert forall i :: 0 <= i < |pairs| ==>
             ParsePair(dt, parseNote)(pairs[i]) == TryFrom(dt, pairs[i].0, pairs[i].1, parseNote);
    r
  }

  /** For users, exactly the `byGuid` pairs survive, in order. */
  lemma UserExtractKeepsGuids(pairs: seq<(string, string)>, parseNote: NoteParser)
    ensures |ExtractQueries(User, pairs, parseNote)| == |pairs| <==> forall i :: 0 <= i < |pairs| ==> pairs[i].0 == "byGuid"
  {
    Sequences.FilterMapKeepsAll(ParsePair(User, parseNote), pairs);
    assert forall i :: 0 <= i < |pairs| ==>
             ParsePair(User, parseNote)(pairs[i]) == TryFrom(User, pairs[i].0, pairs[i].1, parseNote);
  }
}
