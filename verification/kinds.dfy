/**
 * The record kinds of the multi-tenant service under one roof: the kind named by the request path,
 * the query union, its dispatch and the extraction of queries from a query string.
 */
module Kinds {
  import opened Wrappers
  import Criteria
  import Sequences
  import Strings
  import NoteKind
  import CommentKind
  import PunchKind
  import UserKind

  datatype DataType = User | Note | Comment | Punch

  datatype QueryTypes =
    | UserQuery(user: UserKind.UserQuery)
    | NoteQuery(note: NoteKind.NoteQuery)
    | CommentQuery(comment: CommentKind.CommentQuery)
    | PunchQuery(punch: PunchKind.PunchQuery)

  /** The kind a query belongs to. */
  function KindOf(q: QueryTypes): DataType
  {
    match q
    case UserQuery(_) => User
    case NoteQuery(_) => Note
    case CommentQuery(_) => Comment
    case PunchQuery(_) => Punch
  }

  /** The criteria the wrapped per-kind query carries. */
  function Criterion(q: QueryTypes): Criteria.Criteria
  {
    match q
    case UserQuery(u) => UserKind.ToCriteria(u)
    case NoteQuery(n) => NoteKind.ToCriteria(n)
    case CommentQuery(c) => CommentKind.ToCriteria(c)
    case PunchQuery(p) => PunchKind.ToCriteria(p)
  }

  /** `QueryTypes::build`: the wrapped query's fragment, which binds one value to its one mark. */
  function Build(q: QueryTypes): (r: Criteria.Fragment)
    ensures |r.values| == 1 && Strings.Count(r.sql, '?') == 1
  {
    Criteria.PlaceholdersMatchValues(Criterion(q));
    Criteria.Build(Criterion(q))
  }

  /**
   * Every query of every kind renders a well-formed fragment: one bound value per placeholder, and
   * binding them in order gives the fragment with the values written in place.
   */
  lemma BuildWellFormed(q: QueryTypes)
    ensures Criteria.WellNamed(Criterion(q))
    ensures Strings.Count(Build(q).sql, '?') == |Build(q).values|
    ensures Criteria.Substitute(Build(q).sql, Build(q).values) == Criteria.Inline(Criterion(q))
  {
    Criteria.PlaceholdersMatchValues(Criterion(q));
    Criteria.BindingMatchesInline(Criterion(q));
  }

  /** `QueryTypes::try_from`: the path's kind picks the parser; its failure is passed on. */
  function TryFrom(dt: DataType, key: string, v: string): (r: Option<QueryTypes>)
    ensures r.Some? ==> KindOf(r.value) == dt
    ensures dt == User ==> r == (if UserKind.ParseQuery(key, v).Some?
                                 then Some(UserQuery(UserKind.ParseQuery(key, v).value)) else None)
    ensures dt == Note ==> r == (if NoteKind.ParseQuery(key, v).Some?
                                 then Some(NoteQuery(NoteKind.ParseQuery(key, v).value)) else None)
    ensures dt == Comment ==> r == (if CommentKind.ParseQuery(key, v).Some?
                                    then Some(CommentQuery(CommentKind.ParseQuery(key, v).value)) else None)
    ensures dt == Punch ==> r == (if PunchKind.ParseQuery(key, v).Some?
                                  then Some(PunchQuery(PunchKind.ParseQuery(key, v).value)) else None)
  {
    match dt
    case User =>
      (match UserKind.ParseQuery(key, v) case Some(u) => Some(UserQuery(u)) case None => None)
    case Note =>
      (match NoteKind.ParseQuery(key, v) case Some(n) => Some(NoteQuery(n)) case None => None)
    case Comment =>
      (match CommentKind.ParseQuery(key, v) case Some(c) => Some(CommentQuery(c)) case None => None)
    case Punch =>
      (match PunchKind.ParseQuery(key, v) case Some(p) => Some(PunchQuery(p)) case None => None)
  }

  /** `TryFrom` on a (key, value) pair of the query string. */
  function ParsePair(dt: DataType): ((string, string)) -> Option<QueryTypes>
  {
    (p: (string, string)) => TryFrom(dt, p.0, p.1)
  }

  /**
   * `ExtractGlonkQueries`: the query-string pairs, in the map's iteration order, each parsed for
   * the path's kind; pairs that do not parse are dropped.
   */
  function ExtractQueries(dt: DataType, pairs: seq<(string, string)>): (qs: seq<QueryTypes>)
    ensures |qs| <= |pairs|
    ensures forall q :: q in qs ==> KindOf(q) == dt
    ensures forall q :: q in qs ==> exists i :: 0 <= i < |pairs| && TryFrom(dt, pairs[i].0, pairs[i].1) == Some(q)
    ensures forall i :: 0 <= i < |pairs| && TryFrom(dt, pairs[i].0, pairs[i].1).Some?
                        ==> TryFrom(dt, pairs[i].0, pairs[i].1).value in qs
  {
    var r := Sequences.FilterMap(ParsePair(dt), pairs);
    assert forall i :: 0 <= i < |pairs| ==> ParsePair(dt)(pairs[i]) == TryFrom(dt, pairs[i].0, pairs[i].1);
    r
  }

  /** Extraction keeps the iteration order: splitting the pairs splits the queries the same way. */
  lemma ExtractKeepsOrder(dt: DataType, a: seq<(string, string)>, b: seq<(string, string)>)
    ensures ExtractQueries(dt, a + b) == ExtractQueries(dt, a) + ExtractQueries(dt, b)
  {
    Sequences.FilterMapConcat(ParsePair(dt), a, b);
  }

  /** A pair that does not parse contributes nothing; one that does contributes exactly its query. */
  lemma ExtractOne(dt: DataType, key: string, v: string)
    ensures ExtractQueries(dt, [(key, v)]) == if TryFrom(dt, key, v).Some? then [TryFrom(dt, key, v).value] else []
  {
    assert [(key, v)][1..] == [];
  }

  /** A key no kind's parser knows is dropped for every kind. */
  lemma UnknownKeyDropped(dt: DataType, key: string, v: string)
    requires key !in {"byGuid", "byOwnerId", "byContentsContains", "byNoteId"}
    ensures ExtractQueries(dt, [(key, v)]) == []
  {
    ExtractOne(dt, key, v);
  }
}
