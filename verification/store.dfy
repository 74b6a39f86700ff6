/**
 * The generic store of the multi-tenant service over an abstract table. The SQL engine is replaced
 * by the rows it would hold; `lockOk` says whether the connection lock was obtained, and `nextId`
 * is the id the engine's autoincrement would assign.
 */
module Store {
  import opened Wrappers
  import opened Strings
  import opened Decimal
  import opened Values
  import opened Shape
  import Sequences
  import Criteria

  datatype StoreError = NotFound | NotCreated

  /** A table: its rows in storage order. */
  type Table = seq<Row>

  /** The row holds the integer `n` in column `col`. */
  predicate HasInt(row: Row, col: string, n: I64)
  {
    col in row && row[col] == Integer(n)
  }

  // ---- create ----

  /** The row an insert writes: the present fields, with the engine's id when none is given. */
  function NewRow(s: Schema, fs: seq<Field>, nextId: I64): Row
  {
    var written := Assignment(fs);
    if s.idCol in written then written else written[s.idCol := Integer(nextId)]
  }

  /** The engine accepts the row: no NOT NULL column is missing and its id is not taken. */
  predicate Insertable(s: Schema, t: Table, row: Row)
  {
    (forall c :: c in s.notNull ==> c in row)
    && s.idCol in row
    && forall i :: 0 <= i < |t| ==> !(s.idCol in t[i] && t[i][s.idCol] == row[s.idCol])
  }

  /**
   * `create`: insert the request's present fields and return the inserted row; when the lock fails
   * or the engine returns no row the table is unchanged and the result is `NotCreated`.
   */
  function Create(s: Schema, t: Table, fs: seq<Field>, lockOk: bool, nextId: I64): (r: (Table, Result<Row, StoreError>))
    ensures r.1.Ok? <==> lockOk && Insertable(s, t, NewRow(s, fs, nextId))
    ensures r.1.Err? ==> r.1.error == NotCreated && r.0 == t
    ensures r.1.Ok? ==> r.0 == t + [r.1.value]
    ensures r.1.Ok? ==> r.1.value.Keys == Assignment(fs).Keys + {s.idCol}
    ensures r.1.Ok? && DistinctColumns(fs) ==>
              forall i :: 0 <= i < |fs| && fs[i].value.Some? ==>
                fs[i].column in r.1.value && r.1.value[fs[i].column] == fs[i].value.value
    ensures r.1.Ok? && (forall i :: 0 <= i < |fs| ==> fs[i].column != s.idCol) ==> HasInt(r.1.value, s.idCol, nextId)
  {
    var row := NewRow(s, fs, nextId);
    if lockOk && Insertable(s, t, row) then (t + [row], Ok(row)) else (t, Err(NotCreated))
  }

  /** The text of the insert statement: one parameter mark per binding of the request's binder. */
  function InsertSql(s: Schema, fs: seq<Field>): (r: string)
    ensures MarkFreeSchema(s) && MarkFreeColumns(fs) ==> Count(r, '?') == |Bind(fs)|
  {
    var ret := Join(",", s.columns);
    var head := "INSERT INTO " + s.table + "(" + SqlCols(fs) + ") VALUES (";
    var tail := ") returning " + ret;
    JoinAbsent(",", s.columns, '?');
    CountMiddle(head, SqlPlaceholders(fs), tail, '?');
    head + SqlPlaceholders(fs) + tail
  }

  // ---- update ----

  /** The row has the given id and belongs to the given owner. */
  predicate Owned(d: Descriptor, row: Row, id: I64, owner: I64)
  {
    HasInt(row, d.schema.idCol, id) && HasInt(row, d.ownerCol, owner)
  }

  /** The table after `SET` of the request's present fields on every row the filter selects. */
  function Overwrite(t: Table, selected: Row -> bool, fs: seq<Field>): (u: Table)
    ensures |u| == |t|
    ensures forall i :: 0 <= i < |t| ==> u[i] == if selected(t[i]) then t[i] + Assignment(fs) else t[i]
  {
    seq(|t|, i requires 0 <= i < |t| => if selected(t[i]) then t[i] + Assignment(fs) else t[i])
  }

  /**
   * `update`: without an id or an owner on the request nothing is touched and the result is
   * `NotCreated`; otherwise the request's fields are written to every row with that id and that
   * owner, and the first such row is returned. No match, or a failed lock, gives `NotCreated`.
   */
  function Update(d: Descriptor, t: Table, fs: seq<Field>, id: Option<I64>, owner: Option<I64>, lockOk: bool)
    : (r: (Table, Result<Row, StoreError>))
    ensures id.None? || owner.None? || !lockOk ==> r == (t, Err(NotCreated))
    ensures r.1.Ok? <==> id.Some? && owner.Some? && lockOk
                         && exists i :: 0 <= i < |t| && Owned(d, t[i], id.value, owner.value)
    ensures r.1.Err? ==> r.1.error == NotCreated && r.0 == t
    ensures |r.0| == |t|
    ensures r.1.Ok? ==> forall i :: 0 <= i < |t| ==>
              r.0[i] == if Owned(d, t[i], id.value, owner.value) then t[i] + Assignment(fs) else t[i]
    ensures r.1.Ok? ==> exists i :: 0 <= i < |t| && Owned(d, t[i], id.value, owner.value) && r.1.value == r.0[i]
  {
    if id.None? || owner.None? || !lockOk then (t, Err(NotCreated))
    else
      var selected := (row: Row) => Owned(d, row, id.value, owner.value);
      match Sequences.FirstIndex(selected, t)
      case None => (t, Err(NotCreated))
      case Some(k) =>
        var u := Overwrite(t, selected, fs);
        (u, Ok(u[k]))
  }

  /**
   * The text of the update statement: one parameter mark per binding of the request's binder; the
   * row is picked by the named parameters `:id` and `:owner_id`.
   */
  function UpdateSql(d: Descriptor, fs: seq<Field>): (r: string)
    ensures MarkFreeSchema(d.schema) && '?' !in d.ownerCol && MarkFreeColumns(fs) ==> Count(r, '?') == |Bind(fs)|
  {
    var ret := Join(",", d.schema.columns);
    var head := "UPDATE " + d.schema.table + " SET (" + SqlCols(fs) + ") = (";
    var tail := ") where (" + d.schema.idCol + " = :id and " + d.ownerCol + " = :owner_id) returning " + ret;
    JoinAbsent(",", d.schema.columns, '?');
    CountMiddle(head, SqlPlaceholders(fs), tail, '?');
    head + SqlPlaceholders(fs) + tail
  }

  /**
   * What `update` binds: the request's values by position, then `:id` and `:owner_id` by name.
   * SQLite numbers a named parameter after the highest index in use, so the two names take the
   * indices right after the request's values.
   */
  function UpdateBindings(fs: seq<Field>, id: I64, owner: I64): (b: seq<Binding>)
    ensures b == Number(BoundValues(fs) + [Integer(id), Integer(owner)], 1)
    ensures |b| == |Bind(fs)| + 2
    ensures b[..|Bind(fs)|] == Bind(fs)
  {
    var n := |Bind(fs)|;
    NumberConcat(BoundValues(fs), [Integer(id), Integer(owner)], 1);
    Bind(fs) + [Binding(n + 1, Integer(id)), Binding(n + 2, Integer(owner))]
  }

  // ---- get ----

  /** `get`: the first row whose id column holds `id`; `None` when there is none or the lock fails. */
  function Get(s: Schema, t: Table, id: I64, lockOk: bool): (r: Option<Row>)
    ensures r.Some? <==> lockOk && exists i :: 0 <= i < |t| && HasInt(t[i], s.idCol, id)
    ensures r.Some? ==> exists i :: 0 <= i < |t| && t[i] == r.value && HasInt(t[i], s.idCol, id)
                                   && forall j :: 0 <= j < i ==> !HasInt(t[j], s.idCol, id)
  {
    if !lockOk then None
    else
      match Sequences.FirstIndex((row: Row) => HasInt(row, s.idCol, id), t)
      case None => None
      case Some(k) => Some(t[k])
  }

  /** The text of the get statement: a single parameter mark, to which `id` is bound at index 1. */
  function GetSql(s: Schema): (r: string)
    ensures '?' !in s.table && '?' !in s.idCol ==> Count(r, '?') == 1
  {
    var c := "SELECT * FROM " + s.table + " where (" + s.idCol;
    if '?' !in c then ClosingComparison(c); c + " = ?)" else c + " = ?)"
  }

  // ---- get_queries ----

  /** Every criterion holds of the row. */
  predicate AllHold(row: Row, qs: seq<Criteria.Criteria>)
  {
    forall i :: 0 <= i < |qs| ==> Criteria.Holds(row, qs[i])
  }

  /**
   * `get_queries`: the rows satisfying every query, in table order; nothing when the lock fails.
   * With no query every row is returned.
   */
  function GetQueries(t: Table, qs: seq<Criteria.Criteria>, lockOk: bool): (r: seq<Row>)
    ensures !lockOk ==> r == []
    ensures lockOk ==> forall row :: row in r <==> row in t && AllHold(row, qs)
    ensures |r| <= |t|
  {
    if lockOk then Sequences.Filter((row: Row) => AllHold(row, qs), t) else []
  }

  /** The result keeps table order: splitting the table splits the result the same way. */
  lemma GetQueriesKeepsOrder(a: Table, b: Table, qs: seq<Criteria.Criteria>)
    ensures GetQueries(a + b, qs, true) == GetQueries(a, qs, true) + GetQueries(b, qs, true)
  {
    Sequences.FilterConcat((row: Row) => AllHold(row, qs), a, b);
  }

  /** No query means no filter. */
  lemma NoQueriesSelectsAll(t: Table)
    ensures GetQueries(t, [], true) == t
  {
    Sequences.FilterKeepsAll((row: Row) => AllHold(row, []), t);
  }

  /** The rendered clause of each query, in query order. */
  function Clauses(qs: seq<Criteria.Criteria>): (cs: seq<string>)
    ensures |cs| == |qs|
    ensures forall i :: 0 <= i < |qs| ==> cs[i] == Criteria.Build(qs[i]).sql
  {
    seq(|qs|, i requires 0 <= i < |qs| => Criteria.Build(qs[i]).sql)
  }

  /** One more query adds its clause at the end. */
  lemma ClausesSnoc(qs: seq<Criteria.Criteria>, q: Criteria.Criteria)
    ensures Clauses(qs + [q]) == Clauses(qs) + [Criteria.Build(q).sql]
  {
  }

  /** The bound values of all queries: query order, then value order within each query. */
  function AllValues(qs: seq<Criteria.Criteria>): seq<Value>
    decreases |qs|
  {
    if |qs| == 0 then [] else Criteria.Build(qs[0]).values + AllValues(qs[1..])
  }

  lemma {:induction false} AllValuesSnoc(qs: seq<Criteria.Criteria>, q: Criteria.Criteria)
    ensures AllValues(qs + [q]) == AllValues(qs) + Criteria.Build(q).values
    decreases |qs|
  {
    if |qs| == 0 {
      assert qs + [q] == [q];
      assert [q][1..] == [];
    } else {
      assert (qs + [q])[1..] == qs[1..] + [q];
      AllValuesSnoc(qs[1..], q);
    }
  }

  /** The where clause: ` where ` and the clauses joined with ` and `, or nothing for no query. */
  function WhereClause(qs: seq<Criteria.Criteria>): string
  {
    if |qs| == 0 then "" else " where " + Join(" and ", Clauses(qs))
  }

  /** Binds `vals` after the bindings already made, continuing the numbering where they stop. */
  method BindAfter(done: seq<Binding>, vals: seq<Value>) returns (bindings: seq<Binding>)
    ensures bindings == done + Number(vals, |done| + 1)
  {
    bindings := done;
    for j := 0 to |vals|
      invariant |bindings| == |done| + j
      invariant bindings == done + Number(vals[..j], |done| + 1)
    {
      var next := Binding(|done| + 1 + j, vals[j]);
      assert vals[..j + 1] == vals[..j] + [vals[j]];
      NumberSnoc(vals[..j], vals[j], |done| + 1);
      assert Number(vals[..j + 1], |done| + 1) == Number(vals[..j], |done| + 1) + [next];
      bindings := bindings + [next];
    }
    assert vals[..|vals|] == vals;
  }

  /**
   * The statement `get_queries` builds: the clauses in query order, and every bound value numbered
   * consecutively from 1 in query order and then value order.
   */
  method SelectStatement(s: Schema, qs: seq<Criteria.Criteria>) returns (sql: string, bindings: seq<Binding>)
    ensures sql == "SELECT * FROM " + s.table + WhereClause(qs)
    ensures |bindings| == |AllValues(qs)|
    ensures forall k :: 0 <= k < |bindings| ==> bindings[k] == Binding(k + 1, AllValues(qs)[k])
  {
    var clauses := ClauseList(qs);
    bindings := BindAll(qs);
    sql := "SELECT * FROM " + s.table;
    if |clauses| > 0 {
      sql := sql + (" where " + Join(" and ", clauses));
    }
  }

  /** The clauses of the queries, in query order. */
  method ClauseList(qs: seq<Criteria.Criteria>) returns (clauses: seq<string>)
    ensures clauses == Clauses(qs)
  {
    clauses := [];
    for k := 0 to |qs|
      invariant clauses == Clauses(qs[..k])
    {
      assert qs[..k + 1] == qs[..k] + [qs[k]];
      ClausesSnoc(qs[..k], qs[k]);
      clauses := clauses + [Criteria.Build(qs[k]).sql];
    }
    assert qs[..|qs|] == qs;
  }

  /** Every bound value of the queries, numbered from 1 in query order and then value order. */
  method BindAll(qs: seq<Criteria.Criteria>) returns (bindings: seq<Binding>)
    ensures bindings == Number(AllValues(qs), 1)
  {
    bindings := [];
    for k := 0 to |qs|
      invariant bindings == Number(AllValues(qs[..k]), 1)
    {
      var frag := Criteria.Build(qs[k]);
      assert qs[..k + 1] == qs[..k] + [qs[k]];
      AllValuesSnoc(qs[..k], qs[k]);
      NumberConcat(AllValues(qs[..k]), frag.values, 1);
      bindings := BindAfter(bindings, frag.values);
    }
    assert qs[..|qs|] == qs;
  }

  /** Each query's values, written in place into its clause. */
  function Inlines(qs: seq<Criteria.Criteria>): (ss: seq<string>)
    ensures |ss| == |qs|
    ensures forall i :: 0 <= i < |qs| ==> ss[i] == Criteria.Inline(qs[i])
  {
    seq(|qs|, i requires 0 <= i < |qs| => Criteria.Inline(qs[i]))
  }

  predicate AllWellNamed(qs: seq<Criteria.Criteria>)
  {
    forall i :: 0 <= i < |qs| ==> Criteria.WellNamed(qs[i])
  }

  /**
   * The numbering puts each query's values into its own clause: binding all values in order to the
   * joined clauses gives the clauses with their own values written in place.
   */
  lemma {:induction false} JoinedClausesBindInOrder(qs: seq<Criteria.Criteria>)
    requires AllWellNamed(qs)
    ensures Count(Join(" and ", Clauses(qs)), '?') == |AllValues(qs)|
    ensures Criteria.Substitute(Join(" and ", Clauses(qs)), AllValues(qs)) == Join(" and ", Inlines(qs))
    decreases |qs|
  {
    if |qs| == 0 {
      assert Criteria.Substitute("", []) == "";
    } else if |qs| == 1 {
      JoinedOne(qs[0]);
      assert [qs[0]] == qs;
    } else {
      var rest := qs[1..];
      assert AllWellNamed(rest) by {
        assert forall i :: 0 <= i < |rest| ==> rest[i] == qs[i + 1];
      }
      JoinedClausesBindInOrder(rest);
      JoinedStep(qs[0], rest);
      assert [qs[0]] + rest == qs;
    }
  }

  /** A single query: its own clause and values. */
  lemma JoinedOne(q: Criteria.Criteria)
    requires Criteria.WellNamed(q)
    ensures Count(Join(" and ", Clauses([q])), '?') == |AllValues([q])|
    ensures Criteria.Substitute(Join(" and ", Clauses([q])), AllValues([q])) == Join(" and ", Inlines([q]))
  {
    Criteria.PlaceholdersMatchValues(q);
    Criteria.BindingMatchesInline(q);
    assert [q][1..] == [];
    assert AllValues([q]) == Criteria.Build(q).values + [] == Criteria.Build(q).values;
  }

  /** One more query in front of a non-empty list: its clause, ` and `, then the rest. */
  lemma JoinedStep(q: Criteria.Criteria, rest: seq<Criteria.Criteria>)
    requires |rest| > 0 && Criteria.WellNamed(q)
    requires Count(Join(" and ", Clauses(rest)), '?') == |AllValues(rest)|
    requires Criteria.Substitute(Join(" and ", Clauses(rest)), AllValues(rest)) == Join(" and ", Inlines(rest))
    ensures Count(Join(" and ", Clauses([q] + rest)), '?') == |AllValues([q] + rest)|
    ensures Criteria.Substitute(Join(" and ", Clauses([q] + rest)), AllValues([q] + rest))
         == Join(" and ", Inlines([q] + rest))
  {
    var qs := [q] + rest;
    Criteria.PlaceholdersMatchValues(q);
    Criteria.BindingMatchesInline(q);
    assert qs[0] == q && qs[1..] == rest;
    assert Clauses(qs)[1..] == Clauses(rest);
    assert Inlines(qs)[1..] == Inlines(rest);
    var a, b := Criteria.Build(q).sql, Join(" and ", Clauses(rest));
    assert Join(" and ", Clauses(qs)) == a + " and " + b;
    assert AllValues(qs) == Criteria.Build(q).values + AllValues(rest);
    assert '?' !in " and ";
    CountConcat(a, " and ", '?');
    CountAbsent(" and ", '?');
    CountConcat(a + " and ", b, '?');
    Criteria.SubstituteFreeMiddle(a, " and ", b, Criteria.Build(q).values, AllValues(rest));
  }

  /** The statement head carries no parameter mark. */
  lemma HeadHasNoMarks(table: string)
    requires '?' !in table
    ensures '?' !in "SELECT * FROM " + table
  {
    assert forall ch :: ch in "SELECT * FROM " + table ==> ch in "SELECT * FROM " || ch in table;
  }

  /** The where clause of a non-empty query list with its bindings applied. */
  lemma WhereBindsInOrder(qs: seq<Criteria.Criteria>)
    requires |qs| > 0 && AllWellNamed(qs)
    ensures Count(WhereClause(qs), '?') == |AllValues(qs)|
    ensures Criteria.Substitute(WhereClause(qs), AllValues(qs)) == " where " + Join(" and ", Inlines(qs))
  {
    JoinedClausesBindInOrder(qs);
    var w := Join(" and ", Clauses(qs));
    assert '?' !in " where ";
    CountAbsent(" where ", '?');
    CountConcat(" where ", w, '?');
    Criteria.SubstituteFreePrefix(" where ", w, AllValues(qs));
  }

  /** The whole select statement with its bindings applied. */
  lemma SelectBindsInOrder(s: Schema, qs: seq<Criteria.Criteria>)
    requires '?' !in s.table
    requires AllWellNamed(qs)
    ensures Count("SELECT * FROM " + s.table + WhereClause(qs), '?') == |AllValues(qs)|
    ensures Criteria.Substitute("SELECT * FROM " + s.table + WhereClause(qs), AllValues(qs))
         == "SELECT * FROM " + s.table + (if |qs| == 0 then "" else " where " + Join(" and ", Inlines(qs)))
  {
    var head := "SELECT * FROM " + s.table;
    var w := WhereClause(qs);
    HeadHasNoMarks(s.table);
    CountAbsent(head, '?');
    CountConcat(head, w, '?');
    Criteria.SubstituteFreePrefix(head, w, AllValues(qs));
    if |qs| > 0 {
      WhereBindsInOrder(qs);
    } else {
      assert AllValues(qs) == [];
      Criteria.SubstituteNoMarks("", []);
    }
  }

  // ---- delete ----

  /**
   * The delete filter as written: the owner is added to the filter only when an owner is given and
   * the kind's owner column is its id column; otherwise the filter is the id alone.
   */
  predicate OwnerFiltered(d: Descriptor, owner: Option<I64>)
  {
    owner.Some? && d.ownerCol == d.schema.idCol
  }

  /** The rows the delete filter selects. */
  predicate DeleteSelects(d: Descriptor, row: Row, id: I64, owner: Option<I64>)
  {
    HasInt(row, d.schema.idCol, id) && (OwnerFiltered(d, owner) ==> HasInt(row, d.ownerCol, owner.value))
  }

  /** The rendered delete filter and its numbered parameters. */
  function DeleteFilter(d: Descriptor, id: I64, owner: Option<I64>): (r: (string, seq<Binding>))
    ensures '?' !in d.schema.idCol && '?' !in d.ownerCol ==> Count(r.0, '?') == |r.1|
    ensures forall k :: 0 <= k < |r.1| ==> r.1[k].index == k + 1
    ensures |r.1| > 0 && r.1[0].value == Integer(id)
    ensures |r.1| == 2 <==> OwnerFiltered(d, owner)
    ensures |r.1| == 2 ==> r.1[1].value == Integer(owner.value)
    ensures |r.1| <= 2
  {
    var idc, oc := d.schema.idCol, d.ownerCol;
    if OwnerFiltered(d, owner) then
      var sql := "(" + idc + " = ? and " + oc + " = ?)";
      CountFilter2(idc, oc);
      (sql, [Binding(1, Integer(id)), Binding(2, Integer(owner.value))])
    else
      CountFilter1(idc);
      ("(" + idc + " = ?)", [Binding(1, Integer(id))])
  }

  /** A text with a single parameter mark, between two texts without one. */
  lemma OneMark(p: string, q: string)
    requires '?' !in p && '?' !in q
    ensures Count(p + "?" + q, '?') == 1
  {
    CountAbsent(p, '?');
    CountAbsent(q, '?');
    CountConcat(p, "?", '?');
    CountConcat(p + "?", q, '?');
    assert Count("?", '?') == 1 by { assert "?"[1..] == ""; }
  }

  /** A column compared with a parameter, closing the filter: one mark. */
  lemma ClosingComparison(c: string)
    requires '?' !in c
    ensures Count(c + " = ?)", '?') == 1
  {
    assert '?' !in " = " && '?' !in ")";
    OneMark(c + " = ", ")");
    CountAbsent(c, '?');
    CountAbsent(" = ", '?');
    assert c + " = ?)" == c + " = " + "?" + ")";
  }

  /** The id comparison followed by ` and `: one mark. */
  lemma OpeningComparison(idc: string)
    requires '?' !in idc
    ensures Count("(" + idc + " = ? and ", '?') == 1
  {
    var p := "(" + idc + " = ";
    assert '?' !in p by { assert forall ch :: ch in p ==> ch in "(" || ch in idc || ch in " = "; }
    assert '?' !in " and ";
    OneMark(p, " and ");
    assert "(" + idc + " = ? and " == p + "?" + " and ";
  }

  lemma CountFilter1(idc: string)
    ensures '?' !in idc ==> Count("(" + idc + " = ?)", '?') == 1
  {
    if '?' !in idc {
      assert '?' !in "(" + idc by { assert forall ch :: ch in "(" + idc ==> ch in "(" || ch in idc; }
      ClosingComparison("(" + idc);
    }
  }

  lemma CountFilter2(idc: string, oc: string)
    ensures '?' !in idc && '?' !in oc ==> Count("(" + idc + " = ? and " + oc + " = ?)", '?') == 2
  {
    if '?' !in idc && '?' !in oc {
      var a := "(" + idc + " = ? and ";
      OpeningComparison(idc);
      ClosingComparison(oc);
      CountConcat(a, oc + " = ?)", '?');
      assert a + oc + " = ?)" == a + (oc + " = ?)");
    }
  }

  /**
   * `delete`: remove every row the filter selects and return the first of them; no match, or a
   * failed lock, gives `NotFound` and leaves the table unchanged.
   */
  function Delete(d: Descriptor, t: Table, id: I64, owner: Option<I64>, lockOk: bool)
    : (r: (Table, Result<Row, StoreError>))
    ensures r.1.Ok? <==> lockOk && exists i :: 0 <= i < |t| && DeleteSelects(d, t[i], id, owner)
    ensures r.1.Err? ==> r.1.error == NotFound && r.0 == t
    ensures r.1.Ok? ==> forall row :: row in r.0 <==> row in t && !DeleteSelects(d, row, id, owner)
    ensures r.1.Ok? ==> r.0 == Kept(d, t, id, owner)
    ensures r.1.Ok? ==> exists i :: 0 <= i < |t| && t[i] == r.1.value && DeleteSelects(d, t[i], id, owner)
                                    && forall j :: 0 <= j < i ==> !DeleteSelects(d, t[j], id, owner)
  {
    if !lockOk then (t, Err(NotFound))
    else
      var selected := (row: Row) => DeleteSelects(d, row, id, owner);
      match Sequences.FirstIndex(selected, t)
      case None => (t, Err(NotFound))
      case Some(k) => (Kept(d, t, id, owner), Ok(t[k]))
  }

  /** The rows a delete leaves behind: those the filter does not select. */
  function Kept(d: Descriptor, t: Table, id: I64, owner: Option<I64>): Table
  {
    Sequences.Filter((row: Row) => !DeleteSelects(d, row, id, owner), t)
  }

  /**
   * The rows a delete leaves keep their table order and multiplicity: splitting the table splits
   * what remains the same way, and a single row stays exactly when the filter does not select it.
   */
  lemma DeleteKeepsOrder(d: Descriptor, a: Table, b: Table, id: I64, owner: Option<I64>)
    ensures Kept(d, a + b, id, owner) == Kept(d, a, id, owner) + Kept(d, b, id, owner)
    ensures forall row :: Kept(d, [row], id, owner) == if DeleteSelects(d, row, id, owner) then [] else [row]
  {
    Sequences.FilterConcat((row: Row) => !DeleteSelects(d, row, id, owner), a, b);
    forall row ensures Kept(d, [row], id, owner) == if DeleteSelects(d, row, id, owner) then [] else [row] {
      assert [row][1..] == [];
    }
  }

  /** The text of the delete statement: its parameter marks are exactly those of the filter. */
  function DeleteSql(d: Descriptor, filter: string): (r: string)
    ensures MarkFreeSchema(d.schema) ==> Count(r, '?') == Count(filter, '?')
  {
    var head := "DELETE FROM " + d.schema.table + " where ";
    var tail := " returning " + Join(",", d.schema.columns);
    JoinAbsent(",", d.schema.columns, '?');
    CountMiddle(head, filter, tail, '?');
    head + filter + tail
  }

  /** The delete statement has one parameter mark per value the filter binds. */
  lemma DeleteStatementBinds(d: Descriptor, id: I64, owner: Option<I64>)
    requires MarkFreeSchema(d.schema) && '?' !in d.ownerCol
    ensures Count(DeleteSql(d, DeleteFilter(d, id, owner).0), '?') == |DeleteFilter(d, id, owner).1|
  {
  }
}
