/**
 * The persisted-record descriptors and the request-shape machinery shared by every record kind:
 * a request is a fixed, ordered list of optional columns; only the present ones are written.
 */
module Shape {
  import opened Wrappers
  import opened Strings
  import opened Decimal
  import opened Values

  /**
   * What a persisted kind tells the store about itself: its table, its full column list (the
   * `returning` list) and its id column. `notNull` holds the columns the schema declares NOT NULL.
   */
  datatype Schema = Schema(table: string, columns: seq<string>, idCol: string, notNull: set<string>)

  /** A multi-tenant kind additionally names the column holding each record's owner. */
  datatype Descriptor = Descriptor(schema: Schema, ownerCol: string)

  /** No name the schema puts into a statement contains a parameter mark. */
  predicate MarkFreeSchema(s: Schema)
  {
    '?' !in s.table && '?' !in s.idCol && forall i :: 0 <= i < |s.columns| ==> '?' !in s.columns[i]
  }

  /** One optional field of a request, under the column it is written to. */
  datatype Field = Field(column: string, value: Option<Value>)

  /** An integer-valued request field. */
  function IntField(column: string, v: Option<I64>): (f: Field)
    ensures f.column == column && (f.value.Some? <==> v.Some?)
  {
    Field(column, if v.Some? then Some(Integer(v.value)) else None)
  }

  /** A text-valued request field. */
  function TextField(column: string, v: Option<string>): (f: Field)
    ensures f.column == column && (f.value.Some? <==> v.Some?)
  {
    Field(column, if v.Some? then Some(Text(v.value)) else None)
  }

  /** The one-element list `[x]` when `present` holds, else the empty list. */
  function Listed<T>(present: bool, x: T): seq<T>
  {
    if present then [x] else []
  }

  /** The column names of the present fields, in declaration order (`sql_cols` before joining). */
  function Columns(fs: seq<Field>): seq<string>
    decreases |fs|
  {
    if |fs| == 0 then [] else Listed(fs[0].value.Some?, fs[0].column) + Columns(fs[1..])
  }

  /** A leading field contributes its column exactly when it is present. */
  lemma ColumnsCons(f: Field, rest: seq<Field>)
    ensures Columns([f] + rest) == Listed(f.value.Some?, f.column) + Columns(rest)
  {
    assert ([f] + rest)[1..] == rest;
  }

  /** The columns of a three-field request, field by field. */
  lemma ColumnsOfThree(a: Field, b: Field, c: Field)
    ensures Columns([a, b, c]) == Listed(a.value.Some?, a.column) + (Listed(b.value.Some?, b.column) +
                                  Listed(c.value.Some?, c.column))
  {
    ColumnsCons(c, []);
    ColumnsCons(b, [c]);
    ColumnsCons(a, [b, c]);
    assert [c] + [] == [c] && [b] + [c] == [b, c] && [a] + [b, c] == [a, b, c];
  }

  /** The columns of a four-field request, field by field. */
  lemma ColumnsOfFour(a: Field, b: Field, c: Field, d: Field)
    ensures Columns([a, b, c, d]) == Listed(a.value.Some?, a.column) + Columns([b, c, d])
  {
    ColumnsCons(a, [b, c, d]);
    assert [a] + [b, c, d] == [a, b, c, d];
  }

  /** The columns of a five-field request, field by field. */
  lemma ColumnsOfFive(a: Field, b: Field, c: Field, d: Field, e: Field)
    ensures Columns([a, b, c, d, e]) == Listed(a.value.Some?, a.column) + Columns([b, c, d, e])
  {
    ColumnsCons(a, [b, c, d, e]);
    assert [a] + [b, c, d, e] == [a, b, c, d, e];
  }

  /** The values of the present fields, in declaration order. */
  function BoundValues(fs: seq<Field>): seq<Value>
    decreases |fs|
  {
    if |fs| == 0 then []
    else (if fs[0].value.Some? then [fs[0].value.value] else []) + BoundValues(fs[1..])
  }

  /**
   * Column names and values stay aligned: the i-th listed column's field is present in the request
   * with the i-th listed value.
   */
  lemma {:induction false} ColumnsValuesAligned(fs: seq<Field>)
    ensures |BoundValues(fs)| == |Columns(fs)|
    ensures forall i :: 0 <= i < |Columns(fs)| ==> Field(Columns(fs)[i], Some(BoundValues(fs)[i])) in fs
    decreases |fs|
  {
    if |fs| > 0 {
      ColumnsValuesAligned(fs[1..]);
      var cs, vs := Columns(fs[1..]), BoundValues(fs[1..]);
      forall i | 0 <= i < |cs| ensures Field(cs[i], Some(vs[i])) in fs {
        assert Field(cs[i], Some(vs[i])) in fs[1..];
      }
      if fs[0].value.Some? {
        assert fs[0] == Field(fs[0].column, Some(fs[0].value.value));
        forall i | 0 <= i < |Columns(fs)| ensures Field(Columns(fs)[i], Some(BoundValues(fs)[i])) in fs {
          if i > 0 {
            assert Columns(fs)[i] == cs[i - 1] && BoundValues(fs)[i] == vs[i - 1];
          }
        }
      }
    }
  }

  /** No column the request can write contains a parameter mark (the service's columns are fixed names). */
  predicate MarkFreeColumns(fs: seq<Field>)
  {
    forall i :: 0 <= i < |fs| ==> '?' !in fs[i].column
  }

  /** The request's `sql_cols`: the present columns, comma-separated; it adds no parameter mark. */
  function SqlCols(fs: seq<Field>): (r: string)
    ensures MarkFreeColumns(fs) ==> '?' !in r
  {
    var cs := Columns(fs);
    if MarkFreeColumns(fs) then
      ColumnsValuesAligned(fs);
      assert forall i :: 0 <= i < |cs| ==> '?' !in cs[i] by {
        forall i | 0 <= i < |cs| ensures '?' !in cs[i] {
          var j :| 0 <= j < |fs| && fs[j] == Field(cs[i], Some(BoundValues(fs)[i]));
        }
      }
      JoinAbsent(",", cs, '?');
      Join(",", cs)
    else
      Join(",", cs)
  }

  /** The request's `sql_placeholders`: one `?` per present field, comma-separated. */
  function SqlPlaceholders(fs: seq<Field>): (r: string)
    ensures Count(r, '?') == |Columns(fs)|
  {
    var n := |Columns(fs)|;
    CountJoin(",", Repeat("?", n), '?');
    CountAllRepeat("?", n, '?');
    assert Count("?", '?') == 1 by {
      assert "?"[1..] == "";
    }
    Join(",", Repeat("?", n))
  }

  /**
   * The request's positional binder: the present values at indices 1, 2, … — the i-th binding
   * carries the value of the field written to the i-th column.
   */
  function Bind(fs: seq<Field>): (r: seq<Binding>)
    ensures |r| == |Columns(fs)|
    ensures forall i :: 0 <= i < |r| ==> r[i].index == i + 1 && Field(Columns(fs)[i], Some(r[i].value)) in fs
  {
    ColumnsValuesAligned(fs);
    Number(BoundValues(fs), 1)
  }

  /** No column is written twice. */
  predicate DistinctColumns(fs: seq<Field>)
  {
    forall i, j :: 0 <= i < j < |fs| ==> fs[i].column != fs[j].column
  }

  /** The values a request writes, by column: exactly the present fields. */
  function Assignment(fs: seq<Field>): (m: Row)
    ensures forall c :: c in m <==> exists i :: 0 <= i < |fs| && fs[i].column == c && fs[i].value.Some?
    ensures DistinctColumns(fs) ==>
              forall i :: 0 <= i < |fs| && fs[i].value.Some? ==> m[fs[i].column] == fs[i].value.value
    decreases |fs|
  {
    if |fs| == 0 then map[]
    else
      var rest := Assignment(fs[1..]);
      assert forall i :: 1 <= i < |fs| ==> fs[1..][i - 1] == fs[i];
      if fs[0].value.Some? then rest[fs[0].column := fs[0].value.value] else rest
  }

  /** Unfolds `Assignment` by one field. */
  lemma AssignmentCons(f: Field, rest: seq<Field>)
    ensures Assignment([f] + rest) == if f.value.Some? then Assignment(rest)[f.column := f.value.value] else Assignment(rest)
  {
    assert ([f] + rest)[1..] == rest;
  }
}
