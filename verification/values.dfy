/**
 * What the storage engine stores and binds: SQLite values, rows keyed by column name (a missing key is
 * SQL NULL) and positional parameter bindings.
 */
module Values {
  import opened Decimal

  /** The two kinds of `sqlite::Value` the service ever binds. */
  datatype Value = Integer(i: I64) | Text(s: string)

  /** A stored row: column name to value; a column that is not a key holds NULL. */
  type Row = map<string, Value>

  /** A value bound to the positional parameter `?index` (SQLite numbers them from 1). */
  datatype Binding = Binding(index: nat, value: Value)

  /** Binds `vals` to consecutive positional parameters starting at `first`. */
  function Number(vals: seq<Value>, first: nat): (r: seq<Binding>)
    ensures |r| == |vals|
    ensures forall i :: 0 <= i < |vals| ==> r[i] == Binding(first + i, vals[i])
    decreases |vals|
  {
    if |vals| == 0 then [] else [Binding(first, vals[0])] + Number(vals[1..], first + 1)
  }

  /** Numbering one more value gives it the next index. */
  lemma NumberSnoc(vals: seq<Value>, v: Value, first: nat)
    ensures Number(vals + [v], first) == Number(vals, first) + [Binding(first + |vals|, v)]
  {
  }

  /** Numbering two runs of values one after the other is numbering their concatenation. */
  lemma NumberConcat(a: seq<Value>, b: seq<Value>, first: nat)
    ensures Number(a + b, first) == Number(a, first) + Number(b, first + |a|)
  {
  }

  /** The text SQLite compares under LIKE: integers are converted to their decimal form. */
  function AsText(v: Value): string
  {
    match v
    case Integer(n) => IntToString(n)
    case Text(s) => s
  }

  /** Doubles every single quote, as an SQL string literal requires. */
  function EscapeQuotes(s: string): string
    decreases |s|
  {
    if |s| == 0 then ""
    else (if s[0] == '\'' then "''" else [s[0]]) + EscapeQuotes(s[1..])
  }

  /** The SQL literal that stands for `v` when it is written into the statement text. */
  function Literal(v: Value): string
  {
    match v
    case Integer(n) => IntToString(n)
    case Text(s) => "'" + EscapeQuotes(s) + "'"
  }
}
