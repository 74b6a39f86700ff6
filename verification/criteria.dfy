/**
 * The criteria algebra: `Equals`, `Contains`, `And` and `Or` each render a parameterised SQL fragment
 * plus the values bound to its `?` placeholders, left to right. The single-tenant and the multi-tenant
 * crates define this algebra with identical code; it is modelled once.
 */
module Criteria {
  import opened Strings
  import opened Values
  import Like

  datatype Criteria =
    | Equals(field: string, val: Value)
    | Contains(field: string, needle: string)
    | And(left: Criteria, right: Criteria)
    | Or(left: Criteria, right: Criteria)

  /** What `build()` returns: the fragment text and the ordered bound values. */
  datatype Fragment = Fragment(sql: string, values: seq<Value>)

  /** `format!("(({}) {op} ({}))", a, b)`. */
  function Wrap(op: string, a: string, b: string): string
  {
    "((" + a + ") " + op + " (" + b + "))"
  }

  function Combine(op: string, l: Fragment, r: Fragment): Fragment
  {
    Fragment(Wrap(op, l.sql, r.sql), l.values + r.values)
  }

  /** The number of comparisons in the tree. */
  function Leaves(c: Criteria): nat
  {
    match c
    case Equals(_, _) => 1
    case Contains(_, _) => 1
    case And(l, r) => Leaves(l) + Leaves(r)
    case Or(l, r) => Leaves(l) + Leaves(r)
  }

  /** `build()`: every comparison in the tree binds exactly one value, and the combinators bind none. */
  function Build(c: Criteria): (r: Fragment)
    ensures |r.values| == Leaves(c)
  {
    match c
    case Equals(f, v) => Fragment(f + " = ?", [v])
    case Contains(f, s) => Fragment(f + " LIKE ?", [Text("%" + s + "%")])
    case And(l, r) => Combine("and", Build(l), Build(r))
    case Or(l, r) => Combine("or", Build(l), Build(r))
  }

  /** No field name contains a `?` (every field name the service uses is a fixed column name). */
  predicate WellNamed(c: Criteria)
  {
    match c
    case Equals(f, _) => '?' !in f
    case Contains(f, _) => '?' !in f
    case And(l, r) => WellNamed(l) && WellNamed(r)
    case Or(l, r) => WellNamed(l) && WellNamed(r)
  }

  /** The `?` count of the fragment equals the number of bound values, at every depth. */
  lemma {:induction false} PlaceholdersMatchValues(c: Criteria)
    requires WellNamed(c)
    ensures Count(Build(c).sql, '?') == |Build(c).values|
  {
    match c
    case Equals(f, v) =>
      CountAbsent(f + " = ", '?');
      assert f + " = ?" == (f + " = ") + "?";
      CountConcat(f + " = ", "?", '?');
    case Contains(f, s) =>
      CountAbsent(f + " LIKE ", '?');
      assert f + " LIKE ?" == (f + " LIKE ") + "?";
      CountConcat(f + " LIKE ", "?", '?');
    case And(l, r) =>
      PlaceholdersMatchValues(l);
      PlaceholdersMatchValues(r);
      CombineCount("and", Build(l), Build(r));
    case Or(l, r) =>
      PlaceholdersMatchValues(l);
      PlaceholdersMatchValues(r);
      CombineCount("or", Build(l), Build(r));
  }

  lemma CombineCount(op: string, l: Fragment, r: Fragment)
    requires '?' !in op
    ensures Count(Combine(op, l, r).sql, '?') == Count(l.sql, '?') + Count(r.sql, '?')
  {
    var mid := ") " + op + " (";
    CountAbsent("((", '?');
    CountAbsent(mid, '?');
    CountAbsent("))", '?');
    assert Combine(op, l, r).sql == "((" + l.sql + mid + r.sql + "))";
    CountConcat("((", l.sql, '?');
    CountConcat("((" + l.sql, mid, '?');
    CountConcat("((" + l.sql + mid, r.sql, '?');
    CountConcat("((" + l.sql + mid + r.sql, "))", '?');
  }

  /**
   * What the engine does with a positional binding: every `?`, left to right, is replaced by the
   * literal of the next bound value.
   */
  function Substitute(sql: string, vals: seq<Value>): string
    decreases |sql|
  {
    if |sql| == 0 then ""
    else if sql[0] == '?' && |vals| > 0 then Literal(vals[0]) + Substitute(sql[1..], vals[1..])
    else [sql[0]] + Substitute(sql[1..], vals)
  }

  lemma {:induction false} SubstituteNoMarks(s: string, vals: seq<Value>)
    requires '?' !in s
    ensures Substitute(s, vals) == s
    decreases |s|
  {
    if |s| > 0 {
      assert '?' !in s[1..] by {
        assert forall ch :: ch in s[1..] ==> ch in s;
      }
      SubstituteNoMarks(s[1..], vals);
    }
  }

  lemma {:induction false} SubstituteConcat(a: string, b: string, va: seq<Value>, vb: seq<Value>)
    requires Count(a, '?') == |va|
    ensures Substitute(a + b, va + vb) == Substitute(a, va) + Substitute(b, vb)
    decreases |a|
  {
    if |a| == 0 {
      assert a + b == b && va + vb == vb;
    } else {
      assert (a + b)[0] == a[0] && (a + b)[1..] == a[1..] + b;
      if a[0] == '?' {
        assert (va + vb)[0] == va[0] && (va + vb)[1..] == va[1..] + vb;
        SubstituteConcat(a[1..], b, va[1..], vb);
      } else {
        SubstituteConcat(a[1..], b, va, vb);
      }
    }
  }

  /** The fragment with every value written in place, as if no parameters were used. */
  function Inline(c: Criteria): string
  {
    match c
    case Equals(f, v) => f + " = " + Literal(v)
    case Contains(f, s) => f + " LIKE " + Literal(Text("%" + s + "%"))
    case And(l, r) => Wrap("and", Inline(l), Inline(r))
    case Or(l, r) => Wrap("or", Inline(l), Inline(r))
  }

  lemma SubstituteLeaf(f: string, op: string, v: Value)
    requires '?' !in f && '?' !in op
    ensures Substitute(f + op + "?", [v]) == f + op + Literal(v)
    ensures f + op + "?" == f + (op + "?")
  {
    var fo := f + op;
    assert '?' !in fo by {
      assert forall ch :: ch in fo ==> ch in f || ch in op;
    }
    SubstituteFreePrefix(fo, "?", [v]);
    assert Substitute("?", [v]) == Literal(v) + Substitute("", []);
  }

  lemma {:induction false} SubstituteFreePrefix(p: string, s: string, vals: seq<Value>)
    requires '?' !in p
    ensures Substitute(p + s, vals) == p + Substitute(s, vals)
    decreases |p|
  {
    if |p| == 0 {
      assert p + s == s;
    } else {
      assert '?' !in p[1..] by {
        assert forall ch :: ch in p[1..] ==> ch in p;
      }
      assert p[0] in p;
      assert (p + s)[0] == p[0] && (p + s)[1..] == p[1..] + s;
      SubstituteFreePrefix(p[1..], s, vals);
      assert Substitute(p + s, vals) == [p[0]] + Substitute(p[1..] + s, vals);
      assert [p[0]] + (p[1..] + Substitute(s, vals)) == p + Substitute(s, vals) by {
        assert [p[0]] + p[1..] == p;
      }
    }
  }

  lemma SubstituteFreeSuffix(s: string, q: string, vals: seq<Value>)
    requires '?' !in q
    requires Count(s, '?') == |vals|
    ensures Substitute(s + q, vals) == Substitute(s, vals) + q
  {
    var empty: seq<Value> := [];
    SubstituteConcat(s, q, vals, empty);
    assert vals + empty == vals;
    SubstituteNoMarks(q, empty);
  }

  lemma SubstituteFreeMiddle(a: string, m: string, b: string, va: seq<Value>, vb: seq<Value>)
    requires '?' !in m
    requires Count(a, '?') == |va|
    ensures Substitute(a + m + b, va + vb) == Substitute(a, va) + m + Substitute(b, vb)
  {
    var mb := m + b;
    assert a + m + b == a + mb;
    SubstituteConcat(a, mb, va, vb);
    SubstituteFreePrefix(m, b, vb);
    var x, y := Substitute(a, va), Substitute(b, vb);
    assert x + (m + y) == x + m + y;
  }

  /** The bracketing of `Wrap` as three parts: the opener, the middle and the tail. */
  lemma WrapShape(op: string, a: string, b: string)
    ensures Wrap(op, a, b) == "((" + (a + (") " + op + " (") + (b + "))"))
  {
  }

  lemma SubstituteCombine(op: string, l: Fragment, r: Fragment)
    requires '?' !in op
    requires Count(l.sql, '?') == |l.values| && Count(r.sql, '?') == |r.values|
    ensures Substitute(Combine(op, l, r).sql, l.values + r.values)
         == Wrap(op, Substitute(l.sql, l.values), Substitute(r.sql, r.values))
  {
    var mid := ") " + op + " (";
    assert '?' !in mid by {
      assert forall ch :: ch in mid ==> ch == ')' || ch == ' ' || ch == '(' || ch in op;
    }
    var lv, rv := l.values, r.values;
    var tail := r.sql + "))";
    var body := l.sql + mid + tail;
    WrapShape(op, l.sql, r.sql);
    WrapShape(op, Substitute(l.sql, lv), Substitute(r.sql, rv));
    SubstituteFreePrefix("((", body, lv + rv);
    SubstituteFreeMiddle(l.sql, mid, tail, lv, rv);
    SubstituteFreeSuffix(r.sql, "))", rv);
  }

  /**
   * Binding the values to the placeholders in order yields exactly the fragment with the values
   * written in place: the value list is in the fragment's left-to-right placeholder order.
   */
  lemma {:induction false} BindingMatchesInline(c: Criteria)
    requires WellNamed(c)
    ensures Substitute(Build(c).sql, Build(c).values) == Inline(c)
  {
    match c
    case Equals(f, v) =>
      LeafMatchesInline(c);
    case Contains(f, s) =>
      LeafMatchesInline(c);
    case And(l, r) =>
      BindingMatchesInline(l);
      BindingMatchesInline(r);
      CombineMatchesInline(c);
    case Or(l, r) =>
      BindingMatchesInline(l);
      BindingMatchesInline(r);
      CombineMatchesInline(c);
  }

  lemma LeafMatchesInline(c: Criteria)
    requires c.Equals? || c.Contains?
    requires WellNamed(c)
    ensures Substitute(Build(c).sql, Build(c).values) == Inline(c)
  {
    if c.Equals? {
      SubstituteLeaf(c.field, " = ", c.val);
      assert " = " + "?" == " = ?";
    } else {
      SubstituteLeaf(c.field, " LIKE ", Text("%" + c.needle + "%"));
      assert " LIKE " + "?" == " LIKE ?";
    }
  }

  lemma CombineMatchesInline(c: Criteria)
    requires c.And? || c.Or?
    requires WellNamed(c)
    requires Substitute(Build(c.left).sql, Build(c.left).values) == Inline(c.left)
    requires Substitute(Build(c.right).sql, Build(c.right).values) == Inline(c.right)
    ensures Substitute(Build(c).sql, Build(c).values) == Inline(c)
  {
    var op := if c.And? then "and" else "or";
    var l, r := Build(c.left), Build(c.right);
    assert Build(c) == Combine(op, l, r);
    assert Inline(c) == Wrap(op, Inline(c.left), Inline(c.right));
    PlaceholdersMatchValues(c.left);
    PlaceholdersMatchValues(c.right);
    SubstituteCombine(op, l, r);
  }

  /** `And` and `Or` over the same operands bind the same values in the same order. */
  lemma AndOrBindSameValues(l: Criteria, r: Criteria)
    ensures Build(And(l, r)).values == Build(Or(l, r)).values == Build(l).values + Build(r).values
    ensures Build(And(l, r)).sql != Build(Or(l, r)).sql
  {
    var a := Build(And(l, r)).sql;
    var o := Build(Or(l, r)).sql;
    var k := |"((" + Build(l).sql + ") "|;
    assert a[k] == 'a' && o[k] == 'o';
  }

  /**
   * Whether a row satisfies the criteria when the engine runs the rendered fragment. A NULL column
   * compares as not-true; with only `and` and `or` this equals SQL's three-valued outcome.
   */
  predicate Holds(row: Row, c: Criteria)
  {
    match c
    case Equals(f, v) => f in row && row[f] == v
    case Contains(f, s) => f in row && Like.Matches(AsText(row[f]), "%" + s + "%")
    case And(l, r) => Holds(row, l) && Holds(row, r)
    case Or(l, r) => Holds(row, l) || Holds(row, r)
  }

  /** `Contains` finds every text holding the needle, when the needle has no wildcard. */
  lemma ContainsFindsSubstring(row: Row, f: string, before: string, s: string, after: string)
    requires Like.NoWildcards(s)
    requires f in row && row[f] == Text(before + s + after)
    ensures Holds(row, Contains(f, s))
  {
    Like.SubstringMatches(before, s, after);
  }

  /**
   * The needle is not escaped: `_` and `%` in it act as wildcards, so `Contains(f, "_")` holds of
   * every row whose column is a non-empty text.
   */
  lemma ContainsDoesNotEscape(row: Row, f: string)
    requires f in row && row[f].Text? && |row[f].s| > 0
    ensures Holds(row, Contains(f, "_"))
    ensures Build(Contains(f, "_")).values == [Text("%_%")]
  {
    Like.UnderscoreMatchesAnyNonEmpty(row[f].s);
    assert "%" + "_" + "%" == "%_%";
  }
}
