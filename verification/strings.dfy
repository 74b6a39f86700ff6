/** Small string utilities: joining with a separator and counting a character. */
module Strings {

  /** Number of occurrences of `c` in `s`. */
  function Count(s: string, c: char): nat
  {
    if |s| == 0 then 0 else (if s[0] == c then 1 else 0) + Count(s[1..], c)
  }

  lemma {:induction false} CountConcat(a: string, b: string, c: char)
    ensures Count(a + b, c) == Count(a, c) + Count(b, c)
    decreases |a|
  {
    if |a| == 0 {
      assert a + b == b;
    } else {
      assert (a + b)[1..] == a[1..] + b;
      CountConcat(a[1..], b, c);
    }
  }

  lemma {:induction false} CountAbsent(s: string, c: char)
    requires c !in s
    ensures Count(s, c) == 0
    decreases |s|
  {
    if |s| > 0 {
      assert c !in s[1..] by {
        forall i | 0 <= i < |s[1..]| ensures s[1..][i] != c {
          assert s[1..][i] == s[i + 1];
        }
      }
      CountAbsent(s[1..], c);
    }
  }

  /** `parts.join(sep)` in Rust. */
  function Join(sep: string, parts: seq<string>): string
    decreases |parts|
  {
    if |parts| == 0 then ""
    else if |parts| == 1 then parts[0]
    else parts[0] + sep + Join(sep, parts[1..])
  }

  /** Total number of occurrences of `c` over all of `parts`. */
  function CountAll(parts: seq<string>, c: char): nat
    decreases |parts|
  {
    if |parts| == 0 then 0 else Count(parts[0], c) + CountAll(parts[1..], c)
  }

  /** Joining with a separator free of `c` adds no occurrence of `c`. */
  lemma {:induction false} CountJoin(sep: string, parts: seq<string>, c: char)
    requires c !in sep
    ensures Count(Join(sep, parts), c) == CountAll(parts, c)
    decreases |parts|
  {
    if |parts| == 1 {
    } else if |parts| > 1 {
      CountAbsent(sep, c);
      CountConcat(parts[0], sep, c);
      CountConcat(parts[0] + sep, Join(sep, parts[1..]), c);
      CountJoin(sep, parts[1..], c);
    }
  }

  /** Joining parts free of `c` with a separator free of `c` gives a text free of `c`. */
  lemma {:induction false} JoinAbsent(sep: string, parts: seq<string>, c: char)
    ensures c !in sep && (forall i :: 0 <= i < |parts| ==> c !in parts[i]) ==> c !in Join(sep, parts)
    decreases |parts|
  {
    if |parts| > 1 && c !in sep && forall i :: 0 <= i < |parts| ==> c !in parts[i] {
      JoinAbsent(sep, parts[1..], c);
      var rest := Join(sep, parts[1..]);
      assert forall ch :: ch in parts[0] + sep + rest ==> ch in parts[0] || ch in sep || ch in rest;
    }
  }

  /** Only the middle of `p + m + q` contributes occurrences of `c` when `p` and `q` have none. */
  lemma CountMiddle(p: string, m: string, q: string, c: char)
    ensures c !in p && c !in q ==> Count(p + m + q, c) == Count(m, c)
  {
    if c !in p && c !in q {
      CountAbsent(p, c);
      CountAbsent(q, c);
      CountConcat(p, m, c);
      CountConcat(p + m, q, c);
    }
  }

  /** `n` copies of `s`, as `vec![s; n]`. */
  function Repeat(s: string, n: nat): (r: seq<string>)
    ensures |r| == n
    ensures forall i :: 0 <= i < n ==> r[i] == s
  {
    seq(n, _ => s)
  }

  lemma {:induction false} CountAllRepeat(s: string, n: nat, c: char)
    ensures CountAll(Repeat(s, n), c) == n * Count(s, c)
    decreases n
  {
    if n > 0 {
      assert Repeat(s, n)[1..] == Repeat(s, n - 1);
      CountAllRepeat(s, n - 1, c);
    }
  }
}
