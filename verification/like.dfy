/**
 * SQLite's `LIKE` operator without an ESCAPE clause: `%` matches any run of characters, `_` matches
 * exactly one, and letters compare case-insensitively in the ASCII range only.
 */
module Like {

  function Fold(c: char): char
  {
    if 'A' <= c <= 'Z' then (c as int + 32) as char else c
  }

  predicate Matches(text: string, pattern: string)
    decreases |text| + |pattern|
  {
    if |pattern| == 0 then |text| == 0
    else if pattern[0] == '%' then
      Matches(text, pattern[1..]) || (|text| > 0 && Matches(text[1..], pattern))
    else
      |text| > 0 && (pattern[0] == '_' || Fold(text[0]) == Fold(pattern[0]))
      && Matches(text[1..], pattern[1..])
  }

  predicate NoWildcards(s: string)
  {
    '%' !in s && '_' !in s
  }

  lemma {:induction false} PercentMatchesAnything(text: string)
    ensures Matches(text, "%")
    decreases |text|
  {
    assert "%"[1..] == "";
    if |text| > 0 {
      PercentMatchesAnything(text[1..]);
    }
  }

  /** A leading `%` can swallow any prefix. */
  lemma {:induction false} PercentSkipsPrefix(prefix: string, text: string, pattern: string)
    requires Matches(text, pattern)
    ensures Matches(prefix + text, "%" + pattern)
    decreases |prefix|
  {
    assert ("%" + pattern)[1..] == pattern;
    if |prefix| == 0 {
      assert prefix + text == text;
    } else {
      PercentSkipsPrefix(prefix[1..], text, pattern);
      assert (prefix + text)[1..] == prefix[1..] + text;
    }
  }

  /** A wildcard-free prefix of the pattern matches itself. */
  lemma {:induction false} LiteralPrefix(lit: string, text: string, pattern: string)
    requires NoWildcards(lit)
    requires Matches(text, pattern)
    ensures Matches(lit + text, lit + pattern)
    decreases |lit|
  {
    if |lit| == 0 {
      assert lit + text == text && lit + pattern == pattern;
    } else {
      assert lit[0] in lit;
      assert NoWildcards(lit[1..]) by {
        forall i | 0 <= i < |lit[1..]| ensures lit[1..][i] == lit[i + 1] { }
        assert forall c :: c in lit[1..] ==> c in lit;
      }
      LiteralPrefix(lit[1..], text, pattern);
      assert (lit + text)[1..] == lit[1..] + text;
      assert (lit + pattern)[1..] == lit[1..] + pattern;
    }
  }

  /** `%s%` matches every text that contains `s` literally, when `s` holds no wildcard. */
  lemma SubstringMatches(before: string, s: string, after: string)
    requires NoWildcards(s)
    ensures Matches(before + s + after, "%" + s + "%")
  {
    PercentMatchesAnything(after);
    LiteralPrefix(s, after, "%");
    PercentSkipsPrefix(before, s + after, s + "%");
    assert before + (s + after) == before + s + after;
    assert "%" + (s + "%") == "%" + s + "%";
  }

  /** `%_%` matches every non-empty text. */
  lemma UnderscoreMatchesAnyNonEmpty(text: string)
    requires |text| > 0
    ensures Matches(text, "%_%")
  {
    PercentMatchesAnything(text[1..]);
    assert "_%"[1..] == "%";
    assert Matches(text, "_%");
    assert "%_%"[1..] == "_%";
  }
}
