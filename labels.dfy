/**
  Label sanitising: `SanitizeString` in Program.cs removes the two characters that
  would break the quoting of a Prometheus label value (double quote and backslash).
  Nothing is escaped; the characters are simply dropped.
 */
module Labels {

  /** The characters `SanitizeString` removes. */
  predicate Unsafe(ch: char) {
    ch == '"' || ch == '\\'
  }

  /**
    `s.Replace(c, "")` for a one-character search string: every occurrence of `c`
    is dropped and nothing else changes.
   */
  function Remove(s: string, c: char): (r: string)
    ensures c !in r
    ensures forall x :: x in r ==> x in s
    ensures |r| <= |s|
  {
    if s == [] then [] else (if s[0] == c then [] else [s[0]]) + Remove(s[1..], c)
  }

  /** `input.Replace("\"", "").Replace("\\", "")`. */
  function Sanitize(s: string): (r: string)
    ensures forall i :: 0 <= i < |r| ==> !Unsafe(r[i])
  {
    Remove(Remove(s, '"'), '\\')
  }

  lemma {:induction false} RemoveConcat(a: string, b: string, c: char)
    ensures Remove(a + b, c) == Remove(a, c) + Remove(b, c)
  {
    if a == [] {
      assert a + b == b;
    } else {
      assert (a + b)[0] == a[0];
      assert (a + b)[1..] == a[1..] + b;
      RemoveConcat(a[1..], b, c);
    }
  }

  lemma {:induction false} RemoveAbsent(s: string, c: char)
    requires c !in s
    ensures Remove(s, c) == s
  {
    if s != [] {
      RemoveAbsent(s[1..], c);
    }
  }

  /**
    Sanitising works character by character and keeps the order: the label of a
    concatenation is the concatenation of the labels, and one character is kept
    exactly when it is neither a double quote nor a backslash.
   */
  lemma SanitizeConcat(a: string, b: string)
    ensures Sanitize(a + b) == Sanitize(a) + Sanitize(b)
  {
    RemoveConcat(a, b, '"');
    RemoveConcat(Remove(a, '"'), Remove(b, '"'), '\\');
  }

  lemma SanitizeChar(ch: char)
    ensures Sanitize([ch]) == if Unsafe(ch) then [] else [ch]
  {
    assert [ch][1..] == [];
  }

  /** A string is its own label exactly when it holds no double quote and no backslash. */
  lemma SanitizeFixes(s: string)
    ensures Sanitize(s) == s <==> forall i :: 0 <= i < |s| ==> !Unsafe(s[i])
  {
    if forall i :: 0 <= i < |s| ==> !Unsafe(s[i]) {
      assert '"' !in s;
      RemoveAbsent(s, '"');
      assert '\\' !in s;
      RemoveAbsent(s, '\\');
    }
  }

  /** Sanitising a sanitised label changes nothing. */
  lemma SanitizeIdempotent(s: string)
    ensures Sanitize(Sanitize(s)) == Sanitize(s)
  {
    SanitizeFixes(Sanitize(s));
  }

  lemma {:induction false} RemoveCounts(s: string, c: char, x: char)
    requires x != c
    ensures multiset(Remove(s, c))[x] == multiset(s)[x]
  {
    if s != [] {
      RemoveCounts(s[1..], c, x);
      assert s == [s[0]] + s[1..];
    }
  }

  /** Every character other than `"` and `\` survives as often as it occurs. */
  lemma SanitizeKeepsSafe(s: string, x: char)
    requires !Unsafe(x)
    ensures multiset(Sanitize(s))[x] == multiset(s)[x]
  {
    RemoveCounts(s, '"', x);
    RemoveCounts(Remove(s, '"'), '\\', x);
  }
}
