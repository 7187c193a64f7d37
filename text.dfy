/**
 * The string operations the gym models rely on: Python's `str.strip()` (used
 * by every validator and every `create`), SQLite's built-in `lower()` (applied
 * to the stored name in the `find_by_name` queries) and Python's `str.lower()`
 * (applied to the query text).
 */
module Text {

  /** The characters Python's `str.isspace()` accepts, which is what `str.strip()` removes. */
  predicate IsSpace(c: char) {
    || c == ' '
    || '\t' <= c <= '\r'
    || '\U{1C}' <= c <= '\U{1F}'
    || c == '\U{85}'
    || c == '\U{A0}'
    || c == '\U{1680}'
    || '\U{2000}' <= c <= '\U{200A}'
    || c == '\U{2028}'
    || c == '\U{2029}'
    || c == '\U{202F}'
    || c == '\U{205F}'
    || c == '\U{3000}'
  }

  predicate AllSpace(s: string) {
    forall i :: 0 <= i < |s| ==> IsSpace(s[i])
  }

  /** Neither starts nor ends with whitespace: the form every stored name has. */
  predicate IsStripped(s: string) {
    s == [] || (!IsSpace(s[0]) && !IsSpace(s[|s| - 1]))
  }

  /** `str.lstrip()`: the result is a suffix of `s`, and what was cut off is whitespace. */
  function TrimLeft(s: string): (r: string)
    ensures |r| <= |s| && r == s[|s| - |r|..]
    ensures AllSpace(s[..|s| - |r|])
    ensures r != [] ==> !IsSpace(r[0])
  {
    if s != [] && IsSpace(s[0]) then
      var r := TrimLeft(s[1..]);
      assert s[1..][|s| - 1 - |r|..] == s[|s| - |r|..];
      r
    else
      s
  }

  /** `str.rstrip()`: the result is a prefix of `s`, and what was cut off is whitespace. */
  function TrimRight(s: string): (r: string)
    ensures |r| <= |s| && r == s[..|r|]
    ensures AllSpace(s[|r|..])
    ensures r != [] ==> !IsSpace(r[|r| - 1])
  {
    if s != [] && IsSpace(s[|s| - 1]) then
      var r := TrimRight(s[..|s| - 1]);
      assert forall i :: 0 <= i < |s| - 1 - |r| ==> s[|r|..][i] == s[..|s| - 1][|r|..][i];
      r
    else
      s
  }

  /** Python's `str.strip()` with no argument. */
  function Strip(s: string): (r: string)
    ensures |r| <= |s|
    ensures IsStripped(r)
    ensures r == [] <==> AllSpace(s)
  {
    var left := TrimLeft(s);
    var r := TrimRight(left);
    assert r == [] ==> AllSpace(s) by {
      if r == [] {
        assert left == [];
        assert s[..|s| - |left|] == s;
      }
    }
    r
  }

  /** Stripping a text that is already stripped changes nothing. */
  lemma StrippedIsFixed(s: string)
    requires IsStripped(s)
    ensures Strip(s) == s
  {
  }

  /** Whitespace put in front of a text that does not start with whitespace is removed by `lstrip`. */
  lemma {:induction false} TrimLeftPadded(p: string, x: string)
    requires AllSpace(p)
    requires x == [] || !IsSpace(x[0])
    ensures TrimLeft(p + x) == x
  {
    if p != [] {
      assert (p + x)[1..] == p[1..] + x;
      TrimLeftPadded(p[1..], x);
    } else {
      assert p + x == x;
    }
  }

  /** Whitespace put after a text that does not end with whitespace is removed by `rstrip`. */
  lemma {:induction false} TrimRightPadded(x: string, q: string)
    requires AllSpace(q)
    requires x == [] || !IsSpace(x[|x| - 1])
    ensures TrimRight(x + q) == x
  {
    if q != [] {
      assert (x + q)[..|x + q| - 1] == x + q[..|q| - 1];
      TrimRightPadded(x, q[..|q| - 1]);
    } else {
      assert x + q == x;
    }
  }

  /**
   * The round trip of padding and stripping: whatever whitespace surrounds a
   * stripped text, `strip()` gives back exactly that text.
   */
  lemma StripPadded(p: string, x: string, q: string)
    requires AllSpace(p) && AllSpace(q) && IsStripped(x)
    ensures Strip(p + x + q) == x
  {
    if x == [] {
      assert p + x + q == p + q;
      assert AllSpace(p + q) by {
        assert forall i :: 0 <= i < |p + q| ==> (p + q)[i] == if i < |p| then p[i] else q[i - |p|];
      }
    } else {
      assert p + x + q == p + (x + q);
      TrimLeftPadded(p, x + q);
      TrimRightPadded(x, q);
    }
  }

  /** Stripping twice is stripping once. */
  lemma StripIdempotent(s: string)
    ensures Strip(Strip(s)) == Strip(s)
  {
    StrippedIsFixed(Strip(s));
  }

  /** SQLite's built-in `lower()` on one character: only ASCII A-Z are folded. */
  function SqlLowerChar(c: char): char {
    if 'A' <= c <= 'Z' then (c as int + 32) as char else c
  }

  /** SQLite's built-in `lower()` (no ICU extension). */
  function SqlLower(s: string): (r: string)
    ensures |r| == |s|
    ensures forall i :: 0 <= i < |s| ==> r[i] == SqlLowerChar(s[i])
  {
    if s == [] then [] else [SqlLowerChar(s[0])] + SqlLower(s[1..])
  }

  /** A character SQLite's `lower()` leaves alone where Python's folds it: an accented Latin-1 capital. */
  predicate IsAccentedCapital(c: char) {
    '\U{C0}' <= c <= '\U{DE}' && c != '\U{D7}'
  }

  /**
   * Python's `str.lower()` on one character, for the Latin-1 range: ASCII A-Z
   * and the accented capitals U+00C0..U+00DE (except the multiplication sign
   * U+00D7) move up by 32. Other scripts are not covered.
   */
  function PyLowerChar(c: char): char {
    if 'A' <= c <= 'Z' || IsAccentedCapital(c) then (c as int + 32) as char else c
  }

  /** Python's `str.lower()`, restricted as `PyLowerChar` is. */
  function PyLower(s: string): (r: string)
    ensures |r| == |s|
    ensures forall i :: 0 <= i < |s| ==> r[i] == PyLowerChar(s[i])
  {
    if s == [] then [] else [PyLowerChar(s[0])] + PyLower(s[1..])
  }

  /** Neither fold turns a letter into whitespace or whitespace into something else. */
  lemma FoldsKeepSpaces(c: char)
    ensures IsSpace(SqlLowerChar(c)) <==> IsSpace(c)
    ensures IsSpace(PyLowerChar(c)) <==> IsSpace(c)
  {
  }

  /** Lower-casing a lower-cased text changes nothing. */
  lemma PyLowerIdempotent(s: string)
    ensures PyLower(PyLower(s)) == PyLower(s)
  {
    assert forall i :: 0 <= i < |s| ==> PyLower(PyLower(s))[i] == PyLower(s)[i];
  }

  /** Python's fold covers SQLite's: folding SQLite's lower-case form the Python way is folding the text. */
  lemma PyLowerAfterSqlLower(s: string)
    ensures PyLower(SqlLower(s)) == PyLower(s)
  {
    assert forall i :: 0 <= i < |s| ==> PyLower(SqlLower(s))[i] == PyLower(s)[i];
  }

  /** On a text without accented capitals, the two folds agree. */
  lemma FoldsAgreeWithoutAccentedCapitals(s: string)
    requires forall i :: 0 <= i < |s| ==> !IsAccentedCapital(s[i])
    ensures SqlLower(s) == PyLower(s)
  {
    assert forall i :: 0 <= i < |s| ==> SqlLower(s)[i] == PyLower(s)[i];
  }

  /**
   * Two texts with the same Python lower-case form are both stripped or both not:
   * a case variant of a stored name is itself a valid trimmed name.
   */
  lemma CaseVariantIsStripped(s: string, v: string)
    requires PyLower(v) == PyLower(s)
    requires IsStripped(s)
    ensures IsStripped(v)
  {
    if v != [] {
      assert |s| == |v|;
      FoldsKeepSpaces(s[0]);
      FoldsKeepSpaces(v[0]);
      FoldsKeepSpaces(s[|s| - 1]);
      FoldsKeepSpaces(v[|v| - 1]);
      assert PyLower(v)[0] == PyLower(s)[0];
      assert PyLower(v)[|v| - 1] == PyLower(s)[|s| - 1];
    }
  }
}
