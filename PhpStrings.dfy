/**
 * The PHP string built-ins the scanner relies on, over `string` (= seq<char>):
 * `strtolower`, `str_starts_with`, `strstr`, `str_replace` and the `(string)`
 * cast of an integer.
 */
module PhpStrings {
  import opened Wrappers

  predicate IsUpper(c: char) { 'A' <= c <= 'Z' }

  /** `strtolower` on one character: ASCII only, as in PHP 8 (locale-insensitive). */
  function LowerChar(c: char): (d: char)
    ensures !IsUpper(d)
    ensures IsUpper(c) ==> d as int == c as int + 32
    ensures !IsUpper(c) ==> d == c
  {
    if IsUpper(c) then (c as int + 32) as char else c
  }

  /** `strtolower`: every character mapped by LowerChar, nothing added or removed. */
  function ToLower(s: string): (r: string)
    ensures |r| == |s|
    ensures forall i :: 0 <= i < |s| ==> r[i] == LowerChar(s[i])
  {
    if s == [] then [] else [LowerChar(s[0])] + ToLower(s[1..])
  }

  predicate NoUpper(s: string) {
    forall i :: 0 <= i < |s| ==> !IsUpper(s[i])
  }

  /** Lower-casing leaves no upper-case letter and is idempotent. */
  lemma ToLowerIdempotent(s: string)
    ensures NoUpper(ToLower(s))
    ensures ToLower(ToLower(s)) == ToLower(s)
  {
  }

  /** `str_starts_with`. */
  predicate StartsWith(s: string, prefix: string) {
    |prefix| <= |s| && s[..|prefix|] == prefix
  }

  /** Two prefixes that differ at a position both cover cannot both start `s`. */
  lemma PrefixesExclude(s: string, p: string, q: string, k: nat)
    requires StartsWith(s, p)
    requires k < |p| && k < |q| && p[k] != q[k]
    ensures !StartsWith(s, q)
  {
    assert s[k] == s[..|p|][k];
  }

  predicate IsSuffix(r: string, s: string) {
    |r| <= |s| && s[|s| - |r|..] == r
  }

  /**
   * `strstr($haystack, $needle)`: the part of the haystack from the first
   * occurrence of the needle on, or None where PHP returns `false`.
   */
  function Strstr(haystack: string, needle: string): (r: Option<string>)
    ensures r.Some? ==> IsSuffix(r.value, haystack) && StartsWith(r.value, needle)
    ensures r.Some? ==> forall k :: 0 <= k < |haystack| - |r.value| ==> !StartsWith(haystack[k..], needle)
    ensures r.None? <==> forall k :: 0 <= k <= |haystack| ==> !StartsWith(haystack[k..], needle)
    decreases |haystack|
  {
    if |haystack| < |needle| then
      assert forall k :: 0 <= k <= |haystack| ==> |haystack[k..]| < |needle|;
      None
    else if StartsWith(haystack, needle) then
      assert haystack[0..] == haystack;
      Some(haystack)
    else
      var rest := Strstr(haystack[1..], needle);
      assert forall k :: 1 <= k <= |haystack| ==> haystack[k..] == haystack[1..][k - 1..];
      assert haystack[0..] == haystack;
      rest
  }

  /**
   * `str_replace($search, $replace, $subject)` for one search string: every
   * leftmost, non-overlapping occurrence replaced, the replacement never
   * re-scanned. An empty search string leaves the subject as it is.
   */
  function ReplaceAll(subject: string, search: string, replace: string): string
    decreases |subject|
  {
    if search == [] || |subject| < |search| then subject
    else if StartsWith(subject, search) then replace + ReplaceAll(subject[|search|..], search, replace)
    else [subject[0]] + ReplaceAll(subject[1..], search, replace)
  }

  /**
   * `str_replace` with arrays: the pairs are applied one after the other, each
   * to the result of the previous one.
   */
  function StrReplace(pairs: seq<(string, string)>, subject: string): string
    decreases |pairs|
  {
    if pairs == [] then subject
    else StrReplace(pairs[1..], ReplaceAll(subject, pairs[0].0, pairs[0].1))
  }

  /** Three replacement pairs are applied one after the other. */
  lemma StrReplaceThree(p: (string, string), q: (string, string), r: (string, string), subject: string)
    ensures StrReplace([p, q, r], subject)
         == ReplaceAll(ReplaceAll(ReplaceAll(subject, p.0, p.1), q.0, q.1), r.0, r.1)
  {
    var s1 := ReplaceAll(subject, p.0, p.1);
    var s2 := ReplaceAll(s1, q.0, q.1);
    assert [p, q, r][1..] == [q, r];
    assert StrReplace([p, q, r], subject) == StrReplace([q, r], s1);
    assert [q, r][1..] == [r];
    assert StrReplace([q, r], s1) == StrReplace([r], s2);
    assert [r][1..] == [];
  }

  /** A text without the search string's first character passes through untouched. */
  lemma {:induction false} ReplaceAllSkips(a: string, b: string, search: string, replace: string)
    requires search != [] && search[0] !in a
    ensures ReplaceAll(a + b, search, replace) == a + ReplaceAll(b, search, replace)
    decreases |a|
  {
    if a != [] {
      var s := a + b;
      if |s| >= |search| {
        assert s[..|search|][0] == a[0];
        assert !StartsWith(s, search);
      }
      assert s[1..] == a[1..] + b;
      ReplaceAllSkips(a[1..], b, search, replace);
      assert a == [a[0]] + a[1..];
      if |s| < |search| {
        assert ReplaceAll(b, search, replace) == b;
      }
    } else {
      assert a + b == b;
    }
  }

  /** A subject missing some character of the search string is left unchanged. */
  lemma {:induction false} ReplaceAllAbsent(s: string, search: string, replace: string, c: char)
    requires c in search && c !in s
    ensures ReplaceAll(s, search, replace) == s
    decreases |s|
  {
    if |s| >= |search| {
      assert !StartsWith(s, search) by {
        var k :| 0 <= k < |search| && search[k] == c;
        assert s[..|search|][k] == s[k];
      }
      ReplaceAllAbsent(s[1..], search, replace, c);
      assert s == [s[0]] + s[1..];
    }
  }

  /**
   * A `%`-delimited word other than the searched one: a subject of the form
   * `%w%…` does not start with `%core%` when w differs from core and neither
   * holds a `%`.
   */
  lemma DelimitedMismatch(w: string, y: string, core: string)
    requires '%' !in w && '%' !in core && w != core
    ensures !StartsWith("%" + w + "%" + y, "%" + core + "%")
  {
    var search := "%" + core + "%";
    var s := "%" + w + "%" + y;
    if |s| >= |search| {
      if |w| < |core| {
        assert s[|w| + 1] == '%';
        assert search[|w| + 1] == core[|w|];
        assert s[..|search|][|w| + 1] == s[|w| + 1];
      } else if |w| > |core| {
        assert s[|core| + 1] == w[|core|];
        assert search[|core| + 1] == '%';
        assert s[..|search|][|core| + 1] == s[|core| + 1];
      } else {
        var k :| 0 <= k < |w| && w[k] != core[k];
        assert s[k + 1] == w[k] && search[k + 1] == core[k];
        assert s[..|search|][k + 1] == s[k + 1];
      }
    }
  }

  /** A subject that does not start with the search string keeps its first character. */
  lemma ReplaceAllHead(s: string, search: string, replace: string)
    requires search != [] && s != [] && !StartsWith(s, search)
    ensures ReplaceAll(s, search, replace) == [s[0]] + ReplaceAll(s[1..], search, replace)
  {
    if |s| < |search| {
      assert ReplaceAll(s[1..], search, replace) == s[1..];
      assert s == [s[0]] + s[1..];
    }
  }

  /** The leading `%` of such a subject passes through the replacement. */
  lemma DelimitedLead(w: string, y: string, core: string, replace: string)
    requires '%' !in w && '%' !in core && w != core
    ensures ReplaceAll("%" + w + "%" + y, "%" + core + "%", replace)
         == "%" + ReplaceAll(w + ("%" + y), "%" + core + "%", replace)
  {
    var search := "%" + core + "%";
    var s := "%" + w + "%" + y;
    DelimitedMismatch(w, y, core);
    ReplaceAllHead(s, search, replace);
    assert s[0] == '%' && s[1..] == w + ("%" + y);
  }

  /** So the leading `%` and w pass through the replacement untouched. */
  lemma DelimitedSkips(w: string, y: string, core: string, replace: string)
    requires '%' !in w && '%' !in core && w != core
    ensures ReplaceAll("%" + w + "%" + y, "%" + core + "%", replace)
         == "%" + w + ReplaceAll("%" + y, "%" + core + "%", replace)
  {
    var search := "%" + core + "%";
    DelimitedLead(w, y, core, replace);
    ReplaceAllSkips(w, "%" + y, search, replace);
    assert "%" + (w + ReplaceAll("%" + y, search, replace)) == "%" + w + ReplaceAll("%" + y, search, replace);
  }

  /** The decimal digit character of 0 <= d < 10. */
  function DigitChar(d: nat): (c: char)
    requires d < 10
    ensures '0' <= c <= '9'
  {
    (d + '0' as int) as char
  }

  /** The `(string)` cast of a non-negative integer: its decimal digits, no leading zero. */
  function NatToString(n: nat): (s: string)
    ensures |s| > 0 && (s[0] == '0' ==> n == 0)
    ensures forall i :: 0 <= i < |s| ==> '0' <= s[i] <= '9'
  {
    if n < 10 then [DigitChar(n)] else NatToString(n / 10) + [DigitChar(n % 10)]
  }

  /** The `(string)` cast of an integer: a minus sign before the digits when negative. */
  function IntToString(n: int): (s: string)
    ensures n >= 0 ==> IsDecimal(s) && DecimalValue(s) == n && (s[0] == '0' ==> n == 0)
    ensures n < 0 ==> |s| > 1 && s[0] == '-' && s[1] != '0' && IsDecimal(s[1..]) && DecimalValue(s[1..]) == -n
  {
    NatToStringRoundTrip(if n < 0 then -n else n);
    if n < 0 then "-" + NatToString(-n) else NatToString(n)
  }

  /** A non-empty string of decimal digits. */
  predicate IsDecimal(s: string) {
    |s| > 0 && forall i :: 0 <= i < |s| ==> '0' <= s[i] <= '9'
  }

  /** The value of a string of decimal digits. */
  function DecimalValue(s: string): nat
    requires forall i :: 0 <= i < |s| ==> '0' <= s[i] <= '9'
  {
    if s == [] then 0 else 10 * DecimalValue(s[..|s| - 1]) + (s[|s| - 1] as int - '0' as int)
  }

  /** Reading the digits back gives the number: the cast loses nothing. */
  lemma {:induction false} NatToStringRoundTrip(n: nat)
    ensures DecimalValue(NatToString(n)) == n
  {
    if n >= 10 {
      NatToStringRoundTrip(n / 10);
      var s := NatToString(n);
      assert s[..|s| - 1] == NatToString(n / 10);
    }
  }
}
