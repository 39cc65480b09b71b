/**
 * The few java.lang.String operations the shell relies on: trim, ASCII case
 * mapping, prefix/suffix tests and the two forms of `split` it uses (on a single
 * literal character, and on runs of regex whitespace `\s+`).
 *
 * A Dafny `char` is a Unicode scalar value, while a Java `char` is a UTF-16
 * code unit: a character outside the Basic Multilingual Plane is one `char`
 * here and two in Java. Case mapping is restricted to ASCII, where it never
 * changes the length of a string.
 */
module JavaString {

  /** String.trim treats every character at or below U+0020 as space. */
  predicate IsTrimSpace(c: char) { c <= ' ' }

  predicate AllTrimSpace(s: string) { forall k :: 0 <= k < |s| ==> IsTrimSpace(s[k]) }

  /** Neither end of `s` can be trimmed. */
  predicate IsTrimmed(s: string) {
    s == [] || (!IsTrimSpace(s[0]) && !IsTrimSpace(s[|s| - 1]))
  }

  /** The first index at or after `i` that holds no space, or |s|. */
  function SkipSpaceFrom(s: string, i: nat): (j: nat)
    requires i <= |s|
    ensures i <= j <= |s|
    ensures forall k :: i <= k < j ==> IsTrimSpace(s[k])
    ensures j < |s| ==> !IsTrimSpace(s[j])
    decreases |s| - i
  {
    if i < |s| && IsTrimSpace(s[i]) then SkipSpaceFrom(s, i + 1) else i
  }

  /** Moving back from `j`, no further than `lo`, past the space before it. */
  function BackOverSpace(s: string, lo: nat, j: nat): (e: nat)
    requires lo <= j <= |s|
    ensures lo <= e <= j
    ensures forall k :: e <= k < j ==> IsTrimSpace(s[k])
    ensures e > lo ==> !IsTrimSpace(s[e - 1])
    decreases j
  {
    if j > lo && IsTrimSpace(s[j - 1]) then BackOverSpace(s, lo, j - 1) else j
  }

  /** `s` is all space up to `i`, then `r`, then all space. */
  predicate PaddedAt(s: string, r: string, i: int) {
    && 0 <= i && i + |r| <= |s|
    && s[i..i + |r|] == r
    && (forall k :: 0 <= k < i ==> IsTrimSpace(s[k]))
    && (forall k :: i + |r| <= k < |s| ==> IsTrimSpace(s[k]))
  }

  /**
   * String.trim: the start moves forward past space, then the end moves back
   * past space. `s` is some space, then `r`, then some space, and `r` cannot be
   * trimmed further.
   */
  function Trim(s: string): (r: string)
    ensures IsTrimmed(r)
    ensures exists i :: PaddedAt(s, r, i)
  {
    var start := SkipSpaceFrom(s, 0);
    var end := BackOverSpace(s, start, |s|);
    assert PaddedAt(s, s[start..end], start);
    s[start..end]
  }

  /** Trim undoes any padding with space, so the decomposition in Trim's contract is unique. */
  lemma TrimOfPadded(a: string, t: string, b: string)
    requires AllTrimSpace(a) && IsTrimmed(t) && AllTrimSpace(b)
    ensures Trim(a + t + b) == t
  {
    var s := a + t + b;
    if t == [] {
      assert forall k :: 0 <= k < |s| ==> IsTrimSpace(s[k]) by {
        assert s == a + b;
      }
      SkipAllSpace(s, 0);
    } else {
      SkipSpaceTo(s, 0, |a|);
      BackSpaceTo(s, |a|, |s|, |a| + |t|);
      assert s[|a|..|a| + |t|] == t;
    }
  }

  /** Skipping from `i` stops at the first non-space `n`. */
  lemma {:induction false} SkipSpaceTo(s: string, i: nat, n: nat)
    requires i <= n < |s| && !IsTrimSpace(s[n])
    requires forall k :: i <= k < n ==> IsTrimSpace(s[k])
    ensures SkipSpaceFrom(s, i) == n
    decreases n - i
  {
    if i < n { SkipSpaceTo(s, i + 1, n); }
  }

  /** Skipping over nothing but space reaches the end. */
  lemma {:induction false} SkipAllSpace(s: string, i: nat)
    requires i <= |s|
    requires forall k :: i <= k < |s| ==> IsTrimSpace(s[k])
    ensures SkipSpaceFrom(s, i) == |s|
    decreases |s| - i
  {
    if i < |s| { SkipAllSpace(s, i + 1); }
  }

  /** Moving back from `j` stops just after the last non-space, at `n`. */
  lemma {:induction false} BackSpaceTo(s: string, lo: nat, j: nat, n: nat)
    requires lo < n <= j <= |s| && !IsTrimSpace(s[n - 1])
    requires forall k :: n <= k < j ==> IsTrimSpace(s[k])
    ensures BackOverSpace(s, lo, j) == n
    decreases j
  {
    if j > n { BackSpaceTo(s, lo, j - 1, n); }
  }

  /** A string that cannot be trimmed is left alone. */
  lemma TrimTrimmed(s: string)
    requires IsTrimmed(s)
    ensures Trim(s) == s
  {
    TrimOfPadded([], s, []);
    assert [] + s + [] == s;
  }

  /** Concatenation regroups freely. */
  lemma AppendAssoc<T>(a: seq<T>, b: seq<T>, c: seq<T>)
    ensures a + (b + c) == (a + b) + c
  {
  }

  // ---- ASCII case mapping -------------------------------------------------

  function UpperChar(c: char): char {
    if 'a' <= c <= 'z' then (c as int - 32) as char else c
  }

  function LowerChar(c: char): char {
    if 'A' <= c <= 'Z' then (c as int + 32) as char else c
  }

  /** String.toUpperCase restricted to ASCII letters. */
  function ToUpper(s: string): string {
    seq(|s|, i requires 0 <= i < |s| => UpperChar(s[i]))
  }

  /** String.toLowerCase restricted to ASCII letters. */
  function ToLower(s: string): string {
    seq(|s|, i requires 0 <= i < |s| => LowerChar(s[i]))
  }

  /** String.equalsIgnoreCase restricted to ASCII letters. */
  predicate EqualsIgnoreCase(a: string, b: string) {
    ToUpper(a) == ToUpper(b)
  }

  /** Strings equal up to case are equal when lower-cased too. */
  lemma LowerAgreesWithUpper(a: string, b: string)
    requires ToUpper(a) == ToUpper(b)
    ensures ToLower(a) == ToLower(b)
  {
    forall i | 0 <= i < |a|
      ensures LowerChar(a[i]) == LowerChar(b[i])
    {
      assert UpperChar(a[i]) == ToUpper(a)[i] == ToUpper(b)[i] == UpperChar(b[i]);
    }
  }

  predicate StartsWith(s: string, prefix: string) {
    |prefix| <= |s| && s[..|prefix|] == prefix
  }

  predicate EndsWith(s: string, suffix: string) {
    |suffix| <= |s| && s[|s| - |suffix|..] == suffix
  }

  // ---- String.split on one literal character ------------------------------

  /** The pieces of `s` between occurrences of `d`, empty pieces included. */
  function Fields(s: string, d: char): (r: seq<string>)
    ensures |r| >= 1
    ensures forall i :: 0 <= i < |r| ==> d !in r[i]
    ensures Join(r, d) == s
    decreases |s|
  {
    if s == [] then [[]]
    else
      var rest := Fields(s[1..], d);
      if s[0] == d then [[]] + rest
      else [[s[0]] + rest[0]] + rest[1..]
  }

  /** The inverse of Fields: the pieces glued back together with `d`. */
  function Join(parts: seq<string>, d: char): string
    decreases |parts|
  {
    if |parts| == 0 then []
    else if |parts| == 1 then parts[0]
    else parts[0] + [d] + Join(parts[1..], d)
  }

  /** Java's split with limit 0 discards every empty string at the end of the array. */
  function DropTrailingEmpty(parts: seq<string>): (r: seq<string>)
    ensures |r| <= |parts| && r == parts[..|r|]
    ensures r == [] || r[|r| - 1] != []
    ensures forall k :: |r| <= k < |parts| ==> parts[k] == []
    decreases |parts|
  {
    if parts != [] && parts[|parts| - 1] == [] then DropTrailingEmpty(parts[..|parts| - 1])
    else parts
  }

  /**
   * String.split(String.valueOf(d)) for a character that is not special in a
   * regular expression: when `d` does not occur the answer is `[s]` itself (so
   * the empty string gives one empty piece); otherwise the pieces between
   * occurrences of `d`, without the trailing empty ones.
   */
  function Split(s: string, d: char): seq<string> {
    if d !in s then [s] else DropTrailingEmpty(Fields(s, d))
  }

  /** Fields of a piece, a separator and the rest. */
  lemma {:induction false} FieldsCons(a: string, d: char, b: string)
    requires d !in a
    ensures Fields(a + [d] + b, d) == [a] + Fields(b, d)
    decreases |a|
  {
    var s := a + [d] + b;
    if a == [] {
      assert s[1..] == b;
    } else {
      assert s[1..] == a[1..] + [d] + b;
      FieldsCons(a[1..], d, b);
      assert [a[0]] + a[1..] == a;
    }
  }

  /** A string without the separator is one field. */
  lemma {:induction false} FieldsNone(s: string, d: char)
    requires d !in s
    ensures Fields(s, d) == [s]
    decreases |s|
  {
    if s != [] {
      FieldsNone(s[1..], d);
      assert [s[0]] + s[1..] == s;
    }
  }

  /** `n` copies of `c`, as String.repeat does. */
  function Repeat(c: char, n: nat): (r: string)
    ensures |r| == n && forall k :: 0 <= k < n ==> r[k] == c
  {
    seq(n, _ => c)
  }

  /**
   * When Split yields exactly two pieces, the input was those two pieces
   * joined by `d` followed only by more copies of `d`; the second piece is
   * never empty and neither piece holds `d`.
   */
  lemma SplitTwo(s: string, d: char)
    requires |Split(s, d)| == 2
    ensures var p := Split(s, d);
      d !in p[0] && d !in p[1] && p[1] != []
      && exists k: nat :: s == p[0] + [d] + p[1] + Repeat(d, k)
  {
    var p := Split(s, d);
    if d in s {
      var f := Fields(s, d);
      assert p == f[..2];
      var k := |f| - 2;
      assert forall j :: 2 <= j < |f| ==> f[j] == [];
      JoinTrailingEmpty(f, d);
      assert s == p[0] + [d] + p[1] + Repeat(d, k);
    } else {
      assert false;
    }
  }

  /** Join of two pieces followed by empty pieces. */
  lemma {:induction false} JoinTrailingEmpty(f: seq<string>, d: char)
    requires |f| >= 2
    requires forall j :: 2 <= j < |f| ==> f[j] == []
    ensures Join(f, d) == f[0] + [d] + f[1] + Repeat(d, |f| - 2)
    decreases |f|
  {
    if |f| == 2 {
      assert Join(f[1..], d) == f[1];
    } else {
      var g := f[..|f| - 1];
      JoinTrailingEmpty(g, d);
      JoinSnoc(g, d, []);
      assert g + [f[|f| - 1]] == f;
      assert Repeat(d, |f| - 2) == Repeat(d, |f| - 3) + [d];
    }
  }

  /** Appending a piece to the end of a Join. */
  lemma {:induction false} JoinSnoc(g: seq<string>, d: char, last: string)
    requires |g| >= 1
    ensures Join(g + [last], d) == Join(g, d) + [d] + last
    decreases |g|
  {
    if |g| == 1 {
      assert (g + [last])[1..] == [last];
    } else {
      assert (g + [last])[1..] == g[1..] + [last];
      JoinSnoc(g[1..], d, last);
    }
  }

  // ---- String.split("\\s+") -----------------------------------------------

  /** The characters of the regex class `\s`: space, \t, \n, \x0B, \f, \r. */
  predicate IsRegexSpace(c: char) {
    c == ' ' || c == '\t' || c == '\n' || c == '\U{B}' || c == '\U{C}' || c == '\r'
  }

  predicate HasRegexSpace(s: string) { exists k :: 0 <= k < |s| && IsRegexSpace(s[k]) }

  /** Drops the run of `\s` characters at the front of `s`. */
  function SkipRegexSpace(s: string): (r: string)
    ensures |r| <= |s| && r == s[|s| - |r|..]
    ensures r == [] || !IsRegexSpace(r[0])
    ensures forall k :: 0 <= k < |s| - |r| ==> IsRegexSpace(s[k])
    decreases |s|
  {
    if s != [] && IsRegexSpace(s[0]) then
      var r := SkipRegexSpace(s[1..]);
      assert forall k :: 1 <= k < |s| - |r| ==> s[k] == s[1..][k - 1];
      r
    else s
  }

  /** The pieces of `s` between maximal runs of `\s`, empty pieces included. */
  function RegexSpaceFields(s: string): (r: seq<string>)
    ensures |r| >= 1
    decreases |s|
  {
    if s == [] then [[]]
    else if IsRegexSpace(s[0]) then [[]] + RegexSpaceFields(SkipRegexSpace(s))
    else
      var rest := RegexSpaceFields(s[1..]);
      [[s[0]] + rest[0]] + rest[1..]
  }

  /** String.split("\\s+"): `[s]` when no match, else the fields without trailing empty ones. */
  function SplitRegexSpace(s: string): seq<string> {
    if !HasRegexSpace(s) then [s] else DropTrailingEmpty(RegexSpaceFields(s))
  }
}
