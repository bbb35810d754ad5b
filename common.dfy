/** Shared vocabulary of the client model: optional values, JavaScript string
    truthiness, ASCII lower-casing, `String.prototype.trim`, `split` on one
    character, and decimal rendering of a natural number. */
module Common {

  datatype Option<T> = None | Some(value: T)

  /** The kinds and visibilities a post can have. */
  datatype PostType = CORE | ARCHITECTURE | TROUBLESHOOTING | ESSAY
  datatype PostStatus = PUBLIC | PRIVATE

  /** JavaScript truthiness of a `string | null | undefined`: present and non-empty. */
  predicate Truthy(s: Option<string>)
  {
    s.Some? && s.value != ""
  }

  /** The string value of `s || fallback`. */
  function OrElse(s: Option<string>, fallback: string): (r: string)
    ensures Truthy(s) ==> r == s.value
    ensures !Truthy(s) ==> r == fallback
  {
    if Truthy(s) then s.value else fallback
  }

  predicate StartsWith(s: string, prefix: string)
  {
    |prefix| <= |s| && s[..|prefix|] == prefix
  }

  predicate EndsWith(s: string, suffix: string)
  {
    |suffix| <= |s| && s[|s| - |suffix|..] == suffix
  }

  // ---------------------------------------------------------------------------
  // Lower-casing: `toLowerCase` restricted to ASCII A-Z.

  function LowerChar(c: char): (r: char)
    ensures 'A' <= c <= 'Z' ==> 'a' <= r <= 'z' && r as int == c as int + 32
    ensures !('A' <= c <= 'Z') ==> r == c
  {
    if 'A' <= c <= 'Z' then (c as int + 32) as char else c
  }

  function ToLower(s: string): (r: string)
    ensures |r| == |s|
    ensures forall i :: 0 <= i < |s| ==> r[i] == LowerChar(s[i])
  {
    if s == [] then [] else [LowerChar(s[0])] + ToLower(s[1..])
  }

  // ---------------------------------------------------------------------------
  // `String.prototype.trim`: ECMAScript WhiteSpace and LineTerminator code points.

  predicate IsJsWhitespace(c: char)
  {
    // WhiteSpace: TAB, VT, FF, SP, NBSP, ZWNBSP and the space separators (Zs)
    || c == '\t' || c == '\U{000B}' || c == '\U{000C}' || c == ' ' || c == '\U{00A0}'
    || c == '\U{FEFF}' || c == '\U{1680}' || ('\U{2000}' <= c <= '\U{200A}')
    || c == '\U{202F}' || c == '\U{205F}' || c == '\U{3000}'
    // LineTerminator: LF, CR, LS, PS
    || c == '\n' || c == '\r' || c == '\U{2028}' || c == '\U{2029}'
  }

  /** No white space at either end. */
  predicate Trimmed(s: string)
  {
    s == [] || (!IsJsWhitespace(s[0]) && !IsJsWhitespace(s[|s| - 1]))
  }

  /** Index of the first character of `s` at or after `k` that is not white space (or `|s|`). */
  function SkipBlanks(s: string, k: nat): (j: nat)
    requires k <= |s|
    ensures k <= j <= |s|
    ensures forall i :: k <= i < j ==> IsJsWhitespace(s[i])
    ensures j == |s| || !IsJsWhitespace(s[j])
    decreases |s| - k
  {
    if k < |s| && IsJsWhitespace(s[k]) then SkipBlanks(s, k + 1) else k
  }

  /** Index just past the last character of `s[k..e]` that is not white space (or `k`). */
  function SkipBlanksBack(s: string, k: nat, e: nat): (j: nat)
    requires k <= e <= |s|
    ensures k <= j <= e
    ensures forall i :: j <= i < e ==> IsJsWhitespace(s[i])
    ensures j == k || !IsJsWhitespace(s[j - 1])
  {
    if k < e && IsJsWhitespace(s[e - 1]) then SkipBlanksBack(s, k, e - 1) else e
  }

  function TrimStartIndex(s: string): nat
  {
    SkipBlanks(s, 0)
  }

  function TrimEndIndex(s: string): nat
  {
    SkipBlanksBack(s, TrimStartIndex(s), |s|)
  }

  /** `s.trim()`: the slice of `s` between its leading and its trailing white space. */
  function Trim(s: string): (r: string)
    ensures Trimmed(r)
    ensures TrimStartIndex(s) <= TrimEndIndex(s) <= |s|
    ensures r == s[TrimStartIndex(s)..TrimEndIndex(s)]
    ensures forall i :: 0 <= i < TrimStartIndex(s) ==> IsJsWhitespace(s[i])
    ensures forall i :: TrimEndIndex(s) <= i < |s| ==> IsJsWhitespace(s[i])
  {
    var k := TrimStartIndex(s);
    var e := TrimEndIndex(s);
    var r := s[k..e];
    assert r != [] ==> r[0] == s[k] && r[|r| - 1] == s[e - 1];
    r
  }

  /** Trimming leaves a string without white space at its ends unchanged, so trimming is idempotent. */
  lemma TrimOfTrimmed(s: string)
    requires Trimmed(s)
    ensures Trim(s) == s
  {
    assert TrimStartIndex(s) == 0;
    assert TrimEndIndex(s) == |s|;
  }

  /** A string trims to empty exactly when it is made of white space only. */
  lemma TrimEmptyIffBlank(s: string)
    ensures Trim(s) == [] <==> forall i :: 0 <= i < |s| ==> IsJsWhitespace(s[i])
  {
  }

  // ---------------------------------------------------------------------------
  // `s.split(d)` for a one-character separator, and its inverse `parts.join(d)`.

  function Join(parts: seq<string>, d: char): string
    requires |parts| >= 1
  {
    if |parts| == 1 then parts[0] else parts[0] + [d] + Join(parts[1..], d)
  }

  /** The separated pieces of `s`, in order; JavaScript yields `[""]` for the empty string. */
  function Split(s: string, d: char): (r: seq<string>)
    ensures |r| >= 1
    ensures forall k :: 0 <= k < |r| ==> d !in r[k]
    ensures Join(r, d) == s
    ensures |r| == CountChar(s, d) + 1
  {
    if s == [] then [""]
    else
      var rest := Split(s[1..], d);
      if s[0] == d then
        [""] + rest
      else
        assert s == [s[0]] + s[1..];
        var r := [[s[0]] + rest[0]] + rest[1..];
        assert r[1..] == rest[1..];
        r
  }

  function CountChar(s: string, d: char): nat
  {
    if s == [] then 0 else (if s[0] == d then 1 else 0) + CountChar(s[1..], d)
  }

  /** Pieces that do not contain the separator come back unchanged from a split of their join. */
  lemma {:induction false} SplitJoin(parts: seq<string>, d: char)
    requires |parts| >= 1
    requires forall k :: 0 <= k < |parts| ==> d !in parts[k]
    ensures Split(Join(parts, d), d) == parts
  {
    if |parts| == 1 {
      SplitNoSeparator(parts[0], d);
    } else {
      SplitJoin(parts[1..], d);
      SplitPrefix(parts[0], Join(parts[1..], d), d);
    }
  }

  lemma {:induction false} SplitNoSeparator(s: string, d: char)
    requires d !in s
    ensures Split(s, d) == [s]
  {
    if s != [] {
      SplitNoSeparator(s[1..], d);
    }
  }

  lemma {:induction false} SplitPrefix(p: string, t: string, d: char)
    requires d !in p
    ensures Split(p + [d] + t, d) == [p] + Split(t, d)
  {
    if p == [] {
      assert p + [d] + t == [d] + t;
      assert ([d] + t)[1..] == t;
    } else {
      assert (p + [d] + t)[1..] == p[1..] + [d] + t;
      SplitPrefix(p[1..], t, d);
      assert [p[0]] + p[1..] == p;
    }
  }

  // ---------------------------------------------------------------------------
  // Decimal rendering of a natural number, as a template literal prints it.

  function DigitChar(d: nat): (c: char)
    requires d < 10
    ensures '0' <= c <= '9'
  {
    ['0', '1', '2', '3', '4', '5', '6', '7', '8', '9'][d]
  }

  function NatToString(n: nat): (r: string)
    ensures |r| >= 1
    ensures forall i :: 0 <= i < |r| ==> '0' <= r[i] <= '9'
    ensures n > 0 ==> r[0] != '0'
  {
    if n < 10 then [DigitChar(n)] else NatToString(n / 10) + [DigitChar(n % 10)]
  }

  function DigitValue(c: char): nat
    requires '0' <= c <= '9'
  {
    c as int - '0' as int
  }

  /** The number a string of decimal digits denotes. */
  function ParseDecimal(s: string): nat
    requires forall i :: 0 <= i < |s| ==> '0' <= s[i] <= '9'
  {
    if s == [] then 0 else 10 * ParseDecimal(s[..|s| - 1]) + DigitValue(s[|s| - 1])
  }

  /** Reading back a rendered number gives the number: the rendering loses nothing. */
  lemma {:induction false} ParseNatToString(n: nat)
    ensures ParseDecimal(NatToString(n)) == n
  {
    var r := NatToString(n);
    if n < 10 {
      assert r[..0] == [];
    } else {
      ParseNatToString(n / 10);
      assert r[..|r| - 1] == NatToString(n / 10);
    }
  }

  /** Different numbers render differently. */
  lemma NatToStringInjective(m: nat, n: nat)
    requires NatToString(m) == NatToString(n)
    ensures m == n
  {
    ParseNatToString(m);
    ParseNatToString(n);
  }
}
