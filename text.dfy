/**
 * String operations the endpoints rely on: PHP's `trim`, the character
 * classes of the two regular-expression engines, the phone pattern
 * `/^[\d\s\-\+\(\)]+$/`, and `explode`/`implode` on a one-character
 * delimiter.
 */
module Text {

  /** The characters PHP's `trim()` strips by default: " \t\n\r\0\x0B". */
  predicate IsTrimChar(c: char) {
    c == ' ' || c == '\t' || c == '\n' || c == '\r' || c == '\0' || c == '\U{0B}'
  }

  /** The first position at or after `i` that does not hold a trim character, or `|s|`. */
  function SkipLeading(s: string, i: nat): (n: nat)
    requires i <= |s|
    ensures i <= n <= |s|
    ensures n < |s| ==> !IsTrimChar(s[n])
    decreases |s| - i
  {
    if i < |s| && IsTrimChar(s[i]) then SkipLeading(s, i + 1) else i
  }

  /** The end of `s[lo..j]` once its trailing trim characters are dropped. */
  function SkipTrailing(s: string, lo: nat, j: nat): (n: nat)
    requires lo <= j <= |s|
    ensures lo <= n <= j
    ensures n > lo ==> !IsTrimChar(s[n - 1])
    decreases j
  {
    if j > lo && IsTrimChar(s[j - 1]) then SkipTrailing(s, lo, j - 1) else j
  }

  /** PHP `trim($s)`: strip trim characters from both ends. */
  function Trim(s: string): (r: string)
    ensures |r| <= |s|
    ensures r != [] ==> !IsTrimChar(r[0]) && !IsTrimChar(r[|r| - 1])
  {
    var a := SkipLeading(s, 0);
    s[a..SkipTrailing(s, a, |s|)]
  }

  lemma {:induction false} SkipLeadingSkipsTrimChars(s: string, i: nat)
    requires i <= |s|
    ensures forall k :: i <= k < SkipLeading(s, i) ==> IsTrimChar(s[k])
    decreases |s| - i
  {
    if i < |s| && IsTrimChar(s[i]) {
      SkipLeadingSkipsTrimChars(s, i + 1);
    }
  }

  lemma {:induction false} SkipTrailingSkipsTrimChars(s: string, lo: nat, j: nat)
    requires lo <= j <= |s|
    ensures forall k :: SkipTrailing(s, lo, j) <= k < j ==> IsTrimChar(s[k])
    decreases j
  {
    if j > lo && IsTrimChar(s[j - 1]) {
      SkipTrailingSkipsTrimChars(s, lo, j - 1);
    }
  }

  /**
   * The trimmed string is an infix of the input, and everything cut off
   * at either end is a trim character.
   */
  lemma TrimIsInfix(s: string)
    ensures var a := SkipLeading(s, 0); var b := SkipTrailing(s, a, |s|);
      && Trim(s) == s[a..b]
      && (forall k :: 0 <= k < a ==> IsTrimChar(s[k]))
      && (forall k :: b <= k < |s| ==> IsTrimChar(s[k]))
  {
    var a := SkipLeading(s, 0);
    SkipLeadingSkipsTrimChars(s, 0);
    SkipTrailingSkipsTrimChars(s, a, |s|);
  }

  /** Trimming twice changes nothing more: a trimmed string is its own trim. */
  lemma TrimIdempotent(s: string)
    ensures Trim(Trim(s)) == Trim(s)
  {
    var t := Trim(s);
    if t != [] {
      assert SkipLeading(t, 0) == 0;
      assert SkipTrailing(t, 0, |t|) == |t|;
      assert t[0..|t|] == t;
    }
  }

  predicate IsDigit(c: char) {
    '0' <= c <= '9'
  }

  /** `\s` in PCRE without the `u` flag: space, \t, \n, \x0B, \f, \r. */
  predicate IsPcreSpace(c: char) {
    c == ' ' || c == '\t' || c == '\n' || c == '\U{0B}' || c == '\U{0C}' || c == '\r'
  }

  /** `\s` in ECMAScript: the ASCII spaces plus the Unicode white space and line terminators. */
  predicate IsJsSpace(c: char) {
    || IsPcreSpace(c)
    || c == '\U{A0}' || c == '\U{1680}'
    || ('\U{2000}' <= c <= '\U{200A}')
    || c == '\U{2028}' || c == '\U{2029}' || c == '\U{202F}' || c == '\U{205F}'
    || c == '\U{3000}' || c == '\U{FEFF}'
  }

  /** The literal characters of the phone class: `\-`, `\+`, `\(`, `\)`. */
  predicate IsPhoneSymbol(c: char) {
    c == '-' || c == '+' || c == '(' || c == ')'
  }

  /** `preg_match('/^[\d\s\-\+\(\)]+$/', s)` */
  predicate PcrePhonePattern(s: string) {
    |s| > 0 && forall k :: 0 <= k < |s| ==> IsDigit(s[k]) || IsPcreSpace(s[k]) || IsPhoneSymbol(s[k])
  }

  /** `/^[\d\s\-\+\(\)]+$/.test(s)` */
  predicate JsPhonePattern(s: string) {
    |s| > 0 && forall k :: 0 <= k < |s| ==> IsDigit(s[k]) || IsJsSpace(s[k]) || IsPhoneSymbol(s[k])
  }

  /** Every string the PHP pattern accepts, the JavaScript pattern accepts too. */
  lemma PcrePhoneIsJsPhone(s: string)
    requires PcrePhonePattern(s)
    ensures JsPhonePattern(s)
  {
  }

  function CountChar(s: string, c: char): (n: nat)
    ensures n <= |s|
    ensures n == 0 <==> forall k :: 0 <= k < |s| ==> s[k] != c
  {
    if s == [] then 0 else (if s[0] == c then 1 else 0) + CountChar(s[1..], c)
  }

  /** PHP `explode(sep, s)`: the pieces between occurrences of `sep`. */
  function Split(s: string, sep: char): (parts: seq<string>)
    ensures |parts| >= 1
    ensures forall p, k :: p in parts && 0 <= k < |p| ==> p[k] != sep
  {
    if s == [] then [[]]
    else
      var rest := Split(s[1..], sep);
      if s[0] == sep then [[]] + rest
      else
        assert forall k :: 0 < k < |[s[0]] + rest[0]| ==> ([s[0]] + rest[0])[k] == rest[0][k - 1];
        [[s[0]] + rest[0]] + rest[1..]
  }

  /** PHP `implode(sep, parts)`. */
  function Join(parts: seq<string>, sep: char): string
    requires |parts| >= 1
  {
    if |parts| == 1 then parts[0] else parts[0] + [sep] + Join(parts[1..], sep)
  }

  /** Joining the pieces with the delimiter gives back the original string. */
  lemma {:induction false} JoinSplit(s: string, sep: char)
    ensures Join(Split(s, sep), sep) == s
  {
    if s != [] {
      JoinSplit(s[1..], sep);
      var rest := Split(s[1..], sep);
      if s[0] == sep {
        assert Split(s, sep)[1..] == rest;
      } else {
        var parts := Split(s, sep);
        assert parts[1..] == rest[1..];
        if |rest| == 1 {
          assert Join(parts, sep) == [s[0]] + rest[0];
        } else {
          assert Join(rest, sep) == rest[0] + [sep] + Join(rest[1..], sep);
        }
      }
    }
  }

  /** There is one piece more than there are delimiters. */
  lemma {:induction false} SplitCount(s: string, sep: char)
    ensures |Split(s, sep)| == CountChar(s, sep) + 1
  {
    if s != [] {
      SplitCount(s[1..], sep);
    }
  }

  /** Splitting the joined pieces gives them back, when no piece holds the delimiter. */
  lemma {:induction false} SplitJoin(parts: seq<string>, sep: char)
    requires |parts| >= 1
    requires forall p, k :: p in parts && 0 <= k < |p| ==> p[k] != sep
    ensures Split(Join(parts, sep), sep) == parts
  {
    if |parts| == 1 {
      SplitOfSepFree(parts[0], sep);
    } else {
      SplitJoin(parts[1..], sep);
      SplitPrefix(parts[0], Join(parts[1..], sep), sep);
    }
  }

  lemma {:induction false} SplitOfSepFree(p: string, sep: char)
    requires forall k :: 0 <= k < |p| ==> p[k] != sep
    ensures Split(p, sep) == [p]
  {
    if p != [] {
      SplitOfSepFree(p[1..], sep);
      assert [p[0]] + p[1..] == p;
    }
  }

  lemma {:induction false} SplitPrefix(p: string, t: string, sep: char)
    requires forall k :: 0 <= k < |p| ==> p[k] != sep
    ensures Split(p + [sep] + t, sep) == [p] + Split(t, sep)
  {
    var s := p + [sep] + t;
    if p == [] {
      assert s[1..] == t;
    } else {
      assert s[1..] == p[1..] + [sep] + t;
      SplitPrefix(p[1..], t, sep);
      assert [p[0]] + p[1..] == p;
    }
  }
}
