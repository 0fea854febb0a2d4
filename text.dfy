/** The JavaScript string operations the components rely on: `trim()` (only
    ever used to ask whether a draft is blank), `toLowerCase()`, `includes()`
    and the decimal rendering of a number inside a template literal. */
module Text {

  /** The characters `String.prototype.trim` strips: ECMAScript WhiteSpace
      (tab, vertical tab, form feed, space, no-break space, byte order mark and
      the space separators) and LineTerminator (LF, CR, LS, PS). */
  predicate IsTrimmable(c: char) {
    || c == '\t' || c == '\U{000B}' || c == '\U{000C}' || c == ' '
    || c == '\U{00A0}' || c == '\U{FEFF}' || c == '\U{1680}'
    || ('\U{2000}' <= c <= '\U{200A}')
    || c == '\U{202F}' || c == '\U{205F}' || c == '\U{3000}'
    || c == '\n' || c == '\r' || c == '\U{2028}' || c == '\U{2029}'
  }

  function TrimStart(s: string): (r: string)
    ensures |r| <= |s|
    ensures r != [] ==> !IsTrimmable(r[0])
  {
    if s != [] && IsTrimmable(s[0]) then TrimStart(s[1..]) else s
  }

  function TrimEnd(s: string): (r: string)
    ensures |r| <= |s|
    ensures r != [] ==> !IsTrimmable(r[|r| - 1])
  {
    if s != [] && IsTrimmable(s[|s| - 1]) then TrimEnd(s[..|s| - 1]) else s
  }

  /** `String.prototype.trim`. */
  function Trim(s: string): string {
    TrimEnd(TrimStart(s))
  }

  /** `TrimStart` drops a run of white space from the front and nothing else. */
  lemma {:induction false} TrimStartDropsPrefix(s: string)
    ensures var r := TrimStart(s);
      r == s[|s| - |r|..] && forall i :: 0 <= i < |s| - |r| ==> IsTrimmable(s[i])
  {
    if s != [] && IsTrimmable(s[0]) {
      TrimStartDropsPrefix(s[1..]);
    }
  }

  /** `TrimEnd` drops a run of white space from the back and nothing else. */
  lemma {:induction false} TrimEndDropsSuffix(s: string)
    ensures var r := TrimEnd(s);
      r == s[..|r|] && forall i :: |r| <= i < |s| ==> IsTrimmable(s[i])
  {
    if s != [] && IsTrimmable(s[|s| - 1]) {
      TrimEndDropsSuffix(s[..|s| - 1]);
    }
  }

  /** `trim()` is the piece of `s` left after dropping the white space at both
      ends: everything dropped is white space, and the piece neither starts nor
      ends with white space. */
  lemma TrimSpec(s: string)
    ensures var r := Trim(s);
      r != [] ==> !IsTrimmable(r[0]) && !IsTrimmable(r[|r| - 1])
    ensures var r, k := Trim(s), |s| - |TrimStart(s)|;
      k + |r| <= |s| && r == s[k..k + |r|] &&
      (forall i :: 0 <= i < k ==> IsTrimmable(s[i])) && (forall i :: k + |r| <= i < |s| ==> IsTrimmable(s[i]))
  {
    var t := TrimStart(s);
    TrimStartDropsPrefix(s);
    TrimEndDropsSuffix(t);
  }

  /** The guard `!s.trim()` of the components: nothing is left after trimming. */
  predicate IsBlank(s: string) {
    Trim(s) == ""
  }

  lemma {:induction false} TrimStartEmpty(s: string)
    ensures TrimStart(s) == "" <==> forall i :: 0 <= i < |s| ==> IsTrimmable(s[i])
  {
    if s != [] && IsTrimmable(s[0]) {
      TrimStartEmpty(s[1..]);
      assert forall i :: 1 <= i < |s| ==> s[i] == s[1..][i - 1];
    }
  }

  lemma {:induction false} TrimEndOfNonBlank(s: string)
    requires s != [] && !IsTrimmable(s[0])
    ensures TrimEnd(s) != ""
    decreases |s|
  {
    if IsTrimmable(s[|s| - 1]) {
      TrimEndOfNonBlank(s[..|s| - 1]);
    }
  }

  /** A draft is blank exactly when every character of it is white space. */
  lemma BlankIffAllWhitespace(s: string)
    ensures IsBlank(s) <==> forall i :: 0 <= i < |s| ==> IsTrimmable(s[i])
  {
    TrimStartEmpty(s);
    var t := TrimStart(s);
    if t != "" {
      TrimEndOfNonBlank(t);
    }
  }

  /** The ASCII part of `String.prototype.toLowerCase` on one character. */
  function LowerChar(c: char): (d: char)
    ensures ('A' <= c <= 'Z') ==> 'a' <= d <= 'z' && d as int - c as int == 32
    ensures !('A' <= c <= 'Z') ==> d == c
  {
    if 'A' <= c <= 'Z' then (c as int + 32) as char else c
  }

  function ToLower(s: string): (r: string)
    ensures |r| == |s|
    ensures forall i :: 0 <= i < |s| ==> r[i] == LowerChar(s[i])
  {
    if s == [] then [] else [LowerChar(s[0])] + ToLower(s[1..])
  }

  /** Lower-casing twice is lower-casing once. */
  lemma ToLowerIdempotent(s: string)
    ensures ToLower(ToLower(s)) == ToLower(s)
  {
    assert forall i :: 0 <= i < |s| ==> LowerChar(LowerChar(s[i])) == LowerChar(s[i]);
  }

  /** The search inside `replace` with a one-character pattern: the first
      index holding `c`, or -1 when there is none. */
  function IndexOf(s: string, c: char): (k: int)
    ensures -1 <= k < |s|
    ensures k == -1 <==> c !in s
    ensures 0 <= k ==> s[k] == c && c !in s[..k]
  {
    if s == [] then -1
    else if s[0] == c then 0
    else
      var k := IndexOf(s[1..], c);
      if k == -1 then -1
      else
        assert s[..k + 1] == [s[0]] + s[1..][..k];
        k + 1
  }

  /** `String.prototype.replace` with a one-character string pattern. */
  function ReplaceFirst(s: string, target: char, replacement: char): (r: string)
    ensures |r| == |s|
  {
    if s == [] then []
    else if s[0] == target then [replacement] + s[1..]
    else [s[0]] + ReplaceFirst(s[1..], target, replacement)
  }

  /** Only the first occurrence of `target` is replaced; without one, nothing changes. */
  lemma {:induction false} ReplaceFirstSpec(s: string, target: char, replacement: char)
    ensures target !in s ==> ReplaceFirst(s, target, replacement) == s
    ensures target in s ==>
      var k := IndexOf(s, target);
      ReplaceFirst(s, target, replacement) == s[..k] + [replacement] + s[k + 1..]
  {
    if s != [] && s[0] != target {
      ReplaceFirstSpec(s[1..], target, replacement);
      if target in s[1..] {
        var k := IndexOf(s[1..], target);
        assert [s[0]] + s[1..][..k] == s[..k + 1];
        assert s[1..][k + 1..] == s[k + 2..];
      } else {
        assert s == [s[0]] + s[1..];
      }
    }
  }

  /** Replacing the first `target` of `a + [target] + b`, where `a` has none,
      replaces exactly that one. */
  lemma ReplaceFirstAt(a: string, b: string, target: char, replacement: char)
    requires target !in a
    ensures ReplaceFirst(a + [target] + b, target, replacement) == a + [replacement] + b
  {
    var s := a + [target] + b;
    ReplaceFirstSpec(s, target, replacement);
    assert s[|a|] == target;
    var k := IndexOf(s, target);
    assert s[..k] == a && s[k + 1..] == b;
  }

  predicate StartsWith(s: string, prefix: string) {
    |prefix| <= |s| && s[..|prefix|] == prefix
  }

  /** `String.prototype.includes`: `sub` occurs somewhere in `s`. */
  predicate Includes(s: string, sub: string)
    ensures Includes(s, sub) ==> |sub| <= |s|
    decreases |s|
  {
    StartsWith(s, sub) || (s != [] && Includes(s[1..], sub))
  }

  /** Every string includes the empty string (a JavaScript empty query matches everything). */
  lemma IncludesEmpty(s: string)
    ensures Includes(s, "")
  {
  }

  /** An occurrence of `sub` at some position means `Includes` holds. */
  lemma {:induction false} IncludesAt(s: string, sub: string, k: nat)
    requires k + |sub| <= |s| && s[k..k + |sub|] == sub
    ensures Includes(s, sub)
  {
    if k > 0 {
      assert s[1..][k - 1..k - 1 + |sub|] == s[k..k + |sub|];
      IncludesAt(s[1..], sub, k - 1);
    }
  }

  /** `Includes` holds only when `sub` occurs at some position. */
  lemma {:induction false} IncludesOccurs(s: string, sub: string)
    requires Includes(s, sub)
    ensures exists k :: 0 <= k <= |s| && StartsWith(s[k..], sub)
  {
    if StartsWith(s, sub) {
      assert s[0..] == s;
    } else {
      IncludesOccurs(s[1..], sub);
      var k :| 0 <= k <= |s[1..]| && StartsWith(s[1..][k..], sub);
      assert s[1..][k..] == s[k + 1..];
    }
  }

  /** Decimal digit `d` as a character. */
  function DigitChar(d: nat): (c: char)
    requires d < 10
    ensures '0' <= c <= '9' && c as int - '0' as int == d
  {
    ('0' as int + d) as char
  }

  predicate IsDigits(s: string) {
    forall i :: 0 <= i < |s| ==> '0' <= s[i] <= '9'
  }

  /** The decimal rendering of a natural number, as `${n}` produces it. */
  function NatToString(n: nat): (s: string)
    ensures |s| >= 1 && IsDigits(s)
    ensures n == 0 ==> s == "0"
    ensures n > 0 ==> s[0] != '0'
  {
    if n < 10 then [DigitChar(n)] else NatToString(n / 10) + [DigitChar(n % 10)]
  }

  /** Reads a run of decimal digits back as a number. */
  function ParseDigits(s: string): nat
    requires IsDigits(s)
  {
    if s == [] then 0 else ParseDigits(s[..|s| - 1]) * 10 + (s[|s| - 1] as int - '0' as int)
  }

  /** Rendering a number and reading it back gives the number. */
  lemma {:induction false} ParseNatToString(n: nat)
    ensures ParseDigits(NatToString(n)) == n
  {
    if n >= 10 {
      var s := NatToString(n);
      assert s[..|s| - 1] == NatToString(n / 10);
      ParseNatToString(n / 10);
    }
  }

  /** Distinct numbers render to distinct strings. */
  lemma NatToStringInjective(m: nat, n: nat)
    requires NatToString(m) == NatToString(n)
    ensures m == n
  {
    ParseNatToString(m);
    ParseNatToString(n);
  }
}
