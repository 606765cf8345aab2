/**
 * The string operations the storefront relies on, stated over `seq<char>`:
 * Python's `str.strip`, `lower`, `capitalize`, `startswith`, `replace` (with an
 * empty replacement), the `in` operator on strings, `", ".join`, the index of the
 * first separator for `split(sep, 1)`, decimal formatting of a natural number and
 * the text accepted by `int()`.
 * Case mapping covers ASCII letters only.
 */
module Text {
  import opened Wrappers

  /** Python's `str.isspace()` for one character: the complete set of Unicode white space. */
  predicate IsSpace(c: char) {
    || ('\t' <= c <= '\r')
    || ('\U{1C}' <= c <= '\U{1F}')
    || c == ' '
    || c == '\U{85}'
    || c == '\U{A0}'
    || c == '\U{1680}'
    || ('\U{2000}' <= c <= '\U{200A}')
    || c == '\U{2028}'
    || c == '\U{2029}'
    || c == '\U{202F}'
    || c == '\U{205F}'
    || c == '\U{3000}'
  }

  /** `s.lstrip()`: drops the leading white space and keeps the rest. */
  function StripLeft(s: string): string {
    if |s| > 0 && IsSpace(s[0]) then StripLeft(s[1..]) else s
  }

  /** `s.rstrip()`: drops the trailing white space and keeps the rest. */
  function StripRight(s: string): string {
    if |s| > 0 && IsSpace(s[|s| - 1]) then StripRight(s[..|s| - 1]) else s
  }

  /** `s.strip()`: both ends. */
  function Strip(s: string): string {
    StripRight(StripLeft(s))
  }

  /** `lstrip` keeps a suffix that does not start with white space and drops only white space. */
  lemma {:induction false} StripLeftFacts(s: string)
    ensures var r := StripLeft(s);
      && |r| <= |s| && r == s[|s| - |r|..]
      && (r == [] || !IsSpace(r[0]))
      && forall i :: 0 <= i < |s| - |r| ==> IsSpace(s[i])
    decreases |s|
  {
    if |s| > 0 && IsSpace(s[0]) {
      StripLeftFacts(s[1..]);
    }
  }

  /** `rstrip` keeps a prefix that does not end with white space and drops only white space. */
  lemma {:induction false} StripRightFacts(s: string)
    ensures var r := StripRight(s);
      && |r| <= |s| && r == s[..|r|]
      && (r == [] || !IsSpace(r[|r| - 1]))
      && forall i :: |r| <= i < |s| ==> IsSpace(s[i])
    decreases |s|
  {
    if |s| > 0 && IsSpace(s[|s| - 1]) {
      StripRightFacts(s[..|s| - 1]);
    }
  }

  /**
   * `strip` yields the longest infix of `s` that neither starts nor ends with
   * white space: empty exactly when `s` is all white space.
   */
  lemma StripFacts(s: string)
    ensures var r := Strip(s);
      && (r == [] <==> forall i :: 0 <= i < |s| ==> IsSpace(s[i]))
      && (r != [] ==> !IsSpace(r[0]) && !IsSpace(r[|r| - 1]))
      && exists a :: 0 <= a <= |s| - |r| && s[a..][..|r|] == r
  {
    var left := StripLeft(s);
    var r := StripRight(left);
    StripLeftFacts(s);
    StripRightFacts(left);
    assert s[|s| - |left|..][..|r|] == r;
    if r == [] {
      assert left == [];
    }
  }

  /** A text that neither starts nor ends with white space is its own strip. */
  lemma StripUnchanged(s: string)
    requires s != [] && !IsSpace(s[0]) && !IsSpace(s[|s| - 1])
    ensures Strip(s) == s
  {
    assert StripLeft(s) == s;
    assert StripRight(s) == s;
  }

  /** Stripping is idempotent: a cleaned value is already clean. */
  lemma StripIdempotent(s: string)
    ensures Strip(Strip(s)) == Strip(s)
  {
    var r := Strip(s);
    StripFacts(s);
    if r != [] {
      StripUnchanged(r);
    }
  }

  function LowerChar(c: char): char {
    if 'A' <= c <= 'Z' then (c as int + 32) as char else c
  }

  function UpperChar(c: char): char {
    if 'a' <= c <= 'z' then (c as int - 32) as char else c
  }

  /** `s.lower()` on ASCII letters. */
  function Lower(s: string): (r: string)
    ensures |r| == |s|
    ensures forall i :: 0 <= i < |s| ==> r[i] == LowerChar(s[i])
  {
    seq(|s|, i requires 0 <= i < |s| => LowerChar(s[i]))
  }

  /** Lower-casing moves no character into or out of white space. */
  lemma LowerCharSpace(c: char)
    ensures IsSpace(LowerChar(c)) <==> IsSpace(c)
  {
  }

  /** Lower-casing an already lower-cased text changes nothing. */
  lemma LowerIdempotent(s: string)
    ensures Lower(Lower(s)) == Lower(s)
  {
  }

  /** `s.capitalize()` on ASCII letters: first character upper case, the rest lower case. */
  function Capitalize(s: string): (r: string)
    ensures |r| == |s|
    ensures r != [] ==> r[0] == UpperChar(s[0]) && r[1..] == Lower(s[1..])
  {
    if s == [] then [] else [UpperChar(s[0])] + Lower(s[1..])
  }

  /** `s.startswith(p)`. */
  predicate StartsWith(s: string, p: string) {
    |p| <= |s| && s[..|p|] == p
  }

  /** Python's `sub in s`: some window of `s` spells `sub` (always true for an empty `sub`). */
  function Contains(s: string, sub: string): (b: bool)
    ensures b <==> exists i :: 0 <= i <= |s| - |sub| && s[i..][..|sub|] == sub
    decreases |s|
  {
    if StartsWith(s, sub) then
      assert s[0..][..|sub|] == sub;
      true
    else if |s| == 0 then
      false
    else
      var rest := Contains(s[1..], sub);
      assert forall i :: 1 <= i <= |s| ==> s[i..] == s[1..][i - 1..];
      rest
  }

  /**
   * `s.replace(pat, "")` for a non-empty `pat`: scanning left to right, every
   * non-overlapping occurrence of `pat` is dropped.
   */
  function RemoveAll(s: string, pat: string): (r: string)
    requires pat != []
    ensures |r| <= |s|
    decreases |s|
  {
    if |s| == 0 then []
    else if StartsWith(s, pat) then RemoveAll(s[|pat|..], pat)
    else [s[0]] + RemoveAll(s[1..], pat)
  }

  /** A text without any occurrence of `pat` is left as it is. */
  lemma {:induction false} RemoveAllAbsent(s: string, pat: string)
    requires pat != [] && !Contains(s, pat)
    ensures RemoveAll(s, pat) == s
    decreases |s|
  {
    if |s| > 0 {
      assert s[0..] == s;
      assert !StartsWith(s, pat);
      assert forall i :: 0 <= i < |s| ==> s[1..][i..] == s[i + 1..];
      assert !Contains(s[1..], pat);
      RemoveAllAbsent(s[1..], pat);
      assert [s[0]] + s[1..] == s;
    }
  }

  /** Removing a leading `pat` from a text whose remainder never contains it yields that remainder. */
  lemma RemoveAllPrefix(rest: string, pat: string)
    requires pat != [] && !Contains(rest, pat)
    ensures RemoveAll(pat + rest, pat) == rest
  {
    var s := pat + rest;
    assert StartsWith(s, pat);
    assert s[|pat|..] == rest;
    RemoveAllAbsent(rest, pat);
  }

  /** `sep.join(parts)`. */
  function Join(sep: string, parts: seq<string>): string
    decreases |parts|
  {
    if |parts| == 0 then ""
    else if |parts| == 1 then parts[0]
    else parts[0] + sep + Join(sep, parts[1..])
  }

  /** Joining one more part appends the separator and that part. */
  lemma {:induction false} JoinSnoc(sep: string, parts: seq<string>, last: string)
    requires parts != []
    ensures Join(sep, parts + [last]) == Join(sep, parts) + sep + last
    decreases |parts|
  {
    if |parts| == 1 {
      assert (parts + [last])[1..] == [last];
    } else {
      assert (parts + [last])[1..] == parts[1..] + [last];
      JoinSnoc(sep, parts[1..], last);
    }
  }

  /** The length of a join: every part plus one separator between each neighbouring pair. */
  function TotalLength(parts: seq<string>): nat {
    if parts == [] then 0 else |parts[0]| + TotalLength(parts[1..])
  }

  lemma {:induction false} JoinLength(sep: string, parts: seq<string>)
    requires parts != []
    ensures |Join(sep, parts)| == TotalLength(parts) + (|parts| - 1) * |sep|
    decreases |parts|
  {
    if |parts| > 1 {
      JoinLength(sep, parts[1..]);
    }
  }

  /** The index of the first `c` in `s`, if any. */
  function IndexOf(s: string, c: char): (r: Option<nat>)
    ensures r.Some? ==> r.value < |s| && s[r.value] == c && forall i :: 0 <= i < r.value ==> s[i] != c
    ensures r.None? ==> forall i :: 0 <= i < |s| ==> s[i] != c
  {
    if |s| == 0 then None
    else if s[0] == c then Some(0)
    else match IndexOf(s[1..], c)
      case Some(k) => Some(k + 1)
      case None => None
  }

  /** `s.split(c, 1)[0]`: the text before the first `c`, or all of `s` when there is none. */
  function BeforeFirst(s: string, c: char): (r: string)
    ensures IndexOf(s, c).None? ==> r == s
    ensures IndexOf(s, c).Some? ==> r == s[..IndexOf(s, c).value] && c !in r
  {
    match IndexOf(s, c)
    case Some(k) => s[..k]
    case None => s
  }

  /** `s.split(c, 1)[-1]`: the text after the first `c`, or all of `s` when there is none. */
  function AfterFirst(s: string, c: char): (r: string)
    ensures IndexOf(s, c).None? ==> r == s
    ensures IndexOf(s, c).Some? ==> s == BeforeFirst(s, c) + [c] + r
  {
    match IndexOf(s, c)
    case Some(k) => s[k + 1..]
    case None => s
  }

  predicate IsDigit(c: char) {
    '0' <= c <= '9'
  }

  function DigitChar(d: nat): (c: char)
    requires d < 10
    ensures IsDigit(c) && c as int - '0' as int == d
  {
    ('0' as int + d) as char
  }

  /** The decimal text of `n`, as `str(n)` or an f-string writes it. */
  function NatToString(n: nat): (r: string)
    ensures |r| > 0 && forall i :: 0 <= i < |r| ==> IsDigit(r[i])
  {
    if n < 10 then [DigitChar(n)] else NatToString(n / 10) + [DigitChar(n % 10)]
  }

  /** The number a string of decimal digits denotes. */
  function DigitsValue(s: string): nat
    requires forall i :: 0 <= i < |s| ==> IsDigit(s[i])
  {
    if s == [] then 0
    else DigitsValue(s[..|s| - 1]) * 10 + DigitOf(s[|s| - 1])
  }

  function DigitOf(c: char): nat
    requires IsDigit(c)
  {
    c as int - '0' as int
  }

  /** Formatting a natural number and reading the digits back gives the number. */
  lemma {:induction false} NatToStringValue(n: nat)
    ensures DigitsValue(NatToString(n)) == n
  {
    if n >= 10 {
      var s := NatToString(n);
      assert s[..|s| - 1] == NatToString(n / 10);
      NatToStringValue(n / 10);
    }
  }

  /** Distinct numbers have distinct decimal texts. */
  lemma NatToStringInjective(a: nat, b: nat)
    requires NatToString(a) == NatToString(b)
    ensures a == b
  {
    NatToStringValue(a);
    NatToStringValue(b);
  }

  /** The digits of `s` with the underscores taken out. */
  function DropUnderscores(s: string): (r: string)
    ensures (forall i :: 0 <= i < |s| ==> IsDigit(s[i]) || s[i] == '_')
            ==> (forall j :: 0 <= j < |r| ==> IsDigit(r[j]))
  {
    if s == [] then []
    else if s[0] == '_' then DropUnderscores(s[1..])
    else [s[0]] + DropUnderscores(s[1..])
  }

  /**
   * An unsigned integer literal as `int()` reads it: decimal digits, where a
   * single underscore may stand between two digits.
   */
  predicate IsDigitGroup(s: string) {
    && |s| > 0
    && IsDigit(s[0])
    && (forall i :: 0 <= i < |s| ==> IsDigit(s[i]) || s[i] == '_')
    && (forall i :: 0 <= i < |s| && s[i] == '_' ==> i + 1 < |s| && IsDigit(s[i + 1]))
  }

  /**
   * `sys.get_int_max_str_digits()` at its default: `int()` on a string refuses
   * a literal with more digits than this (underscores not counted).
   */
  const MaxStrDigits: nat := 4300

  /** The digit group is short enough for `int()`. */
  predicate WithinDigitLimit(s: string) {
    |DropUnderscores(s)| <= MaxStrDigits
  }

  function GroupValue(s: string): nat
    requires IsDigitGroup(s)
  {
    DigitsValue(DropUnderscores(s))
  }

  /**
   * Python's `int(s)` for a string: surrounding white space is ignored, then an
   * optional sign and a digit group of at most `MaxStrDigits` digits; anything
   * else is a ValueError (None).
   */
  function ParseInt(s: string): (r: Option<int>)
    ensures r.Some? ==> Strip(s) != []
  {
    var t := Strip(s);
    if |t| > 0 && (t[0] == '-' || t[0] == '+') then
      if IsDigitGroup(t[1..]) && WithinDigitLimit(t[1..]) then
        var v: int := GroupValue(t[1..]);
        Some(if t[0] == '-' then -v else v)
      else None
    else if IsDigitGroup(t) && WithinDigitLimit(t) then Some(GroupValue(t))
    else None
  }

  lemma {:induction false} DropUnderscoresOfDigits(s: string)
    requires forall i :: 0 <= i < |s| ==> IsDigit(s[i])
    ensures DropUnderscores(s) == s
  {
    if s != [] {
      DropUnderscoresOfDigits(s[1..]);
    }
  }

  /** `int(str(n)) == n` and `int("-" + str(n)) == -n`: reading back a formatted number. */
  lemma ParseNatToString(n: nat)
    requires |NatToString(n)| <= MaxStrDigits
    ensures ParseInt(NatToString(n)) == Some(n)
    ensures ParseInt("-" + NatToString(n)) == Some(-(n as int))
  {
    var s := NatToString(n);
    DigitGroupValue(s, n);
    ParseUnsigned(s, n);
    ParseNegative(s, n);
  }

  lemma ParseUnsigned(s: string, n: nat)
    requires IsDigitGroup(s) && GroupValue(s) == n && forall i :: 0 <= i < |s| ==> IsDigit(s[i])
    requires |s| <= MaxStrDigits
    ensures ParseInt(s) == Some(n)
  {
    DropUnderscoresOfDigits(s);
    StripDigits(s);
    assert s[0] != '-' && s[0] != '+';
  }

  lemma ParseNegative(s: string, n: nat)
    requires IsDigitGroup(s) && GroupValue(s) == n && forall i :: 0 <= i < |s| ==> IsDigit(s[i])
    requires |s| <= MaxStrDigits
    ensures ParseInt("-" + s) == Some(-(n as int))
  {
    DropUnderscoresOfDigits(s);
    var m := "-" + s;
    StripSigned(s);
    assert m[1..] == s;
    assert m[0] == '-';
  }

  /**
   * A run of digits longer than `MaxStrDigits` is refused, with or without a
   * sign: `int()` raises ValueError past the limit, whatever the value.
   */
  lemma ParseRefusesLongDigits(s: string)
    requires |s| > MaxStrDigits && forall i :: 0 <= i < |s| ==> IsDigit(s[i])
    ensures ParseInt(s) == None
    ensures ParseInt("-" + s) == None
  {
    DropUnderscoresOfDigits(s);
    StripDigits(s);
    assert s[0] != '-' && s[0] != '+';
    var m := "-" + s;
    StripSigned(s);
    assert m[1..] == s;
  }

  /** The decimal text of `n` is a digit group whose value is `n`. */
  lemma DigitGroupValue(s: string, n: nat)
    requires s == NatToString(n)
    ensures IsDigitGroup(s) && GroupValue(s) == n
  {
    NatToStringValue(n);
    DropUnderscoresOfDigits(s);
  }

  lemma StripDigits(s: string)
    requires s != [] && forall i :: 0 <= i < |s| ==> IsDigit(s[i])
    ensures Strip(s) == s
  {
    StripUnchanged(s);
  }

  lemma StripSigned(s: string)
    requires s != [] && forall i :: 0 <= i < |s| ==> IsDigit(s[i])
    ensures Strip("-" + s) == "-" + s
  {
    var m := "-" + s;
    assert m[|m| - 1] == s[|s| - 1];
    StripUnchanged(m);
  }
}
