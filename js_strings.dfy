/**
 * The JavaScript built-ins the islands plugins use on strings and arrays, over strings as
 * sequences of characters: `Array.prototype.join`, `startsWith`/`endsWith`, the decimal text a
 * template literal gives an array index, `parseInt` without a radix and `Array.prototype.at`.
 */
module JsStrings {
  import opened Wrappers

  predicate StartsWith(s: string, prefix: string) {
    prefix <= s
  }

  predicate EndsWith(s: string, suffix: string) {
    |suffix| <= |s| && s[|s| - |suffix|..] == suffix
  }

  /** `s` stands, unchanged, at offset `at` of `w`. */
  predicate StandsAt(w: string, at: nat, s: string) {
    at + |s| <= |w| && w[at..at + |s|] == s
  }

  /** `parts.join(sep)`. */
  function Join(parts: seq<string>, sep: string): string
  {
    if |parts| == 0 then ""
    else if |parts| == 1 then parts[0]
    else parts[0] + sep + Join(parts[1..], sep)
  }

  /** A join is empty without parts; otherwise it starts with the first part and ends with the last. */
  lemma {:induction false} JoinEnds(parts: seq<string>, sep: string)
    ensures |parts| == 0 ==> Join(parts, sep) == ""
    ensures |parts| > 0 ==> StartsWith(Join(parts, sep), parts[0]) && EndsWith(Join(parts, sep), parts[|parts| - 1])
  {
    if |parts| > 1 {
      var rest := parts[1..];
      JoinEnds(rest, sep);
      var tail := Join(rest, sep);
      assert (parts[0] + sep + tail)[|parts[0] + sep + tail| - |rest[|rest| - 1]|..] == tail[|tail| - |rest[|rest| - 1]|..];
    }
  }

  /** The position at which part `i` starts inside `Join(parts, sep)`. */
  function JoinOffset(parts: seq<string>, sep: string, i: nat): nat
    requires i < |parts|
  {
    if i == 0 then 0 else |parts[0]| + |sep| + JoinOffset(parts[1..], sep, i - 1)
  }

  /** Every part stands, unchanged, at its offset in the joined string. */
  lemma {:induction false} JoinPartAt(parts: seq<string>, sep: string, i: nat)
    requires i < |parts|
    ensures JoinOffset(parts, sep, i) + |parts[i]| <= |Join(parts, sep)|
    ensures Join(parts, sep)[JoinOffset(parts, sep, i)..JoinOffset(parts, sep, i) + |parts[i]|] == parts[i]
  {
    if i == 0 {
      if |parts| > 1 {
        assert Join(parts, sep) == parts[0] + (sep + Join(parts[1..], sep));
      }
    } else {
      JoinPartAt(parts[1..], sep, i - 1);
      var rest := Join(parts[1..], sep);
      var o := JoinOffset(parts[1..], sep, i - 1);
      var head := parts[0] + sep;
      assert Join(parts, sep) == head + rest;
      assert (head + rest)[|head| + o..|head| + o + |parts[i]|] == rest[o..o + |parts[i]|];
    }
  }

  /** A part stays whole at its shifted offset when the joined string is framed by `head` and `tail`. */
  lemma EnclosedJoinPartAt(head: string, parts: seq<string>, sep: string, tail: string, i: nat)
    requires i < |parts|
    ensures StandsAt(head + Join(parts, sep) + tail, |head| + JoinOffset(parts, sep, i), parts[i])
  {
    var joined := Join(parts, sep);
    var j := JoinOffset(parts, sep, i);
    var n := |parts[i]|;
    JoinPartAt(parts, sep, i);
    var w := head + joined + tail;
    forall k | 0 <= k < n
      ensures w[|head| + j..|head| + j + n][k] == parts[i][k]
    {
      assert w[|head| + j + k] == joined[j + k] == joined[j..j + n][k];
    }
  }

  /** Parts follow each other in order, one separator apart. */
  lemma {:induction false} JoinOffsetNext(parts: seq<string>, sep: string, i: nat)
    requires i + 1 < |parts|
    ensures JoinOffset(parts, sep, i + 1) == JoinOffset(parts, sep, i) + |parts[i]| + |sep|
  {
    if i > 0 {
      JoinOffsetNext(parts[1..], sep, i - 1);
    }
  }

  predicate IsDecimalDigit(c: char) {
    '0' <= c <= '9'
  }

  function DigitChar(d: nat): (c: char)
    requires d < 10
    ensures IsDecimalDigit(c)
  {
    ('0' as int + d) as char
  }

  /** The decimal text of a non-negative integer, as `${idx}` renders an array index. */
  function NatToString(n: nat): (s: string)
    ensures |s| > 0
    ensures forall i :: 0 <= i < |s| ==> IsDecimalDigit(s[i])
  {
    if n < 10 then [DigitChar(n)] else NatToString(n / 10) + [DigitChar(n % 10)]
  }

  /** The value of `c` as a digit of base `radix` (at most 16), if it is one. */
  function DigitIn(c: char, radix: nat): (d: Option<nat>)
    ensures d.Some? ==> d.value < radix
  {
    var v :=
      if '0' <= c <= '9' then c as int - '0' as int
      else if 'a' <= c <= 'f' then c as int - 'a' as int + 10
      else if 'A' <= c <= 'F' then c as int - 'A' as int + 10
      else -1;
    if 0 <= v < radix then Some(v) else None
  }

  /** The length of the longest prefix of `s` made of base-`radix` digits. */
  function DigitRun(s: string, radix: nat): (n: nat)
    ensures n <= |s|
  {
    if |s| == 0 || DigitIn(s[0], radix).None? then 0 else 1 + DigitRun(s[1..], radix)
  }

  /** The run is made of digits and stops at the first character that is not one. */
  lemma {:induction false} DigitRunIsLongest(s: string, radix: nat)
    ensures forall i :: 0 <= i < DigitRun(s, radix) ==> DigitIn(s[i], radix).Some?
    ensures DigitRun(s, radix) < |s| ==> DigitIn(s[DigitRun(s, radix)], radix).None?
  {
    if |s| > 0 && DigitIn(s[0], radix).Some? {
      DigitRunIsLongest(s[1..], radix);
    }
  }

  /** The value of a digit; a character that is not one counts as 0. */
  function DigitValue(c: char, radix: nat): nat {
    match DigitIn(c, radix)
    case Some(d) => d
    case None => 0
  }

  /** The base-`radix` value of `digits`, most significant first. */
  function DigitsValue(digits: string, radix: nat): int {
    if |digits| == 0 then 0
    else DigitsValue(digits[..|digits| - 1], radix) * radix + DigitValue(digits[|digits| - 1], radix)
  }

  /** The white space `parseInt` skips (space, tab, line feed, carriage return). */
  predicate IsJsWhitespace(c: char) {
    c == ' ' || c == '\t' || c == '\n' || c == '\r'
  }

  function TrimStart(s: string): (t: string)
    ensures |t| <= |s| && t == s[|s| - |t|..]
    ensures |t| > 0 ==> !IsJsWhitespace(t[0])
  {
    if |s| > 0 && IsJsWhitespace(s[0]) then TrimStart(s[1..]) else s
  }

  /** Some character of `s` is a decimal digit. */
  predicate HasDigit(s: string) {
    exists k :: 0 <= k < |s| && IsDecimalDigit(s[k])
  }

  /**
   * `parseInt(s)` with no radix: leading white space is skipped, then an optional sign, then a
   * `0x`/`0X` prefix selects base 16; the longest run of digits that follows is the value.
   * `None` stands for `NaN` (no digits at all).
   */
  function ParseInt(s: string): Option<int>
  {
    ParseSigned(TrimStart(s))
  }

  function ParseSigned(t: string): Option<int>
  {
    if |t| > 0 && t[0] == '-' then
      match ParseUnsigned(t[1..])
      case Some(v) => Some(-v)
      case None => None
    else if |t| > 0 && t[0] == '+' then ParseUnsigned(t[1..])
    else ParseUnsigned(t)
  }

  function ParseUnsigned(u: string): Option<int>
  {
    if |u| >= 2 && u[0] == '0' && (u[1] == 'x' || u[1] == 'X') then ParseDigits(u[2..], 16)
    else ParseDigits(u, 10)
  }

  function ParseDigits(body: string, radix: nat): Option<int>
  {
    var n := DigitRun(body, radix);
    if n == 0 then None else Some(DigitsValue(body[..n], radix))
  }

  lemma {:induction false} DigitsValueOfNat(n: nat)
    ensures DigitsValue(NatToString(n), 10) == n
  {
    var s := NatToString(n);
    if n >= 10 {
      DigitsValueOfNat(n / 10);
      assert s[..|s| - 1] == NatToString(n / 10);
    }
  }

  lemma {:induction false} DigitRunOfDigits(s: string)
    requires forall i :: 0 <= i < |s| ==> IsDecimalDigit(s[i])
    ensures DigitRun(s, 10) == |s|
  {
    if |s| > 0 {
      DigitRunOfDigits(s[1..]);
    }
  }

  /**
   * A number needs a digit: text in which no character is a decimal digit reads as `NaN`
   * (a hexadecimal number starts with the digit `0`).
   */
  lemma ParseIntNeedsDigit(s: string)
    requires ParseInt(s).Some?
    ensures HasDigit(s)
  {
    var t := TrimStart(s);
    var u := if |t| > 0 && (t[0] == '-' || t[0] == '+') then t[1..] else t;
    assert ParseSigned(t).Some?;
    assert ParseUnsigned(u).Some?;
    UnsignedStartsWithDigit(u);
    assert u[0] == s[|s| - |u|];
  }

  lemma UnsignedStartsWithDigit(u: string)
    requires ParseUnsigned(u).Some?
    ensures |u| > 0 && IsDecimalDigit(u[0])
  {
    if !(|u| >= 2 && u[0] == '0' && (u[1] == 'x' || u[1] == 'X')) {
      assert ParseDigits(u, 10).Some?;
      assert DigitRun(u, 10) > 0;
    }
  }

  /** Reading back the decimal text of an index gives the index: the two halves of `${idx}`. */
  lemma ParseIntOfNatToString(n: nat)
    ensures ParseInt(NatToString(n)) == Some(n)
  {
    var s := NatToString(n);
    DigitsParse(s);
    DigitsValueOfNat(n);
    assert s[..|s|] == s;
  }

  lemma DigitsParse(s: string)
    requires |s| > 0 && forall i :: 0 <= i < |s| ==> IsDecimalDigit(s[i])
    ensures ParseInt(s) == Some(DigitsValue(s, 10))
  {
    DigitRunOfDigits(s);
    ParseIntOfDecimal(s);
    ParseDigitsOfRun(s, 10);
  }

  /** Text made only of digits reads as its whole value. */
  lemma ParseDigitsOfRun(body: string, radix: nat)
    requires 0 < DigitRun(body, radix) == |body|
    ensures ParseDigits(body, radix) == Some(DigitsValue(body, radix))
  {
    assert body[..|body|] == body;
  }

  /** Text that starts with a decimal digit other than a `0x` prefix is read in base 10 as it stands. */
  lemma ParseIntOfDecimal(s: string)
    requires |s| > 0 && IsDecimalDigit(s[0]) && (|s| >= 2 ==> IsDecimalDigit(s[1]))
    ensures ParseInt(s) == ParseDigits(s, 10)
  {
    assert !IsJsWhitespace(s[0]);
    assert TrimStart(s) == s;
    assert s[0] != '-' && s[0] != '+';
    assert !(|s| >= 2 && s[0] == '0' && (s[1] == 'x' || s[1] == 'X'));
  }

  /**
   * `xs.at(index)`: a negative index counts from the end, `NaN` (`None`) reads as 0, and an
   * index outside the array gives `undefined` (`None`).
   */
  function At<T>(xs: seq<T>, index: Option<int>): (r: Option<T>)
    ensures index.Some? && 0 <= index.value < |xs| ==> r == Some(xs[index.value])
    ensures index.Some? && -|xs| <= index.value < 0 ==> r == Some(xs[|xs| + index.value])
    ensures index.Some? && (index.value >= |xs| || index.value < -|xs|) ==> r.None?
  {
    var relative := if index.Some? then index.value else 0;
    var k := if relative >= 0 then relative else |xs| + relative;
    if 0 <= k < |xs| then Some(xs[k]) else None
  }
}
