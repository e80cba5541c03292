/**
 * String and number helpers with the meaning JavaScript gives them on the
 * inputs the site uses: decimal digit strings, `Number(...)` of such a string,
 * `n.toString()` of an integer, `padStart(2, '0')`, `startsWith`, `includes`,
 * `indexOf` and an ASCII `toLowerCase`.
 */
module Text {
  import opened Wrappers

  predicate IsDigit(c: char) {
    '0' <= c <= '9'
  }

  predicate AllDigits(s: string) {
    forall i :: 0 <= i < |s| ==> IsDigit(s[i])
  }

  function DigitValue(c: char): (d: nat)
    requires IsDigit(c)
    ensures d < 10
  {
    (c as int) - ('0' as int)
  }

  function DigitChar(d: nat): (c: char)
    requires d < 10
    ensures IsDigit(c) && DigitValue(c) == d
  {
    (('0' as int) + d) as char
  }

  /** `Number(s)` for a string of decimal digits (the empty string is 0). */
  function ParseNat(s: string): nat
    requires AllDigits(s)
  {
    if s == [] then 0 else 10 * ParseNat(s[..|s| - 1]) + DigitValue(s[|s| - 1])
  }

  /** `Number` of a two-digit string. */
  lemma ParseTwoDigits(s: string)
    requires |s| == 2 && AllDigits(s)
    ensures ParseNat(s) == 10 * DigitValue(s[0]) + DigitValue(s[1])
  {
    var h := s[..1];
    assert h[..0] == [] && h[0] == s[0];
    assert ParseNat(h) == DigitValue(s[0]);
  }

  /** `n.toString()` for a non-negative integer: canonical decimal, no leading zero. */
  function NatToString(n: nat): (r: string)
    ensures |r| >= 1 && AllDigits(r)
    ensures |r| > 1 ==> r[0] != '0'
    ensures n < 10 <==> |r| == 1
  {
    if n < 10 then [DigitChar(n)] else NatToString(n / 10) + [DigitChar(n % 10)]
  }

  /** `i.toString()` for any integer. */
  function IntToString(i: int): (r: string)
    ensures i >= 0 ==> r == NatToString(i)
    ensures i < 0 ==> r == "-" + NatToString(-i)
  {
    if i < 0 then "-" + NatToString(-i) else NatToString(i)
  }

  /** Reading back what `NatToString` wrote gives the number: the decimal form is faithful. */
  lemma {:induction false} ParseNatToString(n: nat)
    ensures ParseNat(NatToString(n)) == n
  {
    if n >= 10 {
      var s := NatToString(n);
      assert s[..|s| - 1] == NatToString(n / 10);
      ParseNatToString(n / 10);
    }
  }

  lemma NatToStringInjective(m: nat, n: nat)
    ensures NatToString(m) == NatToString(n) ==> m == n
  {
    ParseNatToString(m);
    ParseNatToString(n);
  }

  /** A leading zero does not change the value `Number` reads. */
  lemma {:induction false} ParseNatLeadingZero(s: string)
    requires AllDigits(s)
    ensures AllDigits("0" + s) && ParseNat("0" + s) == ParseNat(s)
  {
    var z := "0" + s;
    assert AllDigits(z) by {
      forall i | 0 <= i < |z| ensures IsDigit(z[i]) {
        if i > 0 { assert z[i] == s[i - 1]; }
      }
    }
    if s != [] {
      assert z[..|z| - 1] == "0" + s[..|s| - 1];
      ParseNatLeadingZero(s[..|s| - 1]);
    }
  }

  /** `s.padStart(2, '0')`: never truncates. */
  function PadStart2(s: string): (r: string)
    ensures |r| == if |s| >= 2 then |s| else 2
    ensures r[|r| - |s|..] == s
    ensures forall i :: 0 <= i < |r| - |s| ==> r[i] == '0'
  {
    if |s| >= 2 then s else if |s| == 1 then "0" + s else "00"
  }

  /** `s.startsWith(prefix)`. */
  predicate StartsWith(s: string, prefix: string) {
    |prefix| <= |s| && s[..|prefix|] == prefix
  }

  /** `s.endsWith(suffix)`. */
  predicate EndsWith(s: string, suffix: string) {
    |suffix| <= |s| && s[|s| - |suffix|..] == suffix
  }

  /** `r` reads `a`, then the separator `sep`, then `b`, and nothing else. */
  predicate Joined<T(==)>(r: seq<T>, a: seq<T>, sep: seq<T>, b: seq<T>) {
    && |r| == |a| + |sep| + |b|
    && r[..|a|] == a && r[|a|..|a| + |sep|] == sep && r[|a| + |sep|..] == b
  }

  /** A concatenation splits back into its three parts. */
  lemma JoinedConcat<T>(a: seq<T>, sep: seq<T>, b: seq<T>)
    ensures Joined(a + sep + b, a, sep, b)
  {
    var r := a + sep + b;
    assert r[..|a|] == a;
    assert r[|a|..|a| + |sep|] == sep;
    assert r[|a| + |sep|..] == b;
  }

  /** The en dash, with a space on either side, that stands between two values: two times of a day, or a rating and a status. */
  const EnDash: string := " \U{2013} "

  /** `s.includes(sub)`. */
  predicate Contains(s: string, sub: string)
    decreases |s|
  {
    StartsWith(s, sub) || (|s| > 0 && Contains(s[1..], sub))
  }

  function LowerChar(c: char): char {
    if 'A' <= c <= 'Z' then ((c as int) + 32) as char else c
  }

  /** `s.toLowerCase()` on the ASCII letters. */
  function ToLower(s: string): (r: string)
    ensures |r| == |s|
    ensures forall i :: 0 <= i < |s| ==> r[i] == LowerChar(s[i])
  {
    if s == [] then [] else [LowerChar(s[0])] + ToLower(s[1..])
  }

  /** `xs.indexOf(x)`: the first position holding `x`, or -1. */
  function IndexOf<T(==)>(xs: seq<T>, x: T): (r: int)
    ensures -1 <= r < |xs|
    ensures r >= 0 ==> xs[r] == x
  {
    if xs == [] then -1
    else if xs[0] == x then 0
    else
      var k := IndexOf(xs[1..], x);
      if k == -1 then -1 else k + 1
  }

  /** `indexOf` finds the first occurrence, and reports -1 exactly when there is none. */
  lemma {:induction false} IndexOfIsFirst<T>(xs: seq<T>, x: T)
    ensures IndexOf(xs, x) == -1 <==> x !in xs
    ensures forall j :: 0 <= j < IndexOf(xs, x) ==> xs[j] != x
  {
    if xs != [] && xs[0] != x {
      IndexOfIsFirst(xs[1..], x);
      assert x in xs <==> x in xs[1..] by {
        assert xs == [xs[0]] + xs[1..];
      }
      forall j | 0 <= j < IndexOf(xs, x) ensures xs[j] != x {
        if j > 0 {
          assert xs[j] == xs[1..][j - 1];
        }
      }
    }
  }

  /** A character that `a` lacks is first found right after `a`. */
  lemma {:induction false} IndexOfAfterPrefix(a: string, b: string, c: char)
    requires c !in a
    ensures IndexOf(a + [c] + b, c) == |a|
  {
    var s := a + [c] + b;
    if a == [] {
      assert s[0] == c;
    } else {
      assert a[0] in a;
      assert s[0] == a[0] && s[1..] == a[1..] + [c] + b;
      assert forall x :: x in a[1..] ==> x in a;
      IndexOfAfterPrefix(a[1..], b, c);
    }
  }

  /** `s` has no upper-case ASCII letter. */
  predicate NoUpper(s: string) {
    forall i :: 0 <= i < |s| ==> !('A' <= s[i] <= 'Z')
  }

  lemma NoUpperConcat(a: string, b: string)
    requires NoUpper(a) && NoUpper(b)
    ensures NoUpper(a + b)
  {
    forall i | 0 <= i < |a + b| ensures !('A' <= (a + b)[i] <= 'Z') {
      if i >= |a| { assert (a + b)[i] == b[i - |a|]; }
    }
  }

  /** The decimal form of an integer has only digits and a minus sign. */
  lemma IntToStringNoUpper(i: int)
    ensures NoUpper(IntToString(i))
  {
    var d := NatToString(if i < 0 then -i else i);
    assert NoUpper(d) by {
      forall k | 0 <= k < |d| ensures !('A' <= d[k] <= 'Z') {
        assert IsDigit(d[k]);
      }
    }
    if i < 0 {
      NoUpperConcat("-", d);
    }
  }

  lemma ToLowerNoUpper(s: string)
    requires NoUpper(s)
    ensures ToLower(s) == s
  {
  }

  /** An occurrence at any position makes `includes` true. */
  lemma {:induction false} ContainsAt(s: string, i: nat, sub: string)
    requires i + |sub| <= |s| && s[i..i + |sub|] == sub
    ensures Contains(s, sub)
  {
    if i > 0 {
      assert s[1..][i - 1..i - 1 + |sub|] == s[i..i + |sub|];
      ContainsAt(s[1..], i - 1, sub);
    }
  }

  /** Without the first character of `sub` anywhere in `s`, `s.includes(sub)` is false. */
  lemma {:induction false} ContainsNeedsFirstChar(s: string, sub: string)
    requires |sub| > 0 && forall i :: 0 <= i < |s| ==> s[i] != sub[0]
    ensures !Contains(s, sub)
  {
    if s != [] {
      assert !StartsWith(s, sub) by {
        if |sub| <= |s| {
          assert s[..|sub|][0] == s[0];
        }
      }
      ContainsNeedsFirstChar(s[1..], sub);
    }
  }

  /** `s.replace(/\D/g, '')`: the decimal digits of `s`, in order. */
  function KeepDigits(s: string): (r: string)
    ensures |r| <= |s|
  {
    if s == [] then []
    else (if IsDigit(s[0]) then [s[0]] else []) + KeepDigits(s[1..])
  }

  /** What `KeepDigits` keeps is digits. */
  lemma {:induction false} KeepDigitsDigits(s: string)
    ensures AllDigits(KeepDigits(s))
  {
    if s != [] {
      KeepDigitsDigits(s[1..]);
    }
  }

  /** A digit string passes `KeepDigits` whole. */
  lemma {:induction false} KeepAllDigits(s: string)
    requires AllDigits(s)
    ensures KeepDigits(s) == s
  {
    if s != [] {
      assert AllDigits(s[1..]) && IsDigit(s[0]);
      KeepAllDigits(s[1..]);
      assert s == [s[0]] + s[1..];
    }
  }

  /** `Number(s.replace(/\D/g, ''))`: the number the digits of `s` spell (0 when there are none). */
  function DigitsValue(s: string): nat {
    KeepDigitsDigits(s);
    ParseNat(KeepDigits(s))
  }

  /** Removing the non-digits distributes over concatenation. */
  lemma {:induction false} KeepDigitsConcat(a: string, b: string)
    ensures KeepDigits(a + b) == KeepDigits(a) + KeepDigits(b)
  {
    if a != [] {
      var h := if IsDigit(a[0]) then [a[0]] else [];
      assert (a + b)[0] == a[0] && (a + b)[1..] == a[1..] + b;
      KeepDigitsConcat(a[1..], b);
      calc {
        KeepDigits(a + b);
        h + KeepDigits(a[1..] + b);
        h + (KeepDigits(a[1..]) + KeepDigits(b));
        (h + KeepDigits(a[1..])) + KeepDigits(b);
        KeepDigits(a) + KeepDigits(b);
      }
    } else {
      assert a + b == b;
    }
  }

  /** A white-space or line-terminator character, as `parseInt` skips them. */
  predicate IsJsSpace(c: char) {
    || c == '\U{0009}' || c == '\U{000A}' || c == '\U{000B}' || c == '\U{000C}' || c == '\U{000D}'
    || c == ' ' || c == '\U{00A0}' || c == '\U{1680}' || ('\U{2000}' <= c <= '\U{200A}')
    || c == '\U{2028}' || c == '\U{2029}' || c == '\U{202F}' || c == '\U{205F}' || c == '\U{3000}'
    || c == '\U{FEFF}'
  }

  /** `s` without its leading white space. */
  function SkipSpace(s: string): (r: string)
    ensures |r| <= |s| && r == s[|s| - |r|..]
    ensures r != [] ==> !IsJsSpace(r[0])
  {
    if s != [] && IsJsSpace(s[0]) then SkipSpace(s[1..]) else s
  }

  /** Everything `SkipSpace` drops is white space. */
  lemma {:induction false} SkipSpaceDropsSpaces(s: string)
    ensures forall i :: 0 <= i < |s| - |SkipSpace(s)| ==> IsJsSpace(s[i])
  {
    if s != [] && IsJsSpace(s[0]) {
      SkipSpaceDropsSpaces(s[1..]);
      forall i | 1 <= i < |s| - |SkipSpace(s)| ensures IsJsSpace(s[i]) {
        assert s[i] == s[1..][i - 1];
      }
    }
  }

  predicate IsHexDigit(c: char) {
    IsDigit(c) || 'a' <= c <= 'f' || 'A' <= c <= 'F'
  }

  function HexValue(c: char): (d: nat)
    requires IsHexDigit(c)
    ensures d < 16
    ensures IsDigit(c) ==> d == DigitValue(c)
  {
    if IsDigit(c) then DigitValue(c)
    else if 'a' <= c <= 'f' then (c as int) - ('a' as int) + 10
    else (c as int) - ('A' as int) + 10
  }

  predicate IsRadixDigit(c: char, hex: bool) {
    if hex then IsHexDigit(c) else IsDigit(c)
  }

  /** The length of the longest prefix of `s` made of decimal (or hexadecimal) digits. */
  function DigitRun(s: string, hex: bool): (k: nat)
    ensures k <= |s|
    ensures forall i :: 0 <= i < k ==> IsRadixDigit(s[i], hex)
    ensures k < |s| ==> !IsRadixDigit(s[k], hex)
  {
    if s != [] && IsRadixDigit(s[0], hex) then 1 + DigitRun(s[1..], hex) else 0
  }

  /** The value of a string of hexadecimal digits. */
  function ParseHex(s: string): nat
    requires forall i :: 0 <= i < |s| ==> IsHexDigit(s[i])
  {
    if s == [] then 0 else 16 * ParseHex(s[..|s| - 1]) + HexValue(s[|s| - 1])
  }

  /**
   * The unsigned part of `parseInt`: a "0x" or "0X" prefix selects base 16,
   * and the longest run of digits that follows is the number; without one
   * digit the result is NaN, here `None`.
   */
  function ParseUnsigned(u: string): (r: Option<nat>)
    ensures (forall i :: 0 <= i < |u| ==> !IsDigit(u[i])) ==> r.None?
  {
    var hex := |u| >= 2 && u[0] == '0' && (u[1] == 'x' || u[1] == 'X');
    var v := if hex then u[2..] else u;
    var k := DigitRun(v, hex);
    if k == 0 then None
    else
      assert !hex ==> IsDigit(u[0]);
      Some(if hex then ParseHex(v[..k]) else ParseNat(v[..k]))
  }

  /** `parseInt(s)` without a radix: leading white space is skipped and one sign is read. */
  function ParseInt(s: string): (r: Option<int>)
    ensures SkipSpace(s) == [] ==> r.None?
  {
    var t := SkipSpace(s);
    if t != [] && (t[0] == '-' || t[0] == '+') then
      match ParseUnsigned(t[1..])
      case None => None
      case Some(n) => var m: int := n; Some(if t[0] == '-' then -m else m)
    else
      match ParseUnsigned(t)
      case None => None
      case Some(n) => var m: int := n; Some(m)
  }

  /** A string without a single decimal digit is NaN to `parseInt`. */
  lemma NoDigitIsNaN(s: string)
    requires forall i :: 0 <= i < |s| ==> !IsDigit(s[i])
    ensures ParseInt(s).None?
  {
    var t := SkipSpace(s);
    var k := |s| - |t|;
    forall i | 0 <= i < |t| ensures !IsDigit(t[i]) {
      assert t[i] == s[k + i];
    }
    if t != [] {
      var t' := t[1..];
      forall i | 0 <= i < |t'| ensures !IsDigit(t'[i]) {
        assert t'[i] == t[i + 1];
      }
    }
  }

  /** The digit run of digits followed by a non-digit is exactly those digits. */
  lemma {:induction false} DigitRunOf(a: string, b: string)
    requires AllDigits(a) && (b == [] || !IsDigit(b[0]))
    ensures DigitRun(a + b, false) == |a|
  {
    if a != [] {
      assert (a + b)[0] == a[0] && (a + b)[1..] == a[1..] + b;
      DigitRunOf(a[1..], b);
    }
  }

  /** `parseInt` of the decimal form of `n`, followed by a non-digit that is no `x` after a lone zero. */
  lemma ParseUnsignedOf(n: nat, rest: string)
    requires rest == [] || (!IsDigit(rest[0]) && rest[0] != 'x' && rest[0] != 'X')
    ensures ParseUnsigned(NatToString(n) + rest) == Some(n)
  {
    var d := NatToString(n);
    var u := d + rest;
    assert !(|u| >= 2 && u[0] == '0' && (u[1] == 'x' || u[1] == 'X')) by {
      if |d| == 1 && rest != [] { assert u[1] == rest[0]; }
      if |d| > 1 { assert u[0] == d[0] && u[1] == d[1]; }
    }
    DigitRunOf(d, rest);
    assert u[..|d|] == d;
    ParseNatToString(n);
  }

  /** After a minus sign, `parseInt` negates the unsigned number. */
  lemma ParseIntNegated(u: string, n: nat)
    requires ParseUnsigned(u) == Some(n)
    ensures ParseInt("-" + u) == Some(-(n as int))
  {
    var w := "-" + u;
    assert w[0] == '-' && w[1..] == u;
    assert SkipSpace(w) == w;
  }

  /** Starting with a digit, `parseInt` is the unsigned number. */
  lemma ParseIntUnsigned(u: string, n: nat)
    requires u != [] && IsDigit(u[0]) && ParseUnsigned(u) == Some(n)
    ensures ParseInt(u) == Some(n)
  {
    assert !IsJsSpace(u[0]);
    assert SkipSpace(u) == u;
    assert u[0] != '-' && u[0] != '+';
  }

  /** `parseInt` reads back what `toString` wrote, whatever non-digit follows. */
  lemma ParseIntToString(i: int, rest: string)
    requires rest == [] || (!IsDigit(rest[0]) && rest[0] != 'x' && rest[0] != 'X')
    ensures ParseInt(IntToString(i) + rest) == Some(i)
  {
    var n: nat := if i < 0 then -i else i;
    var d := NatToString(n);
    var u := d + rest;
    ParseUnsignedOf(n, rest);
    if i < 0 {
      assert IntToString(i) + rest == "-" + u;
      ParseIntNegated(u, n);
    } else {
      assert IntToString(i) + rest == u;
      assert u[0] == d[0];
      ParseIntUnsigned(u, n);
    }
  }

  /** The template-literal text `${v}` of an optional string: `undefined` prints as "undefined". */
  function Show(v: Option<string>): (r: string)
    ensures v.Some? ==> r == v.value
    ensures v.None? ==> r == "undefined"
  {
    match v
    case Some(s) => s
    case None => "undefined"
  }

  /** The template-literal text `${v}` of an optional integer. */
  function ShowInt(v: Option<int>): (r: string)
    ensures v.Some? ==> r == IntToString(v.value)
    ensures v.None? ==> r == "undefined"
  {
    match v
    case Some(i) => IntToString(i)
    case None => "undefined"
  }

  /** JavaScript truthiness of an optional string: defined and not empty. */
  predicate Truthy(v: Option<string>) {
    v.Some? && v.value != ""
  }

  /** `v || fallback` for an optional string. */
  function OrElse(v: Option<string>, fallback: string): (r: string)
    ensures Truthy(v) ==> r == v.value
    ensures !Truthy(v) ==> r == fallback
  {
    if Truthy(v) then v.value else fallback
  }
}
