/** Shared vocabulary for the front-end model: optional values, the loosely typed
    values JavaScript handlers receive, and the handful of string primitives the
    components rely on (trimming, ASCII case mapping, decimal rendering, `padStart`,
    and the truncating `%` operator). */
module Common {

  datatype Option<+T> = None | Some(value: T)

  /** A JavaScript argument as the helpers see it: `undefined`/`null`, some
      non-string value (a number, an object, ...), or a string. */
  datatype Value = Absent | NonString | Text(s: string)

  /** JavaScript truthiness of a value that is either absent or a string:
      the empty string is falsy. */
  predicate Truthy(v: Value) {
    match v
    case Absent => false
    case NonString => true
    case Text(s) => s != ""
  }

  // ---------------------------------------------------------------------------
  // Characters

  /** The ECMAScript WhiteSpace and LineTerminator code points: the set removed by
      `String.prototype.trim` and matched by the regular-expression class `\s`. */
  predicate IsJsWhitespace(c: char) {
    c == '\t' || c == '\n' || c == '\U{B}' || c == '\U{C}' || c == '\r' || c == ' '
    || c == '\U{A0}' || c == '\U{1680}' || ('\U{2000}' <= c <= '\U{200A}')
    || c == '\U{2028}' || c == '\U{2029}' || c == '\U{202F}' || c == '\U{205F}'
    || c == '\U{3000}' || c == '\U{FEFF}'
  }

  predicate IsDigit(c: char) { '0' <= c <= '9' }

  predicate IsHexDigit(c: char) {
    ('0' <= c <= '9') || ('a' <= c <= 'f') || ('A' <= c <= 'F')
  }

  predicate AllDigits(s: string) {
    forall i :: 0 <= i < |s| ==> IsDigit(s[i])
  }

  predicate AllWhitespace(s: string) {
    forall i :: 0 <= i < |s| ==> IsJsWhitespace(s[i])
  }

  function LowerChar(c: char): char {
    if 'A' <= c <= 'Z' then (c as int - 'A' as int + 'a' as int) as char else c
  }

  function UpperChar(c: char): char {
    if 'a' <= c <= 'z' then (c as int - 'a' as int + 'A' as int) as char else c
  }

  /** `toLowerCase`, restricted to the ASCII letters. */
  function ToLower(s: string): (r: string)
    ensures |r| == |s|
    ensures forall i :: 0 <= i < |s| ==> r[i] == LowerChar(s[i])
  {
    seq(|s|, i requires 0 <= i < |s| => LowerChar(s[i]))
  }

  /** `toUpperCase`, restricted to the ASCII letters. */
  function ToUpper(s: string): (r: string)
    ensures |r| == |s|
    ensures forall i :: 0 <= i < |s| ==> r[i] == UpperChar(s[i])
  {
    seq(|s|, i requires 0 <= i < |s| => UpperChar(s[i]))
  }

  lemma ToLowerConcat(a: string, b: string)
    ensures ToLower(a + b) == ToLower(a) + ToLower(b)
  {
    assert forall i :: 0 <= i < |a + b| ==> ToLower(a + b)[i] == (ToLower(a) + ToLower(b))[i];
  }

  lemma ToLowerKeepsLower(s: string)
    requires forall i :: 0 <= i < |s| ==> !('A' <= s[i] <= 'Z')
    ensures ToLower(s) == s
  {
    assert forall i :: 0 <= i < |s| ==> ToLower(s)[i] == s[i];
  }

  lemma ToLowerPadded(w1: string, s: string, w2: string)
    requires AllWhitespace(w1) && AllWhitespace(w2)
    ensures ToLower(w1 + s + w2) == w1 + ToLower(s) + w2
  {
    ToLowerConcat(w1 + s, w2);
    ToLowerConcat(w1, s);
    ToLowerKeepsBlank(w1);
    ToLowerKeepsBlank(w2);
  }

  lemma ToLowerKeepsBlank(w: string)
    requires AllWhitespace(w)
    ensures ToLower(w) == w
  {
    assert forall i :: 0 <= i < |w| ==> ToLower(w)[i] == w[i];
  }

  function HexValue(c: char): (v: nat)
    requires IsHexDigit(c)
    ensures v < 16
  {
    if '0' <= c <= '9' then c as int - '0' as int
    else if 'a' <= c <= 'f' then c as int - 'a' as int + 10
    else c as int - 'A' as int + 10
  }

  // ---------------------------------------------------------------------------
  // Trimming

  /** Number of whitespace characters at the start of `s`. */
  function LeadingWhitespace(s: string): (k: nat)
    ensures k <= |s|
    ensures forall i :: 0 <= i < k ==> IsJsWhitespace(s[i])
    ensures k < |s| ==> !IsJsWhitespace(s[k])
  {
    if |s| > 0 && IsJsWhitespace(s[0]) then 1 + LeadingWhitespace(s[1..]) else 0
  }

  /** Number of whitespace characters at the end of `s`. */
  function TrailingWhitespace(s: string): (k: nat)
    ensures k <= |s|
    ensures forall i :: |s| - k <= i < |s| ==> IsJsWhitespace(s[i])
    ensures k < |s| ==> !IsJsWhitespace(s[|s| - k - 1])
  {
    if |s| > 0 && IsJsWhitespace(s[|s| - 1]) then 1 + TrailingWhitespace(s[..|s| - 1]) else 0
  }

  /** `String.prototype.trim`: the longest infix of `s` that neither starts nor
      ends with whitespace, obtained by dropping only whitespace. */
  function Trim(s: string): (r: string)
    ensures LeadingWhitespace(s) + |r| <= |s|
    ensures r == s[LeadingWhitespace(s)..LeadingWhitespace(s) + |r|]
    ensures r != [] ==> !IsJsWhitespace(r[0]) && !IsJsWhitespace(r[|r| - 1])
    ensures forall i :: 0 <= i < LeadingWhitespace(s) ==> IsJsWhitespace(s[i])
    ensures forall i :: LeadingWhitespace(s) + |r| <= i < |s| ==> IsJsWhitespace(s[i])
  {
    var rest := s[LeadingWhitespace(s)..];
    rest[..|rest| - TrailingWhitespace(rest)]
  }

  /** A string trims to the empty string exactly when it consists of whitespace. */
  lemma TrimEmptyIffBlank(s: string)
    ensures Trim(s) == [] <==> forall i :: 0 <= i < |s| ==> IsJsWhitespace(s[i])
  {
    var k := LeadingWhitespace(s);
    if Trim(s) != [] {
      assert !IsJsWhitespace(s[k]);
    }
  }

  lemma LeadingIsFirstNonBlank(u: string, k: nat)
    requires k < |u| && !IsJsWhitespace(u[k])
    requires forall i :: 0 <= i < k ==> IsJsWhitespace(u[i])
    ensures LeadingWhitespace(u) == k
  {
  }

  lemma TrailingIsLastNonBlank(u: string, k: nat)
    requires k < |u| && !IsJsWhitespace(u[|u| - k - 1])
    requires forall i :: |u| - k <= i < |u| ==> IsJsWhitespace(u[i])
    ensures TrailingWhitespace(u) == k
  {
  }

  /** Whatever way a string is split into blank padding around a core that
      neither starts nor ends with whitespace, trimming yields that core. */
  lemma TrimUnique(u: string, p: string, m: string, q: string)
    requires u == p + m + q
    requires AllWhitespace(p) && AllWhitespace(q)
    requires m == [] || (!IsJsWhitespace(m[0]) && !IsJsWhitespace(m[|m| - 1]))
    ensures Trim(u) == m
  {
    if m == [] {
      assert AllWhitespace(u) by {
        forall i | 0 <= i < |u| ensures IsJsWhitespace(u[i]) {
          if i < |p| { assert u[i] == p[i]; } else { assert u[i] == q[i - |p|]; }
        }
      }
      TrimEmptyIffBlank(u);
    } else {
      assert u[|p|] == m[0];
      LeadingIsFirstNonBlank(u, |p|);
      var rest := u[|p|..];
      assert rest == m + q;
      assert rest[|rest| - |q| - 1] == m[|m| - 1];
      TrailingIsLastNonBlank(rest, |q|);
      assert rest[..|rest| - |q|] == m;
    }
  }

  /** Every string is its trimmed core with blank padding on either side. */
  lemma TrimDecompose(t: string) returns (p: string, q: string)
    ensures t == p + Trim(t) + q
    ensures AllWhitespace(p) && AllWhitespace(q)
  {
    var m := Trim(t);
    var k := LeadingWhitespace(t);
    p, q := t[..k], t[k + |m|..];
    assert t == p + m + q;
    assert forall i :: 0 <= i < |p| ==> p[i] == t[i];
    assert forall i :: 0 <= i < |q| ==> q[i] == t[k + |m| + i];
  }

  lemma Regroup(a: string, b: string, c: string, d: string, e: string)
    ensures a + (b + c + d) + e == (a + b) + c + (d + e)
  {
  }

  /** Trimming a padded string equals trimming the string itself. */
  lemma TrimIgnoresPadding(w1: string, t: string, w2: string)
    requires AllWhitespace(w1) && AllWhitespace(w2)
    ensures Trim(w1 + t + w2) == Trim(t)
  {
    var m := Trim(t);
    var p, q := TrimDecompose(t);
    AllWhitespaceConcat(w1, p);
    AllWhitespaceConcat(q, w2);
    Regroup(w1, p, m, q, w2);
    TrimUnique(w1 + t + w2, w1 + p, m, q + w2);
  }

  // ---------------------------------------------------------------------------
  // Decimal numerals

  function DigitChar(d: nat): (c: char)
    requires d < 10
    ensures IsDigit(c)
  {
    ('0' as int + d) as char
  }

  function DigitValue(c: char): (d: nat)
    requires IsDigit(c)
    ensures d < 10
    ensures DigitChar(d) == c
  {
    c as int - '0' as int
  }

  /** `Number.prototype.toString()` for a non-negative integer: the decimal
      numeral without leading zeros. */
  function NatToDecimal(n: nat): (r: string)
    ensures |r| >= 1
    ensures AllDigits(r)
    ensures r[0] == '0' ==> n == 0
    ensures n < 10 <==> |r| == 1
    ensures n < 100 ==> |r| <= 2
  {
    if n < 10 then [DigitChar(n)] else NatToDecimal(n / 10) + [DigitChar(n % 10)]
  }

  /** `Number.prototype.toString()` for any integer: never empty, and it starts
      with a minus sign exactly for negative numbers. */
  function IntToDecimal(i: int): (r: string)
    ensures |r| >= 1 && (r[0] == '-' <==> i < 0)
    ensures i >= 0 ==> AllDigits(r)
  {
    if i < 0 then "-" + NatToDecimal(-i) else NatToDecimal(i)
  }

  /** The signed rendering reads back as the number: a digit string after a
      minus sign when it is negative, the bare digit string otherwise. */
  lemma IntToDecimalReadsBack(i: int)
    ensures i >= 0 ==> AllDigits(IntToDecimal(i)) && ParseDigits(IntToDecimal(i)) == i
    ensures var r := IntToDecimal(i);
            i < 0 ==> |r| >= 2 && r[0] == '-' && AllDigits(r[1..]) && ParseDigits(r[1..]) == -i
  {
    if i < 0 {
      ParseNatToDecimal(-i);
      assert IntToDecimal(i)[1..] == NatToDecimal(-i);
    } else {
      ParseNatToDecimal(i);
    }
  }

  /** The value of a string of decimal digits (leading zeros allowed). */
  function ParseDigits(s: string): nat
    requires AllDigits(s)
  {
    if s == [] then 0 else ParseDigits(s[..|s| - 1]) * 10 + DigitValue(s[|s| - 1])
  }

  /** Reading back a rendered numeral gives the number. */
  lemma {:induction false} ParseNatToDecimal(n: nat)
    ensures ParseDigits(NatToDecimal(n)) == n
  {
    if n >= 10 {
      var s := NatToDecimal(n);
      assert s[..|s| - 1] == NatToDecimal(n / 10);
      ParseNatToDecimal(n / 10);
    }
  }

  /** Leading zeros do not change the value of a numeral. */
  lemma {:induction false} ParseLeadingZero(s: string)
    requires AllDigits(s)
    ensures AllDigits("0" + s) && ParseDigits("0" + s) == ParseDigits(s)
  {
    var t := "0" + s;
    if s != [] {
      assert t[..|t| - 1] == "0" + s[..|s| - 1];
      ParseLeadingZero(s[..|s| - 1]);
    }
  }

  /** A string of `n` copies of `c`. */
  function Repeat(c: char, n: nat): (r: string)
    ensures |r| == n
    ensures forall i :: 0 <= i < n ==> r[i] == c
  {
    if n == 0 then [] else [c] + Repeat(c, n - 1)
  }

  /** `String.prototype.padStart(width, fill)` with a one-character fill: the
      string itself when it is already long enough, otherwise fill characters
      in front of it up to exactly `width` characters. */
  function PadStart(s: string, width: nat, fill: char): (r: string)
    ensures |r| == if |s| >= width then |s| else width
    ensures r[|r| - |s|..] == s
    ensures forall i :: 0 <= i < |r| - |s| ==> r[i] == fill
  {
    if |s| >= width then s else Repeat(fill, width - |s|) + s
  }

  /** Zero-padding a numeral keeps it a numeral of the same value. */
  lemma PadStartZeroParses(s: string, width: nat)
    requires AllDigits(s)
    ensures AllDigits(PadStart(s, width, '0'))
    ensures ParseDigits(PadStart(s, width, '0')) == ParseDigits(s)
  {
    if |s| < width {
      PadZerosParse(s, width - |s|);
    }
  }

  lemma {:induction false} PadZerosParse(s: string, k: nat)
    requires AllDigits(s)
    ensures AllDigits(Repeat('0', k) + s)
    ensures ParseDigits(Repeat('0', k) + s) == ParseDigits(s)
  {
    if k > 0 {
      PadZerosParse(s, k - 1);
      assert Repeat('0', k) == "0" + Repeat('0', k - 1);
      assert Repeat('0', k) + s == "0" + (Repeat('0', k - 1) + s);
      ParseLeadingZero(Repeat('0', k - 1) + s);
    } else {
      assert Repeat('0', k) + s == s;
    }
  }

  // ---------------------------------------------------------------------------
  // Arithmetic as JavaScript does it

  /** Truncation toward zero of a real. */
  function Trunc(x: real): (t: int)
    ensures x >= 0.0 ==> t == x.Floor
    ensures (t as real) <= x + 1.0 && x - 1.0 <= (t as real)
    ensures 0.0 <= x ==> (t as real) <= x
    ensures x <= 0.0 ==> x <= (t as real)
  {
    if x >= 0.0 then x.Floor else -((-x).Floor)
  }

  /** JavaScript's `x % 60` on numbers: the remainder takes the sign of the
      dividend (every use in the components divides by 60). */
  function JsRemainder60(a: real): (r: real)
    ensures a >= 0.0 ==> 0.0 <= r < 60.0 && a - r == 60.0 * ((a / 60.0).Floor as real)
    ensures a < 0.0 ==> -60.0 < r <= 0.0 && ((a - r) / 60.0).Floor as real == (a - r) / 60.0
  {
    a - 60.0 * (Trunc(a / 60.0) as real)
  }

  /** JavaScript's `x % 60` on integer-valued numbers. */
  function JsIntRemainder60(a: int): (r: int)
    ensures a >= 0 ==> 0 <= r < 60 && r == a % 60
    ensures a < 0 ==> -60 < r <= 0 && (a - r) % 60 == 0
  {
    if a >= 0 then a % 60 else -((-a) % 60)
  }

  // ---------------------------------------------------------------------------
  // Reading a clock string back

  /** Position of the first occurrence of `c` in `s`. */
  function IndexOf(s: string, c: char): (r: Option<nat>)
    ensures r.Some? ==> r.value < |s| && s[r.value] == c
                        && forall i :: 0 <= i < r.value ==> s[i] != c
    ensures r.None? ==> forall i :: 0 <= i < |s| ==> s[i] != c
  {
    if s == [] then None
    else if s[0] == c then Some(0)
    else match IndexOf(s[1..], c)
         case None => None
         case Some(k) => Some(k + 1)
  }

  /** Reads `"<digits>:<digits>"` as a (minutes, seconds) pair; anything else,
      such as a field with a minus sign, is rejected. This is the reader's view
      of a clock display and serves as the inverse of the clock formatters. */
  function ParseClock(t: string): (r: Option<(nat, nat)>)
    ensures r.Some? ==> exists k :: 0 < k < |t| - 1 && t[k] == ':'
  {
    match IndexOf(t, ':')
    case None => None
    case Some(k) =>
      var a, b := t[..k], t[k + 1..];
      if a != [] && b != [] && AllDigits(a) && AllDigits(b)
      then Some((ParseDigits(a), ParseDigits(b))) else None
  }

  /** The parts of `a + ":" + b`. */
  lemma ColonJoin(a: string, b: string)
    ensures var r := a + ":" + b;
            && |r| == |a| + 1 + |b| && r[|a|] == ':' && r[..|a|] == a && r[|a| + 1..] == b
  {
    var r := a + ":" + b;
    assert r[..|a|] == a;
    assert r[|a| + 1..] == b;
  }

  /** A clock display `mf:sf` with a two-digit seconds field, taken apart. */
  lemma ClockFields(mf: string, sf: string)
    requires |mf| >= 2 && |sf| == 2 && AllDigits(mf) && AllDigits(sf)
    ensures var r := mf + ":" + sf;
            && |r| >= 5 && r[|r| - 3] == ':' && r[..|r| - 3] == mf && r[|r| - 2..] == sf
            && ParseClock(r) == Some((ParseDigits(mf), ParseDigits(sf)))
  {
    ColonJoin(mf, sf);
    ParseClockJoin(mf, sf);
  }

  lemma AllWhitespaceConcat(a: string, b: string)
    requires AllWhitespace(a) && AllWhitespace(b)
    ensures AllWhitespace(a + b)
  {
    forall i | 0 <= i < |a + b| ensures IsJsWhitespace((a + b)[i]) {
      if i < |a| { assert (a + b)[i] == a[i]; } else { assert (a + b)[i] == b[i - |a|]; }
    }
  }

  /** Joining two numerals with a colon is read back as the two values. */
  lemma ParseClockJoin(a: string, b: string)
    requires a != [] && b != [] && AllDigits(a) && AllDigits(b)
    ensures ParseClock(a + ":" + b) == Some((ParseDigits(a), ParseDigits(b)))
  {
    var t := a + ":" + b;
    ColonJoin(a, b);
    assert forall i :: 0 <= i < |a| ==> t[i] == a[i];
  }
}
