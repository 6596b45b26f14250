/** The text helpers of the source: ASCII lower-casing, hexadecimal words, decimal printing. */
module Text {

  const MINUS: char := '-'

  function LowerChar(c: char): char {
    if 'A' <= c <= 'Z' then c - 'A' + 'a' else c
  }

  /** Lower-cases the ASCII letters of `s`. */
  function Lower(s: string): (r: string)
    ensures |r| == |s|
    ensures forall i :: 0 <= i < |s| ==> r[i] == LowerChar(s[i])
  {
    seq(|s|, i requires 0 <= i < |s| => LowerChar(s[i]))
  }

  function LowerAll(ss: seq<string>): (r: seq<string>)
    ensures |r| == |ss|
    ensures forall i :: 0 <= i < |ss| ==> r[i] == Lower(ss[i])
  {
    seq(|ss|, i requires 0 <= i < |ss| => Lower(ss[i]))
  }

  predicate IsLower(s: string) {
    forall i :: 0 <= i < |s| ==> !('A' <= s[i] <= 'Z')
  }

  lemma LowerIsLower(s: string)
    ensures IsLower(Lower(s))
    ensures Lower(Lower(s)) == Lower(s)
    ensures IsLower(s) <==> Lower(s) == s
  {
    if Lower(s) == s {
      forall i | 0 <= i < |s| ensures !('A' <= s[i] <= 'Z') {
        assert Lower(s)[i] == s[i];
      }
    }
  }

  /** Non-empty printable text that fits its column. */
  predicate IsText(s: string, maximum: nat) {
    s != "" && |s| <= maximum && forall i :: 0 <= i < |s| ==> s[i] as int >= 32
  }

  predicate HasPrefix0x(s: string) {
    |s| >= 2 && s[0] == '0' && s[1] == 'x'
  }

  // ---------- hexadecimal ----------

  predicate IsHexChar(c: char) {
    '0' <= c <= '9' || 'a' <= c <= 'f' || 'A' <= c <= 'F'
  }

  predicate IsHex(s: string) {
    forall i :: 0 <= i < |s| ==> IsHexChar(s[i])
  }

  function HexDigit(d: nat): char
    requires d < 16
  {
    if d < 10 then '0' + d as char else 'a' + (d - 10) as char
  }

  function HexDigitValue(c: char): (d: nat)
    requires IsHexChar(c)
    ensures d < 16
    ensures HexDigit(d) == LowerChar(c)
  {
    if c <= '9' then (c - '0') as nat
    else if 'a' <= c then (c - 'a') as nat + 10
    else (c - 'A') as nat + 10
  }

  lemma HexDigitRoundTrip(d: nat)
    requires d < 16
    ensures IsHexChar(HexDigit(d))
    ensures !('A' <= HexDigit(d) <= 'Z')
    ensures HexDigitValue(HexDigit(d)) == d
  {
  }

  function Pow16(w: nat): (r: nat)
    ensures r > 0
  {
    if w == 0 then 1 else 16 * Pow16(w - 1)
  }

  /** The number a hexadecimal text stands for, as `int(text, 16)` reads it. */
  function HexValue(s: string): (n: nat)
    requires IsHex(s)
    ensures n < Pow16(|s|)
  {
    if s == "" then 0
    else 16 * HexValue(s[..|s| - 1]) + HexDigitValue(s[|s| - 1])
  }

  /** The lower-case hexadecimal digits of `n`, left-padded with zeros to `w` characters. */
  function HexPad(n: nat, w: nat): (s: string)
    ensures |s| == w
  {
    if w == 0 then "" else HexPad(n / 16, w - 1) + [HexDigit(n % 16)]
  }

  lemma {:induction false} HexPadIsHex(n: nat, w: nat)
    ensures IsHex(HexPad(n, w))
    ensures IsLower(HexPad(n, w))
  {
    if w > 0 {
      HexPadIsHex(n / 16, w - 1);
      HexDigitRoundTrip(n % 16);
    }
  }

  lemma {:induction false} HexValueOfPad(n: nat, w: nat)
    requires n < Pow16(w)
    ensures IsHex(HexPad(n, w)) && HexValue(HexPad(n, w)) == n
  {
    HexPadIsHex(n, w);
    if w > 0 {
      assert HexPad(n, w)[..w - 1] == HexPad(n / 16, w - 1);
      HexValueOfPad(n / 16, w - 1);
      HexDigitRoundTrip(n % 16);
    }
  }

  lemma {:induction false} HexPadOfValue(s: string)
    requires IsHex(s)
    ensures HexPad(HexValue(s), |s|) == Lower(s)
  {
    if s != "" {
      var front := s[..|s| - 1];
      HexPadOfValue(front);
      assert HexValue(s) / 16 == HexValue(front);
      assert Lower(s) == Lower(front) + [LowerChar(s[|s| - 1])];
    }
  }

  /** Reading ignores letter case. */
  lemma HexValueOfLower(s: string)
    requires IsHex(s)
    ensures IsHex(Lower(s)) && HexValue(Lower(s)) == HexValue(s)
  {
    HexPadOfValue(s);
    HexValueOfPad(HexValue(s), |s|);
  }

  function Zeros(w: nat): (s: string)
    ensures |s| == w && forall i :: 0 <= i < w ==> s[i] == '0'
  {
    seq(w, _ => '0')
  }

  /** A number that needs at most `v` digits is padded with zeros on the left. */
  lemma {:induction false} HexPadWider(n: nat, v: nat, w: nat)
    requires v <= w && n < Pow16(v)
    ensures HexPad(n, w) == Zeros(w - v) + HexPad(n, v)
    decreases w
  {
    if w == 0 {
    } else if v == 0 {
      HexPadWider(0, 0, w - 1);
      assert Zeros(w) == Zeros(w - 1) + "0";
    } else {
      HexPadWider(n / 16, v - 1, w - 1);
    }
  }

  lemma {:induction false} Pow16Monotone(v: nat, w: nat)
    requires v <= w
    ensures Pow16(v) <= Pow16(w)
  {
    if v < w { Pow16Monotone(v, w - 1); }
  }

  // ---------- decimal ----------

  predicate IsDigit(c: char) { '0' <= c <= '9' }

  function DecimalDigit(d: nat): char
    requires d < 10
  {
    '0' + d as char
  }

  /** `str(n)` for a non-negative integer. */
  function Decimal(n: nat): (s: string)
    ensures s != ""
    ensures forall i :: 0 <= i < |s| ==> IsDigit(s[i])
  {
    if n < 10 then [DecimalDigit(n)] else Decimal(n / 10) + [DecimalDigit(n % 10)]
  }

  function DecimalValue(s: string): nat
    requires forall i :: 0 <= i < |s| ==> IsDigit(s[i])
  {
    if s == "" then 0
    else
      assert IsDigit(s[|s| - 1]);
      10 * DecimalValue(s[..|s| - 1]) + (s[|s| - 1] - '0') as nat
  }

  lemma {:induction false} DecimalRoundTrip(n: nat)
    ensures DecimalValue(Decimal(n)) == n
  {
    if n < 10 {
      assert Decimal(n)[..0] == "";
    } else {
      DecimalRoundTrip(n / 10);
      assert Decimal(n)[..|Decimal(n)| - 1] == Decimal(n / 10);
    }
  }

  lemma DecimalInjective(m: nat, n: nat)
    requires Decimal(m) == Decimal(n)
    ensures m == n
  {
    DecimalRoundTrip(m);
    DecimalRoundTrip(n);
  }

  /** `str(n)` for any integer. */
  function Str(n: int): (s: string)
    ensures s != ""
    ensures forall i :: 0 <= i < |s| ==> IsDigit(s[i]) || s[i] == MINUS
  {
    if n < 0 then [MINUS] + Decimal(-n) else Decimal(n)
  }

  lemma StrInjective(m: int, n: int)
    requires Str(m) == Str(n)
    ensures m == n
  {
    assert m < 0 <==> Str(m)[0] == MINUS;
    assert n < 0 <==> Str(n)[0] == MINUS;
    if m < 0 {
      assert Decimal(-m) == Str(m)[1..] == Str(n)[1..] == Decimal(-n);
      DecimalInjective(-m, -n);
    } else {
      DecimalInjective(m, n);
    }
  }
}
