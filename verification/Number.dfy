/** Number literals: the token `parse_number` copies out and the decimal grammar of `strtod`. */
module Number {
  import opened Bytes
  import opened Json

  /** Characters copied into the 64-byte conversion buffer. */
  predicate NumberChar(c: byte) {
    IsDigit(c) || c == PLUS || c == MINUS || c == 101 || c == 69 || c == DOT
  }

  const MAX_TOKEN: nat := 63

  /** End of the token at `i`, of at most `n` characters. */
  function TokenEnd(s: seq<byte>, i: nat, n: nat): (r: nat)
    requires i <= |s|
    ensures i <= r <= |s| && r <= i + n
    decreases n
  {
    if n == 0 || i == |s| || !NumberChar(s[i]) then i else TokenEnd(s, i + 1, n - 1)
  }

  lemma {:induction false} TokenChars(s: seq<byte>, i: nat, n: nat, k: nat)
    requires i <= |s| && i <= k < TokenEnd(s, i, n)
    ensures NumberChar(s[k])
    decreases n
  {
    if i < k {
      TokenChars(s, i + 1, n - 1, k);
    }
  }

  function DigitsEnd(t: seq<byte>, p: nat): (r: nat)
    requires p <= |t|
    ensures p <= r <= |t| && forall k :: p <= k < r ==> IsDigit(t[k])
    ensures r < |t| ==> !IsDigit(t[r])
    decreases |t| - p
  {
    if p == |t| || !IsDigit(t[p]) then p else DigitsEnd(t, p + 1)
  }

  function DigitValue(c: byte): nat
    requires IsDigit(c)
  {
    c - ZERO
  }

  function DigitsValue(t: seq<byte>): nat
    requires forall k :: 0 <= k < |t| ==> IsDigit(t[k])
  {
    if t == [] then 0 else DigitsValue(t[..|t| - 1]) * 10 + DigitValue(t[|t| - 1])
  }

  /** The exact decimal value of the longest numeric prefix, and how many characters it has. */
  datatype Converted = NoNumber | Converted(mantissa: int, exponent: int, used: nat)

  function SignLength(t: seq<byte>, p: nat): (r: nat)
    requires p <= |t|
    ensures r <= 1 && p + r <= |t|
  {
    if p < |t| && (t[p] == PLUS || t[p] == MINUS) then 1 else 0
  }

  function Signed(t: seq<byte>, p: nat, n: int): int
    requires p <= |t|
  {
    if p < |t| && t[p] == MINUS then -n else n
  }

  function Strtod(t: seq<byte>): (r: Converted)
    ensures r.Converted? ==> 0 < r.used <= |t|
  {
    var a := SignLength(t, 0);
    var b := DigitsEnd(t, a);
    var c := if b < |t| && t[b] == DOT then DigitsEnd(t, b + 1) else b;
    var fraction := if b < c then t[b + 1..c] else [];
    if b == a && fraction == [] then NoNumber
    else
      assert forall k :: 0 <= k < |fraction| ==> fraction[k] == t[b + 1 + k];
      var m := Signed(t, 0, DigitsValue(t[a..b] + fraction));
      var e := Exponent(t, c);
      Converted(m, e.0 - |fraction|, e.1)
  }

  /** The exponent part at `c`, if there is a complete one: its value and where it ends. */
  function Exponent(t: seq<byte>, c: nat): (r: (int, nat))
    requires c <= |t|
    ensures c <= r.1 <= |t|
  {
    if c < |t| && (t[c] == 101 || t[c] == 69) then
      var x := c + 1 + SignLength(t, c + 1);
      var y := DigitsEnd(t, x);
      if x < y then (Signed(t, c + 1, DigitsValue(t[x..y])), y) else (0, c)
    else (0, c)
  }

  // ----- printing and reading back an integer

  lemma {:induction false} DecimalValue(n: nat)
    ensures DigitsValue(Decimal(n)) == n
  {
    if n >= 10 {
      DecimalValue(n / 10);
      var t := Decimal(n);
      assert t[..|t| - 1] == Decimal(n / 10);
    }
  }

  function Pow10(k: nat): nat {
    if k == 0 then 1 else 10 * Pow10(k - 1)
  }

  lemma {:induction false} DecimalLength(n: nat, k: nat)
    requires k > 0 && n < Pow10(k)
    ensures |Decimal(n)| <= k
  {
    if n >= 10 {
      assert k > 1 by { assert Pow10(1) == 10 * Pow10(0); }
      assert n / 10 < Pow10(k - 1);
      DecimalLength(n / 10, k - 1);
    }
  }

  lemma {:induction false} AllDigits(t: seq<byte>, p: nat)
    requires p <= |t| && forall k :: p <= k < |t| ==> IsDigit(t[k])
    ensures DigitsEnd(t, p) == |t|
    decreases |t| - p
  {
    if p < |t| {
      AllDigits(t, p + 1);
    }
  }

  lemma NumberTextValue(n: int)
    ensures Strtod(NumberText(n)) == Converted(n, 0, |NumberText(n)|)
  {
    var t := NumberText(n);
    var a := if n < 0 then 1 else 0;
    AllDigits(t, a);
    DecimalValue(if n < 0 then -n else n);
    assert t[a..] == Decimal(if n < 0 then -n else n);
    assert t[a..|t|] + [] == t[a..];
  }

  lemma {:induction false} TokenIs(s: seq<byte>, i: nat, t: seq<byte>, n: nat)
    requires At(s, i, t) && |t| <= n && forall k :: 0 <= k < |t| ==> NumberChar(t[k])
    requires i + |t| < |s| && !NumberChar(s[i + |t|])
    ensures TokenEnd(s, i, n) == i + |t|
    decreases n
  {
    if t != [] {
      assert s[i..i + |t|][0] == s[i];
      assert t == [t[0]] + t[1..];
      AtConcat(s, i, [t[0]], t[1..]);
      TokenIs(s, i + 1, t[1..], n - 1);
    }
  }

  /** The printed form of a plain integer is a token of its own and converts back exactly. */
  lemma NumberReadBack(s: seq<byte>, i: nat, n: int)
    requires PlainInteger(n, 0) && At(s, i, NumberText(n))
    requires i + |NumberText(n)| < |s| && !NumberChar(s[i + |NumberText(n)|])
    ensures Strtod(s[i..TokenEnd(s, i, MAX_TOKEN)]) == Converted(n, 0, |NumberText(n)|)
  {
    hide At, Strtod, TokenEnd, NumberText;
    NumberTextShort(n);
    TokenIs(s, i, NumberText(n), MAX_TOKEN);
    NumberTextValue(n);
    assert s[i..i + |NumberText(n)|] == NumberText(n) by { AtSlice(s, i, NumberText(n)); }
  }

  lemma AtSlice(s: seq<byte>, i: nat, t: seq<byte>)
    requires At(s, i, t)
    ensures i + |t| <= |s| && s[i..i + |t|] == t
  {
  }

  lemma NumberTextShort(n: int)
    requires PlainInteger(n, 0)
    ensures |NumberText(n)| <= 16
    ensures forall k :: 0 <= k < |NumberText(n)| ==> NumberChar(NumberText(n)[k])
  {
    assert Pow10(2) == 100;
    assert Pow10(4) == 100 * Pow10(2);
    assert Pow10(6) == 100 * Pow10(4);
    assert Pow10(8) == 100 * Pow10(6);
    assert Pow10(10) == 100 * Pow10(8);
    assert Pow10(12) == 100 * Pow10(10);
    assert Pow10(14) == 100 * Pow10(12);
    assert Pow10(15) == 10 * Pow10(14);
    DecimalLength(if n < 0 then -n else n, 15);
  }

  /** The copying loop of `parse_number`: at most 63 characters and a terminator, in a 64-byte buffer. */
  method CopyToken(s: seq<byte>, i: nat) returns (token: seq<byte>)
    requires i <= |s|
    ensures token == s[i..TokenEnd(s, i, MAX_TOKEN)]
  {
    hide NumberChar;
    var buffer := new byte[64];
    var k := 0;
    while k < 63 && i + k < |s| && NumberChar(s[i + k])
      invariant 0 <= k <= 63 && i + k <= |s|
      invariant buffer[..k] == s[i..i + k]
      invariant TokenEnd(s, i, MAX_TOKEN) == TokenEnd(s, i + k, MAX_TOKEN - k)
    {
      buffer[k] := s[i + k];
      k := k + 1;
    }
    buffer[k] := NUL;
    token := buffer[..k];
  }
}
