/** Escape decoding: `parse_hex4`, `utf16_literal_to_utf8`, and the encodings they implement. */
module Utf {
  import opened Common
  import opened Bytes

  // ----- four hexadecimal digits

  function HexValue(c: byte): (r: Option<nat>)
    ensures r.Some? ==> r.value < 16
  {
    if IsDigit(c) then Some(c - ZERO)
    else if 65 <= c <= 70 then Some(10 + c - 65)
    else if 97 <= c <= 102 then Some(10 + c - 97)
    else None
  }

  predicate IsHex4(s: seq<byte>, i: nat)
    requires i + 4 <= |s|
  {
    HexValue(s[i]).Some? && HexValue(s[i + 1]).Some? && HexValue(s[i + 2]).Some? && HexValue(s[i + 3]).Some?
  }

  /** Positional value of four digits; a bad digit makes the whole number 0. */
  function Hex4(s: seq<byte>, i: nat): (r: nat)
    requires i + 4 <= |s|
    ensures r < 0x10000
  {
    if IsHex4(s, i) then
      HexValue(s[i]).value * 4096 + HexValue(s[i + 1]).value * 256
      + HexValue(s[i + 2]).value * 16 + HexValue(s[i + 3]).value
    else 0
  }

  method ParseHex4(s: seq<byte>, i: nat) returns (h: nat)
    requires i + 4 <= |s|
    ensures h == Hex4(s, i)
  {
    h := 0;
    var k := 0;
    while k < 4
      invariant 0 <= k <= 4
      invariant forall m :: i <= m < i + k ==> HexValue(s[m]).Some?
      invariant k == 1 ==> h == HexValue(s[i]).value * 16
      invariant k == 2 ==> h == HexValue(s[i]).value * 256 + HexValue(s[i + 1]).value * 16
      invariant k == 3 ==>
        h == HexValue(s[i]).value * 4096 + HexValue(s[i + 1]).value * 256 + HexValue(s[i + 2]).value * 16
      invariant k == 0 ==> h == 0
      invariant k == 4 ==> h == Hex4(s, i)
    {
      var digit := HexValue(s[i + k]);
      if digit.None? {
        return 0;
      }
      h := h + digit.value;
      if k < 3 {
        h := h * 16;
      }
      k := k + 1;
    }
  }

  // ----- Unicode: UTF-8 (section 3 of RFC 3629) and UTF-16 (section 2 of RFC 2781)

  /** A Unicode scalar value: any code point that is not a surrogate. */
  predicate Scalar(u: int) {
    0 <= u <= 0x10FFFF && !(0xD800 <= u <= 0xDFFF)
  }

  function Utf8Length(u: nat): (n: nat)
    ensures 1 <= n <= 4
  {
    if u < 0x80 then 1 else if u < 0x800 then 2 else if u < 0x10000 then 3 else 4
  }

  /** Six payload bits per continuation byte, most significant first. */
  function Utf8(u: nat): (r: seq<byte>)
    requires u <= 0x10FFFF
    ensures |r| == Utf8Length(u)
  {
    var u6 := u / 0x40;
    var u12 := u6 / 0x40;
    var u18 := u12 / 0x40;
    if u < 0x80 then [u]
    else if u < 0x800 then [0xC0 + u6, 0x80 + u % 0x40]
    else if u < 0x10000 then [0xE0 + u12, 0x80 + u6 % 0x40, 0x80 + u % 0x40]
    else [0xF0 + u18, 0x80 + u12 % 0x40, 0x80 + u6 % 0x40, 0x80 + u % 0x40]
  }

  predicate Tail(b: byte) {
    0x80 <= b <= 0xBF
  }

  /** The byte grammar of section 4 of RFC 3629, one character: its code point, or None. */
  function Utf8Decode(b: seq<byte>): (r: Option<nat>) {
    if |b| == 1 && b[0] <= 0x7F then Some(b[0])
    else if |b| == 2 && 0xC2 <= b[0] <= 0xDF && Tail(b[1]) then
      Some(Bits(b[0], 0xC0, 0x40) + Bits(b[1], 0x80, 1))
    else if |b| == 3 && 0xE0 <= b[0] <= 0xEF && Tail(b[1]) && Tail(b[2])
            && (b[0] == 0xE0 ==> b[1] >= 0xA0) && (b[0] == 0xED ==> b[1] <= 0x9F) then
      Some(Bits(b[0], 0xE0, 0x1000) + Bits(b[1], 0x80, 0x40) + Bits(b[2], 0x80, 1))
    else if |b| == 4 && 0xF0 <= b[0] <= 0xF4 && Tail(b[1]) && Tail(b[2]) && Tail(b[3])
            && (b[0] == 0xF0 ==> b[1] >= 0x90) && (b[0] == 0xF4 ==> b[1] <= 0x8F) then
      Some(Bits(b[0], 0xF0, 0x40000) + Bits(b[1], 0x80, 0x1000) + Bits(b[2], 0x80, 0x40) + Bits(b[3], 0x80, 1))
    else None
  }

  /** Payload of a byte above its marker bits, at the given weight. */
  function Bits(b: int, mark: nat, weight: nat): nat
    requires b >= mark
  {
    (b - mark) * weight
  }

  /** The UTF-8 form of a scalar value is well formed and decodes to it. */
  lemma Utf8RoundTrip(u: nat)
    requires Scalar(u)
    ensures Utf8Decode(Utf8(u)) == Some(u)
  {
  }

  /** ... and no other byte string does: overlong forms and surrogates are not UTF-8. */
  lemma Utf8Unique(b: seq<byte>)
    requires Utf8Decode(b).Some?
    ensures Scalar(Utf8Decode(b).value) && Utf8(Utf8Decode(b).value) == b
  {
    if |b| == 2 {
      TwoBytes(b);
    } else if |b| == 3 {
      ThreeBytes(b);
    } else if |b| == 4 {
      FourBytes(b);
    }
  }

  lemma SixBits(high: nat, low: nat)
    requires low < 0x40
    ensures (high * 0x40 + low) / 0x40 == high && (high * 0x40 + low) % 0x40 == low
  {
  }

  lemma TwoBytes(b: seq<byte>)
    requires |b| == 2 && Utf8Decode(b).Some?
    ensures Scalar(Utf8Decode(b).value) && Utf8(Utf8Decode(b).value) == b
  {
    SixBits(b[0] - 0xC0, b[1] - 0x80);
  }

  lemma ThreeBytes(b: seq<byte>)
    requires |b| == 3 && Utf8Decode(b).Some?
    ensures Scalar(Utf8Decode(b).value) && Utf8(Utf8Decode(b).value) == b
  {
    var u := Utf8Decode(b).value;
    var u6 := Bits(b[0], 0xE0, 0x40) + Bits(b[1], 0x80, 1);
    assert u == u6 * 0x40 + Bits(b[2], 0x80, 1);
    SixBits(u6, b[2] - 0x80);
    SixBits(b[0] - 0xE0, b[1] - 0x80);
  }

  lemma FourBytes(b: seq<byte>)
    requires |b| == 4 && Utf8Decode(b).Some?
    ensures Scalar(Utf8Decode(b).value) && Utf8(Utf8Decode(b).value) == b
  {
    var u := Utf8Decode(b).value;
    var u12 := Bits(b[0], 0xF0, 0x40) + Bits(b[1], 0x80, 1);
    var u6 := u12 * 0x40 + Bits(b[2], 0x80, 1);
    assert u == u6 * 0x40 + Bits(b[3], 0x80, 1);
    SixBits(u6, b[3] - 0x80);
    SixBits(u12, b[2] - 0x80);
    SixBits(b[0] - 0xF0, b[1] - 0x80);
  }

  /** UTF-16 code units of a scalar value, section 2.1 of RFC 2781. */
  function Utf16(u: nat): (r: seq<nat>)
    requires Scalar(u)
    ensures |r| == 1 || |r| == 2
  {
    if u < 0x10000 then [u]
    else [0xD800 + (u - 0x10000) / 0x400, 0xDC00 + (u - 0x10000) % 0x400]
  }

  /** The code point of a surrogate pair, section 2.2 of RFC 2781. */
  function PairValue(high: nat, low: nat): nat {
    0x10000 + ((high % 0x400) * 0x400 + low % 0x400)
  }

  lemma PairInverse(u: nat)
    requires Scalar(u) && u >= 0x10000
    ensures 0xD800 <= Utf16(u)[0] <= 0xDBFF && 0xDC00 <= Utf16(u)[1] <= 0xDFFF
    ensures PairValue(Utf16(u)[0], Utf16(u)[1]) == u
  {
  }

  /** An example of RFC 2781, section 5: the code point 12345 hexadecimal. */
  lemma PairExample()
    ensures Utf16(0x12345) == [0xD808, 0xDF45] && PairValue(0xD808, 0xDF45) == 0x12345
  {
  }

  lemma PairCovers(high: nat, low: nat)
    requires 0xD800 <= high <= 0xDBFF && 0xDC00 <= low <= 0xDFFF
    ensures Scalar(PairValue(high, low)) && Utf16(PairValue(high, low)) == [high, low]
  {
  }

  // ----- the \uXXXX literal

  /** A decoded literal: its code point and the input it takes. */
  datatype Literal = BadLiteral | Literal(code: nat, consumed: nat)

  /** The literal whose backslash is at `p`, in a string whose closing quote is at `end`.
      `BadLiteral` is the 0 return of `utf16_literal_to_utf8`. */
  function Utf16Literal(s: seq<byte>, p: nat, end: nat): (r: Literal)
    requires p <= end <= |s|
    ensures r.Literal? ==> (r.consumed == 6 && r.code < 0x10000) || (r.consumed == 12 && 0x10000 <= r.code <= 0x10FFFF)
    ensures r.Literal? ==> p + r.consumed <= end
  {
    if end - p < 6 then BadLiteral else
      var first := Hex4(s, p + 2);
      if 0xDC00 <= first <= 0xDFFF then BadLiteral
      else if 0xD800 <= first <= 0xDBFF then
        if end - (p + 6) < 6 || s[p + 6] != BACKSLASH || s[p + 7] != 117 then BadLiteral else
          var second := Hex4(s, p + 8);
          if second < 0xDC00 || second > 0xDFFF then BadLiteral
          else Literal(PairValue(first, second), 12)
      else Literal(first, 6)
  }

  /** \uXXXX at `p` spells the code unit `w` with four valid digits. */
  predicate Spells(s: seq<byte>, p: nat, w: nat) {
    p + 6 <= |s| && s[p] == BACKSLASH && s[p + 1] == 117 && IsHex4(s, p + 2) && Hex4(s, p + 2) == w
  }

  /** The UTF-16 form of `u`, written as one or two escapes at `p`, before `end`. */
  predicate SpelledAt(s: seq<byte>, p: nat, end: nat, u: nat)
    requires Scalar(u)
  {
    var units := Utf16(u);
    p + 6 * |units| <= end <= |s| && Spells(s, p, units[0]) && (|units| == 2 ==> Spells(s, p + 6, units[1]))
  }

  /** Every scalar value, spelled as its UTF-16 escapes, is decoded to itself. */
  lemma LiteralDecodes(s: seq<byte>, p: nat, end: nat, u: nat)
    requires Scalar(u) && SpelledAt(s, p, end, u)
    ensures Utf16Literal(s, p, end) == Literal(u, 6 * |Utf16(u)|)
  {
    if u >= 0x10000 {
      PairInverse(u);
    }
  }

  /** Conversely, a decoded literal spells its code point exactly when its first four digits are valid, and stands
      for NUL otherwise; it is rejected only where no scalar value is spelled: lone, swapped or unpaired surrogates. */
  lemma LiteralSound(s: seq<byte>, p: nat, end: nat)
    requires p + 6 <= end <= |s| && s[p] == BACKSLASH && s[p + 1] == 117
    ensures var r := Utf16Literal(s, p, end);
            r.Literal? ==>
              && Scalar(r.code) && r.consumed == 6 * |Utf16(r.code)|
              && (SpelledAt(s, p, end, r.code) <==> IsHex4(s, p + 2))
    ensures !IsHex4(s, p + 2) ==> Utf16Literal(s, p, end) == Literal(0, 6)
    ensures Utf16Literal(s, p, end).BadLiteral? ==> forall u: nat | Scalar(u) :: !SpelledAt(s, p, end, u)
  {
    var r := Utf16Literal(s, p, end);
    if r.Literal? && r.consumed == 12 {
      PairCovers(Hex4(s, p + 2), Hex4(s, p + 8));
    }
    if r.BadLiteral? {
      forall u: nat | Scalar(u)
        ensures !SpelledAt(s, p, end, u)
      {
        if SpelledAt(s, p, end, u) {
          LiteralDecodes(s, p, end, u);
        }
      }
    }
  }

  // ----- writing the bytes, last one first

  function Shifted(u: nat, k: nat): nat {
    if k == 0 then u else Shifted(u, k - 1) / 0x40
  }

  function FirstByteMark(u: nat): nat {
    if u < 0x80 then 0 else if u < 0x800 then 0xC0 else if u < 0x10000 then 0xE0 else 0xF0
  }

  /** The bit operations of the C code and the arithmetic used for them here agree on every code point. */
  lemma BitOperations(c: bv32)
    ensures (c | 0x80) & 0xBF == 0x80 + c % 0x40 && c >> 6 == c / 0x40
    ensures c < 0x20 ==> (c | 0xC0) & 0xFF == 0xC0 + c
    ensures c < 0x10 ==> (c | 0xE0) & 0xFF == 0xE0 + c
    ensures c < 0x08 ==> (c | 0xF0) & 0xFF == 0xF0 + c
  {
  }

  /** The same for joining the two halves of a surrogate pair. */
  lemma PairBits(high: bv32, low: bv32)
    ensures ((high & 0x3FF) << 10) | (low & 0x3FF) == (high % 0x400) * 0x400 + low % 0x400
  {
  }

  lemma Utf8Shifted(u: nat)
    requires u <= 0x10FFFF
    ensures Utf8(u)[0] == FirstByteMark(u) + Shifted(u, Utf8Length(u) - 1)
    ensures forall q :: 0 < q < Utf8Length(u) ==> Utf8(u)[q] == 0x80 + Shifted(u, Utf8Length(u) - 1 - q) % 0x40
  {
    assert Shifted(u, 1) == u / 0x40;
    assert Shifted(u, 2) == u / 0x40 / 0x40;
    assert Shifted(u, 3) == u / 0x40 / 0x40 / 0x40;
  }

  method WriteUtf8(out: array<byte>, at: nat, u: nat) returns (n: nat)
    requires u <= 0x10FFFF && at + |Utf8(u)| <= out.Length
    modifies out
    ensures n == |Utf8(u)|
    ensures out[at..at + n] == Utf8(u)
    ensures forall q :: 0 <= q < at || at + n <= q < out.Length ==> out[q] == old(out[q])
  {
    hide Utf8;
    n := Utf8Length(u);
    ghost var t := Utf8(u);
    Utf8Shifted(u);
    var rest := u;
    var k := n - 1;
    while k > 0
      invariant 0 <= k < n
      invariant rest == Shifted(u, n - 1 - k)
      invariant forall q :: at + k < q < at + n ==> out[q] == t[q - at]
      invariant forall q :: 0 <= q < at || at + n <= q < out.Length ==> out[q] == old(out[q])
    {
      assert t[k] == 0x80 + rest % 0x40;
      out[at + k] := 0x80 + rest % 0x40;
      rest := rest / 0x40;
      k := k - 1;
    }
    assert t[0] == FirstByteMark(u) + rest;
    out[at] := FirstByteMark(u) + rest;
  }
}
