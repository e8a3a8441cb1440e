/** String literals piece by piece: how each character may be spelled, and that it is read as what it means. */
module StringForms {
  import opened Common
  import opened Bytes
  import opened Json
  import opened Utf
  import opened StringLiteral
  import opened Grammar

  // ----- hexadecimal digits

  function Digit(v: nat, upper: bool): byte
    requires v < 16
  {
    if v < 10 then 48 + v else if upper then 65 + (v - 10) else 97 + (v - 10)
  }

  /** Both cases of every digit have its value, and nothing else has. */
  lemma DigitRead(c: byte, v: nat)
    requires v < 16
    ensures HexValue(c) == Some(v) <==> c == Digit(v, true) || c == Digit(v, false)
  {
  }

  /** Four digits, most significant first, each in either case. */
  function HexText(w: nat, upper: seq<bool>): (r: seq<byte>)
    requires w < 0x10000 && |upper| == 4
  {
    var a := w / 16;
    var b := a / 16;
    [Digit(b / 16, upper[0]), Digit(b % 16, upper[1]), Digit(a % 16, upper[2]), Digit(w % 16, upper[3])]
  }

  lemma HexTextRead(s: seq<byte>, i: nat, w: nat, upper: seq<bool>)
    requires w < 0x10000 && |upper| == 4 && At(s, i, HexText(w, upper))
    ensures i + 4 <= |s| && IsHex4(s, i) && Hex4(s, i) == w
  {
    AtBytes(s, i, HexText(w, upper));
    assert s[i + 0] == HexText(w, upper)[0];
    var a := w / 16;
    var b := a / 16;
    DigitRead(s[i], b / 16);
    DigitRead(s[i + 1], b % 16);
    DigitRead(s[i + 2], a % 16);
    DigitRead(s[i + 3], w % 16);
    FourDigits(w, a, b);
  }

  lemma FourDigits(w: nat, a: nat, b: nat)
    requires a == w / 16 && b == a / 16
    ensures b / 16 * 4096 + b % 16 * 256 + a % 16 * 16 + w % 16 == w
  {
    assert w == a * 16 + w % 16;
    assert a == b * 16 + a % 16;
    assert b == b / 16 * 16 + b % 16;
  }

  // ----- the pieces of a literal

  /** The letters of section 7 of RFC 8259 and what they stand for. */
  const SHORT_ESCAPES: map<byte, byte> :=
    map[34 := 34, 92 := 92, 47 := 47, 98 := 8, 102 := 12, 110 := 10, 114 := 13, 116 := 9]

  /** A byte as it is, an escape by a letter, or a character by its UTF-16 code units in hexadecimal. */
  datatype Piece = Raw(c: byte) | Short(letter: byte) | Unicode(u: nat, upper: seq<bool>)

  predicate Proper(p: Piece) {
    match p
    case Raw(c) => c != QUOTE && c != BACKSLASH && c != NUL
    case Short(letter) => letter in SHORT_ESCAPES
    case Unicode(u, upper) => Scalar(u) && |upper| == 8
  }

  function UnitText(w: nat, upper: seq<bool>): seq<byte>
    requires w < 0x10000 && |upper| == 4
  {
    [BACKSLASH, 117] + HexText(w, upper)
  }

  function Spell(p: Piece): (r: seq<byte>)
    requires Proper(p)
    ensures |r| > 0
  {
    match p
    case Raw(c) => [c]
    case Short(letter) => [BACKSLASH, letter]
    case Unicode(u, upper) =>
      if u < 0x10000 then UnitText(u, upper[..4])
      else
        PairInverse(u);
        UnitText(Utf16(u)[0], upper[..4]) + UnitText(Utf16(u)[1], upper[4..])
  }

  function Means(p: Piece): seq<byte>
    requires Proper(p)
  {
    match p
    case Raw(c) => [c]
    case Short(letter) => [SHORT_ESCAPES[letter]]
    case Unicode(u, _) => Utf8(u)
  }

  ghost predicate AllProper(list: seq<Piece>) {
    forall k :: 0 <= k < |list| ==> Proper(list[k])
  }

  ghost function SpellAll(list: seq<Piece>): seq<byte>
    requires AllProper(list)
  {
    if list == [] then [] else Spell(list[0]) + SpellAll(list[1..])
  }

  ghost function MeansAll(list: seq<Piece>): seq<byte>
    requires AllProper(list)
  {
    if list == [] then [] else Means(list[0]) + MeansAll(list[1..])
  }

  lemma ShortRead(letter: byte)
    ensures SimpleEscape(letter) == if letter in SHORT_ESCAPES then Some(SHORT_ESCAPES[letter]) else None
  {
  }

  lemma UnitRead(s: seq<byte>, p: nat, w: nat, upper: seq<bool>)
    requires w < 0x10000 && |upper| == 4 && At(s, p, UnitText(w, upper))
    ensures Spells(s, p, w) && |UnitText(w, upper)| == 6
  {
    hide At, Hex4, IsHex4, HexText;
    AtConcat(s, p, [BACKSLASH, 117], HexText(w, upper));
    AtBytes(s, p, [BACKSLASH, 117]);
    HexTextRead(s, p + 2, w, upper);
    HexTextLength(w, upper);
  }

  lemma HexTextLength(w: nat, upper: seq<bool>)
    requires w < 0x10000 && |upper| == 4
    ensures |HexText(w, upper)| == 4
    ensures forall k :: 0 <= k < 4 ==> HexText(w, upper)[k] != QUOTE && HexText(w, upper)[k] != BACKSLASH
  {
  }

  /** The decoding loop reads a piece as what it means. */
  lemma PieceDecoded(s: seq<byte>, p: nat, end: nat, x: Piece)
    requires Proper(x) && At(s, p, Spell(x)) && p + |Spell(x)| <= end < |s|
    ensures DecodeUnit(s, p, end) == Unit(Means(x), |Spell(x)|)
  {
    hide At, Hex4, IsHex4, HexText, Utf8, Utf16Literal, UnitText;
    match x
    case Raw(c) => AtFirst(s, p, Spell(x));
    case Short(letter) =>
      AtBytes(s, p, Spell(x));
      assert s[p + 0] == Spell(x)[0] && s[p + 1] == Spell(x)[1];
      ShortRead(letter);
    case Unicode(u, upper) =>
      UnicodeSpelled(s, p, end, u, upper);
      LiteralDecodes(s, p, end, u);
      ShortRead(117);
  }

  lemma UnicodeSpelled(s: seq<byte>, p: nat, end: nat, u: nat, upper: seq<bool>)
    requires Proper(Unicode(u, upper)) && At(s, p, Spell(Unicode(u, upper)))
    requires p + |Spell(Unicode(u, upper))| <= end < |s|
    ensures SpelledAt(s, p, end, u) && |Spell(Unicode(u, upper))| == 6 * |Utf16(u)|
    ensures s[p] == BACKSLASH && s[p + 1] == 117
  {
    hide At, Hex4, IsHex4, HexText, UnitText;
    if u < 0x10000 {
      UnitRead(s, p, u, upper[..4]);
    } else {
      PairInverse(u);
      var a, b := UnitText(Utf16(u)[0], upper[..4]), UnitText(Utf16(u)[1], upper[4..]);
      AtConcat(s, p, a, b);
      UnitRead(s, p, Utf16(u)[0], upper[..4]);
      UnitRead(s, p + |a|, Utf16(u)[1], upper[4..]);
    }
  }

  /** The scan steps over a piece. */
  lemma PieceScanned(s: seq<byte>, p: nat, x: Piece)
    requires Proper(x) && At(s, p, Spell(x))
    ensures p + |Spell(x)| <= |s| && ScanEnd(s, p) == ScanEnd(s, p + |Spell(x)|)
  {
    hide HexText, UnitText, ScanEnd;
    match x
    case Raw(c) =>
      AtFirst(s, p, Spell(x));
      ScanRaw(s, p);
    case Short(letter) =>
      AtBytes(s, p, Spell(x));
      assert s[p + 0] == BACKSLASH;
      ScanPair(s, p);
    case Unicode(u, upper) =>
      if u < 0x10000 {
        UnitScanned(s, p, u, upper[..4]);
      } else {
        PairInverse(u);
        var a, b := UnitText(Utf16(u)[0], upper[..4]), UnitText(Utf16(u)[1], upper[4..]);
        AtConcat(s, p, a, b);
        UnitScanned(s, p, Utf16(u)[0], upper[..4]);
        UnitScanned(s, p + |a|, Utf16(u)[1], upper[4..]);
      }
  }

  lemma ScanRaw(s: seq<byte>, p: nat)
    requires p < |s| && s[p] != QUOTE && s[p] != BACKSLASH
    ensures ScanEnd(s, p) == ScanEnd(s, p + 1)
  {
  }

  lemma ScanPair(s: seq<byte>, p: nat)
    requires p + 1 < |s| && s[p] == BACKSLASH
    ensures ScanEnd(s, p) == ScanEnd(s, p + 2)
  {
  }

  lemma UnitScanned(s: seq<byte>, p: nat, w: nat, upper: seq<bool>)
    requires w < 0x10000 && |upper| == 4 && At(s, p, UnitText(w, upper))
    ensures p + |UnitText(w, upper)| <= |s| && ScanEnd(s, p) == ScanEnd(s, p + |UnitText(w, upper)|)
  {
    hide HexText, ScanEnd, At;
    var h := HexText(w, upper);
    HexTextLength(w, upper);
    AtConcat(s, p, [BACKSLASH, 117], h);
    AtSlice(s, p + 2, h);
    AtFirst(s, p, [BACKSLASH, 117]);
    AtBytes(s, p + 2, h);
    ScanPair(s, p);
    assert forall k :: 0 <= k < 4 ==> s[p + 2 + k] == h[k];
    ScanRaw(s, p + 2);
    ScanRaw(s, p + 3);
    ScanRaw(s, p + 4);
    ScanRaw(s, p + 5);
  }

  lemma AtSlice(s: seq<byte>, i: nat, t: seq<byte>)
    requires At(s, i, t)
    ensures i + |t| <= |s|
  {
  }

  lemma {:induction false} PiecesRead(s: seq<byte>, p: nat, list: seq<Piece>, end: nat)
    requires AllProper(list) && At(s, p, SpellAll(list)) && end == p + |SpellAll(list)| && end < |s| && s[end] == QUOTE
    ensures ScanEnd(s, p) == Some(end) && Decode(s, p, end) == Pass(true, MeansAll(list))
    decreases |list|
  {
    hide Spell, Means, DecodeUnit, At;
    if list != [] {
      AtConcat(s, p, Spell(list[0]), SpellAll(list[1..]));
      PieceScanned(s, p, list[0]);
      PieceDecoded(s, p, end, list[0]);
      PiecesRead(s, p + |Spell(list[0])|, list[1..], end);
    }
  }

  /** A literal made of any pieces, wherever it stands, is read as what they mean together. */
  lemma LiteralRead(s: seq<byte>, i: nat, list: seq<Piece>)
    requires AllProper(list) && At(s, i, [QUOTE] + SpellAll(list) + [QUOTE]) && NulFree(MeansAll(list))
    ensures StringAt(s, i, i + |SpellAll(list)| + 2, MeansAll(list))
  {
    hide At, ScanEnd, Decode, SpellAll, MeansAll;
    var t := SpellAll(list);
    AtConcat(s, i, [QUOTE] + t, [QUOTE]);
    AtConcat(s, i, [QUOTE], t);
    AtFirst(s, i, [QUOTE]);
    AtFirst(s, i + 1 + |t|, [QUOTE]);
    PiecesRead(s, i + 1, list, i + 1 + |t|);
  }

  // ----- nothing else is read

  /** The piece that four valid digits spell. */
  lemma HexFound(s: seq<byte>, i: nat) returns (upper: seq<bool>)
    requires i + 4 <= |s| && IsHex4(s, i)
    ensures |upper| == 4 && s[i..i + 4] == HexText(Hex4(s, i), upper)
  {
    var w := Hex4(s, i);
    var a, b := HexValue(s[i]).value, HexValue(s[i + 1]).value;
    var c, d := HexValue(s[i + 2]).value, HexValue(s[i + 3]).value;
    upper := [s[i] == Digit(a, true), s[i + 1] == Digit(b, true),
              s[i + 2] == Digit(c, true), s[i + 3] == Digit(d, true)];
    DigitRead(s[i], a);
    DigitRead(s[i + 1], b);
    DigitRead(s[i + 2], c);
    DigitRead(s[i + 3], d);
    DigitsBack(a, b, c, d);
  }

  lemma DigitsBack(a: nat, b: nat, c: nat, d: nat)
    requires a < 16 && b < 16 && c < 16 && d < 16
    ensures var w := a * 4096 + b * 256 + c * 16 + d;
            w % 16 == d && w / 16 == a * 256 + b * 16 + c
    ensures var v := a * 256 + b * 16 + c;
            v % 16 == c && v / 16 == a * 16 + b && (a * 16 + b) % 16 == b && (a * 16 + b) / 16 == a
  {
  }

  /** Whatever the decoding loop accepts is a proper piece, read as what it means, or an escape with a bad digit in its
      first four, read as NUL. */
  lemma UnitFound(s: seq<byte>, p: nat, end: nat) returns (x: Piece)
    requires p < end < |s| && DecodeUnit(s, p, end).Unit? && s[p] != NUL && s[p] != QUOTE
    ensures var u := DecodeUnit(s, p, end);
            || (Proper(x) && Spell(x) == s[p..p + u.consumed] && Means(x) == u.bytes)
            || (s[p] == BACKSLASH && s[p + 1] == 117 && p + 6 <= end && !IsHex4(s, p + 2) && u == Unit([0], 6))
  {
    hide Utf16Literal, Hex4, IsHex4, Utf8;
    x := Raw(s[p]);
    if s[p] != BACKSLASH {
      assert s[p..p + 1] == [s[p]];
    } else {
      ShortRead(s[p + 1]);
      if SimpleEscape(s[p + 1]).Some? {
        x := Short(s[p + 1]);
        assert s[p..p + 2] == [s[p], s[p + 1]];
      } else {
        x := UnicodeFound(s, p, end);
      }
    }
  }

  lemma UnicodeFound(s: seq<byte>, p: nat, end: nat) returns (x: Piece)
    requires p < end < |s| && s[p] == BACKSLASH && s[p + 1] == 117 && Utf16Literal(s, p, end).Literal?
    ensures var lit := Utf16Literal(s, p, end);
            || (Proper(x) && Spell(x) == s[p..p + lit.consumed] && Means(x) == Utf8(lit.code))
            || (p + 6 <= end && !IsHex4(s, p + 2) && lit == Literal(0, 6) && Utf8(0) == [0])
  {
    hide Hex4, IsHex4, Utf16, HexText;
    var lit := Utf16Literal(s, p, end);
    LiteralSound(s, p, end);
    x := Raw(s[p]);
    if IsHex4(s, p + 2) {
      var a := HexFound(s, p + 2);
      if lit.consumed == 6 {
        x := Unicode(lit.code, a + a);
        OneUnit(s, p, a);
        assert (a + a)[..4] == a;
      } else {
        var b := HexFound(s, p + 8);
        x := Unicode(lit.code, a + b);
        OneUnit(s, p, a);
        OneUnit(s, p + 6, b);
        assert (a + b)[..4] == a && (a + b)[4..] == b;
        assert s[p..p + 12] == s[p..p + 6] + s[p + 6..p + 12];
      }
    }
  }

  lemma OneUnit(s: seq<byte>, p: nat, upper: seq<bool>)
    requires p + 6 <= |s| && s[p] == BACKSLASH && s[p + 1] == 117 && |upper| == 4
    requires s[p + 2..p + 6] == HexText(Hex4(s, p + 2), upper)
    ensures s[p..p + 6] == UnitText(Hex4(s, p + 2), upper)
  {
    hide HexText, Hex4;
    assert s[p..p + 6] == [s[p], s[p + 1]] + s[p + 2..p + 6];
  }

  // ----- as printed

  /** Legal JSON has no raw control characters. */
  predicate Legal(p: Piece) {
    Proper(p) && (p.Raw? ==> p.c >= 32)
  }

  /** The printer's choice for a byte: a legal piece that means it. */
  function Chosen(c: byte): Piece
    requires c != NUL
  {
    if c == QUOTE || c == BACKSLASH then Short(c)
    else if c == 8 then Short(98) else if c == 12 then Short(102) else if c == 10 then Short(110)
    else if c == 13 then Short(114) else if c == 9 then Short(116)
    else if c < 32 then Unicode(c, [false, false, false, false, false, false, false, false])
    else Raw(c)
  }

  lemma EscapeLegal(c: byte)
    requires c != NUL
    ensures Legal(Chosen(c)) && Spell(Chosen(c)) == EscapeByte(c) && Means(Chosen(c)) == [c]
  {
  }

  /** No legal piece that means the byte is shorter, and one as long differs only in the case of its digits. */
  lemma EscapeShortest(c: byte, p: Piece)
    requires c != NUL && Legal(p) && Means(p) == [c]
    ensures |EscapeByte(c)| <= |Spell(p)|
    ensures |EscapeByte(c)| == |Spell(p)| ==> p == Chosen(c) || (p.Unicode? && Chosen(c).Unicode? && p.u == Chosen(c).u)
  {
    match p
    case Raw(_) =>
    case Short(letter) =>
    case Unicode(u, _) =>
      assert Utf8(u) == [c];
      assert u < 0x80 && u == c;
  }
}
