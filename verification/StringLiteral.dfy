/** `parse_string`: a scanning pass that sizes the output, then a decoding pass that fills it. */
module StringLiteral {
  import opened Common
  import opened Bytes
  import opened Json
  import opened Utf

  // ----- pass 1: find the closing quote and count the escapes

  /** Index of the closing quote of a literal whose content starts at `p`. */
  function ScanEnd(s: seq<byte>, p: nat): (r: Option<nat>)
    requires p <= |s|
    ensures r.Some? ==> p <= r.value < |s| && s[r.value] == QUOTE
    decreases |s| - p
  {
    if p == |s| then None
    else if s[p] == QUOTE then Some(p)
    else if s[p] == BACKSLASH then
      if p + 1 >= |s| then None else ScanEnd(s, p + 2)
    else ScanEnd(s, p + 1)
  }

  /** Number of escapes that pass 1 starts before index `q` when it scans from `p`. */
  function Marks(s: seq<byte>, p: nat, q: nat): (r: nat)
    requires q <= |s|
    ensures q <= p ==> r == 0
    decreases q - p
  {
    if p >= q then 0
    else if s[p] == BACKSLASH then 1 + Marks(s, p + 2, q)
    else Marks(s, p + 1, q)
  }

  /** Bytes allocated for a literal that opens at `i` and closes at `end`. */
  function Allocation(s: seq<byte>, i: nat, end: nat): (r: int)
    requires i < end < |s|
  {
    (end - i) - Marks(s, i + 1, end) + 1
  }

  // ----- pass 2: decode

  /** What one character or escape contributes. */
  datatype Unit = BadUnit | Unit(bytes: seq<byte>, consumed: nat)

  /** The character named by a one-letter escape. */
  function SimpleEscape(c: byte): Option<byte> {
    if c == 98 then Some(BACKSPACE)
    else if c == 102 then Some(FF)
    else if c == 110 then Some(LF)
    else if c == 114 then Some(CR)
    else if c == 116 then Some(TAB)
    else if c == QUOTE || c == BACKSLASH || c == SLASH then Some(c)
    else None
  }

  function DecodeUnit(s: seq<byte>, p: nat, end: nat): (r: Unit)
    requires p < end < |s|
    ensures r.Unit? ==> r.consumed > 0 && p + r.consumed <= end + 1
    ensures r.Unit? ==> |r.bytes| == 1 || (r.consumed == 6 && |r.bytes| <= 3) || (r.consumed == 12 && |r.bytes| <= 4)
    ensures s[p] != BACKSLASH ==> r == Unit([s[p]], 1)
    ensures s[p] == BACKSLASH && r.Unit? && |r.bytes| == 1 ==> r.consumed == 2 || r.consumed == 6
    ensures r.Unit? && p + r.consumed == end + 1 ==> r.consumed == 2
  {
    if s[p] != BACKSLASH then Unit([s[p]], 1)
    else if SimpleEscape(s[p + 1]).Some? then Unit([SimpleEscape(s[p + 1]).value], 2)
    else if s[p + 1] == 117 then
      var lit := Utf16Literal(s, p, end);
      if lit.BadLiteral? then BadUnit else Unit(Utf8(lit.code), lit.consumed)
    else BadUnit
  }

  /** The whole pass: whether it reaches the end, and every byte it writes on the way. */
  datatype Pass = Pass(ok: bool, written: seq<byte>)

  function Decode(s: seq<byte>, p: nat, end: nat): (r: Pass)
    requires end < |s|
    decreases end - p
  {
    if p >= end then Pass(true, [])
    else
      var u := DecodeUnit(s, p, end);
      if u.BadUnit? then Pass(false, [])
      else
        var rest := Decode(s, p + u.consumed, end);
        Pass(rest.ok, u.bytes + rest.written)
  }

  // ----- the two passes may disagree about where escapes start, but never about the space

  lemma {:induction false} MarksStep(s: seq<byte>, p: nat, q: nat)
    requires q < |s|
    ensures Marks(s, p, q) <= Marks(s, p, q + 1) <= Marks(s, p, q) + 1
    ensures s[q] != BACKSLASH ==> Marks(s, p, q + 1) == Marks(s, p, q)
    decreases q - p
  {
    if p < q {
      MarksStep(s, if s[p] == BACKSLASH then p + 2 else p + 1, q);
    }
  }

  /** Two adjacent bytes hold at most one escape start. */
  lemma {:induction false} MarksPair(s: seq<byte>, p: nat, q: nat)
    requires q + 2 <= |s|
    ensures Marks(s, p, q + 2) <= Marks(s, p, q) + 1
    decreases q - p
  {
    if p < q {
      MarksPair(s, if s[p] == BACKSLASH then p + 2 else p + 1, q);
    } else if p == q {
      MarksStep(s, p + 1, p + 1);
    }
  }

  lemma {:induction false} MarksEven(s: seq<byte>, p: nat, q: nat, k: nat)
    requires q + 2 * k <= |s|
    ensures Marks(s, p, q + 2 * k) <= Marks(s, p, q) + k
    decreases k
  {
    if k > 0 {
      MarksEven(s, p, q, k - 1);
      MarksPair(s, p, q + 2 * (k - 1));
    }
  }

  /** The byte before the closing quote never starts an escape of pass 1. */
  lemma {:induction false} LastIsNoMark(s: seq<byte>, p: nat, end: nat)
    requires p < end < |s| && ScanEnd(s, p) == Some(end)
    ensures Marks(s, p, end) == Marks(s, p, end - 1)
    decreases end - p
  {
    var next := if s[p] == BACKSLASH then p + 2 else p + 1;
    assert ScanEnd(s, p) == ScanEnd(s, next);
    if next < end {
      LastIsNoMark(s, next, end);
    }
  }

  /** One unit of pass 2 writes no more than its input minus the escapes pass 1 counted in it. */
  lemma UnitFits(s: seq<byte>, start: nat, p: nat, end: nat)
    requires start <= p < end < |s| && ScanEnd(s, start) == Some(end)
    requires DecodeUnit(s, p, end).Unit?
    ensures var u := DecodeUnit(s, p, end);
            |u.bytes| + Marks(s, start, if p + u.consumed <= end then p + u.consumed else end)
            <= (if p + u.consumed <= end then u.consumed else 1) + Marks(s, start, p)
  {
    var u := DecodeUnit(s, p, end);
    if u.consumed == 1 {
      MarksStep(s, start, p);
    } else if p + u.consumed == end + 1 {
      LastIsNoMark(s, start, end);
    } else if u.consumed == 2 {
      MarksEven(s, start, p, 1);
    } else if u.consumed == 6 {
      MarksEven(s, start, p, 3);
    } else {
      MarksEven(s, start, p, 6);
    }
  }

  lemma {:induction false} WrittenFits(s: seq<byte>, start: nat, p: nat, end: nat)
    requires start <= end < |s| && ScanEnd(s, start) == Some(end) && start <= p
    ensures p <= end ==> |Decode(s, p, end).written| + Marks(s, start, end) <= (end - p) + Marks(s, start, p)
    ensures end < p ==> Decode(s, p, end).written == []
    decreases end - p
  {
    if p < end && DecodeUnit(s, p, end).Unit? {
      UnitFits(s, start, p, end);
      WrittenFits(s, start, p + DecodeUnit(s, p, end).consumed, end);
    } else if p < end {
      MarksBounded(s, start, p, end);
    }
  }

  lemma {:induction false} MarksBounded(s: seq<byte>, start: nat, p: nat, q: nat)
    requires p <= q <= |s|
    ensures Marks(s, start, q) <= Marks(s, start, p) + (q - p)
    decreases q - p
  {
    if p < q {
      MarksBounded(s, start, p, q - 1);
      MarksStep(s, start, q - 1);
    }
  }

  /** Two-pass bound: for every input, also one whose malformed escapes put the passes out of step,
      the bytes pass 2 writes and the terminator fit in what pass 1 allocated. */
  lemma TwoPassBound(s: seq<byte>, i: nat, end: nat)
    requires i < |s| && ScanEnd(s, i + 1) == Some(end)
    ensures |Decode(s, i + 1, end).written| + 1 < Allocation(s, i, end)
  {
    WrittenFits(s, i + 1, i + 1, end);
  }

  // ----- decoding inverts escaping

  /** Without escapes the allocation is the text, a terminator and one byte more. */
  lemma PlainAllocation(s: seq<byte>, i: nat, end: nat)
    requires i < end < |s| && forall k :: i < k < end ==> s[k] != BACKSLASH
    ensures Allocation(s, i, end) == |s[i + 1..end]| + 2
  {
    NoMarks(s, i + 1, end);
  }

  lemma {:induction false} NoMarks(s: seq<byte>, p: nat, q: nat)
    requires p <= q <= |s| && forall k :: p <= k < q ==> s[k] != BACKSLASH
    ensures Marks(s, p, q) == 0
    decreases q - p
  {
    if p < q {
      NoMarks(s, p + 1, q);
    }
  }

  lemma {:induction false} ScanEscaped(s: seq<byte>, p: nat, t: seq<byte>)
    requires At(s, p, Escape(t) + [QUOTE])
    ensures ScanEnd(s, p) == Some(p + |Escape(t)|)
    decreases |t|
  {
    hide EscapeByte, At, ScanEnd;
    if t == [] {
      AtFirst(s, p, Escape(t) + [QUOTE]);
      ScanQuote(s, p);
    } else {
      var e := EscapeByte(t[0]);
      assert Escape(t) + [QUOTE] == e + (Escape(t[1..]) + [QUOTE]);
      AtConcat(s, p, e, Escape(t[1..]) + [QUOTE]);
      ScanEscaped(s, p + |e|, t[1..]);
      ScanByte(s, p, t[0]);
    }
  }

  lemma ScanQuote(s: seq<byte>, p: nat)
    requires p < |s| && s[p] == QUOTE
    ensures ScanEnd(s, p) == Some(p)
  {
  }

  lemma ScanByte(s: seq<byte>, p: nat, c: byte)
    requires At(s, p, EscapeByte(c))
    ensures ScanEnd(s, p) == ScanEnd(s, p + |EscapeByte(c)|)
  {
    var e := EscapeByte(c);
    AtBytes(s, p, e);
    assert s[p + 0] == e[0];
    if |e| == 6 {
      assert s[p + 2] == e[2] && s[p + 3] == e[3] && s[p + 4] == e[4] && s[p + 5] == e[5];
      assert ScanEnd(s, p) == ScanEnd(s, p + 2);
      assert ScanEnd(s, p + 2) == ScanEnd(s, p + 3);
      assert ScanEnd(s, p + 3) == ScanEnd(s, p + 4);
      assert ScanEnd(s, p + 4) == ScanEnd(s, p + 5);
    } else if |e| == 2 {
      assert s[p + 1] == e[1];
    }
  }

  lemma {:induction false} DecodeEscaped(s: seq<byte>, p: nat, t: seq<byte>, end: nat)
    requires At(s, p, Escape(t)) && end == p + |Escape(t)| < |s|
    ensures Decode(s, p, end) == Pass(true, t)
    decreases |t|
  {
    hide DecodeUnit, EscapeByte, At;
    if t != [] {
      var e := EscapeByte(t[0]);
      AtConcat(s, p, e, Escape(t[1..]));
      DecodeByte(s, p, t[0], end);
      DecodeEscaped(s, p + |e|, t[1..], end);
      assert t == [t[0]] + t[1..];
    }
  }

  lemma DecodeByte(s: seq<byte>, p: nat, c: byte, end: nat)
    requires p + |EscapeByte(c)| <= end < |s| && At(s, p, EscapeByte(c))
    ensures DecodeUnit(s, p, end) == Unit([c], |EscapeByte(c)|)
  {
    var e := EscapeByte(c);
    AtBytes(s, p, e);
    assert s[p + 0] == e[0];
    if |e| == 6 {
      assert s[p + 1] == e[1] && s[p + 2] == e[2] && s[p + 3] == e[3] && s[p + 4] == e[4] && s[p + 5] == e[5];
      HexOfDigit(c / 16);
      HexOfDigit(c % 16);
      assert Hex4(s, p + 2) == c;
    } else if |e| == 2 {
      assert s[p + 1] == e[1];
    }
  }

  lemma HexOfDigit(n: nat)
    requires n < 16
    ensures HexValue(HexDigit(n)) == Some(n)
  {
  }

  // ----- the two passes as code

  /** Pass 1. `skipped` counts escapes; the result is the closing quote and the buffer size. */
  method ScanString(s: seq<byte>, i: nat) returns (end: nat, size: nat, ok: bool)
    requires i < |s|
    ensures ok <==> ScanEnd(s, i + 1).Some?
    ensures ok ==> end == ScanEnd(s, i + 1).value && size == Allocation(s, i, end)
  {
    end := i + 1;
    size := 0;
    var skipped := 0;
    assert Marks(s, i + 1, end) == 0;
    while end < |s| && s[end] != QUOTE
      invariant i < end <= |s|
      invariant ScanEnd(s, i + 1) == ScanEnd(s, end)
      invariant skipped == Marks(s, i + 1, end) <= end - i - 1
      invariant forall q {:trigger Marks(s, i + 1, q)} :: end <= q <= |s| ==>
        Marks(s, i + 1, q) == skipped + Marks(s, end, q)
    {
      if s[end] == BACKSLASH {
        if end + 1 >= |s| {
          return 0, 0, false;
        }
        assert forall q :: end + 2 <= q <= |s| ==> Marks(s, end, q) == 1 + Marks(s, end + 2, q);
        skipped := skipped + 1;
        end := end + 1;
      } else {
        assert forall q :: end + 1 <= q <= |s| ==> Marks(s, end, q) == Marks(s, end + 1, q);
      }
      end := end + 1;
    }
    if end >= |s| || s[end] != QUOTE {
      return 0, 0, false;
    }
    size := (end - i) - skipped + 1;
    ok := true;
  }

  /** Decode the literal at `p`, write its UTF-8 bytes at `n`; 0 consumed bytes means it is malformed. */
  method Utf16LiteralToUtf8(s: seq<byte>, p: nat, end: nat, out: array<byte>, n: nat)
    returns (consumed: nat, count: nat)
    requires p < end < |s|
    requires var lit := Utf16Literal(s, p, end); lit.Literal? ==> n + |Utf8(lit.code)| <= out.Length
    modifies out
    ensures var lit := Utf16Literal(s, p, end);
            if lit.BadLiteral? then consumed == count == 0 && out[..] == old(out[..])
            else consumed == lit.consumed && count == |Utf8(lit.code)| && n + count <= out.Length
                 && out[n..n + count] == Utf8(lit.code) && out[..n] == old(out[..n])
  {
    hide Utf8, Hex4;
    if end - p < 6 {
      return 0, 0;
    }
    var first := ParseHex4(s, p + 2);
    if 0xDC00 <= first <= 0xDFFF {
      return 0, 0;
    }
    var code := first;
    consumed := 6;
    if 0xD800 <= first <= 0xDBFF {
      consumed := 12;
      if end - (p + 6) < 6 || s[p + 6] != BACKSLASH || s[p + 7] != 117 {
        return 0, 0;
      }
      var second := ParseHex4(s, p + 8);
      if second < 0xDC00 || second > 0xDFFF {
        return 0, 0;
      }
      code := PairValue(first, second);
    }
    count := WriteUtf8(out, n, code);
  }

  /** One round of the decoding loop: a plain byte, a one-letter escape or a UTF-16 literal. */
  method DecodeOne(s: seq<byte>, p: nat, end: nat, out: array<byte>, n: nat) returns (consumed: nat, count: nat)
    requires p < end < |s|
    requires var u := DecodeUnit(s, p, end); u.Unit? ==> n + |u.bytes| <= out.Length
    modifies out
    ensures var u := DecodeUnit(s, p, end);
            if u.BadUnit? then consumed == count == 0 && out[..] == old(out[..])
            else consumed == u.consumed && count == |u.bytes| && n + count <= out.Length
                 && out[n..n + count] == u.bytes && out[..n] == old(out[..n])
  {
    hide Utf8, Utf16Literal, SimpleEscape;
    consumed, count := 2, 1;
    if s[p] != BACKSLASH {
      out[n] := s[p];
      consumed := 1;
    } else if SimpleEscape(s[p + 1]).Some? {
      out[n] := SimpleEscape(s[p + 1]).value;
    } else if s[p + 1] == 117 {
      consumed, count := Utf16LiteralToUtf8(s, p, end, out, n);
    } else {
      consumed, count := 0, 0;
    }
  }

  lemma DecodeAppend(s: seq<byte>, p: nat, end: nat, before: seq<byte>)
    requires p < end < |s| && DecodeUnit(s, p, end).Unit?
    ensures var u := DecodeUnit(s, p, end);
            var rest := Decode(s, p + u.consumed, end);
            Decode(s, p, end).ok == rest.ok &&
            before + Decode(s, p, end).written == (before + u.bytes) + rest.written
  {
    hide DecodeUnit;
    var u := DecodeUnit(s, p, end);
    var rest := Decode(s, p + u.consumed, end);
    assert before + (u.bytes + rest.written) == (before + u.bytes) + rest.written;
  }

  /** Pass 2, writing through a moving output index into a buffer of the size pass 1 computed. */
  method DecodeString(s: seq<byte>, i: nat, end: nat, out: array<byte>) returns (ok: bool, n: nat)
    requires i < |s| && ScanEnd(s, i + 1) == Some(end) && out.Length == Allocation(s, i, end)
    modifies out
    ensures n < out.Length && out[..n] == Decode(s, i + 1, end).written
    ensures ok == Decode(s, i + 1, end).ok
    ensures ok ==> out[n] == NUL
  {
    hide DecodeUnit, Marks, ScanEnd;
    var p := i + 1;
    n := 0;
    ghost var all := Decode(s, i + 1, end);
    TwoPassBound(s, i, end);
    while p < end
      invariant i < p <= end + 1
      invariant n <= |all.written| < out.Length - 1
      invariant all.ok == Decode(s, p, end).ok && all.written == out[..n] + Decode(s, p, end).written
    {
      ghost var u := DecodeUnit(s, p, end);
      ghost var before := out[..n];
      if u.Unit? {
        DecodeAppend(s, p, end, before);
      }
      var consumed, count := DecodeOne(s, p, end, out, n);
      if consumed == 0 {
        return false, n;
      }
      n, p := n + count, p + consumed;
      assert out[..n] == before + u.bytes;
    }
    out[n] := NUL;
    ok := true;
  }
}
