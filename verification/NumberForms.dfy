/** Decimal number literals with fractions and exponents: how they are spelled and what they are worth. */
module NumberForms {
  import opened Bytes
  import opened Json
  import opened Number
  import opened Grammar

  datatype Sign = NoSign | Plus | Minus

  /** The exponent part: `e` or `E`, a sign, digits. */
  datatype Power = NoPower | Power(upper: bool, sign: Sign, digits: seq<byte>)

  /** A literal: a sign, digits, a point with more digits, an exponent. */
  datatype Form = Form(sign: Sign, whole: seq<byte>, point: bool, fraction: seq<byte>, power: Power)

  predicate Digits(t: seq<byte>) {
    forall k :: 0 <= k < |t| ==> IsDigit(t[k])
  }

  predicate WellFormed(f: Form) {
    && Digits(f.whole) && Digits(f.fraction) && |f.whole| + |f.fraction| > 0
    && (!f.point ==> f.fraction == [])
    && (f.power.Power? ==> Digits(f.power.digits) && f.power.digits != [])
  }

  function SignText(s: Sign): seq<byte> {
    match s
    case NoSign => []
    case Plus => [PLUS]
    case Minus => [MINUS]
  }

  function PointText(f: Form): seq<byte> {
    if f.point then [DOT] + f.fraction else []
  }

  function PowerText(p: Power): seq<byte> {
    match p
    case NoPower => []
    case Power(upper, sign, digits) => [if upper then 69 else 101] + SignText(sign) + digits
  }

  function Spell(f: Form): seq<byte> {
    SignText(f.sign) + f.whole + PointText(f) + PowerText(f.power)
  }

  function WithSign(s: Sign, n: int): int {
    if s.Minus? then -n else n
  }

  /** The value is `Mantissa * 10^Exponent`: all digits as one integer, and the point moved by the fraction's length. */
  function Mantissa(f: Form): int
    requires WellFormed(f)
  {
    WithSign(f.sign, DigitsValue(f.whole + f.fraction))
  }

  function Scale(f: Form): int
    requires WellFormed(f)
  {
    (if f.power.NoPower? then 0 else WithSign(f.power.sign, DigitsValue(f.power.digits))) - |f.fraction|
  }

  lemma {:induction false} DigitsEndIs(t: seq<byte>, p: nat, q: nat)
    requires p <= q <= |t| && (forall k :: p <= k < q ==> IsDigit(t[k])) && (q < |t| ==> !IsDigit(t[q]))
    ensures DigitsEnd(t, p) == q
    decreases q - p
  {
    if p < q {
      DigitsEndIs(t, p + 1, q);
    }
  }

  lemma SignRead(t: seq<byte>, c: nat, s: Sign)
    requires At(t, c, SignText(s)) && (s.NoSign? ==> c < |t| && t[c] != PLUS && t[c] != MINUS)
    ensures c <= |t| && SignLength(t, c) == |SignText(s)| && forall n :: Signed(t, c, n) == WithSign(s, n)
  {
    if !s.NoSign? {
      AtFirst(t, c, SignText(s));
    }
  }

  lemma DigitsRead(t: seq<byte>, p: nat, d: seq<byte>)
    requires At(t, p, d) && Digits(d) && (p + |d| < |t| ==> !IsDigit(t[p + |d|]))
    ensures DigitsEnd(t, p) == p + |d| && t[p..p + |d|] == d
  {
    AtBytes(t, p, d);
    DigitsEndIs(t, p, p + |d|);
  }

  /** The exponent part at the end of a literal. */
  lemma PowerRead(t: seq<byte>, c: nat, p: Power)
    requires At(t, c, PowerText(p)) && c + |PowerText(p)| == |t|
    requires p.Power? ==> Digits(p.digits) && p.digits != []
    ensures Exponent(t, c) == (if p.NoPower? then 0 else WithSign(p.sign, DigitsValue(p.digits)), |t|)
  {
    hide At, DigitsEnd, DigitsValue, SignText, SignLength, Signed;
    if p.Power? {
      var e := [if p.upper then 69 else 101];
      AtConcat(t, c, e + SignText(p.sign), p.digits);
      AtConcat(t, c, e, SignText(p.sign));
      AtFirst(t, c, e);
      var x := c + 1 + |SignText(p.sign)|;
      AtFirst(t, x, p.digits);
      NoSignText(p.sign);
      SignRead(t, c + 1, p.sign);
      DigitsRead(t, x, p.digits);
    }
  }

  lemma NoSignText(s: Sign)
    ensures s.NoSign? ==> |SignText(s)| == 0
  {
  }

  /** Where the parts of a literal are. */
  lemma FormParts(f: Form)
    requires WellFormed(f)
    ensures var t := Spell(f);
            var a := |SignText(f.sign)|;
            var b := a + |f.whole|;
            var c := b + |PointText(f)|;
            && At(t, 0, SignText(f.sign)) && At(t, a, f.whole) && At(t, b, PointText(f)) && At(t, c, PowerText(f.power))
            && c + |PowerText(f.power)| == |t|
            && (c < |t| ==> !IsDigit(t[c]) && t[c] != DOT)
            && (f.point ==> b < |t| && t[b] == DOT && At(t, b + 1, f.fraction))
  {
    hide At, SignText, PowerText, PointText;
    var t := Spell(f);
    var b := |SignText(f.sign)| + |f.whole|;
    WholeAt(t);
    FourParts(t, SignText(f.sign), f.whole, PointText(f), PowerText(f.power));
    PowerStart(t, b + |PointText(f)|, f.power);
    PointStart(t, b, f);
  }

  lemma FourParts(t: seq<byte>, w: seq<byte>, x: seq<byte>, y: seq<byte>, z: seq<byte>)
    requires At(t, 0, w + x + y + z)
    ensures At(t, 0, w) && At(t, |w|, x) && At(t, |w| + |x|, y) && At(t, |w| + |x| + |y|, z)
  {
    hide At;
    AtConcat(t, 0, w + x + y, z);
    AtConcat(t, 0, w + x, y);
    AtConcat(t, 0, w, x);
  }

  lemma PointStart(t: seq<byte>, b: nat, f: Form)
    requires At(t, b, PointText(f))
    ensures f.point ==> b < |t| && t[b] == DOT && At(t, b + 1, f.fraction)
  {
    hide At;
    if f.point {
      AtConcat(t, b, [DOT], f.fraction);
      AtFirst(t, b, [DOT]);
    }
  }

  lemma StrtodIs(t: seq<byte>, a: nat, b: nat, c: nat, whole: seq<byte>, fraction: seq<byte>)
    requires SignLength(t, 0) == a <= b <= c <= |t| && DigitsEnd(t, a) == b && t[a..b] == whole
    requires if b < |t| && t[b] == DOT then b < c == DigitsEnd(t, b + 1) && t[b + 1..c] == fraction
             else b == c && fraction == []
    requires Digits(whole + fraction) && whole + fraction != []
    ensures Strtod(t) == Converted(Signed(t, 0, DigitsValue(whole + fraction)), Exponent(t, c).0 - |fraction|,
                                   Exponent(t, c).1)
  {
    hide DigitsEnd, DigitsValue, SignLength, Signed, Exponent;
  }

  /** `strtod` reads every well-formed literal whole, and as its value. */
  lemma FormRead(f: Form)
    requires WellFormed(f)
    ensures Strtod(Spell(f)) == Converted(Mantissa(f), Scale(f), |Spell(f)|)
  {
    hide At, DigitsEnd, DigitsValue, SignText, SignLength, Signed, PowerText, Exponent, Spell, Strtod, PointText;
    var t := Spell(f);
    var a := |SignText(f.sign)|;
    var b := a + |f.whole|;
    var c := b + |PointText(f)|;
    FormParts(f);
    DotOrNot(f);
    if f.point {
      DigitsRead(t, b + 1, f.fraction);
    }
    SignStart(t, a, f);
    SignRead(t, 0, f.sign);
    DigitsRead(t, a, f.whole);
    PowerRead(t, c, f.power);
    StrtodIs(t, a, b, c, f.whole, f.fraction);
  }

  lemma DotOrNot(f: Form)
    requires WellFormed(f)
    ensures |PointText(f)| == if f.point then 1 + |f.fraction| else 0
    ensures Digits(f.whole + f.fraction) && f.whole + f.fraction != []
  {
  }

  lemma SignStart(t: seq<byte>, a: nat, f: Form)
    requires WellFormed(f) && a == |SignText(f.sign)| && At(t, a, f.whole)
    requires f.point ==> a + |f.whole| < |t| && t[a + |f.whole|] == DOT
    ensures f.sign.NoSign? ==> 0 < |t| && t[0] != PLUS && t[0] != MINUS
  {
    if f.whole != [] {
      AtFirst(t, a, f.whole);
    }
  }

  lemma WholeAt(t: seq<byte>)
    ensures At(t, 0, t)
  {
  }

  lemma PowerStart(t: seq<byte>, c: nat, p: Power)
    requires At(t, c, PowerText(p)) && c + |PowerText(p)| == |t|
    ensures c < |t| ==> !IsDigit(t[c]) && t[c] != DOT
  {
    if p.Power? {
      AtFirst(t, c, PowerText(p));
    }
  }

  // ----- nothing else is read

  function SignAt(t: seq<byte>, p: nat): Sign
    requires p <= |t|
  {
    if p < |t| && t[p] == PLUS then Plus else if p < |t| && t[p] == MINUS then Minus else NoSign
  }

  lemma SignFound(t: seq<byte>, p: nat)
    requires p <= |t|
    ensures var s := SignAt(t, p);
            && SignText(s) == t[p..p + SignLength(t, p)] && forall n :: Signed(t, p, n) == WithSign(s, n)
  {
  }

  function PowerAt(t: seq<byte>, c: nat): Power
    requires c <= |t|
  {
    if Exponent(t, c).1 == c then NoPower
    else
      var x := c + 1 + SignLength(t, c + 1);
      Power(t[c] == 69, SignAt(t, c + 1), t[x..DigitsEnd(t, x)])
  }

  lemma PowerFound(t: seq<byte>, c: nat)
    requires c <= |t|
    ensures var p := PowerAt(t, c);
            && (p.Power? ==> Digits(p.digits) && p.digits != [])
            && PowerText(p) == t[c..Exponent(t, c).1]
            && Exponent(t, c).0 == if p.NoPower? then 0 else WithSign(p.sign, DigitsValue(p.digits))
  {
    hide DigitsValue, SignText, SignLength;
    if Exponent(t, c).1 != c {
      SignFound(t, c + 1);
      var x := c + 1 + SignLength(t, c + 1);
      var y := DigitsEnd(t, x);
      assert t[c..y] == [t[c]] + t[c + 1..x] + t[x..y];
    }
  }

  lemma FourSlices(t: seq<byte>, a: nat, b: nat, c: nat, y: nat)
    requires a <= b <= c <= y <= |t|
    ensures t[0..a] + t[a..b] + t[b..c] + t[c..y] == t[..y]
  {
  }

  /** The places `strtod` finds in a literal. */
  lemma PlacesFound(t: seq<byte>) returns (a: nat, b: nat, c: nat, fraction: seq<byte>)
    ensures a == SignLength(t, 0) <= b <= c <= |t| && b == DigitsEnd(t, a)
    ensures if b < |t| && t[b] == DOT then b < c == DigitsEnd(t, b + 1) && fraction == t[b + 1..c]
            else b == c && fraction == []
    ensures Digits(t[a..b]) && Digits(fraction) && Digits(t[a..b] + fraction)
    ensures Strtod(t).Converted? ==> t[a..b] + fraction != []
  {
    hide DigitsValue, Signed, Exponent;
    a := SignLength(t, 0);
    b := DigitsEnd(t, a);
    c := if b < |t| && t[b] == DOT then DigitsEnd(t, b + 1) else b;
    fraction := if b < c then t[b + 1..c] else [];
    assert forall k :: 0 <= k < |fraction| ==> fraction[k] == t[b + 1 + k];
  }

  /** Whatever `strtod` reads is a well-formed literal of that value. */
  lemma FormFound(t: seq<byte>) returns (f: Form)
    requires Strtod(t).Converted?
    ensures WellFormed(f) && Spell(f) == t[..Strtod(t).used]
    ensures Strtod(t).mantissa == Mantissa(f) && Strtod(t).exponent == Scale(f)
  {
    hide Strtod, DigitsValue, SignText, SignLength, DigitsEnd, PowerText, Exponent, Signed, SignAt, PowerAt;
    var a, b, c, fraction := PlacesFound(t);
    var point := b < |t| && t[b] == DOT;
    f := Form(SignAt(t, 0), t[a..b], point, fraction, PowerAt(t, c));
    SignFound(t, 0);
    PowerFound(t, c);
    StrtodIs(t, a, b, c, t[a..b], fraction);
    assert PointText(f) == t[b..c] by { PointFound(t, b, c, f); }
    FourSlices(t, a, b, c, Exponent(t, c).1);
  }

  lemma PointFound(t: seq<byte>, b: nat, c: nat, f: Form)
    requires b <= c <= |t|
    requires if f.point then b < c && t[b] == DOT && f.fraction == t[b + 1..c] else b == c
    ensures PointText(f) == t[b..c]
  {
  }

  // ----- in a text, and as printed

  /** A literal of at most 63 characters that begins with a digit or a minus, wherever it stands. */
  lemma FormParsed(s: seq<byte>, i: nat, f: Form)
    requires WellFormed(f) && At(s, i, Spell(f)) && |Spell(f)| <= 63
    requires f.sign.Minus? || (f.sign.NoSign? && f.whole != [])
    requires i + |Spell(f)| < |s| && !NumberChar(s[i + |Spell(f)|])
    ensures 0 < |Spell(f)| && NumberAt(s, i, i + |Spell(f)|, Mantissa(f), Scale(f))
  {
    hide At, Strtod;
    FormChars(f);
    FormRead(f);
    TokenIs(s, i, Spell(f), MAX_TOKEN);
    AtSlice(s, i, Spell(f));
    AtFirst(s, i, Spell(f));
  }

  /** A longer run of number characters is cut after 63. */
  lemma {:induction false} LongTokenCut(s: seq<byte>, i: nat, n: nat)
    requires i + n <= |s| && forall k :: i <= k < i + n ==> NumberChar(s[k])
    ensures TokenEnd(s, i, n) == i + n && MAX_TOKEN == 63
    decreases n
  {
    if n > 0 {
      LongTokenCut(s, i + 1, n - 1);
    }
  }

  lemma FormChars(f: Form)
    requires WellFormed(f)
    ensures forall k :: 0 <= k < |Spell(f)| ==> NumberChar(Spell(f)[k])
    ensures (f.sign.Minus? ==> |Spell(f)| > 0 && Spell(f)[0] == MINUS)
    ensures f.sign.NoSign? && f.whole != [] ==> |Spell(f)| > 0 && IsDigit(Spell(f)[0])
  {
  }

  lemma {:induction false} DecimalShortest(d: seq<byte>)
    requires Digits(d) && d != []
    ensures |Decimal(DigitsValue(d))| <= |d|
    ensures |Decimal(DigitsValue(d))| == |d| ==> Decimal(DigitsValue(d)) == d
  {
    var n := |d| - 1;
    if n > 0 {
      DecimalShortest(d[..n]);
      assert DigitsValue(d) / 10 == DigitsValue(d[..n]) && DigitsValue(d) % 10 == DigitValue(d[n]);
      if DigitsValue(d[..n]) > 0 {
        assert d == d[..n] + [d[n]];
      }
    } else {
      assert DigitsValue(d[..0]) == 0;
    }
  }

  /** Integers are printed in the one shortest way: no sign but a needed minus, no leading zero. */
  lemma NumberTextShortest(f: Form)
    requires WellFormed(f) && !f.point && f.power.NoPower?
    ensures |NumberText(Mantissa(f))| <= |Spell(f)|
    ensures |NumberText(Mantissa(f))| == |Spell(f)| ==> NumberText(Mantissa(f)) == Spell(f)
  {
    hide Decimal, DigitsValue;
    assert f.whole + f.fraction == f.whole;
    DecimalShortest(f.whole);
  }
}
