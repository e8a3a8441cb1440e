/** Parsing what was printed: the tree comes back exactly when its nesting is within the limit. */
module RoundTrip {
  import opened Bytes
  import opened Json
  import opened Number
  import opened StringLiteral
  import opened JsonParser

  // ----- accepted input nests at most NESTING_LIMIT deep

  lemma {:induction false} AcceptedDepth(s: seq<byte>, i: nat, d: nat)
    requires Terminated(s) && i < |s| && d <= NESTING_LIMIT
    ensures ParseValue(s, i, d).Got? ==> Depth(ParseValue(s, i, d).value) + d <= NESTING_LIMIT
    decreases |s| - i, 3
  {
    hide Terminated, ParseArray, ParseObject, ParseNumber, ParseStringValue, At;
    if s[i] == LBRACKET {
      AcceptedArrayDepth(s, i, d);
    } else if s[i] == LBRACE {
      AcceptedObjectDepth(s, i, d);
    }
  }

  lemma {:induction false} AcceptedArrayDepth(s: seq<byte>, i: nat, d: nat)
    requires Terminated(s) && i < |s| && s[i] == LBRACKET && d <= NESTING_LIMIT
    ensures ParseArray(s, i, d).Got? ==> Depth(ParseArray(s, i, d).value) + d <= NESTING_LIMIT
    decreases |s| - i, 1
  {
    hide ParseItems;
    if d < NESTING_LIMIT {
      AcceptedItemsDepth(s, i, d + 1);
    }
  }

  lemma {:induction false} AcceptedObjectDepth(s: seq<byte>, i: nat, d: nat)
    requires Terminated(s) && i < |s| && s[i] == LBRACE && d <= NESTING_LIMIT
    ensures ParseObject(s, i, d).Got? ==> Depth(ParseObject(s, i, d).value) + d <= NESTING_LIMIT
    decreases |s| - i, 2
  {
    hide ParseMembers;
    if d < NESTING_LIMIT {
      AcceptedMembersDepth(s, i, d + 1);
    }
  }

  lemma {:induction false} AcceptedItemsDepth(s: seq<byte>, i: nat, d: nat)
    requires Terminated(s) && i + 1 < |s| && d <= NESTING_LIMIT
    ensures ParseItems(s, i, d).Got? ==> ItemsDepth(ParseItems(s, i, d).value) + d <= NESTING_LIMIT
    decreases |s| - i, 0
  {
    hide ParseValue, SkipSpace, Depth;
    var first := ParseValue(s, SkipSpace(s, i + 1), d);
    if first.Got? {
      AcceptedDepth(s, SkipSpace(s, i + 1), d);
      var m := SkipSpace(s, first.next);
      if s[m] == COMMA {
        AcceptedItemsDepth(s, m, d);
      }
    }
  }

  lemma {:induction false} AcceptedMembersDepth(s: seq<byte>, i: nat, d: nat)
    requires Terminated(s) && i + 1 < |s| && d <= NESTING_LIMIT
    ensures ParseMembers(s, i, d).Got? ==> MembersDepth(ParseMembers(s, i, d).value) + d <= NESTING_LIMIT
    decreases |s| - i, 1
  {
    hide ParseMember, SkipSpace, Depth;
    var first := ParseMember(s, i, d);
    if first.Got? {
      AcceptedMemberDepth(s, i, d);
      var m := SkipSpace(s, first.next);
      if s[m] == COMMA {
        AcceptedMembersDepth(s, m, d);
      }
    }
  }

  lemma {:induction false} AcceptedMemberDepth(s: seq<byte>, i: nat, d: nat)
    requires Terminated(s) && i + 1 < |s| && d <= NESTING_LIMIT && ParseMember(s, i, d).Got?
    ensures Depth(ParseMember(s, i, d).value.value) + d <= NESTING_LIMIT
    decreases |s| - i, 0
  {
    hide ParseValue, SkipSpace, Depth, ParseString;
    var key := ParseString(s, SkipSpace(s, i + 1));
    AcceptedDepth(s, SkipSpace(s, SkipSpace(s, key.next) + 1), d);
  }

  // ----- leaves

  lemma StringReadBack(s: seq<byte>, i: nat, t: seq<byte>)
    requires NulFree(t) && At(s, i, Quoted(t))
    ensures ParseString(s, i) == Got(t, i + |Quoted(t)|)
  {
    hide At, Escape, ScanEnd, Decode, CString;
    assert Quoted(t) == [QUOTE] + (Escape(t) + [QUOTE]);
    AtConcat(s, i, [QUOTE], Escape(t) + [QUOTE]);
    assert s[i..i + 1][0] == s[i];
    ScanEscaped(s, i + 1, t);
    AtConcat(s, i + 1, Escape(t), [QUOTE]);
    DecodeEscaped(s, i + 1, t, i + 1 + |Escape(t)|);
  }

  /** Whitespace of the formatted text is skipped up to the next token. */
  lemma {:induction false} SkipBlank(s: seq<byte>, i: nat, blank: seq<byte>)
    requires At(s, i, blank) && forall k :: 0 <= k < |blank| ==> blank[k] <= 32
    requires i + |blank| < |s| && s[i + |blank|] > 32
    ensures SkipSpace(s, i) == i + |blank|
    decreases |blank|
  {
    if blank != [] {
      assert blank == [blank[0]] + blank[1..];
      AtConcat(s, i, [blank[0]], blank[1..]);
      assert s[i..i + 1][0] == s[i];
      SkipBlank(s, i + 1, blank[1..]);
    }
  }

  /** The result the parser owes for the printed text of `j` at depth `d`. */
  function Expected<T>(fits: bool, value: T, next: nat): Parsed<T> {
    if fits then Got(value, next) else Bad
  }

  lemma {:induction false} ValueReadBack(s: seq<byte>, i: nat, j: Json, fmt: bool, pd: nat, d: nat)
    requires Terminated(s) && Printable(j) && d <= NESTING_LIMIT
    requires At(s, i, Text(j, fmt, pd)) && i + |Text(j, fmt, pd)| < |s| && !NumberChar(s[i + |Text(j, fmt, pd)|])
    ensures ParseValue(s, i, d) == Expected(Depth(j) + d <= NESTING_LIMIT, j, i + |Text(j, fmt, pd)|)
    decreases j, 0
  {
    hide At, Terminated, ParseValue, NumberText, Quoted;
    match j {
      case Null => KeywordReadBack(s, i, d);
      case False => KeywordReadBack(s, i, d);
      case True => KeywordReadBack(s, i, d);
      case Number(m, _) => NumberLeafReadBack(s, i, m, d);
      case String(text) => StringLeafReadBack(s, i, text, d);
      case Array(items) => ArrayReadBack(s, i, items, fmt, pd, d);
      case Object(members) => ObjectReadBack(s, i, members, fmt, pd, d);
    }
  }

  lemma KeywordReadBack(s: seq<byte>, i: nat, d: nat)
    requires Terminated(s) && i < |s|
    ensures At(s, i, NULL_TEXT) ==> ParseValue(s, i, d) == Got(Null, i + 4)
    ensures At(s, i, FALSE_TEXT) ==> ParseValue(s, i, d) == Got(False, i + 5)
    ensures At(s, i, TRUE_TEXT) ==> ParseValue(s, i, d) == Got(True, i + 4)
  {
    hide At, Terminated, ParseValue, ParseString, ParseNumber;
    Dispatch(s, i, d);
    if At(s, i, FALSE_TEXT) {
      AtFirst(s, i, FALSE_TEXT);
      NotNull(s, i);
    }
    if At(s, i, TRUE_TEXT) {
      AtFirst(s, i, TRUE_TEXT);
      NotNull(s, i);
      NotFalse(s, i);
    }
  }

  lemma NumberLeafReadBack(s: seq<byte>, i: nat, m: int, d: nat)
    requires Terminated(s) && PlainInteger(m, 0) && At(s, i, NumberText(m))
    requires i + |NumberText(m)| < |s| && !NumberChar(s[i + |NumberText(m)|])
    ensures ParseValue(s, i, d) == Got(Number(m, 0), i + |NumberText(m)|)
  {
    hide At, Terminated, ParseValue, ParseString, NumberText;
    AtFirst(s, i, NumberText(m));
    NumberReadBack(s, i, m);
    Dispatch(s, i, d);
  }

  lemma StringLeafReadBack(s: seq<byte>, i: nat, text: seq<byte>, d: nat)
    requires Terminated(s) && NulFree(text) && At(s, i, Quoted(text)) && i + |Quoted(text)| < |s|
    ensures ParseValue(s, i, d) == Got(String(text), i + |Quoted(text)|)
  {
    hide At, Terminated, ParseValue, ParseString, Quoted;
    AtFirst(s, i, Quoted(text));
    StringReadBack(s, i, text);
    Dispatch(s, i, d);
  }

  /** The dispatch of `parse_value` on leaves. */
  lemma Dispatch(s: seq<byte>, i: nat, d: nat)
    requires Terminated(s) && i < |s|
    ensures At(s, i, NULL_TEXT) ==> ParseValue(s, i, d) == Got(Null, i + 4)
    ensures !At(s, i, NULL_TEXT) && At(s, i, FALSE_TEXT) ==> ParseValue(s, i, d) == Got(False, i + 5)
    ensures !At(s, i, NULL_TEXT) && !At(s, i, FALSE_TEXT) && At(s, i, TRUE_TEXT) ==>
      ParseValue(s, i, d) == Got(True, i + 4)
    ensures s[i] == QUOTE && ParseString(s, i).Got? ==>
              ParseValue(s, i, d) == Got(String(ParseString(s, i).value), ParseString(s, i).next)
    ensures s[i] == MINUS || IsDigit(s[i]) ==> ParseValue(s, i, d) == ParseNumber(s, i)
  {
    hide At, Terminated, ParseString, ParseNumber, ParseArray, ParseObject;
    if s[i] == QUOTE || s[i] == MINUS || IsDigit(s[i]) {
      NotKeyword(s, i);
    }
  }

  /** The dispatch of `parse_value` on the containers. */
  lemma DispatchContainer(s: seq<byte>, i: nat, d: nat)
    requires Terminated(s) && i < |s|
    ensures s[i] == LBRACKET ==> ParseValue(s, i, d) == ParseArray(s, i, d)
    ensures s[i] == LBRACE ==> ParseValue(s, i, d) == ParseObject(s, i, d)
  {
    hide At, Terminated, ParseArray, ParseObject;
    if s[i] == LBRACKET || s[i] == LBRACE {
      NotKeyword(s, i);
    }
  }

  lemma NotNull(s: seq<byte>, i: nat)
    requires i < |s| && s[i] != 110
    ensures !At(s, i, NULL_TEXT)
  {
    if At(s, i, NULL_TEXT) { AtFirst(s, i, NULL_TEXT); }
  }

  lemma NotFalse(s: seq<byte>, i: nat)
    requires i < |s| && s[i] != 102
    ensures !At(s, i, FALSE_TEXT)
  {
    if At(s, i, FALSE_TEXT) { AtFirst(s, i, FALSE_TEXT); }
  }

  lemma NotKeyword(s: seq<byte>, i: nat)
    requires i < |s| && s[i] != 110 && s[i] != 102 && s[i] != 116
    ensures !At(s, i, NULL_TEXT) && !At(s, i, FALSE_TEXT) && !At(s, i, TRUE_TEXT)
  {
    hide At;
    NotNull(s, i);
    NotFalse(s, i);
    if At(s, i, TRUE_TEXT) { AtFirst(s, i, TRUE_TEXT); }
  }

  lemma {:induction false} ArrayReadBack(s: seq<byte>, i: nat, items: seq<Json>, fmt: bool, pd: nat, d: nat)
    requires Terminated(s) && PrintableItems(items) && d <= NESTING_LIMIT
    requires At(s, i, [LBRACKET] + ItemsText(items, fmt, pd + 1) + [RBRACKET])
    ensures i < |s| && ParseValue(s, i, d)
         == Expected(1 + ItemsDepth(items) + d <= NESTING_LIMIT, Array(items),
                     i + 1 + |ItemsText(items, fmt, pd + 1)| + 1)
    decreases items, 2
  {
    hide At, Terminated, Text, ParseValue, ParseItems, SkipSpace;
    var body := ItemsText(items, fmt, pd + 1);
    AtConcat(s, i, [LBRACKET] + body, [RBRACKET]);
    AtConcat(s, i, [LBRACKET], body);
    AtFirst(s, i, [LBRACKET]);
    AtFirst(s, i + 1 + |body|, [RBRACKET]);
    DispatchContainer(s, i, d);
    AtNothing(s, i + 1);
    if items == [] {
      SkipBlank(s, i + 1, []);
    } else {
      ItemsFirst(s, i + 1, items, fmt, pd + 1);
      SkipBlank(s, i + 1, []);
      if d < NESTING_LIMIT {
        ItemsReadBack(s, i, [], items, fmt, pd + 1, d + 1);
      }
    }
  }

  lemma AtNothing(s: seq<byte>, i: nat)
    requires i <= |s|
    ensures At(s, i, [])
  {
  }

  lemma ItemsFirst(s: seq<byte>, v: nat, items: seq<Json>, fmt: bool, pd: nat)
    requires PrintableItems(items) && items != [] && At(s, v, ItemsText(items, fmt, pd))
    ensures At(s, v, Text(items[0], fmt, pd)) && v < |s| && s[v] > 32 && s[v] != RBRACKET
  {
    hide At, Text;
    var head := Text(items[0], fmt, pd);
    if |items| > 1 {
      AtConcat(s, v, head + Separator(fmt), ItemsText(items[1..], fmt, pd));
      AtConcat(s, v, head, Separator(fmt));
    }
    TextNulFree(items[0], fmt, pd);
    AtFirst(s, v, head);
  }

  lemma ItemsSplit(s: seq<byte>, v: nat, items: seq<Json>, fmt: bool, pd: nat)
    requires items != [] && At(s, v, ItemsText(items, fmt, pd))
    ensures |items| == 1 ==> ItemsText(items, fmt, pd) == Text(items[0], fmt, pd)
    ensures |items| > 1 ==>
              var n := v + |Text(items[0], fmt, pd)|;
              var gap := if fmt then [SPACE] else [];
              && n < |s| && s[n] == COMMA && At(s, n + 1, gap) && At(s, n + 1 + |gap|, ItemsText(items[1..], fmt, pd))
              && v + |ItemsText(items, fmt, pd)| == n + 1 + |gap| + |ItemsText(items[1..], fmt, pd)|
  {
    hide At, Text;
    if |items| > 1 {
      var gap := if fmt then [SPACE] else [];
      var n := v + |Text(items[0], fmt, pd)|;
      AtConcat(s, v, Text(items[0], fmt, pd) + Separator(fmt), ItemsText(items[1..], fmt, pd));
      AtConcat(s, v, Text(items[0], fmt, pd), Separator(fmt));
      assert Separator(fmt) == [COMMA] + gap;
      AtConcat(s, n, [COMMA], gap);
      AtFirst(s, n, [COMMA]);
    }
  }

  /** One round of the comma loop. */
  lemma ItemsStep(s: seq<byte>, i: nat, d: nat, x: Json, n: nat, m: nat)
    requires Terminated(s) && i + 1 < |s| && n < |s|
    requires ParseValue(s, SkipSpace(s, i + 1), d) == Got(x, n) && SkipSpace(s, n) == m
    ensures s[m] == RBRACKET ==> ParseItems(s, i, d) == Got([x], m + 1)
    ensures s[m] == COMMA && ParseItems(s, m, d).Bad? ==> ParseItems(s, i, d).Bad?
    ensures s[m] == COMMA && ParseItems(s, m, d).Got? ==>
              ParseItems(s, i, d) == Got([x] + ParseItems(s, m, d).value, ParseItems(s, m, d).next)
  {
    hide Terminated, ParseValue, SkipSpace;
  }

  lemma ItemsStop(s: seq<byte>, i: nat, d: nat)
    requires Terminated(s) && i + 1 < |s| && ParseValue(s, SkipSpace(s, i + 1), d).Bad?
    ensures ParseItems(s, i, d).Bad?
  {
    hide Terminated, ParseValue, SkipSpace;
  }

  /** `blank` is the whitespace between the separator at `i` and the first element. */
  lemma {:induction false} ItemsReadBack(s: seq<byte>, i: nat, blank: seq<byte>, items: seq<Json>, fmt: bool, pd: nat,
                                         d: nat)
    requires Terminated(s) && PrintableItems(items) && items != [] && d <= NESTING_LIMIT
    requires i < |s| && At(s, i + 1, blank) && forall k :: 0 <= k < |blank| ==> blank[k] <= 32
    requires At(s, i + 1 + |blank|, ItemsText(items, fmt, pd))
    requires var e := i + 1 + |blank| + |ItemsText(items, fmt, pd)|; e < |s| && s[e] == RBRACKET
    ensures i + 1 < |s| && ParseItems(s, i, d)
         == Expected(ItemsDepth(items) + d <= NESTING_LIMIT, items, i + 1 + |blank| + |ItemsText(items, fmt, pd)| + 1)
    decreases items, 1
  {
    hide At, Terminated, Text, ParseValue, ParseItems, Depth, SkipSpace, ItemsText;
    var v := i + 1 + |blank|;
    var n := v + |Text(items[0], fmt, pd)|;
    ItemsFirst(s, v, items, fmt, pd);
    SkipBlank(s, i + 1, blank);
    ItemsSplit(s, v, items, fmt, pd);
    ValueReadBack(s, v, items[0], fmt, pd, d);
    AtNothing(s, n);
    SkipBlank(s, n, []);
    if Depth(items[0]) + d <= NESTING_LIMIT {
      ItemsStep(s, i, d, items[0], n, n);
    } else {
      ItemsStop(s, i, d);
    }
    if |items| == 1 {
      assert items == [items[0]];
      assert ItemsDepth(items[1..]) == 0;
    } else {
      ItemsReadBack(s, n, if fmt then [SPACE] else [], items[1..], fmt, pd, d);
      assert items == [items[0]] + items[1..];
    }
  }

  lemma {:induction false} ObjectReadBack(s: seq<byte>, i: nat, members: seq<Member>, fmt: bool, pd: nat, d: nat)
    requires Terminated(s) && PrintableMembers(members) && d <= NESTING_LIMIT
    requires At(s, i, Open(fmt) + MembersText(members, fmt, pd + 1) + Close(fmt, pd))
    ensures i < |s| && ParseValue(s, i, d)
         == Expected(1 + MembersDepth(members) + d <= NESTING_LIMIT, Object(members),
                     i + |Open(fmt)| + |MembersText(members, fmt, pd + 1)| + |Close(fmt, pd)|)
    decreases members, 2
  {
    hide At, Terminated, Text, ParseValue, ParseMembers, SkipSpace, MembersText, Close, Open;
    var body := MembersText(members, fmt, pd + 1);
    var gap := if fmt then [LF] else [];
    ObjectParts(s, i, body, fmt, pd);
    DispatchContainer(s, i, d);
    if members == [] {
      NoMembers(fmt, pd + 1);
      CloseSkipped(s, i + 1, gap, fmt, pd);
    } else {
      FirstMember(s, i, gap, members, fmt, pd + 1);
      if d < NESTING_LIMIT {
        MembersReadBack(s, i, gap, members, fmt, pd + 1, d + 1, pd);
      }
      ObjectStep(s, i, d);
    }
  }

  /** The pieces of a printed object. */
  lemma ObjectParts(s: seq<byte>, i: nat, body: seq<byte>, fmt: bool, pd: nat)
    requires At(s, i, Open(fmt) + body + Close(fmt, pd))
    ensures var gap := if fmt then [LF] else [];
            && i < |s| && s[i] == LBRACE && |Open(fmt)| == 1 + |gap| && At(s, i + 1, gap)
            && At(s, i + 1 + |gap|, body) && At(s, i + 1 + |gap| + |body|, Close(fmt, pd))
  {
    hide At, Close;
    var gap := if fmt then [LF] else [];
    AtConcat(s, i, Open(fmt) + body, Close(fmt, pd));
    AtConcat(s, i, Open(fmt), body);
    assert Open(fmt) == [LBRACE] + gap;
    AtConcat(s, i, [LBRACE], gap);
    AtFirst(s, i, [LBRACE]);
  }

  /** An object that is not empty is its members, unless it nests too deep. */
  lemma ObjectStep(s: seq<byte>, i: nat, d: nat)
    requires Terminated(s) && i + 1 < |s| && s[i] == LBRACE && s[SkipSpace(s, i + 1)] == QUOTE
    ensures ParseObject(s, i, d) == if d >= NESTING_LIMIT || ParseMembers(s, i, d + 1).Bad? then Bad
              else Got(Object(ParseMembers(s, i, d + 1).value), ParseMembers(s, i, d + 1).next)
  {
    hide Terminated, SkipSpace, ParseMembers;
  }

  lemma NoMembers(fmt: bool, d: nat)
    ensures MembersText([], fmt, d) == []
  {
  }

  lemma FirstMember(s: seq<byte>, i: nat, gap: seq<byte>, members: seq<Member>, fmt: bool, pd: nat)
    requires members != [] && PrintableMembers(members) && i < |s|
    requires gap == (if fmt then [LF] else []) && At(s, i + 1, gap)
    requires At(s, i + 1 + |gap|, MembersText(members, fmt, pd))
    ensures i + 1 < |s| && s[SkipSpace(s, i + 1)] == QUOTE
  {
    hide At, Text, SkipSpace, KeyText, MembersText;
    MembersSplit(s, i + 1 + |gap|, members, fmt, pd);
    TextNulFree(members[0].value, fmt, pd);
    AtFirst(s, i + 1 + |gap| + |KeyText(members[0].key, fmt, pd)|, Text(members[0].value, fmt, pd));
    KeyReadBack(s, i, gap, members[0].key, fmt, pd);
  }

  /** A line break, the closing indentation and the brace. */
  lemma CloseSkipped(s: seq<byte>, p: nat, gap: seq<byte>, fmt: bool, pd: nat)
    requires At(s, p, gap) && gap == (if fmt then [LF] else []) && At(s, p + |gap|, Close(fmt, pd))
    ensures var e := p + |gap| + |Close(fmt, pd)| - 1;
            e < |s| && s[e] == RBRACE && SkipSpace(s, p) == e
  {
    hide At, SkipSpace;
    AtConcat(s, p + |gap|, Indent(fmt, pd), [RBRACE]);
    AtFirst(s, p + |gap| + |Indent(fmt, pd)|, [RBRACE]);
    IndentSkipped(s, p, gap, fmt, pd);
  }

  lemma IndentSkipped(s: seq<byte>, p: nat, gap: seq<byte>, fmt: bool, pd: nat)
    requires At(s, p, gap) && gap == (if fmt then [LF] else []) && At(s, p + |gap|, Indent(fmt, pd))
    requires var e := p + |gap| + |Indent(fmt, pd)|; e < |s| && s[e] > 32
    ensures SkipSpace(s, p) == p + |gap| + |Indent(fmt, pd)|
  {
    hide At, SkipSpace;
    AtJoin(s, p, gap, Indent(fmt, pd));
    SkipBlank(s, p, gap + Indent(fmt, pd));
  }

  lemma AtJoin(s: seq<byte>, i: nat, a: seq<byte>, b: seq<byte>)
    requires At(s, i, a) && At(s, i + |a|, b)
    ensures At(s, i, a + b)
  {
    assert s[i..i + |a| + |b|] == s[i..i + |a|] + s[i + |a|..i + |a| + |b|];
  }

  lemma KeySplit(s: seq<byte>, v: nat, key: seq<byte>, fmt: bool, pd: nat)
    requires At(s, v, KeyText(key, fmt, pd))
    ensures var q := v + |Indent(fmt, pd)|;
            var c := q + |Quoted(key)|;
            && At(s, v, Indent(fmt, pd)) && At(s, q, Quoted(key)) && At(s, c, Colon(fmt))
            && v + |KeyText(key, fmt, pd)| == c + |Colon(fmt)|
  {
    hide At, Quoted;
    AtConcat(s, v, Indent(fmt, pd) + Quoted(key), Colon(fmt));
    AtConcat(s, v, Indent(fmt, pd), Quoted(key));
  }

  /** The key of a member: found behind line break and indentation, read back, colon next, value behind it. */
  lemma KeyReadBack(s: seq<byte>, i: nat, gap: seq<byte>, key: seq<byte>, fmt: bool, pd: nat)
    requires NulFree(key) && i < |s| && gap == (if fmt then [LF] else []) && At(s, i + 1, gap)
    requires At(s, i + 1 + |gap|, KeyText(key, fmt, pd))
    requires var e := i + 1 + |gap| + |KeyText(key, fmt, pd)|; e < |s| && s[e] > 32
    ensures var q := i + 1 + |gap| + |Indent(fmt, pd)|;
            var c := q + |Quoted(key)|;
            && c + 1 < |s| && s[q] == QUOTE && s[c] == COLON
            && SkipSpace(s, i + 1) == q && ParseString(s, q) == Got(key, c)
            && SkipSpace(s, c) == c && SkipSpace(s, c + 1) == i + 1 + |gap| + |KeyText(key, fmt, pd)|
  {
    hide At, SkipSpace, ParseString, Quoted, KeyText, Indent, Colon;
    var v := i + 1 + |gap|;
    KeySplit(s, v, key, fmt, pd);
    var q := v + |Indent(fmt, pd)|;
    AtFirst(s, q, Quoted(key));
    IndentSkipped(s, i + 1, gap, fmt, pd);
    StringReadBack(s, q, key);
    ColonSkipped(s, q + |Quoted(key)|, fmt);
  }

  lemma ColonSkipped(s: seq<byte>, c: nat, fmt: bool)
    requires At(s, c, Colon(fmt)) && c + |Colon(fmt)| < |s| && s[c + |Colon(fmt)|] > 32
    ensures s[c] == COLON && SkipSpace(s, c) == c && SkipSpace(s, c + 1) == c + |Colon(fmt)|
  {
    hide At, SkipSpace;
    AtFirst(s, c, Colon(fmt));
    AtNothing(s, c);
    SkipBlank(s, c, []);
    assert Colon(fmt) == [COLON] + Colon(fmt)[1..];
    AtConcat(s, c, [COLON], Colon(fmt)[1..]);
    SkipBlank(s, c + 1, Colon(fmt)[1..]);
  }

  lemma MembersSplit(s: seq<byte>, v: nat, members: seq<Member>, fmt: bool, pd: nat)
    requires members != [] && At(s, v, MembersText(members, fmt, pd))
    ensures var k := |KeyText(members[0].key, fmt, pd)|;
            var n := v + k + |Text(members[0].value, fmt, pd)|;
            var end := MemberEnd(fmt, |members| > 1);
            && At(s, v, KeyText(members[0].key, fmt, pd)) && At(s, v + k, Text(members[0].value, fmt, pd))
            && At(s, n, end) && At(s, n + |end|, MembersText(members[1..], fmt, pd))
  {
    hide At, Text, KeyText, MemberEnd;
    var key, text := KeyText(members[0].key, fmt, pd), Text(members[0].value, fmt, pd);
    var end := MemberEnd(fmt, |members| > 1);
    AtConcat(s, v, key + text + end, MembersText(members[1..], fmt, pd));
    AtConcat(s, v, key + text, end);
    AtConcat(s, v, key, text);
  }

  /** One member: key, colon and value are read back, and the offset is at what follows the value. */
  lemma {:induction false} MemberReadBack(s: seq<byte>, i: nat, gap: seq<byte>, members: seq<Member>, fmt: bool,
                                          pd: nat, d: nat)
    requires Terminated(s) && PrintableMembers(members) && members != [] && d <= NESTING_LIMIT && i < |s|
    requires gap == (if fmt then [LF] else []) && At(s, i + 1, gap)
    requires At(s, i + 1 + |gap|, MembersText(members, fmt, pd))
    requires var n := i + 1 + |gap| + |KeyText(members[0].key, fmt, pd)| + |Text(members[0].value, fmt, pd)|;
             n < |s| && !NumberChar(s[n])
    ensures i + 1 < |s| && ParseMember(s, i, d)
         == Expected(Depth(members[0].value) + d <= NESTING_LIMIT, members[0],
                     i + 1 + |gap| + |KeyText(members[0].key, fmt, pd)| + |Text(members[0].value, fmt, pd)|)
    decreases members, 0
  {
    hide At, Terminated, Text, ParseValue, SkipSpace, ParseString, KeyText, MembersText, Depth, Quoted;
    var value := members[0].value;
    MembersSplit(s, i + 1 + |gap|, members, fmt, pd);
    var e := i + 1 + |gap| + |KeyText(members[0].key, fmt, pd)|;
    TextNulFree(value, fmt, pd);
    AtFirst(s, e, Text(value, fmt, pd));
    KeyReadBack(s, i, gap, members[0].key, fmt, pd);
    ValueReadBack(s, e, value, fmt, pd, d);
  }

  lemma {:induction false} MembersReadBack(s: seq<byte>, i: nat, gap: seq<byte>, members: seq<Member>, fmt: bool,
                                           pd: nat, d: nat, cd: nat)
    requires Terminated(s) && PrintableMembers(members) && members != [] && d <= NESTING_LIMIT && i < |s|
    requires gap == (if fmt then [LF] else []) && At(s, i + 1, gap)
    requires At(s, i + 1 + |gap|, MembersText(members, fmt, pd))
    requires At(s, i + 1 + |gap| + |MembersText(members, fmt, pd)|, Close(fmt, cd))
    ensures i + 1 < |s| && ParseMembers(s, i, d)
         == Expected(MembersDepth(members) + d <= NESTING_LIMIT, members,
                     i + 1 + |gap| + |MembersText(members, fmt, pd)| + |Close(fmt, cd)|)
    decreases members, 1
  {
    hide At, Terminated, Text, ParseMember, ParseMembers, SkipSpace, KeyText, Depth, Close, MembersText;
    MembersSplit(s, i + 1 + |gap|, members, fmt, pd);
    MembersLength(members, fmt, pd);
    var n := i + 1 + |gap| + |KeyText(members[0].key, fmt, pd)| + |Text(members[0].value, fmt, pd)|;
    if |members| == 1 {
      NoMembers(fmt, pd);
      assert members == [members[0]] && members[1..] == [];
      assert MemberEnd(fmt, false) == gap;
      CloseSkipped(s, n, gap, fmt, cd);
      NotNumberNext(s, n, gap, fmt, cd);
    } else {
      assert MemberEnd(fmt, true) == [COMMA] + gap;
      AtConcat(s, n, [COMMA], gap);
      AtFirst(s, n, [COMMA]);
      AtNothing(s, n);
      SkipBlank(s, n, []);
      MembersReadBack(s, n, gap, members[1..], fmt, pd, d, cd);
      assert members == [members[0]] + members[1..];
    }
    MemberReadBack(s, i, gap, members, fmt, pd, d);
    MembersStep(s, i, d);
  }

  lemma MembersLength(members: seq<Member>, fmt: bool, pd: nat)
    requires members != []
    ensures |MembersText(members, fmt, pd)| == |KeyText(members[0].key, fmt, pd)| + |Text(members[0].value, fmt, pd)|
              + |MemberEnd(fmt, |members| > 1)| + |MembersText(members[1..], fmt, pd)|
  {
    hide KeyText, Text, MemberEnd;
  }

  /** One round of the comma loop over members. */
  lemma MembersStep(s: seq<byte>, i: nat, d: nat)
    requires Terminated(s) && i + 1 < |s|
    ensures var x := ParseMember(s, i, d);
            if x.Bad? then ParseMembers(s, i, d).Bad? else
              var m := SkipSpace(s, x.next);
              && (s[m] == RBRACE ==> ParseMembers(s, i, d) == Got([x.value], m + 1))
              && (s[m] == COMMA ==> m + 1 < |s|)
              && (s[m] == COMMA && ParseMembers(s, m, d).Bad? ==> ParseMembers(s, i, d).Bad?)
              && (s[m] == COMMA && ParseMembers(s, m, d).Got? ==>
                    ParseMembers(s, i, d) == Got([x.value] + ParseMembers(s, m, d).value, ParseMembers(s, m, d).next))
  {
    hide ParseMember;
  }

  lemma NotNumberNext(s: seq<byte>, n: nat, gap: seq<byte>, fmt: bool, pd: nat)
    requires At(s, n, gap) && gap == (if fmt then [LF] else []) && At(s, n + |gap|, Close(fmt, pd))
    ensures n < |s| && !NumberChar(s[n])
  {
    if fmt {
      AtFirst(s, n, gap);
    } else {
      AtFirst(s, n, Close(fmt, pd));
    }
  }

  /** Round trip: parsing the printed text, formatted or not, returns the same tree and consumes exactly
      the text when the nesting is within the limit, and is refused otherwise. */
  lemma ParseInvertsPrint(j: Json, fmt: bool, requireNul: bool)
    requires Printable(j)
    ensures NulFree(Text(j, fmt, 0))
    ensures ParseText(Text(j, fmt, 0), requireNul) == Expected(Depth(j) <= NESTING_LIMIT, j, |Text(j, fmt, 0)|)
  {
    var t := Text(j, fmt, 0);
    var s := t + [NUL];
    TextNulFree(j, fmt, 0);
    assert At(s, 0, t);
    AtFirst(s, 0, t);
    SkipBlank(s, 0, []);
    ValueReadBack(s, 0, j, fmt, 0, 0);
    assert SkipSpace(s, |t|) == |t|;
  }
}
