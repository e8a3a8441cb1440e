/** The texts of a tree, with blanks anywhere between tokens: exactly what the parser accepts for it. */
module Grammar {
  import opened Common
  import opened Bytes
  import opened Json
  import opened Number
  import opened StringLiteral
  import opened JsonParser
  import opened RoundTrip

  // ----- texts, by where their tokens are

  /** Nothing but blanks and control characters from `i` up to `v`. */
  predicate Blanks(s: seq<byte>, i: nat, v: nat) {
    i <= v <= |s| && forall k :: i <= k < v ==> s[k] <= 32
  }

  /** A number token: the longest one `strtod` finds in the next 63 characters. */
  predicate NumberAt(s: seq<byte>, i: nat, n: nat, mantissa: int, exponent: int)
    requires i < n <= |s|
  {
    && (s[i] == MINUS || IsDigit(s[i]))
    && Strtod(s[i..TokenEnd(s, i, MAX_TOKEN)]) == Converted(mantissa, exponent, n - i)
  }

  /** A string literal from its opening quote to behind its closing one. */
  predicate StringAt(s: seq<byte>, i: nat, n: nat, t: seq<byte>) {
    && i + 1 < n <= |s| && s[i] == QUOTE && ScanEnd(s, i + 1) == Some(n - 1)
    && Decode(s, i + 1, n - 1).ok && CString(Decode(s, i + 1, n - 1).written) == t
  }

  /** `s[i..n]` is a text of the tree. */
  ghost predicate ValueAt(s: seq<byte>, i: nat, n: nat, j: Json)
    decreases j, 0
  {
    && i < n <= |s|
    && match j
       case Null => At(s, i, NULL_TEXT) && n == i + 4
       case False => At(s, i, FALSE_TEXT) && n == i + 5
       case True => At(s, i, TRUE_TEXT) && n == i + 4
       case Number(m, e) => NumberAt(s, i, n, m, e)
       case String(t) => StringAt(s, i, n, t)
       case Array(items) =>
         && i + 1 < n && s[i] == LBRACKET && s[n - 1] == RBRACKET
         && if items == [] then Blanks(s, i + 1, n - 1) else ItemsAt(s, i + 1, n - 1, items)
       case Object(members) =>
         && i + 1 < n && s[i] == LBRACE && s[n - 1] == RBRACE
         && if members == [] then Blanks(s, i + 1, n - 1) else MembersAt(s, i + 1, n - 1, members)
  }

  /** A value with blanks around it. */
  ghost predicate ItemAt(s: seq<byte>, i: nat, n: nat, j: Json)
    decreases j, 1
  {
    exists v: nat, w: nat :: Blanks(s, i, v) && ValueAt(s, v, w, j) && Blanks(s, w, n)
  }

  /** Elements, separated by commas. */
  ghost predicate ItemsAt(s: seq<byte>, i: nat, n: nat, items: seq<Json>)
    requires items != []
    decreases items, 2
  {
    if |items| == 1 then ItemAt(s, i, n, items[0])
    else exists x: nat :: ItemAt(s, i, x, items[0]) && x < |s| && s[x] == COMMA && ItemsAt(s, x + 1, n, items[1..])
  }

  /** A key and a value with a colon between them, and blanks anywhere around. */
  ghost predicate MemberAt(s: seq<byte>, i: nat, n: nat, m: Member)
    decreases m, 2
  {
    exists k: nat, e: nat, c: nat ::
      && Blanks(s, i, k) && StringAt(s, k, e, m.key) && Blanks(s, e, c)
      && c < |s| && s[c] == COLON && ItemAt(s, c + 1, n, m.value)
  }

  ghost predicate MembersAt(s: seq<byte>, i: nat, n: nat, members: seq<Member>)
    requires members != []
    decreases members, 3
  {
    if |members| == 1 then MemberAt(s, i, n, members[0])
    else
      exists x: nat :: MemberAt(s, i, x, members[0]) && x < |s| && s[x] == COMMA && MembersAt(s, x + 1, n, members[1..])
  }

  // ----- blanks

  lemma {:induction false} SkipTo(s: seq<byte>, i: nat, v: nat)
    requires Blanks(s, i, v) && v < |s| && s[v] > 32
    ensures SkipSpace(s, i) == v
    decreases v - i
  {
    if i < v {
      SkipTo(s, i + 1, v);
    }
  }

  lemma {:induction false} Skipped(s: seq<byte>, i: nat)
    requires |s| > 0 && i < |s|
    ensures Blanks(s, i, SkipSpace(s, i))
    decreases |s| - i
  {
    if s[i] <= 32 && i + 1 < |s| {
      Skipped(s, i + 1);
    }
  }

  lemma FirstByte(s: seq<byte>, i: nat, n: nat, j: Json)
    requires ValueAt(s, i, n, j)
    ensures i < n <= |s| && s[i] > 32 && s[i] != RBRACKET && s[i] != RBRACE
  {
    hide Strtod, ScanEnd, Decode, At;
    match j
    case Null => AtFirst(s, i, NULL_TEXT);
    case False => AtFirst(s, i, FALSE_TEXT);
    case True => AtFirst(s, i, TRUE_TEXT);
    case _ =>
  }

  // ----- every text of a tree is read as the tree

  lemma StringParsed(s: seq<byte>, i: nat, n: nat, t: seq<byte>)
    ensures i < |s| && ParseString(s, i) == Got(t, n) <==> StringAt(s, i, n, t)
  {
    hide ScanEnd, Decode, CString;
  }

  lemma LeafParsed(s: seq<byte>, i: nat, n: nat, j: Json, d: nat)
    requires Terminated(s) && n < |s| && ValueAt(s, i, n, j) && !j.Array? && !j.Object?
    ensures ParseValue(s, i, d) == Got(j, n)
  {
    hide Terminated, ScanEnd, Decode, CString, ParseValue, Strtod, At;
    match j
    case Number(m, e) => Dispatch(s, i, d);
    case String(t) =>
      Dispatch(s, i, d);
      StringParsed(s, i, n, t);
    case _ => KeywordReadBack(s, i, d);
  }

  lemma {:induction false} ValueParsed(s: seq<byte>, i: nat, n: nat, j: Json, d: nat)
    requires Terminated(s) && n < |s| && ValueAt(s, i, n, j) && d <= NESTING_LIMIT
    ensures ParseValue(s, i, d) == Expected(Depth(j) + d <= NESTING_LIMIT, j, n)
    decreases j, 0
  {
    hide Terminated, ParseValue, ParseItems, ParseMembers, SkipSpace, ItemsAt, MembersAt, StringAt, NumberAt, At;
    FirstByte(s, i, n, j);
    match j
    case Array(items) =>
      DispatchContainer(s, i, d);
      if items == [] {
        SkipTo(s, i + 1, n - 1);
      } else {
        ItemsStart(s, i + 1, n - 1, items);
        if d < NESTING_LIMIT {
          ItemsParsed(s, i, n - 1, items, d + 1);
        }
      }
    case Object(members) =>
      DispatchContainer(s, i, d);
      if members == [] {
        SkipTo(s, i + 1, n - 1);
      } else {
        MembersStart(s, i + 1, n - 1, members);
        if d < NESTING_LIMIT {
          MembersParsed(s, i, n - 1, members, d + 1);
        }
        ObjectStep(s, i, d);
      }
    case _ => LeafParsed(s, i, n, j, d);
  }

  /** The list does not look empty. */
  lemma ItemsStart(s: seq<byte>, i: nat, n: nat, items: seq<Json>)
    requires items != [] && ItemsAt(s, i, n, items)
    ensures i < |s| && s[SkipSpace(s, i)] != RBRACKET
  {
    hide ValueAt, SkipSpace;
    var x: nat;
    if |items| == 1 {
      x := n;
    } else {
      x :| ItemAt(s, i, x, items[0]) && x < |s| && s[x] == COMMA && ItemsAt(s, x + 1, n, items[1..]);
    }
    var v: nat, w: nat :| Blanks(s, i, v) && ValueAt(s, v, w, items[0]) && Blanks(s, w, x);
    FirstByte(s, v, w, items[0]);
    SkipTo(s, i, v);
  }

  lemma MembersStart(s: seq<byte>, i: nat, n: nat, members: seq<Member>)
    requires members != [] && MembersAt(s, i, n, members)
    ensures i < |s| && s[SkipSpace(s, i)] == QUOTE
  {
    hide ItemAt, SkipSpace;
    var x: nat;
    if |members| == 1 {
      x := n;
    } else {
      x :| MemberAt(s, i, x, members[0]) && x < |s| && s[x] == COMMA && MembersAt(s, x + 1, n, members[1..]);
    }
    var m := members[0];
    var k: nat, e: nat, c: nat :|
      && Blanks(s, i, k) && StringAt(s, k, e, m.key) && Blanks(s, e, c)
      && c < |s| && s[c] == COLON && ItemAt(s, c + 1, x, m.value);
    SkipTo(s, i, k);
  }

  /** An element: found behind the blanks, and the next token behind the blanks that follow. */
  lemma {:induction false} ItemParsed(s: seq<byte>, i: nat, n: nat, j: Json, d: nat)
    requires Terminated(s) && n < |s| && s[n] > 32 && ItemAt(s, i, n, j) && d <= NESTING_LIMIT
    ensures i < |s| && var p := ParseValue(s, SkipSpace(s, i), d);
            if Depth(j) + d <= NESTING_LIMIT then p.Got? && p.value == j && SkipSpace(s, p.next) == n else p.Bad?
    decreases j, 1
  {
    hide ValueAt, Terminated, ParseValue, SkipSpace, Depth;
    var v: nat, w: nat :| Blanks(s, i, v) && ValueAt(s, v, w, j) && Blanks(s, w, n);
    FirstByte(s, v, w, j);
    SkipTo(s, i, v);
    SkipTo(s, w, n);
    ValueParsed(s, v, w, j, d);
  }

  lemma {:induction false} ItemsParsed(s: seq<byte>, i: nat, n: nat, items: seq<Json>, d: nat)
    requires Terminated(s) && n < |s| && s[n] == RBRACKET && items != []
    requires ItemsAt(s, i + 1, n, items) && d <= NESTING_LIMIT
    ensures i + 1 < |s| && ParseItems(s, i, d) == Expected(ItemsDepth(items) + d <= NESTING_LIMIT, items, n + 1)
    decreases items, 2
  {
    hide ItemAt, Terminated, ParseValue, ParseItems, SkipSpace, Depth;
    var x: nat;
    if |items| == 1 {
      x := n;
      assert items == [items[0]] && items[1..] == [];
    } else {
      x :| ItemAt(s, i + 1, x, items[0]) && x < |s| && s[x] == COMMA && ItemsAt(s, x + 1, n, items[1..]);
      ItemsParsed(s, x, n, items[1..], d);
      assert items == [items[0]] + items[1..];
    }
    ItemParsed(s, i + 1, x, items[0], d);
    var p := ParseValue(s, SkipSpace(s, i + 1), d);
    if p.Got? {
      ItemsStep(s, i, d, items[0], p.next, x);
    } else {
      ItemsStop(s, i, d);
    }
  }

  lemma {:induction false} MemberParsed(s: seq<byte>, i: nat, n: nat, m: Member, d: nat)
    requires Terminated(s) && n < |s| && s[n] > 32 && MemberAt(s, i + 1, n, m) && d <= NESTING_LIMIT
    ensures i + 1 < |s| && var p := ParseMember(s, i, d);
            if Depth(m.value) + d <= NESTING_LIMIT then p.Got? && p.value == m && SkipSpace(s, p.next) == n else p.Bad?
    decreases m, 2
  {
    hide ItemAt, Terminated, ParseValue, SkipSpace, Depth, StringAt, ParseString;
    var k: nat, e: nat, c: nat :|
      && Blanks(s, i + 1, k) && StringAt(s, k, e, m.key) && Blanks(s, e, c)
      && c < |s| && s[c] == COLON && ItemAt(s, c + 1, n, m.value);
    QuoteAt(s, k, e, m.key);
    SkipTo(s, i + 1, k);
    StringParsed(s, k, e, m.key);
    SkipTo(s, e, c);
    ItemParsed(s, c + 1, n, m.value, d);
  }

  lemma QuoteAt(s: seq<byte>, i: nat, n: nat, t: seq<byte>)
    requires StringAt(s, i, n, t)
    ensures i + 1 < n <= |s| && s[i] == QUOTE
  {
  }

  lemma {:induction false} MembersParsed(s: seq<byte>, i: nat, n: nat, members: seq<Member>, d: nat)
    requires Terminated(s) && n < |s| && s[n] == RBRACE && members != []
    requires MembersAt(s, i + 1, n, members) && d <= NESTING_LIMIT
    ensures i + 1 < |s| && ParseMembers(s, i, d) == Expected(MembersDepth(members) + d <= NESTING_LIMIT, members, n + 1)
    decreases members, 3
  {
    hide MemberAt, Terminated, ParseMember, ParseMembers, SkipSpace, Depth;
    var x: nat;
    if |members| == 1 {
      x := n;
      assert members == [members[0]] && members[1..] == [];
    } else {
      x :| MemberAt(s, i + 1, x, members[0]) && x < |s| && s[x] == COMMA && MembersAt(s, x + 1, n, members[1..]);
      MembersParsed(s, x, n, members[1..], d);
      assert members == [members[0]] + members[1..];
    }
    MemberParsed(s, i, x, members[0], d);
    MembersStep(s, i, d);
  }

  // ----- whatever is read is a text of the tree

  lemma {:induction false} ValueFound(s: seq<byte>, i: nat, d: nat)
    requires Terminated(s) && i < |s| && ParseValue(s, i, d).Got?
    ensures ValueAt(s, i, ParseValue(s, i, d).next, ParseValue(s, i, d).value)
    decreases |s| - i, 5
  {
    hide Terminated, ParseArray, ParseObject, ParseString, StringAt, Strtod, At;
    var p := ParseValue(s, i, d);
    if s[i] == QUOTE {
      NotKeyword(s, i);
      StringParsed(s, i, p.next, p.value.text);
    } else if s[i] == LBRACKET {
      DispatchContainer(s, i, d);
      ArrayFound(s, i, d);
    } else if s[i] == LBRACE {
      DispatchContainer(s, i, d);
      ObjectFound(s, i, d);
    }
  }

  lemma {:induction false} ArrayFound(s: seq<byte>, i: nat, d: nat)
    requires Terminated(s) && i < |s| && s[i] == LBRACKET && ParseArray(s, i, d).Got?
    ensures ValueAt(s, i, ParseArray(s, i, d).next, ParseArray(s, i, d).value)
    decreases |s| - i, 3
  {
    hide ParseItems, ItemsAt, SkipSpace;
    if s[SkipSpace(s, i + 1)] == RBRACKET {
      Skipped(s, i + 1);
    } else {
      ItemsFound(s, i, d + 1);
    }
  }

  lemma {:induction false} ObjectFound(s: seq<byte>, i: nat, d: nat)
    requires Terminated(s) && i < |s| && s[i] == LBRACE && ParseObject(s, i, d).Got?
    ensures ValueAt(s, i, ParseObject(s, i, d).next, ParseObject(s, i, d).value)
    decreases |s| - i, 3
  {
    hide ParseMembers, MembersAt, SkipSpace;
    if s[SkipSpace(s, i + 1)] == RBRACE {
      Skipped(s, i + 1);
    } else {
      MembersFound(s, i, d + 1);
    }
  }

  /** A value behind blanks, and the next token behind more. */
  lemma {:induction false} ItemFound(s: seq<byte>, i: nat, d: nat)
    requires Terminated(s) && i < |s| && ParseValue(s, SkipSpace(s, i), d).Got?
    ensures var p := ParseValue(s, SkipSpace(s, i), d);
            ItemAt(s, i, SkipSpace(s, p.next), p.value)
    decreases |s| - i, 6
  {
    hide Terminated, ParseValue, ValueAt, SkipSpace;
    var v := SkipSpace(s, i);
    var p := ParseValue(s, v, d);
    ValueFound(s, v, d);
    Skipped(s, i);
    Skipped(s, p.next);
  }

  lemma {:induction false} ItemsFound(s: seq<byte>, i: nat, d: nat)
    requires Terminated(s) && i + 1 < |s| && ParseItems(s, i, d).Got?
    ensures var p := ParseItems(s, i, d);
            p.next > 0 && s[p.next - 1] == RBRACKET && p.value != [] && ItemsAt(s, i + 1, p.next - 1, p.value)
    decreases |s| - i, 1
  {
    hide Terminated, ParseValue, ItemAt, SkipSpace;
    var x := ParseValue(s, SkipSpace(s, i + 1), d);
    ItemFound(s, i + 1, d);
    var m := SkipSpace(s, x.next);
    if s[m] == COMMA {
      ItemsFound(s, m, d);
      var p, rest := ParseItems(s, i, d), ParseItems(s, m, d);
      assert p.value == [x.value] + rest.value && p.value[1..] == rest.value;
      assert ItemAt(s, i + 1, m, p.value[0]) && ItemsAt(s, m + 1, p.next - 1, p.value[1..]);
    }
  }

  lemma {:induction false} MemberFound(s: seq<byte>, i: nat, d: nat)
    requires Terminated(s) && i + 1 < |s| && ParseMember(s, i, d).Got?
    ensures var p := ParseMember(s, i, d);
            MemberAt(s, i + 1, SkipSpace(s, p.next), p.value)
    decreases |s| - i, 1
  {
    hide ParseValue, ParseString, StringAt, ItemAt, SkipSpace;
    var k := SkipSpace(s, i + 1);
    var key := ParseString(s, k);
    var c := SkipSpace(s, key.next);
    StringParsed(s, k, key.next, key.value);
    Skipped(s, i + 1);
    Skipped(s, key.next);
    ItemFound(s, c + 1, d);
  }

  lemma {:induction false} MembersFound(s: seq<byte>, i: nat, d: nat)
    requires Terminated(s) && i + 1 < |s| && ParseMembers(s, i, d).Got?
    ensures var p := ParseMembers(s, i, d);
            p.next > 0 && s[p.next - 1] == RBRACE && p.value != [] && MembersAt(s, i + 1, p.next - 1, p.value)
    decreases |s| - i, 2
  {
    hide Terminated, ParseMember, MemberAt, SkipSpace;
    var x := ParseMember(s, i, d);
    MemberFound(s, i, d);
    var m := SkipSpace(s, x.next);
    if s[m] == COMMA {
      MembersFound(s, m, d);
      var p, rest := ParseMembers(s, i, d), ParseMembers(s, m, d);
      assert p.value == [x.value] + rest.value && p.value[1..] == rest.value;
      assert MemberAt(s, i + 1, m, p.value[0]) && MembersAt(s, m + 1, p.next - 1, p.value[1..]);
    }
  }

  // ----- exactly what is accepted

  /** The parser reads `j` from `i` to `n` if and only if that is a text of `j`, and it does not nest too deep. */
  lemma ValueIff(s: seq<byte>, i: nat, n: nat, j: Json, d: nat)
    requires Terminated(s) && i < |s| && d <= NESTING_LIMIT
    ensures ParseValue(s, i, d) == Got(j, n) <==> n < |s| && ValueAt(s, i, n, j) && Depth(j) + d <= NESTING_LIMIT
  {
    hide ParseValue, ValueAt, Depth;
    if ParseValue(s, i, d) == Got(j, n) {
      ValueFound(s, i, d);
      AcceptedDepth(s, i, d);
    }
    if n < |s| && ValueAt(s, i, n, j) {
      ValueParsed(s, i, n, j, d);
    }
  }

  /** A whole text of the tree: blanks, a value that ends at `n`, and only blanks up to the end if they are looked
      at. */
  ghost predicate TextOf(text: seq<byte>, j: Json, end: nat, requireNul: bool) {
    var s := text + [NUL];
    exists v: nat, n: nat ::
      && Blanks(s, 0, v) && ValueAt(s, v, n, j) && n <= |text|
      && if requireNul then Blanks(s, n, |text|) && end == |text| else end == n
  }

  /** `cJSON_ParseWithOpts` returns a tree and an end if and only if the input is such a text of the tree and nests at
      most 1000 deep. */
  lemma ParseTextIff(text: seq<byte>, requireNul: bool, j: Json, end: nat)
    requires NulFree(text)
    ensures ParseText(text, requireNul) == Got(j, end)
       <==> TextOf(text, j, end, requireNul) && Depth(j) <= NESTING_LIMIT
  {
    hide ParseValue, ValueAt, SkipSpace, Depth;
    var s := text + [NUL];
    if ParseText(text, requireNul) == Got(j, end) {
      var v := SkipSpace(s, 0);
      var n := ParseValue(s, v, 0).next;
      Skipped(s, 0);
      ValueIff(s, v, n, j, 0);
      Skipped(s, n);
      assert requireNul ==> SkipSpace(s, n) == |text|;
    }
    if TextOf(text, j, end, requireNul) && Depth(j) <= NESTING_LIMIT {
      var v: nat, n: nat :|
        && Blanks(s, 0, v) && ValueAt(s, v, n, j) && n <= |text|
        && if requireNul then Blanks(s, n, |text|) && end == |text| else end == n;
      FirstByte(s, v, n, j);
      SkipTo(s, 0, v);
      ValueIff(s, v, n, j, 0);
      if requireNul {
        SkipToEnd(s, n);
      }
    }
  }

  lemma {:induction false} SkipToEnd(s: seq<byte>, i: nat)
    requires |s| > 0 && i < |s| && Blanks(s, i, |s| - 1) && s[|s| - 1] == NUL
    ensures SkipSpace(s, i) == |s| - 1
    decreases |s| - i
  {
    if i < |s| - 1 {
      SkipToEnd(s, i + 1);
    }
  }

  /** Brackets must match: what opens with a bracket or a brace is refused if the closing one is nowhere, and without
      a colon an object can only be empty. */
  lemma Mismatch(text: seq<byte>, requireNul: bool, v: nat)
    requires NulFree(text) && v < |text| && Blanks(text, 0, v)
    ensures var r := ParseText(text, requireNul);
            r.Got? && text[v] == LBRACKET ==> RBRACKET in text
    ensures var r := ParseText(text, requireNul);
            r.Got? && text[v] == LBRACE ==> RBRACE in text && (r.value == Object([]) || COLON in text)
  {
    hide ParseText, ValueAt, MembersAt, SkipSpace, Depth;
    var r := ParseText(text, requireNul);
    if r.Got? && text[v] > 32 {
      var s := text + [NUL];
      ParseTextIff(text, requireNul, r.value, r.next);
      var w: nat, n: nat :|
        && Blanks(s, 0, w) && ValueAt(s, w, n, r.value) && n <= |text|
        && if requireNul then Blanks(s, n, |text|) && r.next == |text| else r.next == n;
      FirstByte(s, w, n, r.value);
      assert w == v by { SkipTo(s, 0, w); SkipTo(s, 0, v); }
      Container(s, v, n, r.value);
      assert s[n - 1] == text[n - 1];
      if text[v] == LBRACE && r.value != Object([]) {
        var c := FirstColon(s, v + 1, n - 1, r.value.members);
        assert s[c] == text[c];
      }
    }
  }

  lemma Container(s: seq<byte>, i: nat, n: nat, j: Json)
    requires ValueAt(s, i, n, j)
    ensures s[i] == LBRACKET ==> j.Array? && s[n - 1] == RBRACKET
    ensures s[i] == LBRACE ==> j.Object? && s[n - 1] == RBRACE
    ensures s[i] == LBRACE && j.members != [] ==> i + 1 < n && MembersAt(s, i + 1, n - 1, j.members)
  {
    hide Strtod, ScanEnd, Decode, At, MembersAt, ItemsAt;
    match j
    case Null => AtFirst(s, i, NULL_TEXT);
    case False => AtFirst(s, i, FALSE_TEXT);
    case True => AtFirst(s, i, TRUE_TEXT);
    case _ =>
  }

  lemma FirstColon(s: seq<byte>, i: nat, n: nat, members: seq<Member>) returns (c: nat)
    requires members != [] && MembersAt(s, i, n, members) && n < |s|
    ensures c < |s| && s[c] == COLON
  {
    hide ItemAt, StringAt;
    var x: nat;
    if |members| == 1 {
      x := n;
    } else {
      x :| MemberAt(s, i, x, members[0]) && x < |s| && s[x] == COMMA && MembersAt(s, x + 1, n, members[1..]);
    }
    var m := members[0];
    var k: nat, e: nat, d: nat :|
      && Blanks(s, i, k) && StringAt(s, k, e, m.key) && Blanks(s, e, d)
      && d < |s| && s[d] == COLON && ItemAt(s, d + 1, x, m.value);
    c := d;
  }
}
