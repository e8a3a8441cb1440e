/** The formatted text as a layout of the unformatted one: a pretty-printer on bytes that knows nothing of trees. */
module Layout {
  import opened Common
  import opened Bytes
  import opened Json
  import opened StringLiteral

  datatype Container = InArray | InObject

  /** The last byte that matters for what comes next. */
  datatype After = Brace | Comma | Other

  /** The open containers, innermost last. */
  datatype State = State(stack: seq<Container>, after: After)

  predicate Inside(st: State, c: Container) {
    st.stack != [] && st.stack[|st.stack| - 1] == c
  }

  /** A string here is a key: it opens a line. */
  predicate KeyNext(st: State) {
    Inside(st, InObject) && st.after != Other
  }

  function Pop(stack: seq<Container>): seq<Container> {
    if stack == [] then [] else stack[..|stack| - 1]
  }

  /** What is written for a byte outside of strings. */
  function Written(st: State, c: byte): seq<byte> {
    if c == LBRACE then [LBRACE, LF]
    else if c == RBRACE then (if st.after == Brace then [] else [LF]) + Tabs(|Pop(st.stack)|) + [RBRACE]
    else if c == COMMA then (if Inside(st, InObject) then [COMMA, LF] else [COMMA, SPACE])
    else if c == COLON then [COLON, TAB]
    else [c]
  }

  function Next(st: State, c: byte): State {
    if c == LBRACE then State(st.stack + [InObject], Brace)
    else if c == LBRACKET then State(st.stack + [InArray], Other)
    else if c == RBRACE || c == RBRACKET then State(Pop(st.stack), Other)
    else if c == COMMA then State(st.stack, Comma)
    else State(st.stack, Other)
  }

  /** Keys are indented by the number of open containers and open a line, colons are followed by a tab, commas by a
      blank in arrays and a line break in objects, and a closing brace stands on a line of its own. */
  function Pretty(s: seq<byte>, i: nat, st: State): seq<byte>
    requires i <= |s|
    decreases |s| - i
  {
    if i == |s| then []
    else if s[i] == QUOTE && ScanEnd(s, i + 1).Some? then
      var end := ScanEnd(s, i + 1).value;
      (if KeyNext(st) then Tabs(|st.stack|) else []) + s[i..end + 1] + Pretty(s, end + 1, State(st.stack, Other))
    else Written(st, s[i]) + Pretty(s, i + 1, Next(st, s[i]))
  }

  /** The part `t` at `i` is laid out as `u`, and leads from one state to the other. */
  ghost predicate Lays(s: seq<byte>, i: nat, t: seq<byte>, u: seq<byte>, a: State, b: State) {
    i + |t| <= |s| && Pretty(s, i, a) == u + Pretty(s, i + |t|, b)
  }

  lemma Then(s: seq<byte>, i: nat, t: seq<byte>, u: seq<byte>, t': seq<byte>, u': seq<byte>, a: State, b: State,
             c: State)
    requires Lays(s, i, t, u, a, b) && Lays(s, i + |t|, t', u', b, c)
    ensures Lays(s, i, t + t', u + u', a, c)
  {
    hide Pretty;
    var rest := Pretty(s, i + |t| + |t'|, c);
    assert u + (u' + rest) == (u + u') + rest;
  }

  lemma NothingLays(s: seq<byte>, i: nat, a: State)
    requires i <= |s|
    ensures Lays(s, i, [], [], a, a)
  {
    hide Pretty;
    assert [] + Pretty(s, i, a) == Pretty(s, i, a);
  }

  lemma ByteLays(s: seq<byte>, i: nat, c: byte, a: State)
    requires i < |s| && s[i] == c && c != QUOTE
    ensures Lays(s, i, [c], Written(a, c), a, Next(a, c))
  {
  }

  predicate Plain(c: byte) {
    c != QUOTE && c != LBRACE && c != RBRACE && c != LBRACKET && c != RBRACKET && c != COMMA && c != COLON
  }

  lemma {:induction false} PlainLays(s: seq<byte>, i: nat, t: seq<byte>, a: State)
    requires At(s, i, t) && t != [] && forall k :: 0 <= k < |t| ==> Plain(t[k])
    ensures Lays(s, i, t, t, a, State(a.stack, Other))
    decreases |t|
  {
    hide Pretty;
    AtFirst(s, i, t);
    ByteLays(s, i, t[0], a);
    if |t| > 1 {
      assert t == [t[0]] + t[1..];
      AtConcat(s, i, [t[0]], t[1..]);
      PlainLays(s, i + 1, t[1..], State(a.stack, Other));
      Then(s, i, [t[0]], [t[0]], t[1..], t[1..], a, State(a.stack, Other), State(a.stack, Other));
    } else {
      assert t == [t[0]];
    }
  }

  lemma QuotedLays(s: seq<byte>, i: nat, t: seq<byte>, a: State)
    requires At(s, i, Quoted(t))
    ensures Lays(s, i, Quoted(t), (if KeyNext(a) then Tabs(|a.stack|) else []) + Quoted(t), a, State(a.stack, Other))
  {
    hide At, Escape, ScanEnd;
    var body := Escape(t) + [QUOTE];
    assert Quoted(t) == [QUOTE] + body;
    AtConcat(s, i, [QUOTE], body);
    AtFirst(s, i, [QUOTE]);
    ScanEscaped(s, i + 1, t);
    AtSame(s, i, Quoted(t));
  }

  lemma AtSame(s: seq<byte>, i: nat, t: seq<byte>)
    requires At(s, i, t)
    ensures i + |t| <= |s| && s[i..i + |t|] == t
  {
  }

  // ----- the text of a tree

  lemma {:induction false} ValueLays(s: seq<byte>, i: nat, j: Json, a: State)
    requires Printable(j) && At(s, i, Text(j, false, |a.stack|)) && !KeyNext(a)
    ensures Lays(s, i, Text(j, false, |a.stack|), Text(j, true, |a.stack|), a, State(a.stack, Other))
    decreases j, 2
  {
    hide At, Pretty, Lays, Quoted, NumberText, ItemsText, MembersText, Open, Close;
    match j
    case Number(m, _) =>
      NumberPlain(m);
      PlainLays(s, i, NumberText(m), a);
    case String(t) =>
      QuotedLays(s, i, t, a);
      assert [] + Quoted(t) == Quoted(t);
    case Array(items) => ArrayLays(s, i, items, a);
    case Object(members) => ObjectLays(s, i, members, a);
    case _ =>
      KeywordsPlain();
      PlainLays(s, i, Text(j, false, |a.stack|), a);
  }

  lemma NumberPlain(n: int)
    ensures forall k :: 0 <= k < |NumberText(n)| ==> Plain(NumberText(n)[k])
  {
    hide Decimal;
  }

  lemma KeywordsPlain()
    ensures forall k :: 0 <= k < 4 ==> Plain(NULL_TEXT[k]) && Plain(TRUE_TEXT[k])
    ensures forall k :: 0 <= k < 5 ==> Plain(FALSE_TEXT[k])
  {
  }

  lemma {:induction false} ArrayLays(s: seq<byte>, i: nat, items: seq<Json>, a: State)
    requires PrintableItems(items)
    requires At(s, i, [LBRACKET] + ItemsText(items, false, |a.stack| + 1) + [RBRACKET])
    ensures Lays(s, i, [LBRACKET] + ItemsText(items, false, |a.stack| + 1) + [RBRACKET],
                 [LBRACKET] + ItemsText(items, true, |a.stack| + 1) + [RBRACKET], a, State(a.stack, Other))
    decreases items, 1
  {
    hide At, Pretty, Lays, ItemsText;
    var t, u := ItemsText(items, false, |a.stack| + 1), ItemsText(items, true, |a.stack| + 1);
    var b := State(a.stack + [InArray], Other);
    AtConcat(s, i, [LBRACKET] + t, [RBRACKET]);
    AtConcat(s, i, [LBRACKET], t);
    AtFirst(s, i, [LBRACKET]);
    AtFirst(s, i + 1 + |t|, [RBRACKET]);
    ByteLays(s, i, LBRACKET, a);
    if items == [] {
      NoItemsText(false, |a.stack| + 1);
      NoItemsText(true, |a.stack| + 1);
      NothingLays(s, i + 1, b);
    } else {
      ItemsLay(s, i + 1, items, b);
    }
    Then(s, i, [LBRACKET], [LBRACKET], t, u, a, b, b);
    ByteLays(s, i + 1 + |t|, RBRACKET, b);
    assert Pop(b.stack) == a.stack;
    Then(s, i, [LBRACKET] + t, [LBRACKET] + u, [RBRACKET], [RBRACKET], a, b, State(a.stack, Other));
  }

  lemma NoItemsText(fmt: bool, d: nat)
    ensures ItemsText([], fmt, d) == []
  {
  }

  lemma {:induction false} ItemsLay(s: seq<byte>, i: nat, items: seq<Json>, a: State)
    requires PrintableItems(items) && items != [] && At(s, i, ItemsText(items, false, |a.stack|)) && Inside(a, InArray)
    ensures Lays(s, i, ItemsText(items, false, |a.stack|), ItemsText(items, true, |a.stack|), a, State(a.stack, Other))
    decreases items, 0
  {
    hide At, Pretty, Lays, Text;
    var d := |a.stack|;
    var t, u := Text(items[0], false, d), Text(items[0], true, d);
    var b := State(a.stack, Other);
    if |items| == 1 {
      ValueLays(s, i, items[0], a);
    } else {
      var t', u' := ItemsText(items[1..], false, d), ItemsText(items[1..], true, d);
      var c := State(a.stack, Comma);
      AtConcat(s, i, t + [COMMA], t');
      AtConcat(s, i, t, [COMMA]);
      AtFirst(s, i + |t|, [COMMA]);
      ValueLays(s, i, items[0], a);
      ByteLays(s, i + |t|, COMMA, b);
      Then(s, i, t, u, [COMMA], [COMMA, SPACE], a, b, c);
      ItemsLay(s, i + |t| + 1, items[1..], c);
      Then(s, i, t + [COMMA], u + [COMMA, SPACE], t', u', a, c, b);
    }
  }

  lemma {:induction false} ObjectLays(s: seq<byte>, i: nat, members: seq<Member>, a: State)
    requires PrintableMembers(members)
    requires At(s, i, Open(false) + MembersText(members, false, |a.stack| + 1) + Close(false, |a.stack|))
    ensures Lays(s, i, Open(false) + MembersText(members, false, |a.stack| + 1) + Close(false, |a.stack|),
                 Open(true) + MembersText(members, true, |a.stack| + 1) + Close(true, |a.stack|),
                 a, State(a.stack, Other))
    decreases members, 1
  {
    hide At, Pretty, Lays, MembersText;
    var d := |a.stack|;
    var t, u := MembersText(members, false, d + 1), MembersText(members, true, d + 1);
    var b := State(a.stack + [InObject], Brace);
    assert Close(false, d) == [RBRACE];
    AtRegroup(s, i, [LBRACE], t, [RBRACE]);
    AtConcat(s, i, [LBRACE], t + [RBRACE]);
    AtFirst(s, i, [LBRACE]);
    ByteLays(s, i, LBRACE, a);
    assert Pop(b.stack) == a.stack;
    if members == [] {
      NoMembersText(false, d + 1);
      NoMembersText(true, d + 1);
      assert t + [RBRACE] == [RBRACE];
      AtFirst(s, i + 1, [RBRACE]);
      ByteLays(s, i + 1, RBRACE, b);
      assert u + Close(true, d) == Written(b, RBRACE);
    } else {
      MembersLay(s, i + 1, members, b);
    }
    Then(s, i, [LBRACE], [LBRACE, LF], t + [RBRACE], u + Close(true, d), a, b, State(a.stack, Other));
    Regroup([LBRACE], t, [RBRACE]);
    Regroup([LBRACE, LF], u, Close(true, d));
  }

  lemma Regroup(x: seq<byte>, y: seq<byte>, z: seq<byte>)
    ensures x + (y + z) == x + y + z
  {
  }

  lemma AtRegroup(s: seq<byte>, i: nat, x: seq<byte>, y: seq<byte>, z: seq<byte>)
    requires At(s, i, x + y + z)
    ensures At(s, i, x + (y + z))
  {
    Regroup(x, y, z);
  }

  lemma NoMembersText(fmt: bool, d: nat)
    ensures MembersText([], fmt, d) == []
  {
  }

  lemma KeyLays(s: seq<byte>, i: nat, key: seq<byte>, a: State)
    requires At(s, i, KeyText(key, false, |a.stack|)) && KeyNext(a)
    ensures Lays(s, i, KeyText(key, false, |a.stack|), KeyText(key, true, |a.stack|), a, State(a.stack, Other))
  {
    hide At, Pretty, Lays, Quoted;
    var d := |a.stack|;
    var b := State(a.stack, Other);
    assert KeyText(key, false, d) == Quoted(key) + [COLON];
    AtConcat(s, i, Quoted(key), [COLON]);
    AtFirst(s, i + |Quoted(key)|, [COLON]);
    QuotedLays(s, i, key, a);
    ByteLays(s, i + |Quoted(key)|, COLON, b);
    Then(s, i, Quoted(key), Tabs(d) + Quoted(key), [COLON], [COLON, TAB], a, b, b);
  }

  /** The members and the closing brace behind them. */
  lemma {:induction false} MembersLay(s: seq<byte>, i: nat, members: seq<Member>, a: State)
    requires PrintableMembers(members) && members != [] && KeyNext(a)
    requires At(s, i, MembersText(members, false, |a.stack|) + [RBRACE])
    ensures Lays(s, i, MembersText(members, false, |a.stack|) + [RBRACE],
                 MembersText(members, true, |a.stack|) + Close(true, |a.stack| - 1), a, State(Pop(a.stack), Other))
    decreases members, 0
  {
    hide At, Pretty, Lays, Text, KeyText, MembersText;
    var d := |a.stack|;
    var m := members[0];
    var k, k' := KeyText(m.key, false, d), KeyText(m.key, true, d);
    var v, v' := Text(m.value, false, d), Text(m.value, true, d);
    var rest, rest' := MembersText(members[1..], false, d), MembersText(members[1..], true, d);
    var b, c := State(a.stack, Other), State(a.stack, Comma);
    MembersSplit(members, false, d);
    MembersSplit(members, true, d);
    if |members| == 1 {
      NoMembersText(false, d);
      NoMembersText(true, d);
      assert members[1..] == [];
      assert MembersText(members, false, d) + [RBRACE] == (k + v) + [RBRACE];
      AtConcat(s, i, k + v, [RBRACE]);
      AtConcat(s, i, k, v);
      AtFirst(s, i + |k + v|, [RBRACE]);
      MemberLays(s, i, m, a);
      ByteLays(s, i + |k + v|, RBRACE, b);
      Then(s, i, k + v, k' + v', [RBRACE], Written(b, RBRACE), a, b, State(Pop(a.stack), Other));
      LastMember(k' + v', d);
    } else {
      assert MembersText(members, false, d) + [RBRACE] == (k + v) + ([COMMA] + (rest + [RBRACE]));
      AtConcat(s, i, k + v, [COMMA] + (rest + [RBRACE]));
      AtConcat(s, i, k, v);
      AtConcat(s, i + |k + v|, [COMMA], rest + [RBRACE]);
      AtFirst(s, i + |k + v|, [COMMA]);
      MemberLays(s, i, m, a);
      ByteLays(s, i + |k + v|, COMMA, b);
      MembersLay(s, i + |k + v| + 1, members[1..], c);
      Then(s, i + |k + v|, [COMMA], [COMMA, LF], rest + [RBRACE], rest' + Close(true, d - 1), b, c,
           State(Pop(a.stack), Other));
      Then(s, i, k + v, k' + v', [COMMA] + (rest + [RBRACE]), [COMMA, LF] + (rest' + Close(true, d - 1)), a, b,
           State(Pop(a.stack), Other));
      MoreMembers(k' + v', rest', Close(true, d - 1));
    }
  }

  lemma MemberLays(s: seq<byte>, i: nat, m: Member, a: State)
    requires Printable(m.value) && KeyNext(a)
    requires At(s, i, KeyText(m.key, false, |a.stack|))
    requires At(s, i + |KeyText(m.key, false, |a.stack|)|, Text(m.value, false, |a.stack|))
    ensures Lays(s, i, KeyText(m.key, false, |a.stack|) + Text(m.value, false, |a.stack|),
                 KeyText(m.key, true, |a.stack|) + Text(m.value, true, |a.stack|), a, State(a.stack, Other))
    decreases m, 3
  {
    hide At, Pretty, Lays, Text, KeyText;
    var d := |a.stack|;
    var b := State(a.stack, Other);
    KeyLays(s, i, m.key, a);
    ValueLays(s, i + |KeyText(m.key, false, d)|, m.value, b);
    Then(s, i, KeyText(m.key, false, d), KeyText(m.key, true, d), Text(m.value, false, d), Text(m.value, true, d),
         a, b, b);
  }

  lemma MembersSplit(members: seq<Member>, fmt: bool, d: nat)
    requires members != []
    ensures MembersText(members, fmt, d) == KeyText(members[0].key, fmt, d) + Text(members[0].value, fmt, d)
              + MemberEnd(fmt, |members| > 1) + MembersText(members[1..], fmt, d)
  {
  }

  lemma LastMember(u: seq<byte>, d: nat)
    requires d > 0
    ensures u + ([LF] + Tabs(d - 1) + [RBRACE]) == u + MemberEnd(true, false) + [] + Close(true, d - 1)
  {
  }

  lemma MoreMembers(u: seq<byte>, rest: seq<byte>, close: seq<byte>)
    ensures u + ([COMMA, LF] + (rest + close)) == u + MemberEnd(true, true) + rest + close
  {
    assert MemberEnd(true, true) == [COMMA, LF];
  }

  /** For every tree, the formatted text is the layout of the unformatted one. */
  lemma FormattedIsLayout(j: Json)
    requires Printable(j)
    ensures Text(j, true, 0) == Pretty(Text(j, false, 0), 0, State([], Other))
  {
    hide Pretty;
    var s := Text(j, false, 0);
    assert At(s, 0, s);
    ValueLays(s, 0, j, State([], Other));
    assert Pretty(s, |s|, State([], Other)) == [] by { PrettyEnd(s, State([], Other)); }
    assert Text(j, true, 0) + [] == Text(j, true, 0);
  }

  lemma PrettyEnd(s: seq<byte>, a: State)
    ensures Pretty(s, |s|, a) == []
  {
  }
}
