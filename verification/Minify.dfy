/** `cJSON_Minify` as a function: what is left of a C string without blanks and comments. */
module Minify {
  import opened Common
  import opened Bytes
  import opened Json
  import opened StringLiteral

  predicate Blank(c: byte) {
    c == SPACE || c == TAB || c == CR || c == LF
  }

  /** First line feed or terminator from `i` on. */
  function LineEnd(s: seq<byte>, i: nat): (r: nat)
    requires Terminated(s) && i < |s|
    ensures i <= r < |s| && (s[r] == NUL || s[r] == LF)
    decreases |s| - i
  {
    if s[i] == NUL || s[i] == LF then i else LineEnd(s, i + 1)
  }

  /** First end-of-comment mark or terminator from `i` on. */
  function CommentEnd(s: seq<byte>, i: nat): (r: nat)
    requires Terminated(s) && i < |s|
    ensures i <= r < |s| && (s[r] == NUL || (r + 2 < |s| && s[r] == STAR && s[r + 1] == SLASH))
    decreases |s| - i
  {
    if s[i] == NUL || (s[i] == STAR && s[i + 1] == SLASH) then i else CommentEnd(s, i + 1)
  }

  function Prepend(u: seq<byte>, rest: Option<seq<byte>>): Option<seq<byte>> {
    if rest.None? then None else Some(u + rest.value)
  }

  /** The text kept from index `i` on; None if there is an unterminated comment or string. */
  function Minified(s: seq<byte>, i: nat): (r: Option<seq<byte>>)
    requires Terminated(s) && i < |s|
    ensures r.Some? ==> |r.value| < |s| - i
    decreases |s| - i
  {
    if s[i] == NUL then Some([])
    else if Blank(s[i]) then Minified(s, i + 1)
    else if s[i] == SLASH && s[i + 1] == SLASH then Minified(s, LineEnd(s, i))
    else if s[i] == SLASH && s[i + 1] == STAR then
      var k := CommentEnd(s, i);
      if s[k] == NUL then None else Minified(s, k + 2)
    else if s[i] == QUOTE then
      match ScanEnd(s, i + 1)
      case None => None
      case Some(end) => Prepend(s[i..end + 1], Minified(s, end + 1))
    else Prepend([s[i]], Minified(s, i + 1))
  }

  // ----- minifying the formatted text of a tree

  /** The text `t` at `i` is minified to `u`, whatever follows it. */
  ghost predicate Reduces(s: seq<byte>, i: nat, t: seq<byte>, u: seq<byte>)
    requires Terminated(s)
  {
    i + |t| < |s| && Minified(s, i) == Prepend(u, Minified(s, i + |t|))
  }

  lemma Then(s: seq<byte>, i: nat, t: seq<byte>, u: seq<byte>, t': seq<byte>, u': seq<byte>)
    requires Terminated(s) && Reduces(s, i, t, u) && Reduces(s, i + |t|, t', u')
    ensures Reduces(s, i, t + t', u + u')
  {
    hide Minified, Terminated;
    var rest := Minified(s, i + |t| + |t'|);
    if rest.Some? {
      assert u + (u' + rest.value) == (u + u') + rest.value;
    }
  }

  lemma {:induction false} BlankReduces(s: seq<byte>, i: nat, t: seq<byte>)
    requires Terminated(s) && At(s, i, t) && i + |t| < |s| && forall k :: 0 <= k < |t| ==> Blank(t[k])
    ensures Reduces(s, i, t, [])
    decreases |t|
  {
    hide At, Terminated;
    if t == [] {
      Identity(s, i);
    } else {
      AtFirst(s, i, t);
      assert t == [t[0]] + t[1..];
      AtConcat(s, i, [t[0]], t[1..]);
      BlankReduces(s, i + 1, t[1..]);
    }
  }

  lemma Identity(s: seq<byte>, i: nat)
    requires Terminated(s) && i < |s|
    ensures Reduces(s, i, [], [])
  {
    if Minified(s, i).Some? {
      assert [] + Minified(s, i).value == Minified(s, i).value;
    }
  }

  predicate Plain(c: byte) {
    c != NUL && !Blank(c) && c != SLASH && c != QUOTE
  }

  lemma {:induction false} PlainReduces(s: seq<byte>, i: nat, t: seq<byte>)
    requires Terminated(s) && At(s, i, t) && i + |t| < |s| && forall k :: 0 <= k < |t| ==> Plain(t[k])
    ensures Reduces(s, i, t, t)
    decreases |t|
  {
    hide At, Terminated;
    if t == [] {
      Identity(s, i);
    } else {
      AtFirst(s, i, t);
      assert t == [t[0]] + t[1..];
      AtConcat(s, i, [t[0]], t[1..]);
      PlainReduces(s, i + 1, t[1..]);
      assert Reduces(s, i, [t[0]], [t[0]]);
      Then(s, i, [t[0]], [t[0]], t[1..], t[1..]);
    }
  }

  lemma QuotedReduces(s: seq<byte>, i: nat, t: seq<byte>)
    requires Terminated(s) && At(s, i, Quoted(t)) && i + |Quoted(t)| < |s|
    ensures Reduces(s, i, Quoted(t), Quoted(t))
  {
    hide Terminated, Escape, ScanEnd;
    assert s[i..i + |Quoted(t)|] == Quoted(t);
    AtFirst(s, i, Quoted(t));
    assert Quoted(t) == [QUOTE] + (Escape(t) + [QUOTE]);
    AtConcat(s, i, [QUOTE], Escape(t) + [QUOTE]);
    ScanEscaped(s, i + 1, t);
  }

  lemma {:induction false} ValueReduces(s: seq<byte>, i: nat, j: Json, d: nat)
    requires Terminated(s) && Printable(j) && At(s, i, Text(j, true, d)) && i + |Text(j, true, d)| < |s|
    ensures Reduces(s, i, Text(j, true, d), Text(j, false, d))
    decreases j
  {
    hide At, Terminated, Reduces, Quoted, NumberText;
    match j
    case Null => PlainReduces(s, i, NULL_TEXT);
    case False => PlainReduces(s, i, FALSE_TEXT);
    case True => PlainReduces(s, i, TRUE_TEXT);
    case Number(m, _) => NumberPlain(m); PlainReduces(s, i, NumberText(m));
    case String(t) => QuotedReduces(s, i, t);
    case Array(items) =>
      var body := ItemsText(items, true, d + 1);
      AtConcat(s, i, [LBRACKET] + body, [RBRACKET]);
      AtConcat(s, i, [LBRACKET], body);
      PlainReduces(s, i, [LBRACKET]);
      ItemsReduce(s, i + 1, items, d + 1);
      Then(s, i, [LBRACKET], [LBRACKET], body, ItemsText(items, false, d + 1));
      PlainReduces(s, i + 1 + |body|, [RBRACKET]);
      Then(s, i, [LBRACKET] + body, [LBRACKET] + ItemsText(items, false, d + 1), [RBRACKET], [RBRACKET]);
    case Object(members) =>
      ObjectReduces(s, i, members, d);
  }

  lemma NumberPlain(n: int)
    ensures forall k :: 0 <= k < |NumberText(n)| ==> Plain(NumberText(n)[k])
  {
  }

  lemma {:induction false} ItemsReduce(s: seq<byte>, i: nat, items: seq<Json>, d: nat)
    requires Terminated(s) && PrintableItems(items)
    requires At(s, i, ItemsText(items, true, d)) && i + |ItemsText(items, true, d)| < |s|
    ensures Reduces(s, i, ItemsText(items, true, d), ItemsText(items, false, d))
    decreases items
  {
    hide At, Terminated, Reduces, Text;
    if items == [] {
      Identity(s, i);
    } else if |items| == 1 {
      ValueReduces(s, i, items[0], d);
    } else {
      var t, u := Text(items[0], true, d), Text(items[0], false, d);
      var rest := ItemsText(items[1..], true, d);
      AtConcat(s, i, t + Separator(true), rest);
      AtConcat(s, i, t, Separator(true));
      ValueReduces(s, i, items[0], d);
      SeparatorReduces(s, i + |t|);
      Then(s, i, t, u, Separator(true), Separator(false));
      ItemsReduce(s, i + |t| + 2, items[1..], d);
      Then(s, i, t + Separator(true), u + Separator(false), rest, ItemsText(items[1..], false, d));
    }
  }

  lemma SeparatorReduces(s: seq<byte>, i: nat)
    requires Terminated(s) && At(s, i, Separator(true)) && i + 2 < |s|
    ensures Reduces(s, i, Separator(true), Separator(false))
  {
    hide At, Terminated, Reduces;
    assert Separator(true) == [COMMA] + [SPACE];
    AtConcat(s, i, [COMMA], [SPACE]);
    PlainReduces(s, i, [COMMA]);
    BlankReduces(s, i + 1, [SPACE]);
    Then(s, i, [COMMA], [COMMA], [SPACE], []);
    assert [COMMA] + [] == Separator(false);
  }

  lemma {:induction false} ObjectReduces(s: seq<byte>, i: nat, members: seq<Member>, d: nat)
    requires Terminated(s) && PrintableMembers(members)
    requires var t := Open(true) + MembersText(members, true, d + 1) + Close(true, d); At(s, i, t) && i + |t| < |s|
    ensures Reduces(s, i, Open(true) + MembersText(members, true, d + 1) + Close(true, d),
                    Open(false) + MembersText(members, false, d + 1) + Close(false, d))
    decreases members, 1
  {
    hide At, Terminated, Reduces, MembersText, Close;
    var body, body' := MembersText(members, true, d + 1), MembersText(members, false, d + 1);
    AtConcat(s, i, Open(true) + body, Close(true, d));
    AtConcat(s, i, Open(true), body);
    BraceReduces(s, i);
    MembersReduce(s, i + 2, members, d + 1);
    Then(s, i, Open(true), Open(false), body, body');
    CloseReduces(s, i + 2 + |body|, d);
    Then(s, i, Open(true) + body, Open(false) + body', Close(true, d), Close(false, d));
  }

  lemma BraceReduces(s: seq<byte>, i: nat)
    requires Terminated(s) && At(s, i, Open(true)) && i + 2 < |s|
    ensures Reduces(s, i, Open(true), Open(false))
  {
    hide At, Terminated, Reduces;
    assert Open(true) == [LBRACE] + [LF];
    AtConcat(s, i, [LBRACE], [LF]);
    PlainReduces(s, i, [LBRACE]);
    BlankReduces(s, i + 1, [LF]);
    Then(s, i, [LBRACE], [LBRACE], [LF], []);
    assert [LBRACE] + [] == Open(false);
  }

  lemma CloseReduces(s: seq<byte>, i: nat, d: nat)
    requires Terminated(s) && At(s, i, Close(true, d)) && i + |Close(true, d)| < |s|
    ensures Reduces(s, i, Close(true, d), Close(false, d))
  {
    hide At, Terminated, Reduces;
    AtConcat(s, i, Tabs(d), [RBRACE]);
    BlankReduces(s, i, Tabs(d));
    PlainReduces(s, i + d, [RBRACE]);
    Then(s, i, Tabs(d), [], [RBRACE], [RBRACE]);
    assert [] + [RBRACE] == Close(false, d);
  }

  lemma {:induction false} MembersReduce(s: seq<byte>, i: nat, members: seq<Member>, d: nat)
    requires Terminated(s) && PrintableMembers(members)
    requires At(s, i, MembersText(members, true, d)) && i + |MembersText(members, true, d)| < |s|
    ensures Reduces(s, i, MembersText(members, true, d), MembersText(members, false, d))
    decreases members, 0
  {
    hide At, Terminated, Reduces, Text, KeyText, MemberEnd;
    if members == [] {
      Identity(s, i);
    } else {
      var m, more := members[0], |members| > 1;
      var k, v, e := KeyText(m.key, true, d), Text(m.value, true, d), MemberEnd(true, more);
      var k', v', e' := KeyText(m.key, false, d), Text(m.value, false, d), MemberEnd(false, more);
      var rest := MembersText(members[1..], true, d);
      AtConcat(s, i, k + v + e, rest);
      AtConcat(s, i, k + v, e);
      AtConcat(s, i, k, v);
      KeyReduces(s, i, m.key, d);
      ValueReduces(s, i + |k|, m.value, d);
      Then(s, i, k, k', v, v');
      EndReduces(s, i + |k| + |v|, more);
      Then(s, i, k + v, k' + v', e, e');
      MembersReduce(s, i + |k| + |v| + |e|, members[1..], d);
      Then(s, i, k + v + e, k' + v' + e', rest, MembersText(members[1..], false, d));
    }
  }

  lemma KeyReduces(s: seq<byte>, i: nat, key: seq<byte>, d: nat)
    requires Terminated(s) && At(s, i, KeyText(key, true, d)) && i + |KeyText(key, true, d)| < |s|
    ensures Reduces(s, i, KeyText(key, true, d), KeyText(key, false, d))
  {
    hide At, Terminated, Reduces, Quoted;
    var q := Quoted(key);
    AtConcat(s, i, Tabs(d) + q, [COLON, TAB]);
    AtConcat(s, i, Tabs(d), q);
    assert [COLON, TAB] == [COLON] + [TAB];
    AtConcat(s, i + d + |q|, [COLON], [TAB]);
    BlankReduces(s, i, Tabs(d));
    QuotedReduces(s, i + d, key);
    Then(s, i, Tabs(d), [], q, q);
    PlainReduces(s, i + d + |q|, [COLON]);
    BlankReduces(s, i + d + |q| + 1, [TAB]);
    Then(s, i + d + |q|, [COLON], [COLON], [TAB], []);
    Then(s, i, Tabs(d) + q, [] + q, [COLON] + [TAB], [COLON] + []);
    assert [] + q + ([COLON] + []) == KeyText(key, false, d);
  }

  lemma EndReduces(s: seq<byte>, i: nat, more: bool)
    requires Terminated(s) && At(s, i, MemberEnd(true, more)) && i + |MemberEnd(true, more)| < |s|
    ensures Reduces(s, i, MemberEnd(true, more), MemberEnd(false, more))
  {
    hide At, Terminated, Reduces;
    var comma := if more then [COMMA] else [];
    AtConcat(s, i, comma, [LF]);
    PlainReduces(s, i, comma);
    BlankReduces(s, i + |comma|, [LF]);
    Then(s, i, comma, comma, [LF], []);
    assert comma + [] == MemberEnd(false, more);
  }

  /** Minifying the formatted print of any tree gives its unformatted print, byte for byte. */
  lemma MinifyFormatted(j: Json)
    requires Printable(j)
    ensures Terminated(Text(j, true, 0) + [NUL])
    ensures Minified(Text(j, true, 0) + [NUL], 0) == Some(Text(j, false, 0))
  {
    hide Text;
    var t := Text(j, true, 0);
    var s := t + [NUL];
    TextNulFree(j, true, 0);
    assert At(s, 0, t);
    ValueReduces(s, 0, j, 0);
    assert Minified(s, |t|) == Some([]);
    assert Text(j, false, 0) + [] == Text(j, false, 0);
  }
}
