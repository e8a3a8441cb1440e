/** The abstract JSON tree and its text, the specification of the cJSON printer. */
module Json {
  import opened Bytes

  /** A number leaf is the decimal literal `mantissa * 10^exponent`. */
  datatype Json =
    | Null
    | False
    | True
    | Number(mantissa: int, exponent: int)
    | String(text: seq<byte>)
    | Array(items: seq<Json>)
    | Object(members: seq<Member>)

  datatype Member = Member(key: seq<byte>, value: Json)

  const NULL_TEXT: seq<byte> := [110, 117, 108, 108]
  const FALSE_TEXT: seq<byte> := [102, 97, 108, 115, 101]
  const TRUE_TEXT: seq<byte> := [116, 114, 117, 101]

  /** Container nesting, as counted by `depth` in the parse buffer. */
  function Depth(j: Json): nat {
    match j
    case Array(items) => 1 + ItemsDepth(items)
    case Object(members) => 1 + MembersDepth(members)
    case _ => 0
  }

  function ItemsDepth(items: seq<Json>): nat {
    if items == [] then 0 else Max(Depth(items[0]), ItemsDepth(items[1..]))
  }

  function MembersDepth(members: seq<Member>): nat {
    if members == [] then 0 else Max(Depth(members[0].value), MembersDepth(members[1..]))
  }

  function Max(a: nat, b: nat): nat {
    if a < b then b else a
  }

  /** Integer leaves of at most 15 decimal digits: "%1.15g" prints these as plain digits. */
  predicate PlainInteger(mantissa: int, exponent: int) {
    exponent == 0 && -1_000_000_000_000_000 < mantissa < 1_000_000_000_000_000
  }

  /** Strings and keys are C strings and numbers are plain integers. */
  predicate Printable(j: Json) {
    match j
    case Number(m, e) => PlainInteger(m, e)
    case String(t) => NulFree(t)
    case Array(items) => PrintableItems(items)
    case Object(members) => PrintableMembers(members)
    case _ => true
  }

  predicate PrintableItems(items: seq<Json>) {
    items == [] || (Printable(items[0]) && PrintableItems(items[1..]))
  }

  predicate PrintableMembers(members: seq<Member>) {
    members == [] ||
    (NulFree(members[0].key) && Printable(members[0].value) && PrintableMembers(members[1..]))
  }

  // ----- text of the leaves

  /** Decimal digits of a natural number, without leading zeros. */
  function Decimal(n: nat): (r: seq<byte>)
    ensures |r| > 0 && forall k :: 0 <= k < |r| ==> IsDigit(r[k])
  {
    if n < 10 then [ZERO + n] else Decimal(n / 10) + [ZERO + n % 10]
  }

  function NumberText(n: int): (r: seq<byte>)
    ensures |r| > 0 && (r[0] == MINUS || IsDigit(r[0])) && NulFree(r)
  {
    if n < 0 then [MINUS] + Decimal(-n) else Decimal(n)
  }

  function HexDigit(n: nat): byte
    requires n < 16
  {
    if n < 10 then ZERO + n else 97 + (n - 10)
  }

  /** One source character of a string literal. */
  function EscapeByte(c: byte): (r: seq<byte>)
    ensures 1 <= |r| <= 6 && NulFree(r)
  {
    if c == QUOTE then [BACKSLASH, QUOTE]
    else if c == BACKSLASH then [BACKSLASH, BACKSLASH]
    else if c == BACKSPACE then [BACKSLASH, 98]
    else if c == FF then [BACKSLASH, 102]
    else if c == LF then [BACKSLASH, 110]
    else if c == CR then [BACKSLASH, 114]
    else if c == TAB then [BACKSLASH, 116]
    else if c < 32 then [BACKSLASH, 117, ZERO, ZERO, HexDigit(c / 16), HexDigit(c % 16)]
    else [c]
  }

  function Escape(t: seq<byte>): (r: seq<byte>)
    ensures NulFree(r)
  {
    if t == [] then [] else EscapeByte(t[0]) + Escape(t[1..])
  }

  function Quoted(t: seq<byte>): (r: seq<byte>)
    ensures NulFree(r) && |r| >= 2 && r[0] == QUOTE
  {
    [QUOTE] + Escape(t) + [QUOTE]
  }

  function Tabs(n: nat): (r: seq<byte>)
    ensures |r| == n && forall k :: 0 <= k < n ==> r[k] == TAB
  {
    seq(n, _ => TAB)
  }

  // ----- text of a tree, formatted or not, at nesting depth `d`

  function Text(j: Json, fmt: bool, d: nat): (r: seq<byte>) {
    match j
    case Null => NULL_TEXT
    case False => FALSE_TEXT
    case True => TRUE_TEXT
    case Number(m, _) => NumberText(m)
    case String(t) => Quoted(t)
    case Array(items) => [LBRACKET] + ItemsText(items, fmt, d + 1) + [RBRACKET]
    case Object(members) => Open(fmt) + MembersText(members, fmt, d + 1) + Close(fmt, d)
  }

  function Open(fmt: bool): seq<byte> {
    if fmt then [LBRACE, LF] else [LBRACE]
  }

  function Close(fmt: bool, d: nat): seq<byte> {
    Indent(fmt, d) + [RBRACE]
  }

  function Separator(fmt: bool): seq<byte> {
    if fmt then [COMMA, SPACE] else [COMMA]
  }

  function ItemsText(items: seq<Json>, fmt: bool, d: nat): seq<byte> {
    if items == [] then []
    else if |items| == 1 then Text(items[0], fmt, d)
    else Text(items[0], fmt, d) + Separator(fmt) + ItemsText(items[1..], fmt, d)
  }

  function Indent(fmt: bool, d: nat): seq<byte> {
    if fmt then Tabs(d) else []
  }

  function Colon(fmt: bool): (r: seq<byte>)
    ensures |r| > 0 && r[0] == COLON
  {
    if fmt then [COLON, TAB] else [COLON]
  }

  /** Indentation, key and colon in front of a member's value. */
  function KeyText(key: seq<byte>, fmt: bool, d: nat): seq<byte> {
    Indent(fmt, d) + Quoted(key) + Colon(fmt)
  }

  /** What follows a member's value; `more` says whether another member follows. */
  function MemberEnd(fmt: bool, more: bool): seq<byte> {
    (if more then [COMMA] else []) + (if fmt then [LF] else [])
  }

  function MembersText(members: seq<Member>, fmt: bool, d: nat): seq<byte> {
    if members == [] then [] else
      KeyText(members[0].key, fmt, d) + Text(members[0].value, fmt, d)
      + MemberEnd(fmt, |members| > 1) + MembersText(members[1..], fmt, d)
  }

  // ----- basic facts about the text

  lemma {:induction false} TextNulFree(j: Json, fmt: bool, d: nat)
    requires Printable(j)
    ensures NulFree(Text(j, fmt, d)) && |Text(j, fmt, d)| > 0
    ensures Text(j, fmt, d)[0] > 32 && Text(j, fmt, d)[0] != RBRACKET && Text(j, fmt, d)[0] != RBRACE
    decreases j
  {
    hide NumberText, Quoted, ItemsText, MembersText, NulFree;
    match j
    case Array(items) =>
      ItemsNulFree(items, fmt, d + 1);
      WrapNulFree([LBRACKET], ItemsText(items, fmt, d + 1), [RBRACKET]);
    case Object(members) =>
      MembersNulFree(members, fmt, d + 1);
      BracesNulFree(fmt, d);
      WrapNulFree(Open(fmt), MembersText(members, fmt, d + 1), Close(fmt, d));
    case _ => KeywordsNulFree();
  }

  lemma WrapNulFree(a: seq<byte>, b: seq<byte>, c: seq<byte>)
    requires NulFree(b)
    ensures NulFree(a) && NulFree(c) ==> NulFree(a + b + c)
    ensures a == [LBRACKET] && c == [RBRACKET] ==> NulFree(a + b + c)
  {
  }

  lemma BracesNulFree(fmt: bool, d: nat)
    ensures NulFree(Open(fmt)) && NulFree(Close(fmt, d))
  {
  }

  lemma KeywordsNulFree()
    ensures NulFree(NULL_TEXT) && NulFree(FALSE_TEXT) && NulFree(TRUE_TEXT)
  {
  }

  lemma {:induction false} ItemsNulFree(items: seq<Json>, fmt: bool, d: nat)
    requires PrintableItems(items)
    ensures NulFree(ItemsText(items, fmt, d))
    decreases items
  {
    if items != [] {
      TextNulFree(items[0], fmt, d);
      ItemsNulFree(items[1..], fmt, d);
    }
  }

  lemma KeyNulFree(key: seq<byte>, fmt: bool, d: nat)
    ensures NulFree(KeyText(key, fmt, d))
  {
  }

  lemma {:induction false} MembersNulFree(members: seq<Member>, fmt: bool, d: nat)
    requires PrintableMembers(members)
    ensures NulFree(MembersText(members, fmt, d))
    decreases members
  {
    hide Text, KeyText;
    if members != [] {
      TextNulFree(members[0].value, fmt, d);
      MembersNulFree(members[1..], fmt, d);
      KeyNulFree(members[0].key, fmt, d);
    }
  }
}
