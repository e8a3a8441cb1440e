/** The recursive-descent parser over an offset and a nesting depth. */
module JsonParser {
  import opened Common
  import opened Bytes
  import opened Json
  import opened Number
  import opened StringLiteral

  const NESTING_LIMIT: nat := 1000

  /** A failed parse, or the value and the offset behind it. */
  datatype Parsed<+T> = Bad | Got(value: T, next: nat)

  /** `buffer_skip_whitespace`: it also runs over the terminator, then steps back onto it. */
  function SkipSpace(s: seq<byte>, i: nat): (r: nat)
    requires i <= |s| && |s| > 0
    ensures r < |s| && (i < |s| ==> i <= r)
    ensures s[r] > 32 || r == |s| - 1
    decreases |s| - i
  {
    if i == |s| then |s| - 1 else if s[i] <= 32 then SkipSpace(s, i + 1) else i
  }

  function ParseNumber(s: seq<byte>, i: nat): (r: Parsed<Json>)
    requires i < |s|
    ensures r.Got? ==> i < r.next <= |s| && r.value.Number?
  {
    match Strtod(s[i..TokenEnd(s, i, MAX_TOKEN)])
    case NoNumber => Bad
    case Converted(m, e, used) => Got(Number(m, e), i + used)
  }

  lemma NumberBeforeEnd(s: seq<byte>, i: nat)
    requires Terminated(s) && i < |s|
    ensures ParseNumber(s, i).Got? ==> ParseNumber(s, i).next < |s|
  {
    hide Strtod;
    var r := ParseNumber(s, i);
    if r.Got? {
      TokenChars(s, i, MAX_TOKEN, r.next - 1);
    }
  }

  function ParseString(s: seq<byte>, i: nat): (r: Parsed<seq<byte>>)
    requires i < |s|
    ensures r.Got? ==> i < r.next <= |s| && s[r.next - 1] == QUOTE
  {
    if s[i] != QUOTE then Bad
    else match ScanEnd(s, i + 1)
      case None => Bad
      case Some(end) =>
        var pass := Decode(s, i + 1, end);
        if pass.ok then Got(CString(pass.written), end + 1) else Bad
  }

  /** A keyword cannot reach over the terminator. */
  lemma BeforeEnd(s: seq<byte>, i: nat, t: seq<byte>)
    requires Terminated(s) && At(s, i, t) && t != [] && NulFree(t)
    ensures i + |t| < |s|
  {
    assert s[i..i + |t|][|t| - 1] == s[i + |t| - 1];
  }

  /** The value at offset `i`, inside `d` open containers. */
  function ParseValue(s: seq<byte>, i: nat, d: nat): (r: Parsed<Json>)
    requires Terminated(s) && i < |s|
    ensures r.Got? ==> i < r.next < |s|
    decreases |s| - i, 3
  {
    if At(s, i, NULL_TEXT) then BeforeEnd(s, i, NULL_TEXT); Got(Null, i + 4)
    else if At(s, i, FALSE_TEXT) then BeforeEnd(s, i, FALSE_TEXT); Got(False, i + 5)
    else if At(s, i, TRUE_TEXT) then BeforeEnd(s, i, TRUE_TEXT); Got(True, i + 4)
    else if s[i] == QUOTE then ParseStringValue(s, i)
    else if s[i] == MINUS || IsDigit(s[i]) then NumberBeforeEnd(s, i); ParseNumber(s, i)
    else if s[i] == LBRACKET then ParseArray(s, i, d)
    else if s[i] == LBRACE then ParseObject(s, i, d)
    else Bad
  }

  function ParseStringValue(s: seq<byte>, i: nat): (r: Parsed<Json>)
    requires i < |s|
    ensures r.Got? ==> i < r.next <= |s| && s[r.next - 1] == QUOTE && r.value.String?
  {
    match ParseString(s, i)
    case Bad => Bad
    case Got(t, n) => Got(String(t), n)
  }

  function ParseArray(s: seq<byte>, i: nat, d: nat): (r: Parsed<Json>)
    requires Terminated(s) && i < |s| && s[i] == LBRACKET
    ensures r.Got? ==> i < r.next < |s| && r.value.Array?
    decreases |s| - i, 2
  {
    if d >= NESTING_LIMIT then Bad
    else if s[SkipSpace(s, i + 1)] == RBRACKET then Got(Array([]), SkipSpace(s, i + 1) + 1)
    else match ParseItems(s, i, d + 1)
      case Bad => Bad
      case Got(items, n) => Got(Array(items), n)
  }

  function ParseObject(s: seq<byte>, i: nat, d: nat): (r: Parsed<Json>)
    requires Terminated(s) && i < |s| && s[i] == LBRACE
    ensures r.Got? ==> i < r.next < |s| && r.value.Object?
    decreases |s| - i, 2
  {
    if d >= NESTING_LIMIT then Bad
    else if s[SkipSpace(s, i + 1)] == RBRACE then Got(Object([]), SkipSpace(s, i + 1) + 1)
    else match ParseMembers(s, i, d + 1)
      case Bad => Bad
      case Got(members, n) => Got(Object(members), n)
  }

  /** Comma-separated elements; `i` is the character in front of the first one. */
  function ParseItems(s: seq<byte>, i: nat, d: nat): (r: Parsed<seq<Json>>)
    requires Terminated(s) && i + 1 < |s|
    ensures r.Got? ==> i < r.next < |s| && r.value != []
    decreases |s| - i, 1
  {
    match ParseValue(s, SkipSpace(s, i + 1), d)
    case Bad => Bad
    case Got(x, n) =>
      var m := SkipSpace(s, n);
      if s[m] == COMMA then
        match ParseItems(s, m, d) { case Bad => Bad case Got(rest, e) => Got([x] + rest, e) }
      else if s[m] == RBRACKET then Got([x], m + 1)
      else Bad
  }

  function ParseMembers(s: seq<byte>, i: nat, d: nat): (r: Parsed<seq<Member>>)
    requires Terminated(s) && i + 1 < |s|
    ensures r.Got? ==> i < r.next < |s| && r.value != []
    decreases |s| - i, 1
  {
    match ParseMember(s, i, d)
    case Bad => Bad
    case Got(x, n) =>
      var m := SkipSpace(s, n);
      if s[m] == COMMA then
        match ParseMembers(s, m, d) { case Bad => Bad case Got(rest, e) => Got([x] + rest, e) }
      else if s[m] == RBRACE then Got([x], m + 1)
      else Bad
  }

  /** Key, colon and value; `i` is the character in front of the key. */
  function ParseMember(s: seq<byte>, i: nat, d: nat): (r: Parsed<Member>)
    requires Terminated(s) && i + 1 < |s|
    ensures r.Got? ==> i < r.next < |s|
    decreases |s| - i, 0
  {
    match ParseString(s, SkipSpace(s, i + 1))
    case Bad => Bad
    case Got(key, n) =>
      var c := SkipSpace(s, n);
      if s[c] != COLON then Bad
      else match ParseValue(s, SkipSpace(s, c + 1), d)
        case Bad => Bad
        case Got(v, e) => Got(Member(key, v), e)
  }

  /** `cJSON_ParseWithOpts` on the C string `text`. */
  function ParseText(text: seq<byte>, requireNul: bool): (r: Parsed<Json>)
    requires NulFree(text)
  {
    var s := text + [NUL];
    match ParseValue(s, SkipSpace(s, 0), 0)
    case Bad => Bad
    case Got(j, n) =>
      if !requireNul then Got(j, n)
      else if s[SkipSpace(s, n)] != NUL then Bad
      else Got(j, SkipSpace(s, n))
  }
}
