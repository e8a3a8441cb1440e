/** The parser as code: a buffer whose offset and depth the parse functions update in place. */
module ParseBuffer {
  import opened Common
  import opened Bytes
  import opened Json
  import Number
  import StringLiteral
  import opened JsonParser

  /** A result of the code against the parse it must compute: the value, and the offset behind it. */
  ghost predicate Agrees<T>(p: Parsed<T>, r: Option<T>, offset: nat) {
    if p.Bad? then r.None? else r == Some(p.value) && offset == p.next
  }

  /** What is owed for a list of which `done` has been read and `rest` is still to come. */
  ghost function Joined<T>(done: seq<T>, rest: Parsed<seq<T>>): Parsed<seq<T>> {
    if rest.Bad? then Bad else Got(done + rest.value, rest.next)
  }

  lemma NothingDone<T>(p: Parsed<seq<T>>)
    ensures Joined([], p) == p
  {
    if p.Got? {
      assert [] + p.value == p.value;
    }
  }

  lemma {:induction false} SkipTwice(s: seq<byte>, i: nat)
    requires |s| > 0 && i <= |s|
    ensures SkipSpace(s, SkipSpace(s, i)) == SkipSpace(s, i)
    decreases |s| - i
  {
    if i < |s| && s[i] <= 32 {
      SkipTwice(s, i + 1);
    }
  }

  /** Only the first token behind `i` matters, so the parser may step back to just in front of it. */
  lemma StepBack(s: seq<byte>, i: nat, d: nat)
    requires Terminated(s) && i + 1 < |s|
    ensures ParseItems(s, SkipSpace(s, i + 1) - 1, d) == ParseItems(s, i, d)
    ensures ParseMembers(s, SkipSpace(s, i + 1) - 1, d) == ParseMembers(s, i, d)
  {
    hide ParseValue, ParseString, SkipSpace;
    SkipTwice(s, i + 1);
    assert ParseMember(s, SkipSpace(s, i + 1) - 1, d) == ParseMember(s, i, d);
  }

  /** One element moves from the rest to the done part, and a comma says whether there is more. */
  lemma ItemDone(s: seq<byte>, i: nat, d: nat, done: seq<Json>)
    requires Terminated(s) && i + 1 < |s|
    ensures var p := ParseValue(s, SkipSpace(s, i + 1), d);
            var owed := Joined(done, ParseItems(s, i, d));
            if p.Bad? then owed.Bad? else
              var m := SkipSpace(s, p.next);
              if s[m] == COMMA then m + 1 < |s| && owed == Joined(done + [p.value], ParseItems(s, m, d))
              else owed == if s[m] == RBRACKET then Got(done + [p.value], m + 1) else Bad
  {
    hide ParseValue, SkipSpace;
    var p := ParseValue(s, SkipSpace(s, i + 1), d);
    if p.Got? && s[SkipSpace(s, p.next)] == COMMA {
      var rest := ParseItems(s, SkipSpace(s, p.next), d);
      if rest.Got? {
        assert done + ([p.value] + rest.value) == (done + [p.value]) + rest.value;
      }
    }
  }

  lemma MemberDone(s: seq<byte>, i: nat, d: nat, done: seq<Member>)
    requires Terminated(s) && i + 1 < |s|
    ensures var p := ParseMember(s, i, d);
            var owed := Joined(done, ParseMembers(s, i, d));
            if p.Bad? then owed.Bad? else
              var m := SkipSpace(s, p.next);
              if s[m] == COMMA then m + 1 < |s| && owed == Joined(done + [p.value], ParseMembers(s, m, d))
              else owed == if s[m] == RBRACE then Got(done + [p.value], m + 1) else Bad
  {
    hide ParseMember, SkipSpace;
    var p := ParseMember(s, i, d);
    if p.Got? && s[SkipSpace(s, p.next)] == COMMA {
      var rest := ParseMembers(s, SkipSpace(s, p.next), d);
      if rest.Got? {
        assert done + ([p.value] + rest.value) == (done + [p.value]) + rest.value;
      }
    }
  }

  class ParseBuffer {
    const content: seq<byte>
    var offset: nat
    var depth: nat

    /** Every dispatch happens on a byte of the buffer. */
    ghost predicate Valid()
      reads this
    {
      Terminated(content) && offset < |content|
    }

    constructor (text: seq<byte>)
      requires NulFree(text)
      ensures Valid() && content == text + [NUL] && offset == 0 && depth == 0
    {
      content := text + [NUL];
      offset, depth := 0, 0;
    }

    method SkipWhitespace()
      requires Terminated(content) && offset <= |content|
      modifies this`offset
      ensures Valid() && offset == SkipSpace(content, old(offset))
    {
      while offset < |content| && content[offset] <= 32
        invariant offset <= |content|
        invariant SkipSpace(content, offset) == SkipSpace(content, old(offset))
      {
        offset := offset + 1;
      }
      if offset == |content| {
        offset := offset - 1;
      }
    }

    method ParseNumber() returns (r: Option<Json>)
      requires Valid()
      modifies this`offset
      ensures Agrees(JsonParser.ParseNumber(content, old(offset)), r, offset)
    {
      hide Number.Strtod, Number.TokenEnd;
      var token := Number.CopyToken(content, offset);
      var converted := Number.Strtod(token);
      if converted.NoNumber? {
        return None;
      }
      offset := offset + converted.used;
      r := Some(Json.Number(converted.mantissa, converted.exponent));
    }

    /** Both passes of `parse_string`; the result is the C string in the allocated buffer. */
    method ParseString() returns (r: Option<seq<byte>>)
      requires Valid()
      modifies this`offset
      ensures Agrees(JsonParser.ParseString(content, old(offset)), r, offset)
    {
      hide StringLiteral.Decode, StringLiteral.ScanEnd, StringLiteral.Allocation;
      if content[offset] != QUOTE {
        return None;
      }
      var end, size, found := StringLiteral.ScanString(content, offset);
      if !found {
        return None;
      }
      var output := new byte[size];
      var ok, n := StringLiteral.DecodeString(content, offset, end, output);
      if !ok {
        return None;
      }
      offset := end + 1;
      r := Some(CString(output[..n]));
    }

    method ParseValue() returns (r: Option<Json>)
      requires Valid()
      modifies this
      ensures Agrees(JsonParser.ParseValue(content, old(offset), old(depth)), r, offset)
      ensures r.Some? ==> old(offset) < offset < |content| && depth == old(depth)
      decreases |content| - offset, 3
    {
      hide At, JsonParser.ParseNumber, JsonParser.ParseString, JsonParser.ParseArray, JsonParser.ParseObject;
      if At(content, offset, NULL_TEXT) {
        offset := offset + 4;
        return Some(Null);
      }
      if At(content, offset, FALSE_TEXT) {
        offset := offset + 5;
        return Some(False);
      }
      if At(content, offset, TRUE_TEXT) {
        offset := offset + 4;
        return Some(True);
      }
      if content[offset] == QUOTE {
        var text := ParseString();
        return if text.None? then None else Some(Json.String(text.value));
      }
      if content[offset] == MINUS || IsDigit(content[offset]) {
        r := ParseNumber();
        return;
      }
      if content[offset] == LBRACKET {
        r := ParseArray();
        return;
      }
      if content[offset] == LBRACE {
        r := ParseObject();
        return;
      }
      return None;
    }

    /** Step over the separator and parse the next element. */
    method ParseItem() returns (r: Option<Json>)
      requires Terminated(content) && offset + 1 < |content|
      modifies this
      ensures Agrees(JsonParser.ParseValue(content, SkipSpace(content, old(offset) + 1), old(depth)), r, offset)
      ensures r.Some? ==> old(offset) < offset < |content| && depth == old(depth)
      decreases |content| - offset, 0
    {
      hide JsonParser.ParseValue, SkipSpace;
      offset := offset + 1;
      SkipWhitespace();
      r := ParseValue();
    }

    /** The comma loop: `offset` is in front of the first item, and ends behind the closing bracket. */
    method ParseItems() returns (r: Option<seq<Json>>)
      requires Terminated(content) && offset + 1 < |content|
      modifies this
      ensures Agrees(JsonParser.ParseItems(content, old(offset), old(depth)), r, offset)
      ensures r.Some? ==> depth == old(depth)
      decreases |content| - offset, 1
    {
      hide JsonParser.ParseItems, JsonParser.ParseValue, SkipSpace;
      ghost var owed := JsonParser.ParseItems(content, offset, depth);
      NothingDone(owed);
      var items, more := [], true;
      while more
        invariant old(offset) <= offset < |content| && depth == old(depth)
        invariant more ==>
          offset + 1 < |content| && owed == Joined(items, JsonParser.ParseItems(content, offset, depth))
        invariant !more ==> owed == if content[offset] == RBRACKET then Got(items, offset + 1) else Bad
        decreases more, |content| - offset
      {
        ItemDone(content, offset, depth, items);
        var item := ParseItem();
        if item.None? {
          return None;
        }
        items := items + [item.value];
        SkipWhitespace();
        more := content[offset] == COMMA;
      }
      if content[offset] != RBRACKET {
        return None;
      }
      offset := offset + 1;
      r := Some(items);
    }

    method ParseArray() returns (r: Option<Json>)
      requires Valid() && content[offset] == LBRACKET
      modifies this
      ensures Agrees(JsonParser.ParseArray(content, old(offset), old(depth)), r, offset)
      ensures r.Some? ==> depth == old(depth)
      decreases |content| - offset, 2
    {
      hide JsonParser.ParseItems, JsonParser.ParseMembers, SkipSpace;
      if depth >= NESTING_LIMIT {
        return None;
      }
      StepBack(content, offset, depth + 1);
      depth := depth + 1;
      offset := offset + 1;
      SkipWhitespace();
      if content[offset] == RBRACKET {
        depth := depth - 1;
        offset := offset + 1;
        return Some(Array([]));
      }
      offset := offset - 1;
      var items := ParseItems();
      if items.None? {
        return None;
      }
      depth := depth - 1;
      r := Some(Array(items.value));
    }

    /** Key, colon and value: one round of the loop in `parse_object`. */
    method ParseMember() returns (r: Option<Member>)
      requires Terminated(content) && offset + 1 < |content|
      modifies this
      ensures Agrees(JsonParser.ParseMember(content, old(offset), old(depth)), r, offset)
      ensures r.Some? ==> old(offset) < offset < |content| && depth == old(depth)
      decreases |content| - offset, 0
    {
      hide JsonParser.ParseValue, JsonParser.ParseString, SkipSpace;
      offset := offset + 1;
      SkipWhitespace();
      var key := ParseString();
      if key.None? {
        return None;
      }
      SkipWhitespace();
      if content[offset] != COLON {
        return None;
      }
      offset := offset + 1;
      SkipWhitespace();
      var value := ParseValue();
      if value.None? {
        return None;
      }
      r := Some(Member(key.value, value.value));
    }

    /** The comma loop: `offset` is in front of the first member, and ends behind the closing bracket. */
    method ParseMembers() returns (r: Option<seq<Member>>)
      requires Terminated(content) && offset + 1 < |content|
      modifies this
      ensures Agrees(JsonParser.ParseMembers(content, old(offset), old(depth)), r, offset)
      ensures r.Some? ==> depth == old(depth)
      decreases |content| - offset, 1
    {
      hide JsonParser.ParseMembers, JsonParser.ParseMember, SkipSpace;
      ghost var owed := JsonParser.ParseMembers(content, offset, depth);
      NothingDone(owed);
      var members, more := [], true;
      while more
        invariant old(offset) <= offset < |content| && depth == old(depth)
        invariant more ==>
          offset + 1 < |content| && owed == Joined(members, JsonParser.ParseMembers(content, offset, depth))
        invariant !more ==> owed == if content[offset] == RBRACE then Got(members, offset + 1) else Bad
        decreases more, |content| - offset
      {
        MemberDone(content, offset, depth, members);
        var member := ParseMember();
        if member.None? {
          return None;
        }
        members := members + [member.value];
        SkipWhitespace();
        more := content[offset] == COMMA;
      }
      if content[offset] != RBRACE {
        return None;
      }
      offset := offset + 1;
      r := Some(members);
    }

    method ParseObject() returns (r: Option<Json>)
      requires Valid() && content[offset] == LBRACE
      modifies this
      ensures Agrees(JsonParser.ParseObject(content, old(offset), old(depth)), r, offset)
      ensures r.Some? ==> depth == old(depth)
      decreases |content| - offset, 2
    {
      hide JsonParser.ParseItems, JsonParser.ParseMembers, SkipSpace;
      if depth >= NESTING_LIMIT {
        return None;
      }
      StepBack(content, offset, depth + 1);
      depth := depth + 1;
      offset := offset + 1;
      SkipWhitespace();
      if content[offset] == RBRACE {
        depth := depth - 1;
        offset := offset + 1;
        return Some(Object([]));
      }
      offset := offset - 1;
      var members := ParseMembers();
      if members.None? {
        return None;
      }
      depth := depth - 1;
      r := Some(Object(members.value));
    }
  }

  /** `cJSON_ParseWithOpts`: the tree, and the offset where parsing ended. */
  method ParseWithOpts(text: seq<byte>, requireNul: bool) returns (r: Option<Json>, end: nat)
    requires NulFree(text)
    ensures Agrees(ParseText(text, requireNul), r, end)
    ensures r.Some? ==> end <= |text|
  {
    hide JsonParser.ParseValue, SkipSpace;
    var buffer := new ParseBuffer(text);
    buffer.SkipWhitespace();
    r := buffer.ParseValue();
    if r.Some? && requireNul {
      buffer.SkipWhitespace();
      if buffer.content[buffer.offset] != NUL {
        r := None;
      }
    }
    end := buffer.offset;
  }
}
