/** The printer: text written through a moving offset into a growable or a fixed buffer. */
module Printer {
  import opened Bytes
  import opened Json

  /** Bytes that must be free at the offset for `j` to be printed: the text, its terminator, and one
      byte that every `ensure` except the one for numbers asks for on top. */
  function Need(j: Json, fmt: bool, d: nat): nat {
    |Text(j, fmt, d)| + (if j.Number? then 1 else 2)
  }

  class PrintBuffer {
    var buffer: array<byte>
    var length: nat
    var offset: nat
    var depth: nat
    const noalloc: bool
    const format: bool
    /** What lies behind the length of a fixed buffer; nothing is ever written there. */
    ghost const beyond: seq<byte>

    /** `length` never claims more than is allocated; a growable buffer keeps its offset inside. */
    ghost predicate Valid()
      reads this, buffer
    {
      && length <= buffer.Length && (!noalloc ==> offset < length || offset == length == 0)
      && (noalloc ==> buffer[length..] == beyond)
    }

    constructor (storage: array<byte>, claimed: nat, fixed: bool, formatted: bool)
      requires claimed <= storage.Length
      ensures Valid() && buffer == storage && length == claimed && offset == 0 && depth == 0
      ensures noalloc == fixed && format == formatted && beyond == storage[claimed..]
    {
      beyond := storage[claimed..];
      buffer, length, offset, depth := storage, claimed, 0, 0;
      noalloc, format := fixed, formatted;
    }

    /** Everything printed so far is `pre + t`, terminated; the offset may still lag behind in `t`. */
    ghost predicate Printed(pre: seq<byte>, t: seq<byte>)
      reads this`buffer, this`length, this`offset, buffer
    {
      && |pre| + |t| < length <= buffer.Length && |pre| <= offset <= |pre| + |t|
      && buffer[..|pre| + |t|] == pre + t && buffer[|pre| + |t|] == NUL
    }

    /** The same bytes, split differently. */
    lemma Regroup(all: seq<byte>, close: seq<byte>, pre: seq<byte>, t: seq<byte>)
      requires Printed(all, close) && all + close == pre + t && |pre| <= |all|
      ensures Printed(pre, t)
    {
      assert |all| + |close| == |pre| + |t|;
    }

    /** Room for `needed` more bytes and a terminator, growing the buffer to twice that if allowed. */
    method Ensure(needed: nat) returns (ok: bool)
      requires Valid() && offset <= buffer.Length
      modifies this`buffer, this`length
      ensures Valid()
      ensures ok <==> !noalloc || offset + needed + 1 <= length
      ensures ok ==> offset + needed + 1 <= length && buffer[..offset] == old(buffer[..offset])
      ensures buffer == old(buffer) || fresh(buffer)
      ensures noalloc || !ok ==> buffer == old(buffer) && length == old(length)
    {
      if length > 0 && offset >= length {
        return false;
      }
      var total := needed + offset + 1;
      if total <= length {
        return true;
      }
      if noalloc {
        return false;
      }
      var size := total * 2;
      var grown := new byte[size];
      var k := 0;
      while k < offset
        invariant 0 <= k <= offset
        invariant grown[..k] == buffer[..k]
        modifies grown
      {
        grown[k] := buffer[k];
        k := k + 1;
      }
      buffer, length := grown, size;
      ok := true;
    }

    /** Copy `t` to index `at`. */
    method Store(at: nat, t: seq<byte>)
      requires at + |t| <= buffer.Length
      modifies buffer
      ensures buffer[..at + |t|] == old(buffer[..at]) + t
      ensures forall q :: at + |t| <= q < buffer.Length ==> buffer[q] == old(buffer[q])
    {
      var k := 0;
      while k < |t|
        invariant 0 <= k <= |t|
        invariant buffer[..at + k] == old(buffer[..at]) + t[..k]
        invariant forall q :: at + |t| <= q < buffer.Length ==> buffer[q] == old(buffer[q])
      {
        buffer[at + k] := t[k];
        k := k + 1;
      }
    }

    /** `strlen` from the offset: it stops at the terminator of the text just printed. */
    method UpdateOffset(ghost pre: seq<byte>, ghost t: seq<byte>)
      requires Printed(pre, t) && NulFree(t)
      modifies this`offset
      ensures Printed(pre, t) && offset == |pre| + |t|
    {
      while buffer[offset] != NUL
        invariant Printed(pre, t)
        decreases |pre| + |t| - offset
      {
        assert offset < |pre| + |t|;
        offset := offset + 1;
      }
    }

    /** A token written at the offset and left for `UpdateOffset` to step over. */
    method PrintLiteral(t: seq<byte>) returns (ok: bool)
      requires Valid() && offset <= buffer.Length
      modifies this, buffer
      ensures Valid() && depth == old(depth) && offset == old(offset)
      ensures buffer == old(buffer) || fresh(buffer)
      ensures noalloc ==> buffer == old(buffer) && length == old(length)
      ensures ok <==> !noalloc || offset + |t| + 2 <= length
      ensures ok ==> Printed(old(buffer[..offset]), t)
    {
      ok := Ensure(|t| + 1);
      if ok {
        Store(offset, t + [NUL]);
        assert buffer[..offset + |t|] == buffer[..offset + |t| + 1][..offset + |t|];
      }
    }

    method PrintNumber(n: int) returns (ok: bool)
      requires Valid() && offset <= buffer.Length
      modifies this, buffer
      ensures Valid() && depth == old(depth)
      ensures buffer == old(buffer) || fresh(buffer)
      ensures noalloc ==> buffer == old(buffer) && length == old(length)
      ensures ok <==> !noalloc || old(offset) + |NumberText(n)| + 1 <= length
      ensures ok ==> Printed(old(buffer[..offset]), NumberText(n))
    {
      hide NumberText;
      var t := NumberText(n);
      ok := Ensure(|t|);
      if ok {
        Store(offset, t + [NUL]);
        assert buffer[..offset + |t|] == buffer[..offset + |t| + 1][..offset + |t|];
        offset := offset + |t|;
      }
    }

    /** The escaping loop of `print_string_ptr`, from the opening quote at the offset. */
    method StoreEscaped(t: seq<byte>)
      requires offset + |Quoted(t)| < buffer.Length
      modifies buffer
      ensures buffer[..offset + |Quoted(t)|] == old(buffer[..offset]) + Quoted(t)
      ensures buffer[offset + |Quoted(t)|] == NUL
      ensures forall q :: offset + |Quoted(t)| < q < buffer.Length ==> buffer[q] == old(buffer[q])
    {
      hide EscapeByte, Escape;
      ghost var all := buffer[..offset] + [QUOTE] + Escape(t);
      Store(offset, [QUOTE]);
      var p, k := offset + 1, 0;
      while k < |t|
        invariant 0 <= k <= |t| && offset < p <= buffer.Length
        invariant all == buffer[..p] + Escape(t[k..])
        invariant forall q :: offset + |Quoted(t)| < q < buffer.Length ==> buffer[q] == old(buffer[q])
      {
        EscapeStep(buffer[..p], t, k);
        var e := EscapeByte(t[k]);
        StoreUnit(p, e);
        p, k := p + |e|, k + 1;
      }
      EscapeNothing(t, k);
      Store(p, [QUOTE, NUL]);
      assert buffer[..p + 1] == buffer[..p + 2][..p + 1] == all + [QUOTE];
      assert all + [QUOTE] == old(buffer[..offset]) + Quoted(t);
    }

    /** One character of the loop; `sprintf` leaves a terminator behind a \u escape. */
    method StoreUnit(at: nat, e: seq<byte>)
      requires at + |e| < buffer.Length
      modifies buffer
      ensures buffer[..at + |e|] == old(buffer[..at]) + e
      ensures forall q :: at + |e| < q < buffer.Length ==> buffer[q] == old(buffer[q])
    {
      Store(at, e);
      if |e| == 6 {
        buffer[at + 6] := NUL;
      }
    }

    /** `print_string_ptr` on a C string. */
    method PrintString(t: seq<byte>) returns (ok: bool)
      requires Valid() && offset <= buffer.Length
      modifies this, buffer
      ensures Valid() && depth == old(depth) && offset == old(offset)
      ensures buffer == old(buffer) || fresh(buffer)
      ensures noalloc ==> buffer == old(buffer) && length == old(length)
      ensures ok <==> !noalloc || offset + |Quoted(t)| + 2 <= length
      ensures ok ==> Printed(old(buffer[..offset]), Quoted(t))
    {
      hide Escape, Quoted;
      var n := EscapedLength(t);
      QuotedLength(t);
      ok := Ensure(n + 3);
      if ok {
        if n == |t| {
          StorePlain(t);
        } else {
          StoreEscaped(t);
        }
      }
    }

    /** The plain copy of `print_string_ptr`, for text without anything to escape. */
    method StorePlain(t: seq<byte>)
      requires offset + |Quoted(t)| < buffer.Length && |Escape(t)| == |t|
      modifies buffer
      ensures buffer[..offset + |Quoted(t)|] == old(buffer[..offset]) + Quoted(t)
      ensures buffer[offset + |Quoted(t)|] == NUL
      ensures forall q :: offset + |Quoted(t)| < q < buffer.Length ==> buffer[q] == old(buffer[q])
    {
      hide Escape;
      NothingEscaped(t);
      ghost var n := |t|;
      Store(offset, [QUOTE] + t + [QUOTE, NUL]);
      assert [QUOTE] + t + [QUOTE, NUL] == Quoted(t) + [NUL];
      assert buffer[..offset + n + 2] == buffer[..offset + n + 3][..offset + n + 2];
    }

    method PrintValue(j: Json) returns (ok: bool)
      requires Valid() && Printable(j) && offset <= buffer.Length
      modifies this, buffer
      ensures Valid() && (ok ==> depth == old(depth))
      ensures buffer == old(buffer) || fresh(buffer)
      ensures noalloc ==> buffer == old(buffer) && length == old(length)
      ensures ok <==> !noalloc || old(offset) + Need(j, format, old(depth)) <= length
      ensures ok ==> Printed(old(buffer[..offset]), Text(j, format, old(depth)))
      decreases j, 1
    {
      hide Printed, Valid, Quoted, NumberText;
      match j
      case Null => ok := PrintLiteral(NULL_TEXT);
      case False => ok := PrintLiteral(FALSE_TEXT);
      case True => ok := PrintLiteral(TRUE_TEXT);
      case Number(m, _) => ok := PrintNumber(m);
      case String(t) => ok := PrintString(t);
      case Array(items) => ok := PrintArray(items);
      case Object(members) => ok := PrintObject(members);
    }

    /** Print `j` and step over it, as the loops in arrays and objects do. */
    method PrintNested(j: Json, ghost pre: seq<byte>, ghost after: nat) returns (ok: bool)
      requires Valid() && Printable(j) && offset <= buffer.Length && buffer[..offset] == pre && after > 0
      modifies this, buffer
      ensures Valid() && (ok ==> depth == old(depth))
      ensures buffer == old(buffer) || fresh(buffer)
      ensures noalloc ==> buffer == old(buffer) && length == old(length)
      ensures !ok ==> noalloc && |pre| + |Text(j, format, old(depth))| + after + 2 > length
      ensures ok ==> offset < length && buffer[..offset] == pre + Text(j, format, old(depth))
      decreases j, 2
    {
      hide Text;
      ghost var t := Text(j, format, depth);
      TextNulFree(j, format, depth);
      ok := PrintValue(j);
      if ok {
        UpdateOffset(pre, t);
      }
    }

    /** Write `t` at the offset, reserving `slack` more bytes than it has, and advance over it. */
    method Put(t: seq<byte>, slack: nat, ghost pre: seq<byte>) returns (ok: bool)
      requires Valid() && offset <= buffer.Length && buffer[..offset] == pre
      modifies this, buffer
      ensures Valid() && depth == old(depth)
      ensures buffer == old(buffer) || fresh(buffer)
      ensures noalloc ==> buffer == old(buffer) && length == old(length)
      ensures ok <==> !noalloc || |pre| + |t| + slack + 1 <= length
      ensures ok ==> offset + slack < length && buffer[..offset] == pre + t
    {
      ok := Ensure(|t| + slack);
      if ok {
        Store(offset, t);
        offset := offset + |t|;
      }
    }

    method PrintArray(items: seq<Json>) returns (ok: bool)
      requires Valid() && PrintableItems(items) && offset <= buffer.Length
      modifies this, buffer
      ensures Valid() && (ok ==> depth == old(depth))
      ensures buffer == old(buffer) || fresh(buffer)
      ensures noalloc ==> buffer == old(buffer) && length == old(length)
      ensures ok <==> !noalloc || old(offset) + |Text(Array(items), format, old(depth))| + 2 <= length
      ensures ok ==> Printed(old(buffer[..offset]), Text(Array(items), format, old(depth)))
      decreases items, 1
    {
      hide Text, ItemsText, Printed;
      ghost var pre := buffer[..offset];
      ghost var all := pre + [LBRACKET] + ItemsText(items, format, depth + 1);
      ArrayText(pre, items, format, depth);
      ok := Put([LBRACKET], 0, pre);
      if !ok {
        return;
      }
      depth := depth + 1;
      ok := PrintItems(items, all);
      if !ok {
        return;
      }
      ok := PrintLiteral([RBRACKET]);
      if ok {
        Regroup(all, [RBRACKET], pre, Text(Array(items), format, old(depth)));
        depth := depth - 1;
      }
    }

    /** The element loop of `print_array`. */
    method PrintItems(items: seq<Json>, ghost all: seq<byte>) returns (ok: bool)
      requires Valid() && PrintableItems(items) && offset < length
      requires buffer[..offset] + ItemsText(items, format, depth) == all
      modifies this, buffer
      ensures Valid() && (ok ==> depth == old(depth))
      ensures buffer == old(buffer) || fresh(buffer)
      ensures noalloc ==> buffer == old(buffer) && length == old(length)
      ensures if ok then offset < length && buffer[..offset] == all else noalloc && |all| + 3 > length
      decreases items, 0
    {
      hide Text, ItemsText;
      var k := 0;
      assert items[0..] == items;
      while k < |items|
        invariant 0 <= k <= |items| && Valid() && depth == old(depth)
        invariant offset < length && buffer[..offset] + ItemsText(items[k..], format, depth) == all
        invariant PrintableItems(items[k..])
        invariant buffer == old(buffer) || fresh(buffer)
        invariant noalloc ==> buffer == old(buffer) && length == old(length)
      {
        ghost var sofar := buffer[..offset];
        ItemsStep(sofar, items, k, format, depth);
        ok := PrintNested(items[k], sofar, 1);
        if !ok {
          return;
        }
        if k + 1 < |items| {
          ghost var before := buffer[..offset];
          ok := Put(Separator(format), 1, before);
          if !ok {
            return;
          }
          buffer[offset] := NUL;
        }
        k := k + 1;
      }
      NoItems(items[k..], format, depth);
      ok := true;
    }

    /** One round of the loop in `print_object`: indentation, key, colon, value, comma and line break. */
    method PrintMember(m: Member, more: bool, ghost pre: seq<byte>) returns (ok: bool)
      requires Valid() && NulFree(m.key) && Printable(m.value) && offset <= buffer.Length && buffer[..offset] == pre
      modifies this, buffer
      ensures Valid() && (ok ==> depth == old(depth))
      ensures buffer == old(buffer) || fresh(buffer)
      ensures noalloc ==> buffer == old(buffer) && length == old(length)
      ensures var t := MemberText(m, format, old(depth), more);
              if ok then offset < length && buffer[..offset] == pre + t else noalloc && |pre| + |t| + 3 > length
      decreases m, 0
    {
      hide Text, KeyText, MemberEnd, MemberText;
      ghost var d := depth;
      MemberSplit(pre, m, format, d, more);
      ok := PrintKey(m.key, pre);
      if !ok {
        return;
      }
      ghost var key := buffer[..offset];
      ok := PrintNested(m.value, key, 1);
      if !ok {
        return;
      }
      ghost var value := buffer[..offset];
      ok := Put(MemberEnd(format, more), 1, value);
      if ok {
        buffer[offset] := NUL;
      }
    }

    method PrintKey(key: seq<byte>, ghost pre: seq<byte>) returns (ok: bool)
      requires Valid() && NulFree(key) && offset <= buffer.Length && buffer[..offset] == pre
      modifies this, buffer
      ensures Valid() && depth == old(depth)
      ensures buffer == old(buffer) || fresh(buffer)
      ensures noalloc ==> buffer == old(buffer) && length == old(length)
      ensures var t := KeyText(key, format, depth);
              if ok then offset < length && buffer[..offset] == pre + t else noalloc && |pre| + |t| + 2 > length
    {
      hide Quoted, Tabs;
      KeyLength(key, format, depth);
      if format {
        ok := Put(Tabs(depth), 0, pre);
        if !ok {
          return;
        }
      }
      ghost var indented := buffer[..offset];
      assert indented == pre + Indent(format, depth);
      ok := PrintString(key);
      if !ok {
        return;
      }
      UpdateOffset(indented, Quoted(key));
      ok := Put(if format then [COLON, TAB] else [COLON], 0, indented + Quoted(key));
      Joins(pre, Indent(format, depth), Quoted(key), Colon(format));
    }

    method PrintObject(members: seq<Member>) returns (ok: bool)
      requires Valid() && PrintableMembers(members) && offset <= buffer.Length
      modifies this, buffer
      ensures Valid() && (ok ==> depth == old(depth))
      ensures buffer == old(buffer) || fresh(buffer)
      ensures noalloc ==> buffer == old(buffer) && length == old(length)
      ensures ok <==> !noalloc || old(offset) + |Text(Object(members), format, old(depth))| + 2 <= length
      ensures ok ==> Printed(old(buffer[..offset]), Text(Object(members), format, old(depth)))
      decreases members, 1
    {
      hide Text, MembersText, Open, Close, Printed;
      ghost var pre := buffer[..offset];
      ghost var all := pre + Open(format) + MembersText(members, format, depth + 1);
      ObjectText(pre, members, format, depth);
      ok := Put(Open(format), 1, pre);
      if !ok {
        return;
      }
      depth := depth + 1;
      ok := PrintMembers(members, all);
      if !ok {
        return;
      }
      ok := PrintLiteral(Close(format, depth - 1));
      if ok {
        Regroup(all, Close(format, old(depth)), pre, Text(Object(members), format, old(depth)));
        depth := depth - 1;
      }
    }

    /** The member loop of `print_object`. */
    method PrintMembers(members: seq<Member>, ghost all: seq<byte>) returns (ok: bool)
      requires Valid() && PrintableMembers(members) && offset < length
      requires buffer[..offset] + MembersText(members, format, depth) == all
      modifies this, buffer
      ensures Valid() && (ok ==> depth == old(depth))
      ensures buffer == old(buffer) || fresh(buffer)
      ensures noalloc ==> buffer == old(buffer) && length == old(length)
      ensures if ok then offset < length && buffer[..offset] == all else noalloc && |all| + 3 > length
      decreases members, 0
    {
      hide MemberText, MembersText;
      var k := 0;
      assert members[0..] == members;
      while k < |members|
        invariant 0 <= k <= |members| && Valid() && depth == old(depth)
        invariant offset < length && buffer[..offset] + MembersText(members[k..], format, depth) == all
        invariant PrintableMembers(members[k..])
        invariant buffer == old(buffer) || fresh(buffer)
        invariant noalloc ==> buffer == old(buffer) && length == old(length)
      {
        ghost var sofar := buffer[..offset];
        MembersStep(sofar, members, k, format, depth);
        ok := PrintMember(members[k], k + 1 < |members|, sofar);
        if !ok {
          return;
        }
        k := k + 1;
      }
      NoMembers(members[k..], format, depth);
      ok := true;
    }
  }

  lemma QuotedLength(t: seq<byte>)
    ensures |Quoted(t)| == |Escape(t)| + 2
  {
  }

  lemma KeyLength(key: seq<byte>, fmt: bool, d: nat)
    ensures |KeyText(key, fmt, d)| == |Indent(fmt, d)| + |Quoted(key)| + |Colon(fmt)|
  {
  }

  lemma EscapeStep(done: seq<byte>, t: seq<byte>, k: nat)
    requires k < |t|
    ensures done + Escape(t[k..]) == (done + EscapeByte(t[k])) + Escape(t[k + 1..])
  {
    hide EscapeByte;
    assert t[k..][1..] == t[k + 1..];
    var e, rest := EscapeByte(t[k]), Escape(t[k + 1..]);
    assert done + (e + rest) == (done + e) + rest;
  }

  lemma ArrayText(pre: seq<byte>, items: seq<Json>, fmt: bool, d: nat)
    ensures pre + Text(Array(items), fmt, d) == (pre + [LBRACKET] + ItemsText(items, fmt, d + 1)) + [RBRACKET]
    ensures |Text(Array(items), fmt, d)| == 1 + |ItemsText(items, fmt, d + 1)| + 1
  {
  }

  lemma NoItems(items: seq<Json>, fmt: bool, d: nat)
    requires items == []
    ensures ItemsText(items, fmt, d) == []
  {
  }

  lemma NoMembers(members: seq<Member>, fmt: bool, d: nat)
    requires members == []
    ensures MembersText(members, fmt, d) == []
  {
  }

  /** The text still to come splits into the next element and what follows it. */
  lemma ItemsStep(done: seq<byte>, items: seq<Json>, k: nat, fmt: bool, d: nat)
    requires k < |items| && PrintableItems(items[k..])
    ensures Printable(items[k]) && PrintableItems(items[k + 1..])
    ensures k + 1 == |items| ==>
      done + ItemsText(items[k..], fmt, d) == done + Text(items[k], fmt, d) + ItemsText(items[k + 1..], fmt, d)
    ensures k + 1 < |items| ==>
      done + ItemsText(items[k..], fmt, d)
      == done + Text(items[k], fmt, d) + Separator(fmt) + ItemsText(items[k + 1..], fmt, d)
  {
    hide Text;
    assert items[k..][0] == items[k] && items[k..][1..] == items[k + 1..];
  }

  function MemberText(m: Member, fmt: bool, d: nat, more: bool): seq<byte> {
    KeyText(m.key, fmt, d) + Text(m.value, fmt, d) + MemberEnd(fmt, more)
  }

  lemma MemberSplit(pre: seq<byte>, m: Member, fmt: bool, d: nat, more: bool)
    ensures pre + MemberText(m, fmt, d, more)
         == ((pre + KeyText(m.key, fmt, d)) + Text(m.value, fmt, d)) + MemberEnd(fmt, more)
    ensures |MemberText(m, fmt, d, more)| == |KeyText(m.key, fmt, d)| + |Text(m.value, fmt, d)| + |MemberEnd(fmt, more)|
  {
    hide Text, KeyText, MemberEnd;
  }

  lemma ObjectText(pre: seq<byte>, members: seq<Member>, fmt: bool, d: nat)
    ensures pre + Text(Object(members), fmt, d) == (pre + Open(fmt) + MembersText(members, fmt, d + 1)) + Close(fmt, d)
    ensures |Text(Object(members), fmt, d)| == |Open(fmt)| + |MembersText(members, fmt, d + 1)| + |Close(fmt, d)|
    ensures 1 <= |Close(fmt, d)|
  {
    hide MembersText, Open, Close;
    Joins(pre, Open(fmt), MembersText(members, fmt, d + 1), Close(fmt, d));
    CloseLength(fmt, d);
  }

  lemma Joins(a: seq<byte>, b: seq<byte>, c: seq<byte>, d: seq<byte>)
    ensures a + (b + c + d) == (a + b + c) + d
  {
  }

  lemma CloseLength(fmt: bool, d: nat)
    ensures 1 <= |Close(fmt, d)|
  {
  }

  lemma MembersStep(done: seq<byte>, members: seq<Member>, k: nat, fmt: bool, d: nat)
    requires k < |members| && PrintableMembers(members[k..])
    ensures NulFree(members[k].key) && Printable(members[k].value) && PrintableMembers(members[k + 1..])
    ensures done + MembersText(members[k..], fmt, d)
         == (done + MemberText(members[k], fmt, d, k + 1 < |members|)) + MembersText(members[k + 1..], fmt, d)
  {
    hide Text, KeyText, MemberEnd;
    assert members[k..][0] == members[k] && members[k..][1..] == members[k + 1..];
    var m := members[k];
    var t, rest := MemberText(m, fmt, d, k + 1 < |members|), MembersText(members[k + 1..], fmt, d);
    assert done + (t + rest) == (done + t) + rest;
  }

  /** The shortcut of `print_string_ptr`: if escaping adds no byte, it changes none. */
  lemma {:induction false} NothingEscaped(t: seq<byte>)
    requires |Escape(t)| == |t|
    ensures Escape(t) == t
  {
    if t != [] {
      EscapeGrows(t[1..]);
      NothingEscaped(t[1..]);
    }
  }

  lemma {:induction false} EscapeGrows(t: seq<byte>)
    ensures |Escape(t)| >= |t|
  {
    if t != [] {
      EscapeGrows(t[1..]);
    }
  }

  lemma EscapeNothing(t: seq<byte>, k: nat)
    requires k == |t|
    ensures Escape(t[k..]) == []
  {
  }

  /** The counting loop of `print_string_ptr`: length of the escaped text. */
  method EscapedLength(t: seq<byte>) returns (n: nat)
    ensures n == |Escape(t)|
  {
    var k, extra := 0, 0;
    while k < |t|
      invariant 0 <= k <= |t|
      invariant |Escape(t)| == k + extra + |Escape(t[k..])|
    {
      assert t[k..][1..] == t[k + 1..];
      var c := t[k];
      if c == QUOTE || c == BACKSLASH || c == BACKSPACE || c == FF || c == LF || c == CR || c == TAB {
        extra := extra + 1;
      } else if c < 32 {
        extra := extra + 5;
      }
      k := k + 1;
    }
    assert Escape(t[k..]) == [];
    n := |t| + extra;
  }

  /** `cJSON_PrintPreallocated`: it succeeds exactly when the buffer holds the text, a terminator and one
      more byte (for a number: the text and a terminator), and then the buffer holds exactly the text. */
  method PrintPreallocated(j: Json, buf: array<byte>, len: int, fmt: bool) returns (ok: bool)
    requires Printable(j) && len <= buf.Length
    modifies buf
    ensures ok <==> len >= Need(j, fmt, 0)
    ensures forall q :: 0 <= q < buf.Length && len <= q ==> buf[q] == old(buf[q])
    ensures ok ==> buf[..|Text(j, fmt, 0)|] == Text(j, fmt, 0) && buf[|Text(j, fmt, 0)|] == NUL
  {
    hide Text;
    if len < 0 {
      return false;
    }
    var p := new PrintBuffer(buf, len, true, fmt);
    ok := p.PrintValue(j);
    assert [] + Text(j, fmt, 0) == Text(j, fmt, 0);
  }

  /** `print`: a growable buffer that claims no length at first; the result is the C string in it. */
  method Print(j: Json, fmt: bool) returns (text: seq<byte>)
    requires Printable(j)
    ensures text == Text(j, fmt, 0)
  {
    hide Text;
    var storage := new byte[256];
    var p := new PrintBuffer(storage, 0, false, fmt);
    var ok := p.PrintValue(j);
    ghost var t := Text(j, fmt, 0);
    TextNulFree(j, fmt, 0);
    p.UpdateOffset([], t);
    assert [] + t == t;
    text := p.buffer[..p.offset];
  }
}
