/** `cJSON_Minify` in place: one index reads, another writes behind it in the same buffer. */
module MinifyBuffer {
  import opened Common
  import opened Bytes
  import opened Minify
  import opened MinifyScan
  import opened StringLiteral

  /** The unread part of the buffer still holds the input. */
  ghost predicate Unread(a: array<byte>, s: seq<byte>, json: nat)
    reads a
  {
    Terminated(s) && |s| == a.Length && json < |s| && a[json..] == s[json..]
  }

  lemma UnreadAt(a: array<byte>, s: seq<byte>, json: nat, k: nat)
    requires Unread(a, s, json) && json <= k < |s|
    ensures a[k] == s[k] && Unread(a, s, k)
  {
    assert a[json..][k - json] == a[k] && s[json..][k - json] == s[k];
    assert a[k..] == a[json..][k - json..] && s[k..] == s[json..][k - json..];
  }

  method SkipLine(a: array<byte>, start: nat, ghost s: seq<byte>) returns (json: nat)
    requires Unread(a, s, start)
    ensures json == LineEnd(s, start) && Unread(a, s, json)
  {
    hide Terminated;
    json := start;
    UnreadAt(a, s, start, json);
    while a[json] != NUL && a[json] != LF
      invariant start <= json < |s| && Unread(a, s, json) && a[json] == s[json]
      invariant LineEnd(s, start) == LineEnd(s, json)
      decreases a.Length - json
    {
      assert LineEnd(s, json) == LineEnd(s, json + 1);
      UnreadAt(a, s, json, json + 1);
      json := json + 1;
    }
  }

  method SkipComment(a: array<byte>, start: nat, ghost s: seq<byte>) returns (json: nat)
    requires Unread(a, s, start) && CommentEnd(s, start) + 2 < |s|
    ensures json == CommentEnd(s, start) + 2 && Unread(a, s, json)
  {
    hide CommentEnd, Unread, Terminated;
    json := start;
    UnreadSize(a, s, start);
    CommentStep(a, s, json);
    while a[json] != NUL && !(a[json] == STAR && a[json + 1] == SLASH)
      invariant start <= json < |s| == a.Length && Terminated(s) && Unread(a, s, json)
      invariant CommentEnd(s, start) == CommentEnd(s, json) && s[CommentEnd(s, json)] != NUL
      invariant json + 1 < a.Length && a[json] == s[json] && a[json + 1] == s[json + 1]
      decreases a.Length - json
    {
      CommentStep(a, s, json);
      json := json + 1;
      CommentStep(a, s, json);
    }
    CommentStep(a, s, json);
    json := json + 2;
  }

  /** A comment that is closed further on: the bytes looked at, and how far it goes. */
  lemma CommentStep(a: array<byte>, s: seq<byte>, json: nat)
    requires Unread(a, s, json) && s[CommentEnd(s, json)] != NUL
    ensures json + 2 < |s| == a.Length && a[json] == s[json] != NUL && a[json + 1] == s[json + 1]
    ensures s[json] == STAR && s[json + 1] == SLASH ==> CommentEnd(s, json) == json && Unread(a, s, json + 2)
    ensures !(s[json] == STAR && s[json + 1] == SLASH) ==>
      CommentEnd(s, json) == CommentEnd(s, json + 1) && Unread(a, s, json + 1)
  {
    UnreadAt(a, s, json, json);
    UnreadAt(a, s, json, json + 1);
    UnreadAt(a, s, json, json + 2);
  }

  /** One byte from the reading index to the writing index, which is not ahead of it. */
  method CopyByte(a: array<byte>, json: nat, into: nat, ghost s: seq<byte>, ghost kept: seq<byte>, ghost start: nat)
    requires Unread(a, s, json) && into <= json && json + 1 < |s| && start <= json
    requires a[..into] == kept + s[start..json]
    modifies a
    ensures Unread(a, s, json + 1) && a[..into + 1] == kept + s[start..json + 1]
  {
    UnreadAt(a, s, json, json);
    UnreadAt(a, s, json, json + 1);
    a[into] := a[json];
    assert a[..into + 1] == kept + s[start..json] + [s[json]];
    assert s[start..json] + [s[json]] == s[start..json + 1];
  }

  /** Inside a string that is closed, the scan has not reached the terminator. */
  lemma ScanAhead(s: seq<byte>, p: nat)
    requires Terminated(s) && p < |s| && ScanEnd(s, p).Some?
    ensures s[p] != NUL && p + 1 < |s|
    ensures s[p] == QUOTE ==> ScanEnd(s, p) == Some(p)
    ensures s[p] == BACKSLASH ==> p + 2 < |s| && ScanEnd(s, p) == ScanEnd(s, p + 2)
    ensures s[p] != QUOTE && s[p] != BACKSLASH ==> ScanEnd(s, p) == ScanEnd(s, p + 1)
  {
  }

  /** A byte of a string literal, or a backslash and the byte it escapes. */
  method CopyUnit(a: array<byte>, at: nat, base: nat, ghost s: seq<byte>, ghost kept: seq<byte>, ghost start: nat)
    returns (json: nat, into: nat)
    requires Unread(a, s, at) && base <= at && start <= at && a[..base] == kept + s[start..at]
    requires ScanEnd(s, at).Some? && s[at] != QUOTE
    modifies a
    ensures at < json < |s| == a.Length && into == base + (json - at)
    ensures Unread(a, s, json) && a[json] == s[json] && a[..into] == kept + s[start..json]
    ensures ScanEnd(s, json) == ScanEnd(s, at)
  {
    hide Terminated, ScanEnd, Unread;
    UnreadSize(a, s, at);
    UnreadAt(a, s, at, at);
    ScanAhead(s, at);
    json, into := at, base;
    if a[json] == BACKSLASH {
      CopyByte(a, json, into, s, kept, start);
      json, into := json + 1, into + 1;
    }
    CopyByte(a, json, into, s, kept, start);
    json, into := json + 1, into + 1;
    UnreadAt(a, s, json, json);
  }

  /** A string literal, copied with its quotes; a backslash takes the next byte along. */
  method CopyString(a: array<byte>, start: nat, base: nat, ghost s: seq<byte>) returns (json: nat, into: nat)
    requires Unread(a, s, start) && base <= start && s[start] == QUOTE && NextIndex(s, start) < |s|
    modifies a
    ensures base < into <= json && json == NextIndex(s, start) && Unread(a, s, json)
    ensures a[..into] == old(a[..base]) + s[start..json]
  {
    hide Terminated, ScanEnd, Unread, StringStop;
    UnreadSize(a, s, start);
    StringStopIs(s, start + 1);
    ghost var kept := a[..base];
    CopyByte(a, start, base, s, kept, start);
    json, into := start + 1, base + 1;
    UnreadAt(a, s, json, json);
    while a[json] != NUL && a[json] != QUOTE
      invariant start < json < |s| == a.Length && into == base + (json - start) && Terminated(s)
      invariant Unread(a, s, json) && a[json] == s[json]
      invariant ScanEnd(s, json).Some? && ScanEnd(s, json) == ScanEnd(s, start + 1)
      invariant a[..into] == kept + s[start..json]
      decreases a.Length - json
    {
      json, into := CopyUnit(a, json, into, s, kept, start);
    }
    ScanAhead(s, json);
    CopyByte(a, json, into, s, kept, start);
    json, into := json + 1, into + 1;
    UnreadSize(a, s, json);
  }

  lemma UnreadSize(a: array<byte>, s: seq<byte>, json: nat)
    requires Unread(a, s, json)
    ensures Terminated(s) && json < |s| == a.Length
  {
  }

  /** One round of the loop: a blank, a comment, a string or any other byte. */
  method MinifyToken(a: array<byte>, start: nat, base: nat, ghost s: seq<byte>) returns (json: nat, into: nat)
    requires Unread(a, s, start) && base <= start && s[start] != NUL && NextIndex(s, start) < |s|
    modifies a
    ensures into <= json && json == NextIndex(s, start) && Unread(a, s, json)
    ensures a[..into] == old(a[..base]) + Piece(s, start)
  {
    hide LineEnd, CommentEnd, StringStop, Terminated, Unread;
    UnreadSize(a, s, start);
    ghost var kept := a[..base];
    UnreadAt(a, s, start, start);
    UnreadAt(a, s, start, start + 1);
    assert kept + [] == kept;
    json, into := start, base;
    if Blank(a[json]) {
      json := json + 1;
    } else if a[json] == SLASH && a[json + 1] == SLASH {
      json := SkipLine(a, json, s);
    } else if a[json] == SLASH && a[json + 1] == STAR {
      json := SkipComment(a, json, s);
    } else if a[json] == QUOTE {
      json, into := CopyString(a, json, into, s);
    } else {
      assert kept + s[start..start] == kept;
      CopyByte(a, json, into, s, kept, json);
      json, into := json + 1, into + 1;
    }
    UnreadSize(a, s, json);
  }

  lemma RoundDone(s: seq<byte>, i: nat, kept: seq<byte>)
    requires Terminated(s) && i < |s| && s[i] != NUL && Minified(s, i).Some?
    ensures NextIndex(s, i) < |s| && Minified(s, NextIndex(s, i)).Some?
    ensures kept + Minified(s, i).value == (kept + Piece(s, i)) + Minified(s, NextIndex(s, i)).value
  {
    hide Minified, NextIndex, Piece, Terminated;
    MinifiedRound(s, i);
  }

  /** `cJSON_Minify` itself. The caller owes a string that does not end inside a block comment or a literal; on any
      other the reading index leaves the buffer. */
  method MinifyInPlace(a: array<byte>)
    requires Terminated(a[..]) && Closed(Scan(a[..], 0, Outside))
    modifies a
    ensures var m := Minified(old(a[..]), 0);
            m.Some? && |m.value| < a.Length && a[..|m.value|] == m.value && a[|m.value|] == NUL
  {
    hide NextIndex, Piece, Terminated, Scan;
    ghost var s := a[..];
    StaysInsideIff(s);
    var json, into := 0, 0;
    assert a[0..] == s[0..] && a[..0] + Minified(s, 0).value == Minified(s, 0).value;
    UnreadAt(a, s, 0, 0);
    while a[json] != NUL
      invariant 0 <= into <= json < |s| == a.Length && Unread(a, s, json) && a[json] == s[json]
      invariant Minified(s, json).Some? && Minified(s, 0).value == a[..into] + Minified(s, json).value
      decreases a.Length - json
    {
      RoundDone(s, json, a[..into]);
      json, into := MinifyToken(a, json, into, s);
      UnreadAt(a, s, json, json);
    }
    a[into] := NUL;
  }
}
