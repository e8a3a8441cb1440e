/** Which C strings `cJSON_Minify` reads to their end without leaving the buffer. */
module MinifyScan {
  import opened Common
  import opened Bytes
  import opened Minify
  import opened StringLiteral

  // ----- where the reading index goes, inside the buffer or not

  /** Where the copying loop for a string literal stops; a backslash takes the next byte along, whatever it is. */
  function StringStop(s: seq<byte>, p: nat): (r: nat)
    ensures r >= p
    decreases |s| - p
  {
    if p >= |s| || s[p] == NUL || s[p] == QUOTE then p
    else if s[p] == BACKSLASH then StringStop(s, p + 2)
    else StringStop(s, p + 1)
  }

  /** The reading index after one round of the loop that starts at `i`. */
  function NextIndex(s: seq<byte>, i: nat): (r: nat)
    requires Terminated(s) && i < |s| && s[i] != NUL
    ensures r > i
  {
    if s[i] == SLASH && s[i + 1] == SLASH then LineEnd(s, i)
    else if s[i] == SLASH && s[i + 1] == STAR then CommentEnd(s, i) + 2
    else if s[i] == QUOTE then StringStop(s, i + 1) + 1
    else i + 1
  }

  /** What the round copies. */
  function Piece(s: seq<byte>, i: nat): seq<byte>
    requires Terminated(s) && i < |s| && s[i] != NUL && NextIndex(s, i) < |s|
  {
    if Blank(s[i]) || (s[i] == SLASH && (s[i + 1] == SLASH || s[i + 1] == STAR)) then [] else s[i..NextIndex(s, i)]
  }

  /** The loop finds the terminator: no round takes the reading index out of the buffer. */
  predicate StaysInside(s: seq<byte>, i: nat)
    requires Terminated(s) && i < |s|
    decreases |s| - i
  {
    s[i] == NUL || (NextIndex(s, i) < |s| && StaysInside(s, NextIndex(s, i)))
  }

  lemma {:induction false} StringStopIs(s: seq<byte>, p: nat)
    requires Terminated(s) && p <= |s|
    ensures match ScanEnd(s, p)
            case Some(end) => StringStop(s, p) == end && end + 1 < |s|
            case None => StringStop(s, p) + 1 >= |s|
    decreases |s| - p
  {
    if p < |s| && s[p] != NUL && s[p] != QUOTE {
      StringStopIs(s, if s[p] == BACKSLASH then p + 2 else p + 1);
    }
  }

  ghost predicate FollowsRound(s: seq<byte>, i: nat)
    requires Terminated(s) && i < |s| && s[i] != NUL
  {
    Minified(s, i) == if NextIndex(s, i) >= |s| then None else Prepend(Piece(s, i), Minified(s, NextIndex(s, i)))
  }

  lemma SkippingRound(s: seq<byte>, i: nat)
    requires Terminated(s) && i < |s| && s[i] != NUL
    requires Blank(s[i]) || (s[i] == SLASH && (s[i + 1] == SLASH || s[i + 1] == STAR))
    ensures FollowsRound(s, i)
  {
    hide CommentEnd, LineEnd, ScanEnd, StringStop;
    if NextIndex(s, i) < |s| {
      PrependNothing(Minified(s, NextIndex(s, i)));
    }
  }

  lemma LiteralRound(s: seq<byte>, i: nat)
    requires Terminated(s) && i < |s| && s[i] == QUOTE
    ensures FollowsRound(s, i)
  {
    hide CommentEnd, LineEnd, ScanEnd, StringStop;
    StringStopIs(s, i + 1);
  }

  lemma PlainRound(s: seq<byte>, i: nat)
    requires Terminated(s) && i < |s| && s[i] != NUL && s[i] != QUOTE && !Blank(s[i])
    requires !(s[i] == SLASH && (s[i + 1] == SLASH || s[i + 1] == STAR))
    ensures FollowsRound(s, i)
  {
    hide CommentEnd, LineEnd, ScanEnd, StringStop;
    assert s[i..i + 1] == [s[i]];
  }

  /** The specification follows the loop round by round, and has no result just where the index leaves the buffer. */
  lemma MinifiedRound(s: seq<byte>, i: nat)
    requires Terminated(s) && i < |s| && s[i] != NUL
    ensures Minified(s, i) ==
      if NextIndex(s, i) >= |s| then None else Prepend(Piece(s, i), Minified(s, NextIndex(s, i)))
  {
    hide NextIndex, Piece, Minified;
    if s[i] == QUOTE {
      LiteralRound(s, i);
    } else if Blank(s[i]) || (s[i] == SLASH && (s[i + 1] == SLASH || s[i + 1] == STAR)) {
      SkippingRound(s, i);
    } else {
      PlainRound(s, i);
    }
  }

  lemma PrependNothing(rest: Option<seq<byte>>)
    ensures Prepend([], rest) == rest
  {
    if rest.Some? {
      assert [] + rest.value == rest.value;
    }
  }

  lemma {:induction false} MinifiedStays(s: seq<byte>, i: nat)
    requires Terminated(s) && i < |s|
    ensures Minified(s, i).Some? <==> StaysInside(s, i)
    decreases |s| - i
  {
    hide Minified, NextIndex, Terminated;
    if s[i] == NUL {
      AtEnd(s, i);
    } else {
      MinifiedRound(s, i);
      if NextIndex(s, i) < |s| {
        MinifiedStays(s, NextIndex(s, i));
      }
    }
  }

  lemma AtEnd(s: seq<byte>, i: nat)
    requires Terminated(s) && i < |s| && s[i] == NUL
    ensures Minified(s, i) == Some([])
  {
  }

  // ----- the same, decided by reading the string once

  datatype State = Outside | Slash | Line | Block | BlockStar | Literal | Escape

  function Step(st: State, c: byte): State {
    match st
    case Line => if c == LF then Outside else Line
    case Block => if c == STAR then BlockStar else Block
    case BlockStar => if c == SLASH then Outside else if c == STAR then BlockStar else Block
    case Literal => if c == QUOTE then Outside else if c == BACKSLASH then Escape else Literal
    case Escape => Literal
    case _ =>
      if st == Slash && c == SLASH then Line
      else if st == Slash && c == STAR then BlockStar
      else if c == SLASH then Slash
      else if c == QUOTE then Literal
      else Outside
  }

  /** The state at the terminator. */
  function Scan(s: seq<byte>, i: nat, st: State): State
    requires Terminated(s) && i < |s|
    decreases |s| - i
  {
    if s[i] == NUL then st else Scan(s, i + 1, Step(st, s[i]))
  }

  /** Neither inside a block comment nor inside a string literal. */
  predicate Closed(st: State) {
    st == Outside || st == Slash || st == Line
  }

  lemma {:induction false} LineScan(s: seq<byte>, i: nat)
    requires Terminated(s) && i < |s|
    ensures Closed(Scan(s, i, Line)) == Closed(Scan(s, LineEnd(s, i), Outside))
    decreases |s| - i
  {
    if s[i] != NUL && s[i] != LF {
      LineScan(s, i + 1);
    }
  }

  lemma {:induction false} BlockScan(s: seq<byte>, i: nat)
    requires Terminated(s) && i < |s|
    ensures var k := CommentEnd(s, i);
            Closed(Scan(s, i, Block)) == (s[k] != NUL && Closed(Scan(s, k + 2, Outside)))
    decreases |s| - i
  {
    if s[i] != NUL {
      if s[i] == STAR {
        StarScan(s, i + 1);
      }
      if !(s[i] == STAR && s[i + 1] == SLASH) {
        BlockScan(s, i + 1);
      }
    }
  }

  lemma StarScan(s: seq<byte>, i: nat)
    requires Terminated(s) && i < |s|
    ensures if s[i] == SLASH then Scan(s, i, BlockStar) == Scan(s, i + 1, Outside)
            else Closed(Scan(s, i, BlockStar)) == Closed(Scan(s, i, Block))
  {
  }

  lemma {:induction false} LiteralScan(s: seq<byte>, i: nat)
    requires Terminated(s) && i < |s|
    ensures Closed(Scan(s, i, Literal)) == match ScanEnd(s, i)
              case Some(end) => end + 1 < |s| && Closed(Scan(s, end + 1, Outside))
              case None => false
    decreases |s| - i
  {
    if s[i] == BACKSLASH {
      if s[i + 1] != NUL {
        LiteralScan(s, i + 2);
      }
    } else if s[i] != NUL && s[i] != QUOTE {
      LiteralScan(s, i + 1);
    }
  }

  lemma {:induction false} ScanDecides(s: seq<byte>, i: nat)
    requires Terminated(s) && i < |s|
    ensures Minified(s, i).Some? <==> Closed(Scan(s, i, Outside))
    decreases |s| - i
  {
    if s[i] != NUL {
      if s[i] == SLASH && s[i + 1] == SLASH {
        LineOpens(s, i);
        ScanDecides(s, LineEnd(s, i));
      } else if s[i] == SLASH && s[i + 1] == STAR {
        BlockOpens(s, i);
        if s[CommentEnd(s, i)] != NUL {
          ScanDecides(s, CommentEnd(s, i) + 2);
        }
      } else if s[i] == QUOTE {
        LiteralScan(s, i + 1);
        StringStopIs(s, i + 1);
        if ScanEnd(s, i + 1).Some? {
          ScanDecides(s, ScanEnd(s, i + 1).value + 1);
        }
      } else {
        PlainScan(s, i);
        ScanDecides(s, i + 1);
      }
    }
  }

  lemma LineOpens(s: seq<byte>, i: nat)
    requires Terminated(s) && i + 1 < |s| && s[i] == SLASH && s[i + 1] == SLASH
    ensures i < LineEnd(s, i) && Closed(Scan(s, i, Outside)) == Closed(Scan(s, LineEnd(s, i), Outside))
  {
    assert LineEnd(s, i) == LineEnd(s, i + 2);
    assert Scan(s, i, Outside) == Scan(s, i + 1, Slash) == Scan(s, i + 2, Line);
    LineScan(s, i + 2);
  }

  lemma BlockOpens(s: seq<byte>, i: nat)
    requires Terminated(s) && i + 1 < |s| && s[i] == SLASH && s[i + 1] == STAR
    ensures var k := CommentEnd(s, i);
            Closed(Scan(s, i, Outside)) == (s[k] != NUL && Closed(Scan(s, k + 2, Outside)))
  {
    assert CommentEnd(s, i) == CommentEnd(s, i + 1);
    assert Scan(s, i, Outside) == Scan(s, i + 1, Slash) == Scan(s, i + 2, BlockStar);
    assert Scan(s, i + 1, Block) == Scan(s, i + 2, BlockStar);
    BlockScan(s, i + 1);
  }

  lemma PlainScan(s: seq<byte>, i: nat)
    requires Terminated(s) && i + 1 < |s| && s[i] != NUL && s[i] != QUOTE
    requires !(s[i] == SLASH && (s[i + 1] == SLASH || s[i + 1] == STAR))
    ensures Closed(Scan(s, i, Outside)) == Closed(Scan(s, i + 1, Outside))
  {
    if s[i] == SLASH {
      assert Scan(s, i, Outside) == Scan(s, i + 1, Slash);
    }
  }

  /** The index stays inside the buffer if and only if the string does not end in a block comment or a literal. */
  lemma StaysInsideIff(s: seq<byte>)
    requires Terminated(s)
    ensures StaysInside(s, 0) <==> Closed(Scan(s, 0, Outside))
    ensures Minified(s, 0).Some? <==> Closed(Scan(s, 0, Outside))
  {
    MinifiedStays(s, 0);
    ScanDecides(s, 0);
  }

  /** Two strings on which the index leaves the buffer: an unclosed literal and an unclosed comment. */
  lemma LeavesTheBuffer()
    ensures var s := [QUOTE, 97, 98, 99, NUL];
            Terminated(s) && NextIndex(s, 0) == |s| && !StaysInside(s, 0) && Scan(s, 0, Outside) == Literal
    ensures var s := [SLASH, STAR, NUL];
            Terminated(s) && NextIndex(s, 0) == |s| + 1 && !StaysInside(s, 0) && Scan(s, 0, Outside) == BlockStar
  {
    var s := [QUOTE, 97, 98, 99, NUL];
    assert StringStop(s, 4) == 4;
    assert StringStop(s, 1) == StringStop(s, 2) == StringStop(s, 3) == 4;
    assert Scan(s, 4, Literal) == Literal;
    assert Scan(s, 0, Outside) == Scan(s, 1, Literal) == Scan(s, 2, Literal) == Scan(s, 3, Literal) == Literal;
    var t := [SLASH, STAR, NUL];
    assert CommentEnd(t, 2) == 2;
    assert CommentEnd(t, 0) == CommentEnd(t, 1) == 2;
    assert Scan(t, 2, BlockStar) == BlockStar;
    assert Scan(t, 0, Outside) == Scan(t, 1, Slash) == BlockStar;
  }

  // ----- what is kept, byte by byte

  /** What the scanner writes when it reads `c`; a slash waits for the byte behind it. */
  function Emit(st: State, c: byte): seq<byte> {
    match st
    case Outside => if Blank(c) || c == SLASH then [] else [c]
    case Slash => if c == SLASH || c == STAR then [] else [SLASH] + (if Blank(c) then [] else [c])
    case Literal => [c]
    case Escape => [c]
    case _ => []
  }

  function Emits(s: seq<byte>, i: nat, st: State): seq<byte>
    requires Terminated(s) && i < |s|
    decreases |s| - i
  {
    if s[i] == NUL then (if st == Slash then [SLASH] else [])
    else Emit(st, s[i]) + Emits(s, i + 1, Step(st, s[i]))
  }

  lemma EmitsNext(s: seq<byte>, i: nat, st: State)
    requires Terminated(s) && i < |s| && s[i] != NUL
    ensures i + 1 < |s| && Emits(s, i, st) == Emit(st, s[i]) + Emits(s, i + 1, Step(st, s[i]))
    ensures Emit(st, s[i]) == [] ==> Emits(s, i, st) == Emits(s, i + 1, Step(st, s[i]))
  {
  }

  lemma {:induction false} LineEmits(s: seq<byte>, i: nat)
    requires Terminated(s) && i < |s|
    ensures Emits(s, i, Line) == Emits(s, LineEnd(s, i), Outside)
    decreases |s| - i
  {
    if s[i] != NUL && s[i] != LF {
      LineEmits(s, i + 1);
    }
  }

  lemma CommentNext(s: seq<byte>, i: nat)
    requires Terminated(s) && i < |s| && s[CommentEnd(s, i)] != NUL
    ensures s[i] != NUL && i + 1 < |s|
    ensures CommentEnd(s, i) == if s[i] == STAR && s[i + 1] == SLASH then i else CommentEnd(s, i + 1)
  {
  }

  lemma {:induction false} BlockEmits(s: seq<byte>, i: nat)
    requires Terminated(s) && i < |s| && s[CommentEnd(s, i)] != NUL
    ensures Emits(s, i, Block) == Emits(s, CommentEnd(s, i) + 2, Outside)
    decreases |s| - i
  {
    hide Emits, CommentEnd, Terminated;
    CommentNext(s, i);
    EmitsNext(s, i, Block);
    if s[i] == STAR {
      StarEmits(s, i + 1);
    }
    if !(s[i] == STAR && s[i + 1] == SLASH) {
      BlockEmits(s, i + 1);
    }
  }

  lemma StarEmits(s: seq<byte>, i: nat)
    requires Terminated(s) && i < |s|
    ensures Emits(s, i, BlockStar) == if s[i] == SLASH then Emits(s, i + 1, Outside) else Emits(s, i, Block)
  {
  }

  lemma ScanNext(s: seq<byte>, i: nat)
    requires Terminated(s) && i < |s| && ScanEnd(s, i).Some?
    ensures s[i] != NUL && i + 1 < |s| && i <= ScanEnd(s, i).value && ScanEnd(s, i).value + 1 < |s|
    ensures s[i] == QUOTE ==> ScanEnd(s, i) == Some(i)
    ensures s[i] == BACKSLASH ==> i + 2 < |s| && s[i + 1] != NUL && ScanEnd(s, i + 2) == ScanEnd(s, i)
    ensures s[i] != QUOTE && s[i] != BACKSLASH ==> ScanEnd(s, i + 1) == ScanEnd(s, i)
  {
    StringStopIs(s, i);
  }

  lemma {:induction false} LiteralEmits(s: seq<byte>, i: nat)
    requires Terminated(s) && i < |s| && ScanEnd(s, i).Some?
    ensures var end := ScanEnd(s, i).value;
            i <= end && end + 1 < |s| && Emits(s, i, Literal) == s[i..end + 1] + Emits(s, end + 1, Outside)
    decreases |s| - i
  {
    hide Emits, ScanEnd, Terminated;
    ScanNext(s, i);
    EmitsNext(s, i, Literal);
    var end := ScanEnd(s, i).value;
    if s[i] == QUOTE {
      assert s[i..i + 1] == [s[i]];
    } else if s[i] == BACKSLASH {
      EmitsNext(s, i + 1, Escape);
      LiteralEmits(s, i + 2);
      TwoAhead(s, i, end, Emits(s, end + 1, Outside));
    } else {
      LiteralEmits(s, i + 1);
      OneAhead(s, i, end, Emits(s, end + 1, Outside));
    }
  }

  lemma OneAhead(s: seq<byte>, i: nat, end: nat, rest: seq<byte>)
    requires i < end < |s|
    ensures [s[i]] + (s[i + 1..end + 1] + rest) == s[i..end + 1] + rest
  {
    assert s[i..end + 1] == [s[i]] + s[i + 1..end + 1];
  }

  lemma TwoAhead(s: seq<byte>, i: nat, end: nat, rest: seq<byte>)
    requires i + 1 < end < |s|
    ensures [s[i]] + ([s[i + 1]] + (s[i + 2..end + 1] + rest)) == s[i..end + 1] + rest
  {
    OneAhead(s, i + 1, end, rest);
    OneAhead(s, i, end, rest);
  }

  lemma SlashEmits(s: seq<byte>, i: nat)
    requires Terminated(s) && i < |s| && s[i] != SLASH && s[i] != STAR
    ensures Emits(s, i, Slash) == [SLASH] + Emits(s, i, Outside)
  {
    if s[i] != NUL {
      var e := Emit(Outside, s[i]);
      assert Emit(Slash, s[i]) == [SLASH] + e && Step(Slash, s[i]) == Step(Outside, s[i]);
    }
  }

  /** One round of the loop, as the scanner sees it. */
  lemma RoundEmits(s: seq<byte>, i: nat)
    requires Terminated(s) && i < |s| && s[i] != NUL && NextIndex(s, i) < |s|
    ensures Emits(s, i, Outside) == Piece(s, i) + Emits(s, NextIndex(s, i), Outside)
  {
    hide Emits, LineEnd, CommentEnd, ScanEnd, StringStop, Terminated;
    EmitsNext(s, i, Outside);
    if s[i] == SLASH && s[i + 1] == SLASH {
      LineKept(s, i);
    } else if s[i] == SLASH && s[i + 1] == STAR {
      CommentCloses(s, i);
      BlockKept(s, i);
    } else if s[i] == QUOTE {
      StringStopIs(s, i + 1);
      LiteralEmits(s, i + 1);
      var end := ScanEnd(s, i + 1).value;
      OneAhead(s, i, end, Emits(s, end + 1, Outside));
    } else if s[i] == SLASH {
      SlashEmits(s, i + 1);
      assert s[i..i + 1] == [s[i]];
    } else {
      assert s[i..i + 1] == [s[i]];
    }
  }

  lemma CommentCloses(s: seq<byte>, i: nat)
    requires Terminated(s) && i < |s| && CommentEnd(s, i) + 2 < |s|
    ensures s[CommentEnd(s, i)] != NUL
  {
  }

  /** The result is what a scanner keeps that reads the string once, byte by byte: outside of comments and literals
      all but blanks, inside literals everything. */
  lemma {:induction false} MinifiedEmits(s: seq<byte>, i: nat)
    requires Terminated(s) && i < |s| && Minified(s, i).Some?
    ensures Minified(s, i).value == Emits(s, i, Outside)
    decreases |s| - i
  {
    hide Minified, NextIndex, Piece, Terminated;
    if s[i] == NUL {
      AtEnd(s, i);
    } else {
      MinifiedRound(s, i);
      RoundEmits(s, i);
      MinifiedEmits(s, NextIndex(s, i));
    }
  }

  lemma LineKept(s: seq<byte>, i: nat)
    requires Terminated(s) && i + 1 < |s| && s[i] == SLASH && s[i + 1] == SLASH
    ensures i < LineEnd(s, i) && Emits(s, i, Outside) == Emits(s, LineEnd(s, i), Outside)
  {
    assert LineEnd(s, i) == LineEnd(s, i + 2);
    assert Emits(s, i, Outside) == Emits(s, i + 1, Slash) == Emits(s, i + 2, Line);
    LineEmits(s, i + 2);
  }

  lemma BlockKept(s: seq<byte>, i: nat)
    requires Terminated(s) && i + 1 < |s| && s[i] == SLASH && s[i + 1] == STAR && s[CommentEnd(s, i)] != NUL
    ensures Emits(s, i, Outside) == Emits(s, CommentEnd(s, i) + 2, Outside)
  {
    assert CommentEnd(s, i) == CommentEnd(s, i + 1);
    assert Emits(s, i, Outside) == Emits(s, i + 1, Slash) == Emits(s, i + 2, BlockStar);
    assert Emits(s, i + 1, Block) == Emits(s, i + 2, BlockStar);
    BlockEmits(s, i + 1);
  }
}
