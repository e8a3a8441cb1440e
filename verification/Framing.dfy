/** `Nread`, `Nwrite`, `JSON_write` and `JSON_read`: length-prefixed JSON frames over a byte stream. */
module Framing {
  import opened Common
  import opened Bytes
  import opened Json
  import JsonParser
  import ParseBuffer
  import Printer
  import RoundTrip

  /** One direction of the control connection: the bytes written and not yet read. */
  class Stream {
    var data: seq<byte>

    constructor ()
      ensures data == []
    {
      data := [];
    }
  }

  /** How the kernel answers one call: some bytes moved (at most as many as possible), nothing for now, no buffer
      space, or any other error. */
  datatype Answer = Moved(bytes: nat) | Again | NoBuffers | Failure

  /** Every call moves at least one byte. */
  ghost predicate Steady(answer: nat -> Answer) {
    forall k :: answer(k).Moved? && answer(k).bytes > 0
  }

  function Min(a: nat, b: nat): nat {
    if a < b then a else b
  }

  /** The bytes that the calls numbered `first` up to `next` move of `size` bytes in all; `least` is what a call that
      moves anything moves at least. */
  function Progress(answer: nat -> Answer, first: nat, next: nat, size: nat, least: nat): (r: nat)
    ensures r <= size
  {
    if next <= first then 0
    else
      var before := Progress(answer, first, next - 1, size, least);
      match answer(next - 1)
      case Moved(k) => before + Min(if k < least then least else k, size - before)
      case _ => before
  }

  lemma ProgressNext(answer: nat -> Answer, first: nat, next: nat, size: nat, least: nat)
    requires first <= next
    ensures Progress(answer, first, first, size, least) == 0
    ensures var before := Progress(answer, first, next, size, least);
            Progress(answer, first, next + 1, size, least) == match answer(next)
              case Moved(k) => before + Min(if k < least then least else k, size - before)
              case _ => before
  {
  }

  /** Every call before `next` moved something, and none was made once all was done. */
  ghost predicate Busy(answer: nat -> Answer, first: nat, next: nat, size: nat, least: nat) {
    forall k :: first <= k < next ==>
      answer(k).Moved? && answer(k).bytes + least > 0 && Progress(answer, first, k, size, least) < size
  }

  /** The next `k` bytes behind the first `at`. */
  lemma Cut(s: seq<byte>, at: nat, k: nat)
    requires at + k <= |s|
    ensures s[..at] + s[at..][..k] == s[..at + k] && s[..at] + s[at..at + k] == s[..at + k]
    ensures s[at..][k..] == s[at + k..]
  {
  }

  /** The write loop, from call number `first` on: what it writes is a prefix of the buffer, as long as the calls
      moved together. It stops early only at a call that moved nothing, which decides the result. */
  method Nwrite(s: Stream, buf: seq<byte>, answer: nat -> Answer, first: nat)
    returns (rc: int, next: nat, ghost n: nat)
    modifies s
    ensures n == Progress(answer, first, next, |buf|, 0) && s.data == old(s.data) + buf[..n]
    ensures first <= next && (n < |buf| ==> first < next)
    ensures Busy(answer, first, if n == |buf| then next else next - 1, |buf|, 0)
    ensures rc == if n == |buf| then n else match answer(next - 1)
              case Again => n
              case Failure => HARD_ERROR
              case _ => SOFT_ERROR
    ensures n < |buf| && answer(next - 1).Moved? ==> answer(next - 1).bytes == 0
    ensures Steady(answer) ==> n == |buf|
  {
    hide Progress;
    var left := |buf|;
    next, n := first, 0;
    ProgressNext(answer, first, first, |buf|, 0);
    while left > 0
      invariant 0 <= left <= |buf| && n == |buf| - left && first <= next
      invariant n == Progress(answer, first, next, |buf|, 0) && Busy(answer, first, next, |buf|, 0)
      invariant s.data == old(s.data) + buf[..n]
      decreases left
    {
      var r := answer(next);
      ProgressNext(answer, first, next, |buf|, 0);
      next := next + 1;
      match r {
        case Again => return |buf| - left, next, n;
        case NoBuffers => return SOFT_ERROR, next, n;
        case Failure => return HARD_ERROR, next, n;
        case Moved(k) =>
          if k == 0 {
            return SOFT_ERROR, next, n;
          }
          var moved, at := Min(k, left), |buf| - left;
          Cut(buf, at, moved);
          s.data := s.data + buf[at..at + moved];
          left := left - moved;
          n := n + moved;
      }
    }
    rc := |buf|;
  }

  /** The read loop, from call number `first` on: it takes the next bytes of the stream, as many as the calls moved
      together; a call moves at least one byte if there is one. It stops early only at the end of the stream or at a
      call that moved nothing. */
  method Nread(s: Stream, count: nat, answer: nat -> Answer, first: nat) returns (rc: int, buf: seq<byte>, next: nat)
    modifies s
    ensures |buf| == Progress(answer, first, next, Min(count, |old(s.data)|), 1) && first <= next
    ensures buf == old(s.data)[..|buf|] && s.data == old(s.data)[|buf|..]
    ensures |buf| < count ==> first < next
    ensures Busy(answer, first, if |buf| == count then next else next - 1, Min(count, |old(s.data)|), 1)
    ensures |buf| < count && |buf| < |old(s.data)| ==> !answer(next - 1).Moved?
    ensures Steady(answer) ==> rc == |buf| == Min(count, |old(s.data)|)
    ensures rc ==
      if |buf| < count && (answer(next - 1).Failure? || answer(next - 1).NoBuffers?) then HARD_ERROR else |buf|
  {
    hide Progress;
    buf, next := [], first;
    ghost var all := s.data;
    ghost var size := Min(count, |all|);
    var left := count;
    ProgressNext(answer, first, first, size, 1);
    while left > 0
      invariant 0 <= left <= count && count - left <= |all| && first <= next
      invariant buf == all[..count - left] && s.data == all[count - left..]
      invariant count - left == Progress(answer, first, next, size, 1) && Busy(answer, first, next, size, 1)
      decreases left
    {
      var r := answer(next);
      ProgressNext(answer, first, next, size, 1);
      next := next + 1;
      if r.Failure? || r.NoBuffers? {
        return HARD_ERROR, buf, next;
      }
      if r.Again? || s.data == [] {
        break;
      }
      var moved := Min(if r.bytes == 0 then 1 else r.bytes, Min(left, |s.data|));
      Cut(all, count - left, moved);
      buf := buf + s.data[..moved];
      s.data := s.data[moved..];
      left := left - moved;
    }
    rc := count - left;
  }

  // ----- frames

  /** A 32-bit length in network byte order. */
  function BigEndian(n: nat): (r: seq<byte>)
    requires n < WORD
    ensures |r| == 4
  {
    [n / 0x100 / 0x100 / 0x100, n / 0x100 / 0x100 % 0x100, n / 0x100 % 0x100, n % 0x100]
  }

  function Word(a: nat, b: nat, c: nat, d: nat): nat {
    ((a * 0x100 + b) * 0x100 + c) * 0x100 + d
  }

  function FromBigEndian(b: seq<byte>): nat
    requires |b| == 4
  {
    Word(b[0], b[1], b[2], b[3])
  }

  lemma BigEndianRoundTrip(n: nat)
    requires n < WORD
    ensures FromBigEndian(BigEndian(n)) == n
  {
  }

  /** Network order: the most significant byte first. */
  lemma NetworkOrder(a: nat, b: nat, c: nat, d: nat)
    requires a < 256 && b < 256 && c < 256 && d < 256
    ensures FromBigEndian([a, b, c, d]) == 0x100_0000 * a + 0x1_0000 * b + 0x100 * c + d
    ensures BigEndian(0x0102_0304) == [1, 2, 3, 4]
  {
  }

  function Frame(text: seq<byte>): seq<byte> {
    BigEndian(|text| % WORD) + text
  }

  /** The length announced by the bytes on the stream. `stack` is the previous content of the four length bytes,
      which survives where the stream ends early. */
  function Announced(data: seq<byte>, stack: seq<byte>): (r: nat)
    requires |stack| == 4
    ensures r < WORD
  {
    var h := Min(4, |data|);
    WordFits(data[..h] + stack[h..]);
    FromBigEndian(data[..h] + stack[h..])
  }

  lemma WordFits(b: seq<byte>)
    requires |b| == 4
    ensures FromBigEndian(b) < WORD
  {
  }

  /** The tree in the body of a frame of the announced size, if there is one. */
  function ReadBody(body: seq<byte>, size: nat): Option<Json> {
    if |body| != size || size >= INT_LIMIT then None
    else match JsonParser.ParseText(CString(body), false)
      case Bad => None
      case Got(j, _) => Some(j)
  }

  /** What `JSON_read` makes of the bytes on the stream: the tree or nothing, and what is left. */
  function ReadFrame(data: seq<byte>, stack: seq<byte>): (Option<Json>, seq<byte>)
    requires |stack| == 4
  {
    var size := Announced(data, stack);
    var rest := data[Min(4, |data|)..];
    var n := Min(size, |rest|);
    (ReadBody(rest[..n], size), rest[n..])
  }

  /** The 32-bit size of the buffer `JSON_read` allocates for the body and its terminator. */
  function Allocated(size: nat): nat {
    (size + 1) % WORD
  }

  /** Body and terminator fit in the buffer unless the announced length is the largest one, where the sum wraps to
      an allocation of nothing; the bytes read stay inside it if and only if that is not the case or none arrive. */
  lemma BodyFits(data: seq<byte>, stack: seq<byte>)
    requires |stack| == 4
    ensures var size := Announced(data, stack);
            var rest := data[Min(4, |data|)..];
            && (size + 1 <= Allocated(size) <==> size != WORD - 1)
            && (Min(size, |rest|) <= Allocated(size) <==> size != WORD - 1 || rest == [])
  {
    hide Announced;
    var size := Announced(data, stack);
    if size == WORD - 1 {
      assert Allocated(size) == 0;
    } else {
      assert Allocated(size) == size + 1;
    }
  }

  /** The header that does it, with one byte behind it. */
  lemma BodyOverruns(stack: seq<byte>)
    requires |stack| == 4
    ensures var data := [255, 255, 255, 255, 34];
            Announced(data, stack) == WORD - 1 && Allocated(WORD - 1) == 0 < Min(WORD - 1, |data[4..]|)
  {
    var data := [255, 255, 255, 255, 34];
    assert data[..4] + stack[4..] == [255, 255, 255, 255];
  }

  /** `JSON_write`. What is written is a prefix of the header and a prefix of the text. A failed call is reported; one
      that was only put off is not, and then the frame is incomplete all the same. */
  method JsonWrite(s: Stream, j: Json, answer: nat -> Answer) returns (r: int, ghost n: nat, ghost m: nat)
    requires Printable(j)
    modifies s
    ensures n <= 4 && m <= |Text(j, false, 0)|
    ensures var t := Text(j, false, 0); s.data == old(s.data) + BigEndian(|t| % WORD)[..n] + t[..m]
    ensures r == 0 || (r == -1 && (n < 4 || m < |Text(j, false, 0)|))
    ensures Steady(answer) ==> r == 0 && s.data == old(s.data) + Frame(Text(j, false, 0))
  {
    hide Text, Progress, Busy, BigEndian, Steady;
    var text := Printer.Print(j, false);
    var header := BigEndian(|text| % WORD);
    var rc, next;
    rc, next, n := Nwrite(s, header, answer, 0);
    m := 0;
    if rc < 0 {
      return -1, n, m;
    }
    assert Steady(answer) ==> header[..n] == header;
    rc, next, m := Nwrite(s, text, answer, next);
    assert Steady(answer) ==> text[..m] == text;
    r := if rc < 0 then -1 else 0;
  }

  /** `JSON_read`; `stack` is what the four length bytes held before. `h` bytes of the header and `b` of the body are
      taken off the stream, and a tree is returned only if the body is as long as announced. */
  method JsonRead(s: Stream, stack: seq<byte>, answer: nat -> Answer)
    returns (r: Option<Json>, ghost h: nat, ghost b: nat)
    requires |stack| == 4
    modifies s
    ensures h <= 4 && h + b <= |old(s.data)| && s.data == old(s.data)[h + b..]
    ensures var size := FromBigEndian(old(s.data)[..h] + stack[h..]);
            b <= size && (r == None || r == ReadBody(old(s.data)[h..h + b], size))
    ensures Steady(answer) ==> (r, s.data) == ReadFrame(old(s.data), stack)
  {
    hide ReadBody, ReadFrame, FromBigEndian, Progress, Busy, Steady;
    ghost var data := s.data;
    var rc, header, next := Nread(s, 4, answer, 0);
    h, b := |header|, 0;
    if rc < 0 {
      return None, h, b;
    }
    var size := FromBigEndian(header + stack[|header|..]);
    var body;
    rc, body, next := Nread(s, size, answer, next);
    b := |body|;
    Taken(data, h, b);
    if Steady(answer) {
      FrameParts(data, stack, h, b);
    }
    if rc < 0 {
      return None, h, b;
    }
    r := ReadTree(body, size);
  }

  lemma Taken(data: seq<byte>, h: nat, b: nat)
    requires h + b <= |data|
    ensures data[h..][..b] == data[h..h + b] && data[h..][b..] == data[h + b..]
  {
  }

  lemma FrameParts(data: seq<byte>, stack: seq<byte>, h: nat, b: nat)
    requires |stack| == 4 && h == Min(4, |data|) && b == Min(FromBigEndian(data[..h] + stack[h..]), |data| - h)
    ensures ReadFrame(data, stack) == (ReadBody(data[h..h + b], FromBigEndian(data[..h] + stack[h..])), data[h + b..])
  {
    hide ReadBody, FromBigEndian;
    Taken(data, h, b);
  }

  /** The end of `JSON_read`: the body is parsed only if it is as long as announced. */
  method ReadTree(body: seq<byte>, size: nat) returns (r: Option<Json>)
    ensures r == ReadBody(body, size)
  {
    hide JsonParser.ParseText, CString;
    if |body| >= INT_LIMIT || |body| != size {
      return None;
    }
    var tree, _ := ParseBuffer.ParseWithOpts(CString(body), false);
    r := tree;
  }

  /** The header of a frame announces the length of its text. */
  lemma HeaderRead(t: seq<byte>, rest: seq<byte>, stack: seq<byte>)
    requires |t| < WORD && |stack| == 4
    ensures Announced(Frame(t) + rest, stack) == |t| && (Frame(t) + rest)[4..] == t + rest
  {
    hide BigEndian, FromBigEndian;
    var data := Frame(t) + rest;
    BigEndianRoundTrip(|t|);
    assert data[..4] + stack[4..] == BigEndian(|t|);
  }

  lemma BodyRead(j: Json)
    requires Printable(j) && |Text(j, false, 0)| < INT_LIMIT
    ensures ReadBody(Text(j, false, 0), |Text(j, false, 0)|) ==
      if Depth(j) <= JsonParser.NESTING_LIMIT then Some(j) else None
  {
    hide Text, JsonParser.ParseText;
    RoundTrip.ParseInvertsPrint(j, false, false);
  }

  /** Framing: whatever follows on the stream, and however the bytes were split, reading a written frame
      returns the tree (refused only if nested beyond the limit) and stops at the frame boundary. */
  lemma FrameRoundTrip(j: Json, rest: seq<byte>, stack: seq<byte>)
    requires Printable(j) && |Text(j, false, 0)| < INT_LIMIT && |stack| == 4
    ensures ReadFrame(Frame(Text(j, false, 0)) + rest, stack)
         == (if Depth(j) <= JsonParser.NESTING_LIMIT then Some(j) else None, rest)
  {
    hide Text, Frame, Announced, ReadBody;
    var t := Text(j, false, 0);
    HeaderRead(t, rest, stack);
    FrameLength(t, rest);
    assert (t + rest)[..|t|] == t && (t + rest)[|t|..] == rest;
    BodyRead(j);
  }

  lemma FrameLength(t: seq<byte>, rest: seq<byte>)
    ensures |Frame(t) + rest| == 4 + |t| + |rest|
  {
  }

  /** A frame that is cut off behind its header is refused, and nothing of it is left on the stream. */
  lemma Truncated(t: seq<byte>, k: nat, stack: seq<byte>)
    requires |t| < WORD && |stack| == 4 && k < |t|
    ensures 4 + k <= |Frame(t)| && ReadFrame(Frame(t)[..4 + k], stack) == (None, [])
  {
    hide BigEndian, FromBigEndian;
    var data := Frame(t)[..4 + k];
    BigEndianRoundTrip(|t|);
    assert data[..4] + stack[4..] == BigEndian(|t|);
    assert data[4..] == t[..k] && t[..k][..k] == t[..k] && t[..k][k..] == [];
  }

  /** Consecutive frames come out one by one, in order. */
  lemma {:induction false} FramesInOrder(trees: seq<Json>, k: nat, stack: seq<byte>)
    requires k < |trees| && |stack| == 4
    requires forall i :: 0 <= i < |trees| ==>
      Printable(trees[i]) && |Text(trees[i], false, 0)| < INT_LIMIT && Depth(trees[i]) <= JsonParser.NESTING_LIMIT
    ensures ReadFrame(Frames(trees[k..]), stack) == (Some(trees[k]), Frames(trees[k + 1..]))
  {
    assert trees[k..][1..] == trees[k + 1..];
    FrameRoundTrip(trees[k], Frames(trees[k + 1..]), stack);
  }

  function Frames(trees: seq<Json>): seq<byte> {
    if trees == [] then [] else Frame(Text(trees[0], false, 0)) + Frames(trees[1..])
  }
}
