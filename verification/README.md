# Verified model of the iperf 3.7 engine and its cJSON 1.5.2

The native engine of this repository is iperf 3.7 with cJSON 1.5.2 vendored beside it. This project models the parts
whose correctness is not visible from one function alone, and proves what they are for:

- **cJSON** — the parser accepts exactly the texts of a tree, with blanks anywhere between tokens, and returns the tree;
  it inverts the printer; the formatted print is a layout of the unformatted one, the two-pass string decoder never outruns its allocation,
  fixed buffers succeed exactly when they are long enough, minifying a formatted print gives the unformatted one, and
  the doubly linked child lists act as sequences.
- **Control protocol** — client, server, two FIFO directions and the accept queue as a state machine: no message is
  ever misread, some step is always possible until both sides are done, runs are finite, the streams of the two sides
  are paired, and after the exchange both hold, for every stream, the sums of what its two ends moved. Parameters and results are followed down to the
  bytes on the wire.
- **Timer list** — sorted, stable, mirror-linked lists under create, reset, cancel and destroy; `tmr_run`, also with
  callbacks that reset other timers, refines a pure run that terminates, fires what is due, and nothing early.
- **Measurement** — UDP loss in constant storage against the set of numbers that arrived, pacing, limit overshoot in
  the nested send loops, and conservation of bytes, time and counters over intervals.

`dafny verify dfyconfig.toml` checks everything. Paths below are relative to the repository root.

## Layout

| files | content |
|---|---|
| `Common`, `Bytes`, `Json` | shared constants; bytes and C strings; the JSON tree and its text, the specification of the printer |
| `Utf`, `StringLiteral`, `Number` | escapes, string literals and number tokens |
| `JsonParser`, `RoundTrip` | the parser as a function, and that it inverts the text |
| `Grammar`, `NumberForms`, `StringForms` | the texts of a tree, of numbers and of strings, as the parser accepts them |
| `Layout` | formatted text as a layout of unformatted text |
| `ParseBuffer`, `Printer` | the offset-and-buffer code, proved against those functions |
| `Minify`, `MinifyScan`, `MinifyBuffer` | minifying as a function, the strings it is safe on, and the loop in place |
| `ChildList`, `Seqs` | linked child lists; insertion and removal in sequences |
| `Framing`, `ControlText` | `Nread`/`Nwrite` loops and length-prefixed JSON frames; parameters and results as frames |
| `Streams`, `Control`, `ControlProof`, `ControlTraffic`, `LateOmit` | stream numbering and result exchange; the protocol, its invariant, the counts as sums over the run, and a run that ends in disagreement |
| `IperfTime`, `TimerSpec`, `TimerResets`, `TimerList` | time arithmetic; timer runs as values, plain and with resets; the linked lists |
| `UdpLoss`, `Sending`, `Intervals`, `IntervalHistory` | the measurement arithmetic; statistics as sums over events |

Code that updates buffers, lists or counters in place is modelled by methods on arrays and objects whose
postconditions equate the new state with a specification function; the theorems are about those functions. The two
control endpoints run concurrently and are modelled as a step relation on values.

## Findings

Some natural expectations do not hold of the code. The model keeps the code and states the exact condition.

- A tree round-trips if and only if its container nesting is at most 1000 (`RoundTrip.ParseInvertsPrint`); the printer
  has no such limit.
- `cJSON_PrintPreallocated` needs `|text| + 2` bytes, or `|text| + 1` if the root is a number. The slack of 5 bytes
  that `cjson.h` advises is enough but not necessary (`Printer.PrintPreallocated`).
- A `\u` escape with bad digits is not rejected: it decodes to NUL, which then ends the C string
  (`Utf.LiteralSound`, `JsonParser.ParseString`).
- `cJSON_Minify` takes its reading index out of the buffer if and only if the string ends inside a block comment or a
  string literal, which one pass of a seven-state scanner decides (`MinifyScan.StaysInsideIff`); two such strings are
  `MinifyScan.LeavesTheBuffer`.
- After `tmr_run` a periodic timer may still be due (`TimerSpec.StillDue`). Nothing is due afterwards if and only if at
  every firing of a timer that is due again at once the captured next timer is due no later than that
  (`TimerSpec.LeavesNothingDue`). Where one timer is due, that means less than one period late
  (`TimerSpec.OnlyOneDue`); being less than one period late for all is enough (`TimerSpec.NoneLeftDue`).
- A callback that resets the captured next timer ends the run, even if timers behind it are due
  (`TimerResets.StopsAtReset`, `TimerResets.LeftBehind`); if none does, every due timer fires or is reset by one that
  fires (`TimerResets.DueFiresOrReset`).
- If the server's omit timer fires after the results were exchanged, it clears the counts it has just merged: the two
  sides agree if and only if that did not happen or all counts are zero (`ControlProof.Completion`); a run with five
  bytes in which they disagree is `LateOmit.Disagreement`.
- Duplicated datagrams make the loss count depend on arrival order (`UdpLoss.DuplicatesDependOnOrder`). The count is
  right if and only if at some moment nothing was missing and every duplicate had arrived (`UdpLoss.LossExact`).
- A frame header that announces 2^32 − 1 bytes wraps the allocation to zero; every other length leaves room for the
  body and its terminator (`Framing.BodyFits`, `Framing.BodyOverruns`).
- At the end of the omit period byte counters restart but datagram counters do not, so the kept intervals add up to
  the reported datagram counts if and only if no datagram was counted between the last callback and the omit timer
  (`IntervalHistory.DatagramsReported`).
- Neither the omit reset nor the state check touches the test-wide `bytes_received`, so it exceeds the sum over streams
  by exactly what was dropped (`Intervals.Test.Receive`, `Intervals.Test.ResetStats`).

## Model

| member | source | states |
|---|---|---|
| Utf.ParseHex4 | iperfwrapperlib/iperf/src/cjson.c:495-529 | the accumulator loop computes the positional value of four hexadecimal digits, and 0 if any is bad |
| Utf.Utf8RoundTrip | iperfwrapperlib/iperf/src/cjson.c:594-640 | the bytes produced for a scalar value are well-formed UTF-8 (section 4 of RFC 3629) and decode to it |
| Utf.Utf8Unique | iperfwrapperlib/iperf/src/cjson.c:594-640 | every well-formed UTF-8 character is the encoding of the scalar value it decodes to, so the encoding is the only one |
| Utf.PairInverse | iperfwrapperlib/iperf/src/cjson.c:560-590 | a supplementary code point splits into a high and a low surrogate, and the pair's value is the code point |
| Utf.PairExample | iperfwrapperlib/iperf/src/cjson.c:586-588 | the pair D808, DF45 is the code point 12345, all hexadecimal |
| Utf.PairCovers | iperfwrapperlib/iperf/src/cjson.c:560-590 | every high/low pair stands for one scalar value whose UTF-16 form is that pair |
| Utf.LiteralDecodes | iperfwrapperlib/iperf/src/cjson.c:533-651 | every scalar value spelled as one or two escapes is decoded to itself and exactly those bytes are consumed |
| Utf.LiteralSound | iperfwrapperlib/iperf/src/cjson.c:533-651 | an accepted literal spells its code point if and only if its digits are valid, and is NUL otherwise; rejected literals spell no scalar value (lone or mismatched surrogates) |
| Utf.BitOperations | iperfwrapperlib/iperf/src/cjson.c:625-642 | masks and shifts of the C code equal the arithmetic used in the model, for every 32-bit value |
| Utf.PairBits | iperfwrapperlib/iperf/src/cjson.c:586-588 | joining two halves with masks, shift and or is the arithmetic used in the model, for every pair of 32-bit values |
| Utf.WriteUtf8 | iperfwrapperlib/iperf/src/cjson.c:594-642 | the backwards writing loop leaves exactly the UTF-8 bytes and touches nothing else |
| StringLiteral.UnitFits | iperfwrapperlib/iperf/src/cjson.c:711-758 | one decoded unit writes no more than its input minus the escapes the scan counted in it, even when the passes are out of step |
| StringLiteral.WrittenFits | iperfwrapperlib/iperf/src/cjson.c:667-758 | from any point of the decoding pass, the bytes still to be written fit in the space the scan left |
| StringLiteral.TwoPassBound | iperfwrapperlib/iperf/src/cjson.c:667-758 | for every input the decoded bytes and the terminator fit in the allocation computed by the scan |
| StringLiteral.PlainAllocation | iperfwrapperlib/iperf/src/cjson.c:667-705 | without escapes the allocation is the text and two bytes |
| StringLiteral.ScanString | iperfwrapperlib/iperf/src/cjson.c:667-705 | the scanning loop finds the closing quote exactly if there is one, and computes the allocation |
| StringLiteral.Utf16LiteralToUtf8 | iperfwrapperlib/iperf/src/cjson.c:533-651 | writes the UTF-8 form of the literal and reports its length, or leaves the buffer alone and reports 0 |
| StringLiteral.DecodeOne | iperfwrapperlib/iperf/src/cjson.c:711-758 | one round of the decoding loop writes what the unit at the input pointer stands for |
| StringLiteral.DecodeString | iperfwrapperlib/iperf/src/cjson.c:711-768 | the decoding loop stays inside the scan's allocation and leaves the decoded bytes and a terminator |
| StringLiteral.ScanEscaped | iperfwrapperlib/iperf/src/cjson.c:680-705 | the scan of any escaped string ends at its closing quote |
| StringLiteral.DecodeEscaped | iperfwrapperlib/iperf/src/cjson.c:711-758 | decoding inverts escaping for every byte string |
| Number.NumberTextValue | iperfwrapperlib/iperf/src/cjson.c:430-492 | the printed digits of every integer convert back to it, consuming all of them |
| Number.NumberReadBack | iperfwrapperlib/iperf/src/cjson.c:227-283 | a printed integer of at most 15 digits is a token of its own and is converted exactly, wherever it stands |
| Number.CopyToken | iperfwrapperlib/iperf/src/cjson.c:241-275 | the copying loop takes the longest run of number characters up to 63 and stays inside its 64 bytes |
| StringForms.DigitRead | iperfwrapperlib/iperf/src/cjson.c:495-529 | both cases of every hexadecimal digit have its value, and nothing else has |
| StringForms.HexTextRead | iperfwrapperlib/iperf/src/cjson.c:495-529 | four digits in any case are read with the most significant first |
| StringForms.PieceDecoded | iperfwrapperlib/iperf/src/cjson.c:711-758 | a raw byte, an escape by any letter of RFC 8259, or any character by its UTF-16 units is decoded to what it means |
| StringForms.UnitFound | iperfwrapperlib/iperf/src/cjson.c:711-758 | whatever is decoded is such a piece, or an escape with a bad digit, read as NUL |
| StringForms.LiteralRead | iperfwrapperlib/iperf/src/cjson.c:653-780 | a literal of any pieces is read as what they mean together |
| StringForms.EscapeLegal | iperfwrapperlib/iperf/src/cjson.c:782-902 | the printer spells every byte as a legal piece that means it |
| StringForms.EscapeShortest | iperfwrapperlib/iperf/src/cjson.c:782-902 | no legal piece for the byte is shorter |
| NumberForms.FormRead | iperfwrapperlib/iperf/src/cjson.c:227-283 | every literal with sign, fraction and exponent is read whole and as its value |
| NumberForms.FormFound | iperfwrapperlib/iperf/src/cjson.c:227-283 | whatever is read is such a literal |
| NumberForms.FormParsed | iperfwrapperlib/iperf/src/cjson.c:227-283 | wherever it stands, up to 63 characters |
| NumberForms.LongTokenCut | iperfwrapperlib/iperf/src/cjson.c:241-275 | a longer run of number characters is cut after 63 |
| NumberForms.NumberTextShortest | iperfwrapperlib/iperf/src/cjson.c:430-492 | integers are printed in the one shortest way |
| Grammar.ValueIff | iperfwrapperlib/iperf/src/cjson.c:1150-1204 | a value is read from one place to another if and only if that is a text of it, with blanks anywhere between tokens, and it does not nest too deep |
| Grammar.ParseTextIff | iperfwrapperlib/iperf/src/cjson.c:939-1019 | a tree and an end are returned if and only if the input is such a text of the tree, with only blanks behind it if they are looked at, and nests at most 1000 deep |
| Grammar.Mismatch | iperfwrapperlib/iperf/src/cjson.c:1284-1547 | a bracket or brace that is not closed is refused, and without a colon an object can only be empty |
| RoundTrip.AcceptedDepth | iperfwrapperlib/iperf/src/cjson.c:1284-1376 | any accepted value nests at most 1000 deep, whatever the input |
| RoundTrip.StringReadBack | iperfwrapperlib/iperf/src/cjson.c:653-780 | a printed string literal is read back byte for byte |
| RoundTrip.ValueReadBack | iperfwrapperlib/iperf/src/cjson.c:1150-1204 | a printed value inside any text is read back with the offset just behind it, or refused if it nests too deep |
| RoundTrip.ParseInvertsPrint | iperfwrapperlib/iperf/src/cjson.c:939-1019 | for every printable tree, formatted or not, parsing the printed text returns the tree and consumes exactly the text if and only if it nests at most 1000 deep |
| ParseBuffer.ParseBuffer.SkipWhitespace | iperfwrapperlib/iperf/src/cjson.c:918-937 | the offset ends on the next byte above 32 or on the terminator, never behind it |
| ParseBuffer.ParseBuffer.ParseNumber | iperfwrapperlib/iperf/src/cjson.c:227-283 | agrees with the number grammar on value and offset |
| ParseBuffer.ParseBuffer.ParseString | iperfwrapperlib/iperf/src/cjson.c:653-780 | both passes on real buffers agree with the string grammar on value and offset |
| ParseBuffer.ParseBuffer.ParseValue | iperfwrapperlib/iperf/src/cjson.c:1150-1204 | agrees with the grammar; on success at least one byte was consumed, the offset is below the length and the depth is restored |
| ParseBuffer.ParseBuffer.ParseArray | iperfwrapperlib/iperf/src/cjson.c:1284-1376 | agrees with the grammar and restores the depth |
| ParseBuffer.ParseBuffer.ParseItems | iperfwrapperlib/iperf/src/cjson.c:1316-1356 | the comma loop terminates and collects exactly the elements |
| ParseBuffer.ParseBuffer.ParseObject | iperfwrapperlib/iperf/src/cjson.c:1440-1547 | agrees with the grammar and restores the depth |
| ParseBuffer.ParseBuffer.ParseMember | iperfwrapperlib/iperf/src/cjson.c:1490-1520 | key, colon and value agree with the grammar and restore the depth |
| ParseBuffer.ParseBuffer.ParseMembers | iperfwrapperlib/iperf/src/cjson.c:1471-1525 | the comma loop terminates and collects exactly the members |
| ParseBuffer.ParseWithOpts | iperfwrapperlib/iperf/src/cjson.c:939-1019 | every read is in bounds for every C string, and tree and end position are those of the grammar, with and without the check for trailing bytes |
| Printer.PrintBuffer.Ensure | iperfwrapperlib/iperf/src/cjson.c:336-412 | succeeds exactly if the buffer may grow or has room for the request and a terminator; the bytes before the offset survive |
| Printer.PrintBuffer.UpdateOffset | iperfwrapperlib/iperf/src/cjson.c:415-427 | the offset moves exactly over the text just printed |
| Printer.PrintBuffer.PrintNumber | iperfwrapperlib/iperf/src/cjson.c:430-492 | appends the number's text, exactly when text and terminator fit |
| Printer.EscapedLength | iperfwrapperlib/iperf/src/cjson.c:810-834 | the counting loop gives the length of the escaped text |
| Printer.NothingEscaped | iperfwrapperlib/iperf/src/cjson.c:842-851 | if escaping adds no byte then it changes none, so the plain copy is right |
| Printer.PrintBuffer.StoreEscaped | iperfwrapperlib/iperf/src/cjson.c:853-902 | the escaping loop writes the quoted text and a terminator and stays in the reserved space |
| Printer.PrintBuffer.PrintString | iperfwrapperlib/iperf/src/cjson.c:782-902 | appends the quoted text, exactly when it fits with two more bytes |
| Printer.PrintBuffer.PrintArray | iperfwrapperlib/iperf/src/cjson.c:1378-1438 | appends the array's text behind what was there, exactly when it fits |
| Printer.PrintBuffer.PrintItems | iperfwrapperlib/iperf/src/cjson.c:1402-1428 | the element loop writes elements and separators in order, or fails only for lack of room |
| Printer.PrintBuffer.PrintObject | iperfwrapperlib/iperf/src/cjson.c:1549-1661 | appends the object's text behind what was there, exactly when it fits |
| Printer.PrintBuffer.PrintMembers | iperfwrapperlib/iperf/src/cjson.c:1577-1640 | the member loop writes the members in order, or fails only for lack of room |
| Printer.PrintBuffer.PrintValue | iperfwrapperlib/iperf/src/cjson.c:1206-1282 | for every tree, mode and depth: appends exactly the text if and only if the buffer may grow or the need fits |
| Printer.PrintPreallocated | iperfwrapperlib/iperf/src/cjson.c:1131-1148 | succeeds if and only if the buffer has two bytes more than the text (one for a number), and then holds the text and NUL; nothing at or behind the length passed is ever written, however long the buffer is |
| Layout.FormattedIsLayout | iperfwrapperlib/iperf/src/cjson.c:1378-1661 | the formatted text of every tree is what a pretty-printer on bytes makes of the unformatted one: keys on lines of their own, indented by the open containers, a tab behind colons, a blank behind commas in arrays |
| Printer.Print | iperfwrapperlib/iperf/src/cjson.c:1029-1080 | a growing buffer always ends with exactly the text |
| Minify.MinifyFormatted | iperfwrapperlib/iperf/src/cjson.c:2350-2412 | minifying the formatted print of every tree gives its unformatted print, byte for byte |
| MinifyScan.MinifiedRound | iperfwrapperlib/iperf/src/cjson.c:2353-2408 | the result is made round by round, and there is none exactly where a round takes the reading index out of the buffer |
| MinifyScan.MinifiedEmits | iperfwrapperlib/iperf/src/cjson.c:2350-2412 | on every string the result is what a scanner keeps that reads it byte by byte: all but blanks and comments outside of literals, everything inside |
| MinifyScan.StaysInsideIff | iperfwrapperlib/iperf/src/cjson.c:2353-2408 | the reading index stays inside the buffer if and only if the string does not end inside a block comment or a literal |
| MinifyScan.LeavesTheBuffer | iperfwrapperlib/iperf/src/cjson.c:2379-2400 | an unclosed literal and an unclosed comment on which the index leaves the buffer |
| MinifyBuffer.MinifyInPlace | iperfwrapperlib/iperf/src/cjson.c:2350-2412 | on every string that does not end inside a block comment or a literal the loop leaves the minified text and NUL, its write index never overtaking the read index |
| MinifyBuffer.MinifyToken | iperfwrapperlib/iperf/src/cjson.c:2355-2407 | a round that stays inside the buffer appends exactly its piece of the input |
| MinifyBuffer.CopyString | iperfwrapperlib/iperf/src/cjson.c:2387-2400 | a string literal is copied whole, escapes included |
| ChildList.Parent.GetItem | iperfwrapperlib/iperf/src/cjson.c:1679-1696 | the element at the index, or null behind the end |
| ChildList.Parent.AddItem | iperfwrapperlib/iperf/src/cjson.c:1774-1799 | the sequence grows by the item at its end; links stay mirrored |
| ChildList.Parent.DetachViaPointer | iperfwrapperlib/iperf/src/cjson.c:1845-1873 | exactly that element leaves the sequence and is unlinked, at every position |
| ChildList.Parent.DetachItem | iperfwrapperlib/iperf/src/cjson.c:1875-1883 | the element at the index leaves the sequence; other indices change nothing |
| ChildList.Parent.InsertItem | iperfwrapperlib/iperf/src/cjson.c:1915-1942 | inserts at the index, clamped to the end; a negative index changes nothing |
| ChildList.Parent.LinkBefore | iperfwrapperlib/iperf/src/cjson.c:1930-1941 | relinking in front of an element is insertion at its index |
| ChildList.Parent.ReplaceViaPointer | iperfwrapperlib/iperf/src/cjson.c:1944-1977 | replaces one element, keeps the others, and replacing an item by itself changes nothing |
| Framing.Nwrite | iperfwrapperlib/iperf/src/net.c:344-374 | for every split and every error, exactly the bytes the calls moved are written, a prefix of the buffer; every call but the last moved some, and one that moved none decides the result |
| Framing.Nread | iperfwrapperlib/iperf/src/net.c:318-337 | for every split and every error, exactly the bytes the calls moved are taken off the stream; every call but the last moved some, and fewer than asked for and there are taken only after one that moved none |
| Framing.JsonWrite | iperfwrapperlib/iperf/src/iperf_api.c:2139-2160 | a prefix of the length in network order and a prefix of the unformatted text are appended, both whole if every call moves some; a reported failure means an incomplete frame |
| Framing.JsonRead | iperfwrapperlib/iperf/src/iperf_api.c:2165-2202 | header and body bytes are taken off the stream, and a tree is returned only for a body of the announced length; if every call moves some it is the frame as specified, including short and truncated ones |
| Framing.BodyFits | iperfwrapperlib/iperf/src/iperf_api.c:2179-2191 | body and terminator fit in the 32-bit allocation if and only if the announced length is not the largest one |
| Framing.BodyOverruns | iperfwrapperlib/iperf/src/iperf_api.c:2179-2191 | the header 255, 255, 255, 255 allocates nothing for the byte that follows |
| Framing.FrameRoundTrip | iperfwrapperlib/iperf/src/iperf_api.c:2139-2202 | a tree written as a frame is read back and the stream stops exactly at the frame boundary; it is refused only if it nests too deep |
| Framing.NetworkOrder | iperfwrapperlib/iperf/src/iperf_api.c:2139-2202 | the length has its most significant byte first |
| Framing.Truncated | iperfwrapperlib/iperf/src/iperf_api.c:2165-2202 | a frame cut off behind its header is refused and nothing of it is left |
| Framing.FramesInOrder | iperfwrapperlib/iperf/src/iperf_api.c:2139-2202 | any sequence of frames is read back tree by tree in order |
| Streams.IdsUnique | iperfwrapperlib/iperf/src/iperf_api.c:3790-3809 | the numbering 1, 3, 4, 5, … gives no id twice |
| Streams.NewId | iperfwrapperlib/iperf/src/iperf_api.c:3790-3809 | the walk over the list gives the ids 1, 3, 4, 5, … |
| Streams.TakeResultsIff | iperfwrapperlib/iperf/src/iperf_api.c:1977-2135 | the exchange succeeds if and only if every report names a stream; others are left alone |
| Streams.GetResults | iperfwrapperlib/iperf/src/iperf_api.c:1977-2135 | the nested loops apply every report to the stream with its id, and fail if an id is unknown |
| Streams.TakeAll | iperfwrapperlib/iperf/src/iperf_api.c:1977-2135 | a peer's reports reach every stream exactly once |
| Streams.MergeKeeps | iperfwrapperlib/iperf/src/iperf_api.c:2065-2102 | merging a peer's report fills in the direction not measured here and keeps the own measurement |
| Streams.MergeAgrees | iperfwrapperlib/iperf/src/iperf_api.c:1870-2135 | once one side has merged, merging its report gives the same bytes sent net of omitted and bytes received |
| ControlText.ValueIntIs | iperfwrapperlib/iperf/src/cjson.c:286-298 | numbers are kept exactly in the range of 64 bits and saturated outside |
| ControlText.FractionCut | iperfwrapperlib/iperf/src/cjson.c:286-298 | a fraction is cut off towards zero |
| ControlText.ResultsRead | iperfwrapperlib/iperf/src/iperf_api.c:1977-2064 | looking up the names in the tree that was built finds every report, in order, whatever optional fields are there |
| ControlText.ResultsThroughTheWire | iperfwrapperlib/iperf/src/iperf_api.c:1870-2135 | the reports of any number of streams, written as a frame, are read back unchanged with the stream at the frame's end |
| ControlText.ParametersRead | iperfwrapperlib/iperf/src/iperf_api.c:1780-1868 | the server reads the stream count, directions and omit period the client was given, whatever other settings stand in front, between and behind |
| ControlText.ParametersThroughTheWire | iperfwrapperlib/iperf/src/iperf_api.c:1693-1868 | the same after printing, framing, splitting and parsing |
| ControlText.DirectionReadBack | iperfwrapperlib/iperf/src/iperf_api.c:1610-1689 | any sequence of cookies, state bytes, parameters and results, written back to back, is read message by message by a reader that expects these kinds |
| ControlProof.InvKept | iperfwrapperlib/iperf/src/iperf_server_api.c:438-659 | every step of either process, the network or a stranger keeps the protocol invariant |
| ControlProof.Reachable | iperfwrapperlib/iperf/src/iperf_client_api.c:494-579 | every state of every run satisfies the invariant |
| ControlProof.Safety | iperfwrapperlib/iperf/src/iperf_client_api.c:230-323 | in every run each read finds the kind of message it expects, no unknown-message branch is reached, TEST_END is in flight only while the server runs the test |
| ControlProof.StreamsPaired | iperfwrapperlib/iperf/src/iperf_server_api.c:534-579 | in every run the i-th streams of the two sides have the same id, which no other stream has, and opposite directions, for every stream count and mode; ids and directions are given |
| ControlProof.StrangerDenied | iperfwrapperlib/iperf/src/iperf_server_api.c:105-153 | in every run accepting another party's connection changes nothing but the accept queue |
| ControlProof.Progress | iperfwrapperlib/iperf/src/iperf_server_api.c:155-224 | in every run, until both sides are in IPERF_DONE, a protocol step is possible |
| ControlProof.StepAhead | iperfwrapperlib/iperf/src/iperf_client_api.c:494-579 | every step but data traffic and strangers brings the end nearer |
| ControlProof.WorkBounded | iperfwrapperlib/iperf/src/iperf_server_api.c:438-659 | a run has at most 48 protocol steps, two per stream and one per stranger |
| ControlProof.ServerMerges | iperfwrapperlib/iperf/src/iperf_api.c:1670-1689 | the server's exchange succeeds and fills in the client's count on every stream |
| ControlProof.Completion | iperfwrapperlib/iperf/src/iperf_api.c:1670-1689 | a run that can do no more has both sides in IPERF_DONE with all streams; they agree on every stream if and only if the server's omit timer did not fire after the exchange or all counts are zero |
| ControlTraffic.TrafficCounted | iperfwrapperlib/iperf/src/iperf_tcp.c:54-102 | in every run each side's own count of every stream is the sum of its traffic since its omit timer |
| ControlTraffic.FinalCounts | iperfwrapperlib/iperf/src/iperf_api.c:1670-1689 | after every completed run without a late omit timer both sides hold, for every stream, the bytes its sending end sent and the bytes its receiving end received since their omit timers |
| ControlProof.History | iperfwrapperlib/iperf/src/iperf_server_api.c:310-326 | the state tells of every run whether the exchange took place and whether the omit timer fired after it |
| LateOmit.Disagreement | iperfwrapperlib/iperf/src/iperf_server_api.c:310-326 | a complete run with one stream and five bytes after which the sides disagree |
| IperfTime.AddUsecsModular | iperfwrapperlib/iperf/src/iperf_time.c:72-81 | the result is normal and is addition modulo 2^32 seconds, exact if and only if nothing wraps |
| IperfTime.CompareMicros | iperfwrapperlib/iperf/src/iperf_time.c:102-115 | the comparison is the order of microseconds |
| IperfTime.Diff | iperfwrapperlib/iperf/src/iperf_time.c:117-156 | the absolute distance, and whether the first time is not later |
| TimerSpec.PositionIs | iperfwrapperlib/iperf/src/timer.c:60-97 | the insertion place is the only one behind all timers due no later and before one due later, so equal times keep their order |
| TimerSpec.AddSorted | iperfwrapperlib/iperf/src/timer.c:60-97 | insertion keeps the list sorted |
| TimerSpec.FiredDebt | iperfwrapperlib/iperf/src/timer.c:184-198 | every firing reduces the total overdue time, so the run terminates |
| TimerSpec.ResumeNext | iperfwrapperlib/iperf/src/timer.c:184-198 | the captured next timer is still in the list and is where the iteration goes on |
| TimerSpec.RunSorted | iperfwrapperlib/iperf/src/timer.c:176-199 | the list is sorted after the run |
| TimerSpec.NeverEarly | iperfwrapperlib/iperf/src/timer.c:176-199 | nothing fires before it is due |
| TimerSpec.DueFires | iperfwrapperlib/iperf/src/timer.c:176-199 | every timer due at entry fires at least once |
| TimerSpec.OneShotOnce | iperfwrapperlib/iperf/src/timer.c:191-197 | a due one-shot fires exactly once and is then inactive |
| TimerSpec.Accounted | iperfwrapperlib/iperf/src/timer.c:191-197 | every other timer stays active, later by exactly one period per firing |
| TimerSpec.LateRests | iperfwrapperlib/iperf/src/timer.c:189-190 | a timer not due does not fire |
| TimerSpec.RunServes | iperfwrapperlib/iperf/src/timer.c:176-199 | the four facts above for every timer of the list |
| TimerSpec.LeavesNothingDue | iperfwrapperlib/iperf/src/timer.c:184-198 | nothing is due after the run if and only if each firing of a timer that is due again at once has a captured next timer due no later |
| TimerSpec.OnlyOneDue | iperfwrapperlib/iperf/src/timer.c:184-198 | with one timer due, nothing is due after the run if and only if it is a one-shot or less than one period late |
| TimerSpec.NoneLeftDue | iperfwrapperlib/iperf/src/timer.c:184-198 | if the run is less than one period late for every periodic timer, nothing is due afterwards |
| TimerSpec.StillDue | iperfwrapperlib/iperf/src/timer.c:184-198 | two timers for which a periodic one is still due after the run |
| TimerResets.RunKeeps | iperfwrapperlib/iperf/src/timer.c:176-211 | with callbacks that reset other timers the list stays sorted and nothing fires early |
| TimerResets.RunConserves | iperfwrapperlib/iperf/src/timer.c:176-211 | every timer is still active or a one-shot that fired, never both |
| TimerResets.RunLeaves | iperfwrapperlib/iperf/src/timer.c:176-211 | a timer that neither fired nor was reset by one that fired is as it was |
| TimerResets.RunAccounted | iperfwrapperlib/iperf/src/timer.c:176-211 | a timer that was reset is due exactly one period from now; any other that is still active is later by one period per firing |
| TimerResets.LateRestsWith | iperfwrapperlib/iperf/src/timer.c:184-198 | a timer that is not due does not fire, reset or not |
| TimerResets.StopsAtReset | iperfwrapperlib/iperf/src/timer.c:184-198 | the run goes on after a firing if and only if the captured next timer is due and the callback did not reset it |
| TimerResets.LeftBehind | iperfwrapperlib/iperf/src/timer.c:184-198 | three due timers of which the last does not fire, because the first resets the second |
| TimerResets.DueFiresOrReset | iperfwrapperlib/iperf/src/timer.c:176-211 | if no firing of the run resets its captured next timer, every timer due at the start fires or is reset by one that fires |
| TimerResets.RunPlain | iperfwrapperlib/iperf/src/timer.c:176-199 | without resets it is the plain run |
| TimerList.TimerList.ListAdd | iperfwrapperlib/iperf/src/timer.c:60-97 | linking in keeps both lists consistent and inserts at the specified place |
| TimerList.TimerList.ListRemove | iperfwrapperlib/iperf/src/timer.c:99-108 | unlinking removes exactly that node |
| TimerList.TimerList.Resort | iperfwrapperlib/iperf/src/timer.c:111-118 | a timer with a new time moves to its place, the others keep their order |
| TimerList.TimerList.Create | iperfwrapperlib/iperf/src/timer.c:121-148 | a recycled or new node is inserted with its due time; a recycled one leaves the free list |
| TimerList.TimerList.Timeout | iperfwrapperlib/iperf/src/timer.c:153-173 | 0 or the time until the earliest of all active timers, in normal form; nothing if there is none |
| TimerList.TimerList.Reset | iperfwrapperlib/iperf/src/timer.c:202-211 | the timer is due one period from now and moved to its place |
| TimerList.TimerList.Cancel | iperfwrapperlib/iperf/src/timer.c:214-223 | the node moves from the active list to the front of the free list |
| TimerList.TimerList.Destroy | iperfwrapperlib/iperf/src/timer.c:226-245 | both lists end empty |
| TimerList.TimerList.AfterCallback | iperfwrapperlib/iperf/src/timer.c:191-198 | a periodic timer is rescheduled, any other goes to the free list |
| TimerList.TimerList.RunStep | iperfwrapperlib/iperf/src/timer.c:184-198 | one due timer fires with its callback's resets as specified, and the captured next node is where the specified run goes on |
| TimerList.TimerList.Run | iperfwrapperlib/iperf/src/timer.c:176-199 | terminates with consistent lists as the specified run, with and without resets; the free list gains exactly the fired one-shots, every node is on one of the lists, every timer ends up where its firings and resets put it, and without resets every timer is served |
| UdpLoss.Receiver.Receive | iperfwrapperlib/iperf/src/iperf_udp.c:81-153 | the three counters are the tally of all arrivals so far |
| UdpLoss.MissingStep | iperfwrapperlib/iperf/src/iperf_udp.c:124-149 | how one arrival changes the number of missing sequence numbers |
| UdpLoss.LossBounds | iperfwrapperlib/iperf/src/iperf_udp.c:81-153 | for every run the packet count is the maximum seen and missing − duplicates ≤ lost ≤ missing |
| UdpLoss.DistinctCount | iperfwrapperlib/iperf/src/iperf_udp.c:81-153 | missing numbers are the maximum less the distinct arrivals |
| UdpLoss.SurplusIsMaximum | iperfwrapperlib/iperf/src/iperf_udp.c:124-149 | the surplus is the largest lead of arrivals over the highest number in any prefix |
| UdpLoss.LossFormula | iperfwrapperlib/iperf/src/iperf_udp.c:124-149 | for every run the loss count is highest number − arrivals + surplus |
| UdpLoss.LossExact | iperfwrapperlib/iperf/src/iperf_udp.c:124-149 | the loss count is right if and only if the surplus is the number of duplicates, that is, if at some moment nothing was missing and all duplicates had arrived |
| UdpLoss.NoDuplicatesExact | iperfwrapperlib/iperf/src/iperf_udp.c:81-153 | without duplicates the loss is exact and what is not lost is what arrived |
| UdpLoss.OrderIrrelevant | iperfwrapperlib/iperf/src/iperf_udp.c:81-153 | without duplicates the result depends only on the set of arrivals |
| UdpLoss.DuplicatesDependOnOrder | iperfwrapperlib/iperf/src/iperf_udp.c:108-149 | for every run with losses that starts with packet 1 and repeats none, a second copy of it does no harm in front and hides one loss at the end |
| UdpLoss.OutOfOrderCounts | iperfwrapperlib/iperf/src/iperf_udp.c:133-149 | the out-of-order counter is the number of arrivals that came after the same or a higher number |
| Sending.BelowRateExact | iperfwrapperlib/iperf/src/iperf_api.c:1425-1428 | the rounded quotient is below the rate if and only if the bits sent are below rate times elapsed time |
| Sending.BelowRateMeans | iperfwrapperlib/iperf/src/iperf_api.c:1427-1431 | a green light at a moment means the stream has sent at most rate times elapsed time |
| Sending.Sender.CheckThrottle | iperfwrapperlib/iperf/src/iperf_api.c:1418-1437 | only the light of that stream changes, it becomes the decision at this time, and green means within the rate |
| Sending.Sender.SendTimer | iperfwrapperlib/iperf/src/iperf_api.c:1541-1552 | the pacing timer of any stream at any later time decides that light anew, changes nothing else and keeps the pacing bound |
| Sending.Sender.SendOne | iperfwrapperlib/iperf/src/iperf_api.c:1461-1472 | one write puts its stream at most one block further ahead, adds to stream and test alike, and with a rate and no bursts decides the light anew: green exactly below the rate |
| Sending.Sender.TakeTurn | iperfwrapperlib/iperf/src/iperf_api.c:1458-1472 | the write call of one stream changes that stream and the totals by its answer, and nothing on an error |
| Sending.Sender.SendPass | iperfwrapperlib/iperf/src/iperf_api.c:1457-1479 | the streams that may send take the write calls in list order, each at most one; totals grow by the answers; the pass ends early only on an error or, unless it is the last, at a limit, at most one block beyond it |
| Sending.Sender.SendPasses | iperfwrapperlib/iperf/src/iperf_api.c:1454-1481 | the outer loop makes all passes, each from the snapshot the one before left, unless one writes nothing or fails |
| Sending.Sender.Send | iperfwrapperlib/iperf/src/iperf_api.c:1439-1492 | the call is its passes one after another and, in burst mode, a throttle check of every stream; totals grow by exactly what the write calls took, a hard error is returned, and if a stream may send something is tried; every stream stays within rate × elapsed plus one block, or one burst; a call that starts below a byte limit B ends at most at B − 1 + (M − 1 + N) blocks, likewise for blocks; with a rate, the light of every stream that wrote is green exactly if it is below its rate |
| Sending.Sender.PassMeans | iperfwrapperlib/iperf/src/iperf_api.c:1457-1479 | in every pass a stream's bytes grow by what its own write took, and its light changes only where it is decided anew |
| Sending.Sender.GreenSends | iperfwrapperlib/iperf/src/iperf_api.c:1457-1479 | a green stream that may write does so in the next call |
| Sending.Sender.BelowRateSends | iperfwrapperlib/iperf/src/iperf_api.c:1541-1552 | a stream that is below its rate when its pacing timer fires sends in the next call |
| Sending.Sender.Handle | iperfwrapperlib/iperf/src/iperf_api.c:1439-1552 | one send or pacing timer, exactly as described, keeps every stream within its rate but for the allowance at the time of the event |
| Sending.Sender.Drive | iperfwrapperlib/iperf/src/iperf_api.c:1418-1576 | after every event of any run of sends and pacing timers, every stream has sent at most rate × time since its start plus one block, or one burst |
| Intervals.Test.Send | iperfwrapperlib/iperf/src/iperf_tcp.c:82-102 | a write keeps bytes conserved on the stream and equal in sum to the test total; a failed datagram still takes a number |
| Intervals.Test.Receive | iperfwrapperlib/iperf/src/iperf_tcp.c:54-76 | a read keeps conservation, counted only while the test runs; the test total counts the rest as dropped |
| Intervals.Test.StatsCallback | iperfwrapperlib/iperf/src/iperf_api.c:2700-2771 | closing an interval on every stream keeps conservation, abutting times, counter differences and omit marks |
| Intervals.Test.ResetStats | iperfwrapperlib/iperf/src/iperf_api.c:2664-2691 | the omit reset keeps conservation, counted from now on |
| Intervals.Test.OmitDone | iperfwrapperlib/iperf/src/iperf_client_api.c:187-195 | every stream is cleared and keeps its intervals, exactly those closed before are marked omitted, and conservation starts afresh |
| Intervals.Test.Drive | iperfwrapperlib/iperf/src/iperf_api.c:2664-2771 | after any run of writes, reads, callbacks and the omit timer the streams are what the events make of them one by one, the invariant holds, and after the omit period kept intervals and the open one hold the bytes reported |
| Intervals.ClosedGood | iperfwrapperlib/iperf/src/iperf_api.c:2711-2769 | closing an interval keeps every part of the stream invariant |
| Intervals.ClearedGood | iperfwrapperlib/iperf/src/iperf_api.c:2674-2690 | clearing starts conservation afresh and keeps the intervals |
| Intervals.ReportedBytes | iperfwrapperlib/iperf/src/iperf_api.c:2700-2771 | the intervals not omitted and the open one hold exactly the bytes the stream reports; all intervals together last from the first start to the last callback |
| Intervals.ReportedCounters | iperfwrapperlib/iperf/src/iperf_api.c:2751-2765 | interval counters sum to the totals at the last callback; those since the reset sum to total − omitted if and only if the omitted counters are the totals at the last callback before it |
| IntervalHistory.BytesAre | iperfwrapperlib/iperf/src/iperf_api.c:2664-2771 | after any events, bytes sent, omitted, received and of the open interval are sums over the events |
| IntervalHistory.TimesAre | iperfwrapperlib/iperf/src/iperf_api.c:2664-2771 | start and end times are those of the omit timer and of the last callback |
| IntervalHistory.CountersAre | iperfwrapperlib/iperf/src/iperf_api.c:2664-2691 | datagram counters are the writes or the tally of the arrivals, and the omitted ones those before the omit timer |
| IntervalHistory.IntervalsAre | iperfwrapperlib/iperf/src/iperf_api.c:2700-2771 | there is one interval per callback, with its times, the bytes since the one before or the reset, its mark and the counters then |
| IntervalHistory.DatagramsReported | iperfwrapperlib/iperf/src/iperf_api.c:2664-2771 | the datagram counters of the kept intervals add up to total − omitted if and only if no datagram was counted between the last callback before the omit timer and the timer |
| IntervalHistory.RunTest | iperfwrapperlib/iperf/src/iperf_api.c:2664-2771 | all of that for every stream of every test from its start |
| Intervals.ChangesTelescope | iperfwrapperlib/iperf/src/iperf_api.c:2751-2765 | from any interval on, counter differences sum to the difference of the totals |
| Intervals.DurationTelescopes | iperfwrapperlib/iperf/src/iperf_api.c:2717-2727 | abutting intervals last from the first start to the last end |

## Left out

- ParseBuffer.ParseBuffer.ParseNumber: the value is the exact decimal number, without rounding to a double.
- Printer.PrintBuffer.PrintNumber: leaves that are printed are integers of at most 15 digits, where the `%1.15g`
  conversion prints plain digits and `strtod` is exact.
- Locale-dependent decimal points, Raw items and allocation failure are not modelled.
- Printer.PrintBuffer.Ensure: requests above LLONG_MAX are refused by the code; lengths here are unbounded.
- cJSON_Compare, cJSON_Duplicate and item creation are not modelled; they would add easy members.
- ChildList.Parent.AddItem: the source does not check that the item is free-standing; items are taken fresh or detached.
- ChildList.Parent.InsertItem: likewise.
- MinifyBuffer.MinifyInPlace: states nothing for strings on which the code leaves its buffer.
- Framing.JsonRead: the buffer for the largest length, which the code allocates with no bytes, is not represented.
- Framing.FrameRoundTrip: text lengths are below 2^31, as the signed length in the reader needs.
- Streams.GetResults: jitter, loss counters, retransmissions and times in the results are not merged, only the bytes.
- ControlText.ResultsThroughTheWire: measured values beside id and bytes are leaves that print exactly.
- ControlText.ParametersThroughTheWire: other settings are leaves that print exactly.
- The control protocol is fault-free TCP: SERVER_ERROR, CLIENT_TERMINATE, timeouts, signals and authentication are not
  modelled; data streams are accepted in connection order, and the end of the test is a nondeterministic client event.
- ControlProof.StrangerDenied: another party connects only after the client has taken the control connection, and
  sends its cookie at once. While streams are being created such a connection is refused by its cookie and changes
  nothing, because TCP congestion selection is compiled out (iperfwrapperlib/iperf/src/iperf_config.h:86).
- TimerList.TimerList.Run: callbacks reset only other, active, periodic timers, as the omit timers do with the
  statistics and reporter timers; callbacks that create or cancel timers, a zero period and a wrap of the 32-bit
  seconds are excluded. With a zero period the loop need not end.
- Sending.Sender.Send: time is in whole microseconds and the rate is compared in exact arithmetic; an infinite quotient
  is above every rate and an undefined one gives an arbitrary fixed answer. The test is not done, so every check decides.
- UdpLoss.LossBounds: sequence numbers are at least 1 and fit in an `int`; the header encoding and jitter are not modelled.
- Intervals.Test.StatsCallback: TCP information of an interval (retransmissions, window, round-trip time) is not modelled.
- Sockets, argument parsing, reports, `diskfile_send`, SCTP, CPU utilisation and all Java code are not modelled.
