/** The JSON frames of the control protocol as bytes: what `send_parameters` and `send_results` write is what
    `get_parameters` and `get_results` read. */
module ControlText {
  import opened Common
  import opened Bytes
  import opened Json
  import opened Streams
  import Control
  import Framing
  import Number

  // ----- looking up members

  /** Lower-case letters and underscores, as in all names used here. */
  predicate Plain(s: string) {
    forall i :: 0 <= i < |s| ==> 95 <= s[i] as int < 128
  }

  type Key = s: string | Plain(s)

  const ID: Key := "id"
  const BYTES: Key := "bytes"
  const RETRANSMITS: Key := "retransmits"
  const JITTER: Key := "jitter"
  const ERRORS: Key := "errors"
  const PACKETS: Key := "packets"
  const START_TIME: Key := "start_time"
  const END_TIME: Key := "end_time"
  const CPU_TOTAL: Key := "cpu_util_total"
  const CPU_USER: Key := "cpu_util_user"
  const CPU_SYSTEM: Key := "cpu_util_system"
  const HAS_RETRANSMITS: Key := "sender_has_retransmits"
  const STREAMS: Key := "streams"
  const OMIT: Key := "omit"
  const PARALLEL: Key := "parallel"
  const REVERSE: Key := "reverse"
  const BIDIRECTIONAL: Key := "bidirectional"

  function Name(s: Key): (r: seq<byte>)
    ensures |r| == |s| && NulFree(r) && forall i :: 0 <= i < |s| ==> r[i] == s[i] as int
  {
    seq(|s|, i requires 0 <= i < |s| => s[i] as int)
  }

  function Lower(c: byte): byte {
    if 65 <= c <= 90 then c + 32 else c
  }

  /** `case_insensitive_strcmp` finds no difference. */
  predicate SameName(a: seq<byte>, b: seq<byte>) {
    |a| == |b| && forall i :: 0 <= i < |a| ==> Lower(a[i]) == Lower(b[i])
  }

  /** `cJSON_GetObjectItem`: the first member of that name. */
  function GetItem(members: seq<Member>, name: seq<byte>): Option<Json> {
    if members == [] then None
    else if SameName(name, members[0].key) then Some(members[0].value)
    else GetItem(members[1..], name)
  }

  /** The children of an item; a leaf has none. */
  function Children(j: Json): seq<Json> {
    match j
    case Array(items) => items
    case Object(members) => seq(|members|, i requires 0 <= i < |members| => members[i].value)
    case _ => []
  }

  function Members(j: Json): seq<Member> {
    if j.Object? then j.members else []
  }

  const LLONG_LIMIT: int := 0x8000_0000_0000_0000

  /** `valueint`: the number without its fraction, saturated to 64 bits; 1 for true. */
  function ValueInt(j: Json): int {
    match j
    case True => 1
    case Number(m, e) => Saturated(if e >= 0 then m * Number.Pow10(e) else Quotient(m, Number.Pow10(-e)))
    case _ => 0
  }

  function Quotient(m: int, d: nat): int {
    if d == 0 then 0 else if m >= 0 then m / d else -((-m) / d)
  }

  function Saturated(n: int): int {
    if n >= LLONG_LIMIT then LLONG_LIMIT - 1 else if n < -LLONG_LIMIT then -LLONG_LIMIT else n
  }

  /** It is in the range of 64 bits, and exact for integers in that range. */
  lemma ValueIntIs(m: int, e: int)
    ensures -LLONG_LIMIT <= ValueInt(Number(m, e)) < LLONG_LIMIT
    ensures e == 0 && -LLONG_LIMIT <= m < LLONG_LIMIT ==> ValueInt(Number(m, e)) == m
  {
    assert Number.Pow10(0) == 1;
    hide Number.Pow10, Quotient;
  }

  /** A fraction is cut off, towards zero on both sides. */
  lemma FractionCut(m: int, k: int)
    requires k > 0 && 0 <= m < LLONG_LIMIT
    ensures var v := ValueInt(Number(m, -k));
            v * Number.Pow10(k) <= m < (v + 1) * Number.Pow10(k) && ValueInt(Number(-m, -k)) == -v
  {
    hide Number.Pow10, Quotient;
    PowerPositive(k);
    CutIs(m, Number.Pow10(k));
    assert Quotient(m, Number.Pow10(k)) < LLONG_LIMIT;
  }

  lemma CutIs(m: int, d: nat)
    requires d > 0 && m >= 0
    ensures 0 <= Quotient(m, d) <= m && Quotient(m, d) * d <= m < (Quotient(m, d) + 1) * d
    ensures Quotient(-m, d) == -Quotient(m, d)
  {
    Quotients(m, d);
    assert Quotient(m, d) == m / d;
    if m > 0 {
      assert Quotient(-m, d) == -(m / d);
    }
  }

  lemma {:induction false} PowerPositive(k: nat)
    ensures Number.Pow10(k) > 0
  {
    if k > 0 {
      PowerPositive(k - 1);
    }
  }

  lemma Quotients(m: nat, d: nat)
    requires d > 0
    ensures 0 <= m / d <= m && m / d * d <= m < (m / d + 1) * d
  {
    var q: nat, r: nat := m / d, m % d;
    assert m == q * d + r;
    QuotientParts(q, r, d);
  }

  lemma QuotientParts(q: nat, r: nat, d: nat)
    requires r < d
    ensures q * d + r < (q + 1) * d && q <= q * d
  {
    assert (q + 1) * d == q * d + d;
    assert q * d == q + q * (d - 1);
  }

  // ----- writing and reading results

  /** The other fields of a stream entry, and the fields beside the stream list. */
  datatype Detail = Detail(retransmits: Json, jitter: Json, errors: Json, packets: Json, startTime: Json, endTime: Json)
  datatype Summary = Summary(cpuTotal: Json, cpuUser: Json, cpuSystem: Json, hasRetransmits: Json)

  function StreamTree(r: Report, d: Detail): Json {
    Object([Member(Name(ID), Number(r.id, 0)), Member(Name(BYTES), Number(r.bytes, 0)),
            Member(Name(RETRANSMITS), d.retransmits), Member(Name(JITTER), d.jitter),
            Member(Name(ERRORS), d.errors), Member(Name(PACKETS), d.packets),
            Member(Name(START_TIME), d.startTime), Member(Name(END_TIME), d.endTime)])
  }

  function StreamTrees(reports: seq<Report>, details: seq<Detail>): (r: seq<Json>)
    requires |reports| == |details|
    ensures |r| == |reports| && forall i :: 0 <= i < |r| ==> r[i] == StreamTree(reports[i], details[i])
  {
    seq(|reports|, i requires 0 <= i < |reports| => StreamTree(reports[i], details[i]))
  }

  function SummaryMembers(sum: Summary): seq<Member> {
    [Member(Name(CPU_TOTAL), sum.cpuTotal), Member(Name(CPU_USER), sum.cpuUser),
     Member(Name(CPU_SYSTEM), sum.cpuSystem), Member(Name(HAS_RETRANSMITS), sum.hasRetransmits)]
  }

  /** `send_results`; `more` are the optional fields, such as the server's output. */
  function ResultsTree(sum: Summary, more: seq<Member>, reports: seq<Report>, details: seq<Detail>): Json
    requires |reports| == |details|
  {
    Object(SummaryMembers(sum) + (more + [Member(Name(STREAMS), Array(StreamTrees(reports, details)))]))
  }

  /** One round of the loop of `get_results`, up to the search for the stream. */
  function ReadStream(j: Json): Option<Report> {
    var m := Members(j);
    var id, bytes := GetItem(m, Name(ID)), GetItem(m, Name(BYTES));
    if id.None? || bytes.None? || GetItem(m, Name(RETRANSMITS)).None? || GetItem(m, Name(JITTER)).None?
       || GetItem(m, Name(ERRORS)).None? || GetItem(m, Name(PACKETS)).None? || ValueInt(id.value) < 0 then None
    else Some(Report(ValueInt(id.value), ValueInt(bytes.value)))
  }

  function ReadStreams(items: seq<Json>): Option<seq<Report>> {
    if items == [] then Some([])
    else
      var init, last := ReadStreams(items[..|items| - 1]), ReadStream(items[|items| - 1]);
      if init.None? || last.None? then None else Some(init.value + [last.value])
  }

  function ReadResults(j: Json): Option<seq<Report>> {
    var m := Members(j);
    var streams := GetItem(m, Name(STREAMS));
    if GetItem(m, Name(CPU_TOTAL)).None? || GetItem(m, Name(CPU_USER)).None?
       || GetItem(m, Name(CPU_SYSTEM)).None? || GetItem(m, Name(HAS_RETRANSMITS)).None?
       || streams.None? then None
    else ReadStreams(Children(streams.value))
  }

  // ----- the trees are printable and not deep

  /** A leaf the printer writes exactly. */
  predicate PlainLeaf(j: Json) {
    Printable(j) && Depth(j) == 0
  }

  predicate PlainDetail(d: Detail) {
    && PlainLeaf(d.retransmits) && PlainLeaf(d.jitter) && PlainLeaf(d.errors)
    && PlainLeaf(d.packets) && PlainLeaf(d.startTime) && PlainLeaf(d.endTime)
  }

  predicate PlainSummary(sum: Summary) {
    PlainLeaf(sum.cpuTotal) && PlainLeaf(sum.cpuUser) && PlainLeaf(sum.cpuSystem) && PlainLeaf(sum.hasRetransmits)
  }

  predicate PlainReport(r: Report) {
    PlainInteger(r.id, 0) && PlainInteger(r.bytes, 0)
  }

  lemma {:induction false} MembersPrintable(members: seq<Member>, depth: nat)
    requires forall i :: 0 <= i < |members| ==> NulFree(members[i].key) && Printable(members[i].value)
    requires forall i :: 0 <= i < |members| ==> Depth(members[i].value) <= depth
    ensures PrintableMembers(members) && MembersDepth(members) <= depth
  {
    if members != [] {
      MembersPrintable(members[1..], depth);
    }
  }

  lemma {:induction false} ItemsPrintable(items: seq<Json>, depth: nat)
    requires forall i :: 0 <= i < |items| ==> Printable(items[i]) && Depth(items[i]) <= depth
    ensures PrintableItems(items) && ItemsDepth(items) <= depth
  {
    if items != [] {
      ItemsPrintable(items[1..], depth);
    }
  }

  lemma StreamPrintable(r: Report, d: Detail)
    requires PlainReport(r) && PlainDetail(d)
    ensures Printable(StreamTree(r, d)) && Depth(StreamTree(r, d)) <= 1
  {
    MembersPrintable(StreamTree(r, d).members, 0);
  }

  /** Optional fields that print exactly and do not nest too deep below the frame's object. */
  predicate PlainMembers(members: seq<Member>, depth: nat) {
    forall i :: 0 <= i < |members| ==>
      NulFree(members[i].key) && Printable(members[i].value) && Depth(members[i].value) <= depth
  }

  lemma ResultsPrintable(sum: Summary, more: seq<Member>, reports: seq<Report>, details: seq<Detail>)
    requires |reports| == |details| && PlainSummary(sum) && PlainMembers(more, 999)
    requires forall i :: 0 <= i < |reports| ==> PlainReport(reports[i]) && PlainDetail(details[i])
    ensures var j := ResultsTree(sum, more, reports, details); Printable(j) && Depth(j) <= 1000
  {
    hide StreamTree, PlainReport, PlainDetail;
    var trees := StreamTrees(reports, details);
    forall i | 0 <= i < |trees|
      ensures Printable(trees[i]) && Depth(trees[i]) <= 1
    {
      StreamPrintable(reports[i], details[i]);
    }
    ItemsPrintable(trees, 1);
    var j := ResultsTree(sum, more, reports, details);
    assert PlainMembers(SummaryMembers(sum), 999);
    MembersPrintable(j.members, 999);
  }

  // ----- every name finds its member

  predicate Absent(members: seq<Member>, name: seq<byte>) {
    forall i :: 0 <= i < |members| ==> !SameName(name, members[i].key)
  }

  lemma {:induction false} GetItemConcat(a: seq<Member>, b: seq<Member>, name: seq<byte>)
    ensures GetItem(a + b, name) == if Absent(a, name) then GetItem(b, name) else GetItem(a, name)
    ensures GetItem(a, name).None? <==> Absent(a, name)
  {
    if a == [] {
      assert a + b == b;
    } else {
      assert (a + b)[1..] == a[1..] + b;
      GetItemConcat(a[1..], b, name);
      assert forall i :: 1 <= i < |a| ==> a[i] == a[1..][i - 1];
    }
  }

  /** Names without capitals that differ are told apart. */
  lemma NamesDiffer(a: Key, b: Key)
    requires a != b
    ensures !SameName(Name(a), Name(b))
  {
    if |a| == |b| {
      var i :| 0 <= i < |a| && a[i] != b[i];
      assert Lower(Name(a)[i]) != Lower(Name(b)[i]);
    }
  }

  lemma {:induction false} Found(members: seq<Member>, names: seq<Key>, k: nat)
    requires |names| == |members| && k < |names|
    requires forall i :: 0 <= i < |names| ==> members[i].key == Name(names[i])
    requires forall i :: 0 <= i < k ==> names[i] != names[k]
    ensures GetItem(members, Name(names[k])) == Some(members[k].value)
  {
    if k > 0 {
      NamesDiffer(names[k], names[0]);
      Found(members[1..], names[1..], k - 1);
    }
  }

  lemma StreamRead(r: Report, d: Detail)
    requires PlainReport(r)
    ensures ReadStream(StreamTree(r, d)) == Some(r)
  {
    hide GetItem;
    var m := StreamTree(r, d).members;
    var names := [ID, BYTES, RETRANSMITS, JITTER, ERRORS, PACKETS, START_TIME, END_TIME];
    NamesOfStream(names);
    Found(m, names, 0);
    Found(m, names, 1);
    Found(m, names, 2);
    Found(m, names, 3);
    Found(m, names, 4);
    Found(m, names, 5);
    assert Number.Pow10(0) == 1;
  }

  lemma NamesOfStream(names: seq<Key>)
    requires names == [ID, BYTES, RETRANSMITS, JITTER, ERRORS, PACKETS, START_TIME, END_TIME]
    ensures forall i, k :: 0 <= i < k < 6 ==> names[i] != names[k]
  {
    assert "jitter"[0] != "errors"[0];
  }

  lemma {:induction false} StreamsRead(reports: seq<Report>, details: seq<Detail>)
    requires |reports| == |details| && forall i :: 0 <= i < |reports| ==> PlainReport(reports[i])
    ensures ReadStreams(StreamTrees(reports, details)) == Some(reports)
  {
    hide ReadStream, StreamTree, PlainReport;
    if reports != [] {
      var n := |reports| - 1;
      StreamsRead(reports[..n], details[..n]);
      assert StreamTrees(reports, details)[..n] == StreamTrees(reports[..n], details[..n]);
      StreamRead(reports[n], details[n]);
      assert reports == reports[..n] + [reports[n]];
    }
  }

  lemma SummaryFound(sum: Summary)
    ensures var m := SummaryMembers(sum);
            && GetItem(m, Name(CPU_TOTAL)).Some? && GetItem(m, Name(CPU_USER)).Some?
            && GetItem(m, Name(CPU_SYSTEM)).Some? && GetItem(m, Name(HAS_RETRANSMITS)).Some?
            && Absent(m, Name(STREAMS))
  {
    hide GetItem;
    var m := SummaryMembers(sum);
    var names := [CPU_TOTAL, CPU_USER, CPU_SYSTEM, HAS_RETRANSMITS];
    Found(m, names, 0);
    Found(m, names, 1);
    Found(m, names, 2);
    Found(m, names, 3);
    forall i | 0 <= i < 4
      ensures !SameName(Name(STREAMS), m[i].key)
    {
      NamesDiffer(STREAMS, names[i]);
    }
  }

  lemma ResultsFound(sum: Summary, more: seq<Member>, streams: Json)
    requires Absent(more, Name(STREAMS))
    ensures var m := SummaryMembers(sum) + (more + [Member(Name(STREAMS), streams)]);
            && GetItem(m, Name(CPU_TOTAL)).Some? && GetItem(m, Name(CPU_USER)).Some?
            && GetItem(m, Name(CPU_SYSTEM)).Some? && GetItem(m, Name(HAS_RETRANSMITS)).Some?
            && GetItem(m, Name(STREAMS)) == Some(streams)
  {
    hide GetItem, SummaryMembers, Absent, Name;
    var base, last := SummaryMembers(sum), [Member(Name(STREAMS), streams)];
    SummaryFound(sum);
    GetItemConcat(base, more + last, Name(CPU_TOTAL));
    GetItemConcat(base, more + last, Name(CPU_USER));
    GetItemConcat(base, more + last, Name(CPU_SYSTEM));
    GetItemConcat(base, more + last, Name(HAS_RETRANSMITS));
    GetItemConcat(base, more + last, Name(STREAMS));
    GetItemConcat(more, last, Name(STREAMS));
    OneMember(STREAMS, streams, STREAMS);
  }

  /** What the reader makes of the tree the writer built. */
  lemma ResultsRead(sum: Summary, more: seq<Member>, reports: seq<Report>, details: seq<Detail>)
    requires |reports| == |details| && forall i :: 0 <= i < |reports| ==> PlainReport(reports[i])
    requires Absent(more, Name(STREAMS))
    ensures ReadResults(ResultsTree(sum, more, reports, details)) == Some(reports)
  {
    hide GetItem, ReadStreams, StreamTrees, PlainReport, SummaryMembers, Absent, Name;
    ResultsFound(sum, more, Array(StreamTrees(reports, details)));
    StreamsRead(reports, details);
  }

  /** Results travel as bytes: for any number of streams and any split of the stream into reads and writes, the
      frame is read back as the same reports, and the connection is left at its end. */
  lemma ResultsThroughTheWire(sum: Summary, more: seq<Member>, reports: seq<Report>, details: seq<Detail>,
                              rest: seq<byte>, stack: seq<byte>)
    requires |reports| == |details| && PlainSummary(sum) && |stack| == 4
    requires PlainMembers(more, 999) && Absent(more, Name(STREAMS))
    requires forall i :: 0 <= i < |reports| ==> PlainReport(reports[i]) && PlainDetail(details[i])
    ensures var text := Text(ResultsTree(sum, more, reports, details), false, 0);
            var (j, left) := Framing.ReadFrame(Framing.Frame(text) + rest, stack);
            |text| < INT_LIMIT ==> left == rest && j.Some? && ReadResults(j.value) == Some(reports)
  {
    hide ResultsTree, ReadResults, Text, PlainReport, PlainDetail, PlainSummary, Framing.ReadFrame, Framing.Frame;
    ResultsPrintable(sum, more, reports, details);
    ResultsRead(sum, more, reports, details);
    if |Text(ResultsTree(sum, more, reports, details), false, 0)| < INT_LIMIT {
      Framing.FrameRoundTrip(ResultsTree(sum, more, reports, details), rest, stack);
    }
  }

  // ----- parameters

  function Optional(present: bool, name: Key): seq<Member>
  {
    if present then [Member(Name(name), True)] else []
  }

  lemma OptionalFound(present: bool, name: Key, wanted: Key)
    ensures Absent(Optional(present, name), Name(wanted)) <==> !(present && name == wanted)
  {
    if name != wanted {
      NamesDiffer(wanted, name);
    } else if present {
      assert SameName(Name(wanted), Optional(present, name)[0].key);
    }
  }

  /** `send_parameters`: `first` names the transport protocol, `early` and `late` are the settings between and behind
      the members that the control protocol looks at. */
  datatype Settings = Settings(first: seq<Member>, early: seq<Member>, late: seq<Member>)

  function ParametersTree(streams: nat, reverse: bool, bidirectional: bool, omit: nat, other: Settings): Json {
    Object(other.first + ([Member(Name(OMIT), Number(omit, 0))] + (other.early +
           ([Member(Name(PARALLEL), Number(streams, 0))] +
            (Optional(reverse, REVERSE) + (Optional(bidirectional, BIDIRECTIONAL) + other.late))))))
  }

  /** No other setting goes by a name that is looked for behind it. */
  predicate Unambiguous(other: Settings) {
    && Absent(other.first, Name(OMIT)) && Absent(other.first, Name(PARALLEL))
    && Absent(other.first, Name(REVERSE)) && Absent(other.first, Name(BIDIRECTIONAL))
    && Absent(other.early, Name(PARALLEL))
    && Absent(other.early, Name(REVERSE)) && Absent(other.early, Name(BIDIRECTIONAL))
    && Absent(other.late, Name(REVERSE)) && Absent(other.late, Name(BIDIRECTIONAL))
  }

  /** `get_parameters`, where the settings start from `iperf_defaults`. */
  function ReadParameters(j: Json): Control.Message {
    var m := Members(j);
    var omit, parallel := GetItem(m, Name(OMIT)), GetItem(m, Name(PARALLEL));
    var streams := if parallel.Some? then ValueInt(parallel.value) else 1;
    Control.Parameters(if streams < 0 then 0 else streams, GetItem(m, Name(REVERSE)).Some?,
                       GetItem(m, Name(BIDIRECTIONAL)).Some?, omit.Some? && ValueInt(omit.value) != 0)
  }

  lemma OneMember(name: Key, value: Json, wanted: Key)
    ensures var m := [Member(Name(name), value)];
            if name == wanted then GetItem(m, Name(wanted)) == Some(value) else Absent(m, Name(wanted))
  {
    if name != wanted {
      NamesDiffer(wanted, name);
    }
  }

  /** A name that is only among the directions, or nowhere. */
  lemma DirectionFound(streams: nat, reverse: bool, bidirectional: bool, omit: nat, other: Settings, name: Key)
    requires name != OMIT && name != PARALLEL
    requires Absent(other.first, Name(name)) && Absent(other.early, Name(name)) && Absent(other.late, Name(name))
    ensures GetItem(ParametersTree(streams, reverse, bidirectional, omit, other).members, Name(name)).Some?
       <==> (reverse && name == REVERSE) || (bidirectional && name == BIDIRECTIONAL)
  {
    hide GetItem, Absent, Optional;
    var o, p := [Member(Name(OMIT), Number(omit, 0))], [Member(Name(PARALLEL), Number(streams, 0))];
    var rev, bidi := Optional(reverse, REVERSE), Optional(bidirectional, BIDIRECTIONAL);
    OneMember(OMIT, Number(omit, 0), name);
    OneMember(PARALLEL, Number(streams, 0), name);
    OptionalFound(reverse, REVERSE, name);
    OptionalFound(bidirectional, BIDIRECTIONAL, name);
    GetItemConcat(other.first, o + (other.early + (p + (rev + (bidi + other.late)))), Name(name));
    GetItemConcat(o, other.early + (p + (rev + (bidi + other.late))), Name(name));
    GetItemConcat(other.early, p + (rev + (bidi + other.late)), Name(name));
    GetItemConcat(p, rev + (bidi + other.late), Name(name));
    GetItemConcat(rev, bidi + other.late, Name(name));
    GetItemConcat(bidi, other.late, Name(name));
    GetItemConcat(other.late, [], Name(name));
  }

  lemma NumbersFound(streams: nat, reverse: bool, bidirectional: bool, omit: nat, other: Settings)
    requires Unambiguous(other)
    ensures var m := ParametersTree(streams, reverse, bidirectional, omit, other).members;
            && GetItem(m, Name(OMIT)) == Some(Number(omit, 0))
            && GetItem(m, Name(PARALLEL)) == Some(Number(streams, 0))
  {
    hide GetItem, Absent, Optional;
    var o, p := [Member(Name(OMIT), Number(omit, 0))], [Member(Name(PARALLEL), Number(streams, 0))];
    var ends := Optional(reverse, REVERSE) + (Optional(bidirectional, BIDIRECTIONAL) + other.late);
    OneMember(OMIT, Number(omit, 0), OMIT);
    OneMember(OMIT, Number(omit, 0), PARALLEL);
    OneMember(PARALLEL, Number(streams, 0), PARALLEL);
    GetItemConcat(other.first, o + (other.early + (p + ends)), Name(OMIT));
    GetItemConcat(o, other.early + (p + ends), Name(OMIT));
    GetItemConcat(other.first, o + (other.early + (p + ends)), Name(PARALLEL));
    GetItemConcat(o, other.early + (p + ends), Name(PARALLEL));
    GetItemConcat(other.early, p + ends, Name(PARALLEL));
    GetItemConcat(p, ends, Name(PARALLEL));
  }

  /** The server reads the parameters the client sent. */
  lemma ParametersRead(streams: nat, reverse: bool, bidirectional: bool, omit: nat, other: Settings)
    requires PlainInteger(streams, 0) && PlainInteger(omit, 0) && Unambiguous(other)
    ensures ReadParameters(ParametersTree(streams, reverse, bidirectional, omit, other))
         == Control.Parameters(streams, reverse, bidirectional, omit != 0)
  {
    NumbersFound(streams, reverse, bidirectional, omit, other);
    DirectionFound(streams, reverse, bidirectional, omit, other, REVERSE);
    DirectionFound(streams, reverse, bidirectional, omit, other, BIDIRECTIONAL);
    hide GetItem, ParametersTree, Unambiguous;
    assert Number.Pow10(0) == 1;
  }

  /** Parameters travel as bytes, too. */
  lemma ParametersThroughTheWire(streams: nat, reverse: bool, bidirectional: bool, omit: nat, other: Settings,
                                 rest: seq<byte>, stack: seq<byte>)
    requires PlainInteger(streams, 0) && PlainInteger(omit, 0) && Unambiguous(other) && |stack| == 4
    requires PlainMembers(other.first, 0) && PlainMembers(other.early, 0) && PlainMembers(other.late, 0)
    ensures var text := Text(ParametersTree(streams, reverse, bidirectional, omit, other), false, 0);
            var (j, left) := Framing.ReadFrame(Framing.Frame(text) + rest, stack);
            |text| < INT_LIMIT ==>
              && left == rest && j.Some?
              && ReadParameters(j.value) == Control.Parameters(streams, reverse, bidirectional, omit != 0)
  {
    hide ReadParameters, Text, Framing.ReadFrame, Framing.Frame, Absent, Name;
    var j := ParametersTree(streams, reverse, bidirectional, omit, other);
    MembersPrintable(j.members, 0);
    ParametersRead(streams, reverse, bidirectional, omit, other);
    hide ParametersTree;
    if |Text(j, false, 0)| < INT_LIMIT {
      Framing.FrameRoundTrip(j, rest, stack);
    }
  }

  // ----- one direction of the control connection

  /** Cookies are 36 characters and a terminator. */
  const COOKIE_SIZE: nat := 37

  /** What is written: a state byte, a cookie, or the frame of a tree. */
  datatype Wire = StateByte(value: byte) | CookieText(text: seq<byte>) | JsonFrame(tree: Json)

  function Encode(w: Wire): seq<byte> {
    match w
    case StateByte(b) => [b]
    case CookieText(c) => c
    case JsonFrame(j) => Framing.Frame(Text(j, false, 0))
  }

  function EncodeAll(list: seq<Wire>): seq<byte> {
    if list == [] then [] else Encode(list[0]) + EncodeAll(list[1..])
  }

  /** The kind of message the reader's code expects at a point. */
  datatype Kind = StateKind | CookieKind | ParametersKind | ResultsKind

  function KindOf(m: Control.Message): Kind {
    match m
    case Byte(_) => StateKind
    case Cookie(_) => CookieKind
    case Parameters(_, _, _, _) => ParametersKind
    case ResultsFrame(_) => ResultsKind
  }

  /** What the reader makes of the next bytes; `number` stands for the cookie texts. */
  function ReadMessage(kind: Kind, data: seq<byte>, stack: seq<byte>, number: seq<byte> -> nat)
    : Option<(Control.Message, seq<byte>)>
    requires |stack| == 4
  {
    match kind
    case StateKind => if data == [] then None else Some((Control.Byte(data[0]), data[1..]))
    case CookieKind =>
      if |data| < COOKIE_SIZE then None
      else Some((Control.Cookie(number(data[..COOKIE_SIZE])), data[COOKIE_SIZE..]))
    case ParametersKind =>
      var (j, rest) := Framing.ReadFrame(data, stack);
      if j.None? then None else Some((ReadParameters(j.value), rest))
    case ResultsKind =>
      var (j, rest) := Framing.ReadFrame(data, stack);
      if j.None? || ReadResults(j.value).None? then None
      else Some((Control.ResultsFrame(ReadResults(j.value).value), rest))
  }

  function ReadMessages(kinds: seq<Kind>, data: seq<byte>, stack: seq<byte>, number: seq<byte> -> nat)
    : Option<(seq<Control.Message>, seq<byte>)>
    requires |stack| == 4
  {
    if kinds == [] then Some(([], data))
    else
      var first := ReadMessage(kinds[0], data, stack, number);
      if first.None? then None
      else
        var others := ReadMessages(kinds[1..], first.value.1, stack, number);
        if others.None? then None else Some(([first.value.0] + others.value.0, others.value.1))
  }

  /** `w` is the message `m` as it is written. */
  ghost predicate Carries(w: Wire, m: Control.Message, number: seq<byte> -> nat) {
    match m
    case Byte(state) => w.StateByte? && w.value == state
    case Cookie(k) => w.CookieText? && |w.text| == COOKIE_SIZE && number(w.text) == k
    case Parameters(_, _, _, _) => w.JsonFrame? && Readable(w.tree) && ReadParameters(w.tree) == m
    case ResultsFrame(reports) => w.JsonFrame? && Readable(w.tree) && ReadResults(w.tree) == Some(reports)
  }

  /** A tree that survives printing, framing and parsing. */
  predicate Readable(j: Json) {
    Printable(j) && Depth(j) <= 1000 && |Text(j, false, 0)| < INT_LIMIT
  }

  lemma MessageReadBack(w: Wire, m: Control.Message, rest: seq<byte>, stack: seq<byte>, number: seq<byte> -> nat)
    requires |stack| == 4 && Carries(w, m, number)
    ensures ReadMessage(KindOf(m), Encode(w) + rest, stack, number) == Some((m, rest))
  {
    hide Framing.ReadFrame, Framing.Frame, Text, ReadParameters, ReadResults;
    if w.JsonFrame? {
      Framing.FrameRoundTrip(w.tree, rest, stack);
    } else {
      var data := Encode(w) + rest;
      assert data[..|Encode(w)|] == Encode(w) && data[|Encode(w)|..] == rest;
    }
  }

  /** A whole direction as bytes: a reader that expects the kinds of the messages written, which the protocol
      guarantees, reads these messages one by one, and what follows them is untouched. */
  lemma {:induction false} DirectionReadBack(list: seq<Wire>, messages: seq<Control.Message>, rest: seq<byte>,
                                             stack: seq<byte>, number: seq<byte> -> nat)
    requires |stack| == 4 && |list| == |messages|
    requires forall i :: 0 <= i < |list| ==> Carries(list[i], messages[i], number)
    ensures ReadMessages(Kinds(messages), EncodeAll(list) + rest, stack, number) == Some((messages, rest))
  {
    hide ReadMessage, Carries, Encode;
    if list == [] {
      assert EncodeAll(list) + rest == rest;
    } else {
      var more := EncodeAll(list[1..]) + rest;
      assert EncodeAll(list) + rest == Encode(list[0]) + more;
      MessageReadBack(list[0], messages[0], more, stack, number);
      DirectionReadBack(list[1..], messages[1..], rest, stack, number);
      assert Kinds(messages)[1..] == Kinds(messages[1..]);
      assert messages == [messages[0]] + messages[1..];
    }
  }

  function Kinds(messages: seq<Control.Message>): (r: seq<Kind>)
    ensures |r| == |messages| && forall i :: 0 <= i < |r| ==> r[i] == KindOf(messages[i])
  {
    seq(|messages|, i requires 0 <= i < |messages| => KindOf(messages[i]))
  }
}
