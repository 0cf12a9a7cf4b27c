/**
 The chat gateway's event stream: chunks of text arrive cut anywhere, lines are
 taken out of a buffer, and tool calls are put together from indexed deltas.
 */
module ChatStream {
  import opened Ascii
  import opened Sequences
  import opened Wrappers

  /** One element of a delta's `tool_calls`, its absent strings read as empty. */
  datatype ToolDelta = ToolDelta(index: nat, id: string, name: string, args: Option<string>)

  datatype Delta = Delta(content: Option<string>, tools: seq<ToolDelta>)

  /** The delta a data line holds, or None when it is not JSON or holds none. */
  type Decoder = string -> Option<Delta>

  datatype ToolCall = ToolCall(id: string, name: string, args: string)

  datatype Progress = Progress(text: seq<string>, calls: map<nat, ToolCall>)

  const NOTHING := Progress([], map[])
  const DATA_PREFIX := "data: "

  /* ---------- One line ---------- */

  function AbsorbTool(calls: map<nat, ToolCall>, t: ToolDelta): map<nat, ToolCall> {
    var entry := if t.index in calls then calls[t.index] else ToolCall(t.id, t.name, "");
    calls[t.index := entry.(args := entry.args + t.args.GetOr(""))]
  }

  function AbsorbTools(calls: map<nat, ToolCall>, tools: seq<ToolDelta>): map<nat, ToolCall> {
    if tools == [] then calls
    else AbsorbTool(AbsorbTools(calls, tools[..|tools| - 1]), tools[|tools| - 1])
  }

  function Absorb(p: Progress, d: Delta): Progress {
    Progress(
      if d.content.Some? && d.content.value != "" then p.text + [d.content.value] else p.text,
      AbsorbTools(p.calls, d.tools))
  }

  function TrimReturns(s: string): string {
    if s != "" && s[|s| - 1] == '\r' then TrimReturns(s[..|s| - 1]) else s
  }

  /** A line either leaves the stream open or is the end marker. */
  datatype LineEffect = Continue(progress: Progress) | End

  function ReadLine(decode: Decoder, raw: string, p: Progress): LineEffect {
    var line := TrimReturns(raw);
    if !(DATA_PREFIX <= line) then Continue(p)
    else if line[|DATA_PREFIX|..] == "[DONE]" then End
    else match decode(line[|DATA_PREFIX|..])
      case None => Continue(p)
      case Some(d) => Continue(Absorb(p, d))
  }

  /* ---------- The whole stream at once ---------- */

  /** The lines of `s` that a newline ends. */
  function CompleteLines(s: string): seq<string>
    decreases |s|
  {
    var n := Find(s, '\n');
    if n == |s| then [] else [s[..n]] + CompleteLines(s[n + 1..])
  }

  datatype Reading = Reading(progress: Progress, done: bool)

  /** Read lines one after the other up to the end marker. */
  function ReadLines(decode: Decoder, lines: seq<string>, p: Progress): Reading
    decreases |lines|
  {
    if lines == [] then Reading(p, false)
    else match ReadLine(decode, lines[0], p)
      case End => Reading(p, true)
      case Continue(next) => ReadLines(decode, lines[1..], next)
  }

  function ReadAll(decode: Decoder, s: string): Reading {
    ReadLines(decode, CompleteLines(s), NOTHING)
  }

  /* ---------- Cutting the stream ---------- */

  /** What follows the last newline. */
  function Tail(s: string): (t: string)
    ensures '\n' !in t && |t| <= |s| && t == s[|s| - |t|..]
    decreases |s|
  {
    var n := Find(s, '\n');
    if n == |s| then s else Tail(s[n + 1..])
  }

  lemma NewlineInFront(s: string, t: string)
    ensures Find(s, '\n') < |s| ==> Find(s + t, '\n') == Find(s, '\n')
    ensures Find(s, '\n') == |s| ==> Find(s + t, '\n') == |s| + Find(t, '\n')
  {
    if s == "" {
      assert s + t == t;
    } else {
      assert (s + t)[1..] == s[1..] + t;
      if s[0] != '\n' { NewlineInFront(s[1..], t); }
    }
  }

  lemma FirstLine(s: string, n: nat, rest: string)
    requires n == Find(s, '\n') < |s| && rest == s[n + 1..]
    ensures CompleteLines(s) == [s[..n]] + CompleteLines(rest) && Tail(s) == Tail(rest)
  {
    hide Find;
  }

  lemma FirstLineOfJoined(s: string, t: string, n: nat)
    requires n == Find(s, '\n') < |s|
    ensures CompleteLines(s + t) == [s[..n]] + CompleteLines(s[n + 1..] + t) && Tail(s + t) == Tail(s[n + 1..] + t)
  {
    NewlineInFront(s, t);
    assert (s + t)[..n] == s[..n] && (s + t)[n + 1..] == s[n + 1..] + t;
    FirstLine(s + t, n, s[n + 1..] + t);
  }

  /** Text appended to a stream completes the lines of what was left open. */
  lemma {:induction false} LinesOfJoined(s: string, t: string)
    ensures CompleteLines(s + t) == CompleteLines(s) + CompleteLines(Tail(s) + t)
    ensures Tail(s + t) == Tail(Tail(s) + t)
    decreases |s|
  {
    var n := Find(s, '\n');
    if n < |s| {
      var rest := s[n + 1..];
      FirstLine(s, n, rest);
      FirstLineOfJoined(s, t, n);
      LinesOfJoined(rest, t);
      ConcatIsAssociative([s[..n]], CompleteLines(rest), CompleteLines(Tail(s) + t));
    } else {
      assert CompleteLines(s) == [] && Tail(s) == s;
    }
  }

  /** A last line without a newline is never read. */
  lemma OpenLineIsIgnored(s: string, t: string)
    requires '\n' !in t
    ensures CompleteLines(s + t) == CompleteLines(s)
  {
    LinesOfJoined(s, t);
    assert Find(Tail(s) + t, '\n') == |Tail(s) + t|;
  }

  lemma {:induction false} ReadingConcatenates(decode: Decoder, xs: seq<string>, ys: seq<string>, p: Progress)
    ensures var r := ReadLines(decode, xs, p);
      ReadLines(decode, xs + ys, p) == if r.done then r else ReadLines(decode, ys, r.progress)
    decreases |xs|
  {
    if xs == [] {
      assert xs + ys == ys;
    } else {
      assert (xs + ys)[1..] == xs[1..] + ys;
      match ReadLine(decode, xs[0], p)
      case End =>
      case Continue(next) => ReadingConcatenates(decode, xs[1..], ys, next);
    }
  }

  /* ---------- Tool calls ---------- */

  predicate IsLeast(keys: set<nat>, k: nat) {
    k in keys && forall j | j in keys :: k <= j
  }

  function Smallest(keys: set<nat>): (k: nat)
    requires keys != {}
    ensures IsLeast(keys, k)
  {
    LeastExists(keys);
    var k: nat :| IsLeast(keys, k);
    LeastIsUnique(keys, k);
    k
  }

  lemma LeastIsUnique(keys: set<nat>, k: nat)
    requires IsLeast(keys, k)
    ensures forall j: nat | IsLeast(keys, j) :: j == k
  {
  }

  lemma {:induction false} LeastExists(keys: set<nat>)
    requires keys != {}
    ensures exists k: nat :: IsLeast(keys, k)
    decreases keys
  {
    hide IsLeast;
    var k :| k in keys;
    if keys == {k} {
      LeastOfOne(k);
    } else {
      LeastExists(keys - {k});
      var j: nat :| IsLeast(keys - {k}, j);
      LeastOfOneMore(keys, k, j);
    }
  }

  lemma LeastOfOne(k: nat)
    ensures IsLeast({k}, k)
  {
  }

  lemma LeastOfOneMore(keys: set<nat>, k: nat, j: nat)
    requires k in keys && IsLeast(keys - {k}, j)
    ensures IsLeast(keys, if k < j then k else j)
  {
    assert forall i | i in keys :: i == k || i in keys - {k};
  }

  /** The keys in increasing order. */
  function SortedKeys(keys: set<nat>): (r: seq<nat>)
    ensures forall k: nat :: k in r <==> k in keys
    ensures forall i, j | 0 <= i < j < |r| :: r[i] < r[j]
    decreases |keys|
  {
    if keys == {} then []
    else var k := Smallest(keys); [k] + SortedKeys(keys - {k})
  }

  function Collect(calls: map<nat, ToolCall>): (r: seq<ToolCall>) {
    var order := SortedKeys(calls.Keys);
    seq(|order|, i requires 0 <= i < |order| => calls[order[i]])
  }

  /** The deltas for one index, in arrival order. */
  function DeltasFor(tools: seq<ToolDelta>, index: nat): seq<ToolDelta> {
    if tools == [] then [] else
    var before := DeltasFor(tools[..|tools| - 1], index);
    if tools[|tools| - 1].index == index then before + [tools[|tools| - 1]] else before
  }

  /** All argument pieces, one after the other. */
  function JoinedArgs(tools: seq<ToolDelta>): string {
    if tools == [] then ""
    else JoinedArgs(tools[..|tools| - 1]) + tools[|tools| - 1].args.GetOr("")
  }

  /** The call that the deltas of one index describe. */
  function CallOf(tools: seq<ToolDelta>): ToolCall
    requires tools != []
  {
    ToolCall(tools[0].id, tools[0].name, JoinedArgs(tools))
  }

  lemma {:induction false} AssemblyByIndex(tools: seq<ToolDelta>, index: nat)
    ensures var calls := AbsorbTools(map[], tools); var mine := DeltasFor(tools, index);
      && (index in calls <==> mine != [])
      && (index in calls ==> calls[index] == CallOf(mine))
    decreases |tools|
  {
    if tools != [] {
      var n := |tools| - 1;
      AssemblyByIndex(tools[..n], index);
      var before := DeltasFor(tools[..n], index);
      if tools[n].index == index {
        var mine := before + [tools[n]];
        assert mine[..|mine| - 1] == before;
        assert mine[0] == if before == [] then tools[n] else before[0];
        assert JoinedArgs(mine) == JoinedArgs(before) + tools[n].args.GetOr("");
      }
    }
  }

  /** Each returned call is the one its index's deltas describe; the calls come
      in increasing index, one for every index that occurs. */
  lemma CallsAreReassembled(tools: seq<ToolDelta>)
    ensures var calls := AbsorbTools(map[], tools); var order := SortedKeys(calls.Keys);
      && |Collect(calls)| == |order|
      && (forall i | 0 <= i < |order| ::
            DeltasFor(tools, order[i]) != [] && Collect(calls)[i] == CallOf(DeltasFor(tools, order[i])))
      && (forall k: nat :: k in order <==> DeltasFor(tools, k) != [])
  {
    hide DeltasFor, CallOf, AbsorbTools, SortedKeys, Collect;
    var calls := AbsorbTools(map[], tools);
    forall k: nat ensures IsDescribed(tools, calls, k) { AssemblyByIndex(tools, k); }
    CollectedInOrder(calls);
    forall k: nat ensures k in SortedKeys(calls.Keys) <==> DeltasFor(tools, k) != [] {
      assert IsDescribed(tools, calls, k);
    }
    forall i | 0 <= i < |SortedKeys(calls.Keys)| ensures IsDescribed(tools, calls, SortedKeys(calls.Keys)[i]) { }
  }

  predicate IsDescribed(tools: seq<ToolDelta>, calls: map<nat, ToolCall>, k: nat) {
    && (k in calls <==> DeltasFor(tools, k) != [])
    && (k in calls ==> calls[k] == CallOf(DeltasFor(tools, k)))
  }

  lemma CollectedInOrder(calls: map<nat, ToolCall>)
    ensures var order := SortedKeys(calls.Keys);
      && |Collect(calls)| == |order|
      && (forall k: nat :: k in order <==> k in calls)
      && forall i | 0 <= i < |order| :: order[i] in calls && Collect(calls)[i] == calls[order[i]]
  {
    var order := SortedKeys(calls.Keys);
    assert forall i | 0 <= i < |order| :: order[i] in order;
  }

  /** How the deltas of different calls are interleaved makes no difference. */
  lemma InterleavingIsIrrelevant(xs: seq<ToolDelta>, ys: seq<ToolDelta>)
    requires forall k: nat :: DeltasFor(xs, k) == DeltasFor(ys, k)
    ensures Collect(AbsorbTools(map[], xs)) == Collect(AbsorbTools(map[], ys))
  {
    var left := AbsorbTools(map[], xs);
    var right := AbsorbTools(map[], ys);
    forall k: nat
      ensures (k in left <==> k in right) && (k in left ==> left[k] == right[k])
    {
      AssemblyByIndex(xs, k);
      AssemblyByIndex(ys, k);
      assert DeltasFor(xs, k) == DeltasFor(ys, k);
    }
    assert left == right;
  }

  /** The tool deltas of all lines up to the end marker. */
  function ToolStream(decode: Decoder, lines: seq<string>): seq<ToolDelta>
    decreases |lines|
  {
    if lines == [] then []
    else match ReadLine(decode, lines[0], NOTHING)
      case End => []
      case Continue(_) => ToolsOfLine(decode, lines[0]) + ToolStream(decode, lines[1..])
  }

  function ToolsOfLine(decode: Decoder, raw: string): seq<ToolDelta> {
    var line := TrimReturns(raw);
    if !(DATA_PREFIX <= line) || line[|DATA_PREFIX|..] == "[DONE]" then []
    else match decode(line[|DATA_PREFIX|..])
      case None => []
      case Some(d) => d.tools
  }

  lemma {:induction false} AbsorptionConcatenates(calls: map<nat, ToolCall>, xs: seq<ToolDelta>, ys: seq<ToolDelta>)
    ensures AbsorbTools(calls, xs + ys) == AbsorbTools(AbsorbTools(calls, xs), ys)
    decreases |ys|
  {
    if ys == [] {
      assert xs + ys == xs;
    } else {
      var n := |ys| - 1;
      assert (xs + ys)[..|xs + ys| - 1] == xs + ys[..n];
      AbsorptionConcatenates(calls, xs, ys[..n]);
    }
  }

  lemma {:induction false} ReadingAbsorbsToolStream(decode: Decoder, lines: seq<string>, p: Progress)
    ensures ReadLines(decode, lines, p).progress.calls == AbsorbTools(p.calls, ToolStream(decode, lines))
    decreases |lines|
  {
    if lines != [] && !ReadLine(decode, lines[0], p).End? {
      var next := ReadLine(decode, lines[0], p).progress;
      assert next.calls == AbsorbTools(p.calls, ToolsOfLine(decode, lines[0]));
      ReadingAbsorbsToolStream(decode, lines[1..], next);
      AbsorptionConcatenates(p.calls, ToolsOfLine(decode, lines[0]), ToolStream(decode, lines[1..]));
    }
  }

  /* ---------- Text ---------- */

  /** The non-empty content of the data line, if it holds one. */
  function TextOfLine(decode: Decoder, raw: string): seq<string> {
    var line := TrimReturns(raw);
    if !(DATA_PREFIX <= line) || line[|DATA_PREFIX|..] == "[DONE]" then []
    else match decode(line[|DATA_PREFIX|..])
      case None => []
      case Some(d) => if d.content.Some? && d.content.value != "" then [d.content.value] else []
  }

  /** The contents of all data lines up to the end marker, in line order. */
  function TextStream(decode: Decoder, lines: seq<string>): seq<string>
    decreases |lines|
  {
    if lines == [] || TrimReturns(lines[0]) == "data: [DONE]" then []
    else TextOfLine(decode, lines[0]) + TextStream(decode, lines[1..])
  }

  lemma EndMarkerLine(decode: Decoder, raw: string, p: Progress)
    ensures ReadLine(decode, raw, p).End? <==> TrimReturns(raw) == "data: [DONE]"
  {
    var line := TrimReturns(raw);
    assert DATA_PREFIX + "[DONE]" == "data: [DONE]";
    if DATA_PREFIX <= line { assert line == DATA_PREFIX + line[|DATA_PREFIX|..]; }
    if line == "data: [DONE]" { assert line[..|DATA_PREFIX|] == DATA_PREFIX && line[|DATA_PREFIX|..] == "[DONE]"; }
  }

  lemma {:induction false} ReadingCollectsText(decode: Decoder, lines: seq<string>, p: Progress)
    ensures ReadLines(decode, lines, p).progress.text == p.text + TextStream(decode, lines)
    decreases |lines|
  {
    if lines != [] {
      EndMarkerLine(decode, lines[0], p);
      if !ReadLine(decode, lines[0], p).End? {
        var next := ReadLine(decode, lines[0], p).progress;
        assert next.text == p.text + TextOfLine(decode, lines[0]);
        ReadingCollectsText(decode, lines[1..], next);
        ConcatIsAssociative(p.text, TextOfLine(decode, lines[0]), TextStream(decode, lines[1..]));
      }
    }
  }

  lemma {:induction false} NoContentIsEmpty(decode: Decoder, lines: seq<string>)
    ensures forall c | c in TextStream(decode, lines) :: c != ""
    decreases |lines|
  {
    if lines != [] { NoContentIsEmpty(decode, lines[1..]); }
  }

  /** The text of a stream is the non-empty contents of its complete data lines,
      in line order, up to the end marker. */
  lemma StreamTextIsInOrder(decode: Decoder, s: string)
    ensures ReadAll(decode, s).progress.text == TextStream(decode, CompleteLines(s))
    ensures forall c | c in ReadAll(decode, s).progress.text :: c != ""
  {
    ReadingCollectsText(decode, CompleteLines(s), NOTHING);
    NoContentIsEmpty(decode, CompleteLines(s));
    assert [] + TextStream(decode, CompleteLines(s)) == TextStream(decode, CompleteLines(s));
  }

  /* ---------- Streams as a gateway writes them ---------- */

  /** One line of a stream: an event with its payload, or any other line. */
  datatype Sent = Event(payload: string, crlf: bool) | Other(text: string)

  predicate Writable(x: Sent) {
    match x
    case Event(payload, _) =>
      '\n' !in payload && payload != "[DONE]" && (payload != "" ==> payload[|payload| - 1] != '\r')
    case Other(text) => '\n' !in text && !("data: " <= text)
  }

  function Body(x: Sent): string {
    match x
    case Event(payload, crlf) => "data: " + payload + if crlf then "\r" else ""
    case Other(text) => text
  }

  function Write(xs: seq<Sent>): string {
    if xs == [] then "" else Body(xs[0]) + ("\n" + Write(xs[1..]))
  }

  /** The non-empty content of the event, if it has one. */
  function Content(decode: Decoder, x: Sent): seq<string> {
    if x.Event? && decode(x.payload).Some? && decode(x.payload).value.content.GetOr("") != ""
    then [decode(x.payload).value.content.value] else []
  }

  function Contents(decode: Decoder, xs: seq<Sent>): seq<string> {
    if xs == [] then [] else Content(decode, xs[0]) + Contents(decode, xs[1..])
  }

  function EventTools(decode: Decoder, x: Sent): seq<ToolDelta> {
    if x.Event? && decode(x.payload).Some? then decode(x.payload).value.tools else []
  }

  function Tools(decode: Decoder, xs: seq<Sent>): seq<ToolDelta> {
    if xs == [] then [] else EventTools(decode, xs[0]) + Tools(decode, xs[1..])
  }

  lemma TrimStops(s: string)
    requires s != "" && s[|s| - 1] != '\r'
    ensures TrimReturns(s) == s
  {
  }

  lemma TrimDropsReturn(s: string)
    ensures TrimReturns(s + "\r") == TrimReturns(s)
  {
    assert (s + "\r")[..|s|] == s;
  }

  lemma TrimsToPayload(payload: string, crlf: bool)
    requires payload != "" ==> payload[|payload| - 1] != '\r'
    ensures TrimReturns("data: " + payload + if crlf then "\r" else "") == "data: " + payload
  {
    hide TrimReturns;
    var line := "data: " + payload;
    assert line[|line| - 1] != '\r';
    TrimStops(line);
    TrimDropsReturn(line);
    assert line + "" == line;
  }

  lemma PrefixOfPrefix(a: string, b: string, c: string)
    ensures a <= b && b <= c ==> a <= c
  {
  }

  lemma {:induction false} TrimIsPrefix(s: string)
    ensures TrimReturns(s) <= s
  {
    if s != "" && s[|s| - 1] == '\r' { TrimIsPrefix(s[..|s| - 1]); }
  }

  lemma EventReads(decode: Decoder, x: Sent)
    requires Writable(x) && x.Event?
    ensures '\n' !in Body(x) && TrimReturns(Body(x)) != "data: [DONE]"
    ensures TextOfLine(decode, Body(x)) == Content(decode, x) && ToolsOfLine(decode, Body(x)) == EventTools(decode, x)
  {
    hide TrimReturns;
    TrimsToPayload(x.payload, x.crlf);
    var line := "data: " + x.payload;
    assert line[..|DATA_PREFIX|] == DATA_PREFIX && line[|DATA_PREFIX|..] == x.payload;
    assert "data: [DONE]"[|DATA_PREFIX|..] == "[DONE]";
  }

  lemma OtherReads(decode: Decoder, x: Sent)
    requires Writable(x) && x.Other?
    ensures '\n' !in Body(x) && TrimReturns(Body(x)) != "data: [DONE]"
    ensures TextOfLine(decode, Body(x)) == Content(decode, x) && ToolsOfLine(decode, Body(x)) == EventTools(decode, x)
  {
    hide TrimReturns;
    TrimIsPrefix(x.text);
    PrefixOfPrefix(DATA_PREFIX, TrimReturns(x.text), x.text);
    assert "data: [DONE]"[..|DATA_PREFIX|] == DATA_PREFIX;
  }

  lemma WrittenLine(body: string, later: string)
    requires '\n' !in body
    ensures CompleteLines(body + ("\n" + later)) == [body] + CompleteLines(later)
  {
    var s := body + ("\n" + later);
    NoNewline(body);
    NewlineInFront(body, "\n" + later);
    assert Find("\n" + later, '\n') == 0;
    assert s[..|body|] == body && s[|body| + 1..] == later;
    FirstLine(s, |body|, later);
  }

  lemma NoNewline(s: string)
    requires '\n' !in s
    ensures Find(s, '\n') == |s|
  {
  }

  lemma OneLine(decode: Decoder, raw: string, lines: seq<string>)
    requires TrimReturns(raw) != "data: [DONE]"
    ensures TextStream(decode, [raw] + lines) == TextOfLine(decode, raw) + TextStream(decode, lines)
    ensures ToolStream(decode, [raw] + lines) == ToolsOfLine(decode, raw) + ToolStream(decode, lines)
  {
    EndMarkerLine(decode, raw, NOTHING);
    assert ([raw] + lines)[1..] == lines;
  }

  lemma WrittenLineReads(decode: Decoder, x: Sent, later: string)
    requires Writable(x)
    ensures var lines := CompleteLines(Body(x) + ("\n" + later));
      && TextStream(decode, lines) == Content(decode, x) + TextStream(decode, CompleteLines(later))
      && ToolStream(decode, lines) == EventTools(decode, x) + ToolStream(decode, CompleteLines(later))
  {
    hide Body, Writable, CompleteLines, TextStream, ToolStream, TextOfLine, ToolsOfLine;
    hide Content, EventTools, TrimReturns;
    if x.Event? { EventReads(decode, x); } else { OtherReads(decode, x); }
    WrittenLine(Body(x), later);
    OneLine(decode, Body(x), CompleteLines(later));
  }

  lemma WriteStartsWithLine(xs: seq<Sent>, rest: string)
    requires xs != []
    ensures Write(xs) + rest == Body(xs[0]) + ("\n" + (Write(xs[1..]) + rest))
  {
    hide Body;
  }

  lemma ContentsStart(decode: Decoder, xs: seq<Sent>, text: seq<string>, tools: seq<ToolDelta>)
    requires xs != []
    ensures Contents(decode, xs) + text == Content(decode, xs[0]) + (Contents(decode, xs[1..]) + text)
    ensures Tools(decode, xs) + tools == EventTools(decode, xs[0]) + (Tools(decode, xs[1..]) + tools)
  {
    hide Content, EventTools;
    ConcatIsAssociative(Content(decode, xs[0]), Contents(decode, xs[1..]), text);
    ConcatIsAssociative(EventTools(decode, xs[0]), Tools(decode, xs[1..]), tools);
  }

  /** Lines written in front of a stream put their contents and tool deltas in front. */
  lemma {:induction false} WrittenLinesRead(decode: Decoder, xs: seq<Sent>, rest: string)
    requires forall x | x in xs :: Writable(x)
    ensures var lines := CompleteLines(Write(xs) + rest);
      && TextStream(decode, lines) == Contents(decode, xs) + TextStream(decode, CompleteLines(rest))
      && ToolStream(decode, lines) == Tools(decode, xs) + ToolStream(decode, CompleteLines(rest))
    decreases |xs|
  {
    hide *;
    if xs == [] {
      NothingWritten(decode, rest);
    } else {
      assert xs[0] in xs && forall y | y in xs[1..] :: y in xs;
      WriteStartsWithLine(xs, rest);
      WrittenLineReads(decode, xs[0], Write(xs[1..]) + rest);
      WrittenLinesRead(decode, xs[1..], rest);
      ContentsStart(decode, xs, TextStream(decode, CompleteLines(rest)), ToolStream(decode, CompleteLines(rest)));
    }
  }

  lemma NothingWritten(decode: Decoder, rest: string)
    ensures Write([]) + rest == rest
    ensures forall text: seq<string> :: Contents(decode, []) + text == text
    ensures forall tools: seq<ToolDelta> :: Tools(decode, []) + tools == tools
  {
  }

  /** What a gateway writes is read back: the contents of its events in order and
      the calls of their deltas, whether an unfinished line or an end marker with
      anything behind it comes last. */
  lemma WrittenStreamIsRead(decode: Decoder, xs: seq<Sent>, rest: string)
    requires forall x | x in xs :: Writable(x)
    requires '\n' !in rest || "data: [DONE]\n" <= rest || "data: [DONE]\r\n" <= rest
    ensures var p := ReadAll(decode, Write(xs) + rest).progress;
      && p.text == Contents(decode, xs)
      && p.calls == AbsorbTools(map[], Tools(decode, xs))
  {
    hide Write, Contents, Tools, CompleteLines, TextStream, ToolStream, AbsorbTools;
    var lines := CompleteLines(Write(xs) + rest);
    WrittenLinesRead(decode, xs, rest);
    EndsTheStream(decode, rest);
    assert Contents(decode, xs) + [] == Contents(decode, xs) && Tools(decode, xs) + [] == Tools(decode, xs);
    StreamTextIsInOrder(decode, Write(xs) + rest);
    ReadingAbsorbsToolStream(decode, lines, NOTHING);
  }

  lemma EndsTheStream(decode: Decoder, rest: string)
    requires '\n' !in rest || "data: [DONE]\n" <= rest || "data: [DONE]\r\n" <= rest
    ensures TextStream(decode, CompleteLines(rest)) == [] && ToolStream(decode, CompleteLines(rest)) == []
  {
    hide CompleteLines, TrimReturns, TextStream, ToolStream;
    if '\n' !in rest {
      OpenLineIsIgnored("", rest);
      assert "" + rest == rest;
      NoLines(decode);
    } else if "data: [DONE]\n" <= rest {
      TrimStops("data: [DONE]");
      MarkerEnds(decode, "data: [DONE]", rest[|"data: [DONE]\n"|..], rest);
    } else {
      TrimStops("data: [DONE]");
      TrimDropsReturn("data: [DONE]");
      assert "data: [DONE]" + "\r" == "data: [DONE]\r";
      MarkerEnds(decode, "data: [DONE]\r", rest[|"data: [DONE]\r\n"|..], rest);
    }
  }

  lemma MarkerEnds(decode: Decoder, marker: string, later: string, s: string)
    requires TrimReturns(marker) == "data: [DONE]" && '\n' !in marker && s == marker + ("\n" + later)
    ensures TextStream(decode, CompleteLines(s)) == [] && ToolStream(decode, CompleteLines(s)) == []
  {
    hide CompleteLines, TrimReturns, TextOfLine, ToolsOfLine, ReadLine;
    WrittenLine(marker, later);
    EndMarkerLine(decode, marker, NOTHING);
  }

  lemma NoLines(decode: Decoder)
    ensures TextStream(decode, CompleteLines("")) == [] && ToolStream(decode, CompleteLines("")) == []
  {
  }

  /** The calls of a whole stream: one for every index whose deltas were read, in
      increasing index, named by its first delta, its arguments in full. */
  lemma StreamCallsAreReassembled(decode: Decoder, s: string)
    ensures var tools := ToolStream(decode, CompleteLines(s));
      var calls := ReadAll(decode, s).progress.calls; var order := SortedKeys(calls.Keys);
      && |Collect(calls)| == |order|
      && (forall i | 0 <= i < |order| ::
            DeltasFor(tools, order[i]) != [] && Collect(calls)[i] == CallOf(DeltasFor(tools, order[i])))
      && (forall k: nat :: k in order <==> DeltasFor(tools, k) != [])
  {
    ReadingAbsorbsToolStream(decode, CompleteLines(s), NOTHING);
    CallsAreReassembled(ToolStream(decode, CompleteLines(s)));
  }

  /* ---------- The incremental reader ---------- */

  /** What the network yields: some text, or an error that ends the stream. */
  datatype Chunk = Received(text: string) | Broken

  /** All the text that arrives before an error. */
  function Arrived(chunks: seq<Chunk>): string
    decreases |chunks|
  {
    if chunks == [] || chunks[0].Broken? then "" else chunks[0].text + Arrived(chunks[1..])
  }

  /** Received text arrives whole and in order; an error lets nothing after it arrive. */
  lemma {:induction false} EverythingReceivedArrives(xs: seq<Chunk>, last: string, more: seq<Chunk>)
    requires forall x | x in xs :: x.Received?
    ensures Arrived(xs + [Received(last)]) == Arrived(xs) + last
    ensures Arrived(xs + [Broken] + more) == Arrived(xs)
    decreases |xs|
  {
    if xs == [] {
      assert [Received(last)][1..] == [] && xs + [Received(last)] == [Received(last)];
      assert (xs + [Broken] + more)[0] == Broken;
    } else {
      assert forall x | x in xs[1..] :: x in xs;
      EverythingReceivedArrives(xs[1..], last, more);
      assert (xs + [Received(last)])[1..] == xs[1..] + [Received(last)];
      assert (xs + [Broken] + more)[1..] == xs[1..] + [Broken] + more;
      ConcatIsAssociative(xs[0].text, Arrived(xs[1..]), last);
    }
  }

  /** Apply one delta to the text and the calls in place of the accumulators. */
  method AbsorbDelta(text: seq<string>, calls: map<nat, ToolCall>, d: Delta)
    returns (text': seq<string>, calls': map<nat, ToolCall>)
    ensures Progress(text', calls') == Absorb(Progress(text, calls), d)
  {
    text', calls' := text, calls;
    if d.content.Some? && d.content.value != "" {
      text' := text' + [d.content.value];
    }
    for i := 0 to |d.tools|
      invariant calls' == AbsorbTools(calls, d.tools[..i])
    {
      var t := d.tools[i];
      assert d.tools[..i + 1][..i] == d.tools[..i];
      ghost var before := calls';
      if t.index !in calls' {
        calls' := calls'[t.index := ToolCall(t.id, t.name, "")];
      }
      if t.args.Some? {
        var entry := calls'[t.index];
        calls' := calls'[t.index := entry.(args := entry.args + t.args.value)];
      } else {
        assert calls'[t.index].args + "" == calls'[t.index].args;
      }
      assert calls' == AbsorbTool(before, t);
    }
    assert d.tools[..|d.tools|] == d.tools;
  }

  /** One line: whether it ends the stream, and the accumulators after it. */
  method TakeLine(raw: string, text: seq<string>, calls: map<nat, ToolCall>, decode: Decoder)
    returns (end: bool, text': seq<string>, calls': map<nat, ToolCall>)
    ensures ReadLine(decode, raw, Progress(text, calls)) ==
      if end then End else Continue(Progress(text', calls'))
    ensures end ==> text' == text && calls' == calls
  {
    end, text', calls' := false, text, calls;
    var line := TrimReturns(raw);
    if line == "" { return; }
    if !(DATA_PREFIX <= line) { return; }
    var data := line[|DATA_PREFIX|..];
    if data == "[DONE]" {
      end := true;
      return;
    }
    var delta := decode(data);
    if delta.None? { return; }
    text', calls' := AbsorbDelta(text, calls, delta.value);
  }

  /** Take the calls out of the map in the order of their indices. */
  method CollectToolCalls(calls: map<nat, ToolCall>) returns (r: seq<ToolCall>)
    ensures r == Collect(calls)
  {
    var indices := SortedKeys(calls.Keys);
    r := [];
    for i := 0 to |indices|
      invariant |r| == i && forall j | 0 <= j < i :: r[j] == calls[indices[j]]
    {
      assert indices[i] in indices;
      r := r + [calls[indices[i]]];
    }
  }

  lemma ReadFirstLine(decode: Decoder, s: string, n: nat, p: Progress)
    requires n == Find(s, '\n') < |s|
    ensures ReadLines(decode, CompleteLines(s), p) ==
      match ReadLine(decode, s[..n], p)
      case End => Reading(p, true)
      case Continue(next) => ReadLines(decode, CompleteLines(s[n + 1..]), next)
  {
    FirstLine(s, n, s[n + 1..]);
  }

  /** Take every complete line out of the buffer, unless the end marker comes first. */
  method DrainBuffer(full: string, text0: seq<string>, calls0: map<nat, ToolCall>, decode: Decoder)
    returns (end: bool, buffer: string, text: seq<string>, calls: map<nat, ToolCall>)
    ensures ReadLines(decode, CompleteLines(full), Progress(text0, calls0)) == Reading(Progress(text, calls), end)
    ensures !end ==> buffer == Tail(full)
  {
    end, buffer, text, calls := false, full, text0, calls0;
    var n := Find(buffer, '\n');
    while n < |buffer|
      invariant n == Find(buffer, '\n')
      invariant ReadLines(decode, CompleteLines(full), Progress(text0, calls0))
             == ReadLines(decode, CompleteLines(buffer), Progress(text, calls))
      invariant Tail(buffer) == Tail(full)
      decreases |buffer|
    {
      ReadFirstLine(decode, buffer, n, Progress(text, calls));
      FirstLine(buffer, n, buffer[n + 1..]);
      end, text, calls := TakeLine(buffer[..n], text, calls, decode);
      if end {
        return;
      }
      buffer := buffer[n + 1..];
      n := Find(buffer, '\n');
    }
  }

  /** Read the stream chunk by chunk. However the text is cut, the result is that
      of reading all of it at once: complete lines only, up to the end marker. */
  method ParseGatewayStream(chunks: seq<Chunk>, decode: Decoder)
    returns (text: seq<string>, toolCalls: seq<ToolCall>)
    ensures text == ReadAll(decode, Arrived(chunks)).progress.text
    ensures toolCalls == Collect(ReadAll(decode, Arrived(chunks)).progress.calls)
  {
    text := [];
    var calls: map<nat, ToolCall> := map[];
    var buffer := "";
    ghost var past := "";
    var i := 0;
    while i < |chunks| && chunks[i].Received?
      invariant i <= |chunks| && past + Arrived(chunks[i..]) == Arrived(chunks)
      invariant ReadAll(decode, past) == Reading(Progress(text, calls), false) && buffer == Tail(past)
    {
      var chunk := chunks[i].text;
      AppendChunk(decode, past, chunk, Progress(text, calls));
      ConcatIsAssociative(past, chunk, Arrived(chunks[i + 1..]));
      past := past + chunk;
      var end: bool;
      end, buffer, text, calls := DrainBuffer(buffer + chunk, text, calls, decode);
      i := i + 1;
      if end {
        EndMarkerIsFinal(decode, past, Arrived(chunks[i..]));
        toolCalls := CollectToolCalls(calls);
        return;
      }
    }
    assert Arrived(chunks[i..]) == "";
    assert past == Arrived(chunks);
    toolCalls := CollectToolCalls(calls);
  }

  lemma AppendChunk(decode: Decoder, past: string, chunk: string, p: Progress)
    requires ReadAll(decode, past) == Reading(p, false)
    ensures ReadAll(decode, past + chunk) == ReadLines(decode, CompleteLines(Tail(past) + chunk), p)
    ensures Tail(past + chunk) == Tail(Tail(past) + chunk)
  {
    LinesOfJoined(past, chunk);
    ReadingConcatenates(decode, CompleteLines(past), CompleteLines(Tail(past) + chunk), NOTHING);
  }

  /** Nothing after the end marker is read. */
  lemma EndMarkerIsFinal(decode: Decoder, past: string, more: string)
    requires ReadAll(decode, past).done
    ensures ReadAll(decode, past + more) == ReadAll(decode, past)
  {
    LinesOfJoined(past, more);
    ReadingConcatenates(decode, CompleteLines(past), CompleteLines(Tail(past) + more), NOTHING);
  }
}
