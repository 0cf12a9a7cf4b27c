/**
 The chat history sent to the gateway: every assistant message with tool calls
 must be followed at once by their results, in order, and results occur nowhere
 else. Turns append to the history; compaction rewrites it.
 */
module ChatHistory {
  import opened Ascii
  import opened ChatStream
  import opened Sequences
  import opened Wrappers

  datatype Message =
    | System(content: string)
    | User(content: string)
    | Assistant(text: Option<string>, calls: Option<seq<ToolCall>>)
    | Tool(callId: string, content: string)

  /** The messages at the front answer the calls, one each, in order. */
  predicate Answered(calls: seq<ToolCall>, rest: seq<Message>) {
    |calls| <= |rest| && forall i | 0 <= i < |calls| :: rest[i].Tool? && rest[i].callId == calls[i].id
  }

  predicate HasCalls(m: Message) {
    m.Assistant? && m.calls.Some?
  }

  predicate WellFormed(ms: seq<Message>)
    decreases |ms|
  {
    ms == [] ||
    if HasCalls(ms[0]) then
      ms[0].calls.value != [] && Answered(ms[0].calls.value, ms[1..]) && WellFormed(ms[1 + |ms[0].calls.value|..])
    else
      !ms[0].Tool? && WellFormed(ms[1..])
  }

  /** Message `j` lies among the results of the calls of message `i`. */
  predicate ResultOf(ms: seq<Message>, i: nat, j: nat) {
    i < j < |ms| && HasCalls(ms[i]) && j <= i + |ms[i].calls.value|
  }

  /** The same order, said message by message. */
  ghost predicate CallsAndResultsMatch(ms: seq<Message>) {
    && (forall i | 0 <= i < |ms| && HasCalls(ms[i]) ::
          ms[i].calls.value != [] && Answered(ms[i].calls.value, ms[i + 1..]))
    && (forall j | 0 <= j < |ms| && ms[j].Tool? :: exists i: nat :: ResultOf(ms, i, j))
  }

  function GroupLength(ms: seq<Message>): nat
    requires ms != []
  {
    if HasCalls(ms[0]) then 1 + |ms[0].calls.value| else 1
  }

  lemma GroupHoldsResults(ms: seq<Message>)
    requires ms != [] && (HasCalls(ms[0]) ==> Answered(ms[0].calls.value, ms[1..]))
    ensures GroupLength(ms) <= |ms| && forall i | 0 < i < GroupLength(ms) :: ms[i].Tool?
  {
    forall i | 0 < i < GroupLength(ms) ensures ms[i].Tool? { assert ms[i] == ms[1..][i - 1]; }
  }

  lemma CallsMatchBehindGroup(ms: seq<Message>, n: nat, i: nat)
    requires n <= i < |ms| && HasCalls(ms[i])
    ensures ms[n..][i - n] == ms[i] && ms[n..][i - n + 1..] == ms[i + 1..]
  {
  }

  lemma {:induction false} WellFormedMatches(ms: seq<Message>)
    requires WellFormed(ms)
    ensures CallsAndResultsMatch(ms)
    decreases |ms|
  {
    if ms != [] {
      var n := GroupLength(ms);
      var rest := ms[n..];
      WellFormedMatches(rest);
      GroupHoldsResults(ms);
      hide WellFormed, Answered;
      forall i | 0 <= i < |ms| && HasCalls(ms[i])
        ensures ms[i].calls.value != [] && Answered(ms[i].calls.value, ms[i + 1..])
      {
        if i >= n {
          CallsMatchBehindGroup(ms, n, i);
          assert HasCalls(rest[i - n]);
        }
      }
      forall j | 0 <= j < |ms| && ms[j].Tool? ensures exists i: nat :: ResultOf(ms, i, j) {
        if j < n {
          assert ResultOf(ms, 0, j);
        } else {
          assert rest[j - n].Tool?;
          var i: nat :| ResultOf(rest, i, j - n);
          assert ResultOf(ms, i + n, j);
        }
      }
    }
  }

  lemma {:induction false} MatchingIsWellFormed(ms: seq<Message>)
    requires CallsAndResultsMatch(ms)
    ensures WellFormed(ms)
    decreases |ms|
  {
    if ms != [] {
      var n := GroupLength(ms);
      assert ms[0].Tool? ==> exists i: nat :: ResultOf(ms, i, 0);
      GroupHoldsResults(ms);
      RestMatches(ms, n);
      MatchingIsWellFormed(ms[n..]);
    }
  }

  lemma RestMatches(ms: seq<Message>, n: nat)
    requires CallsAndResultsMatch(ms) && ms != [] && n == GroupLength(ms) <= |ms|
    requires forall i | 0 < i < n :: ms[i].Tool?
    ensures CallsAndResultsMatch(ms[n..])
  {
    hide Answered, ResultOf;
    var rest := ms[n..];
    forall i | 0 <= i < |rest| && HasCalls(rest[i])
      ensures rest[i].calls.value != [] && Answered(rest[i].calls.value, rest[i + 1..])
    {
      CallsMatchBehindGroup(ms, n, i + n);
      assert HasCalls(ms[i + n]);
    }
    forall j | 0 <= j < |rest| && rest[j].Tool? ensures exists i: nat :: ResultOf(rest, i, j) {
      assert ms[j + n].Tool?;
      var i: nat :| ResultOf(ms, i, j + n);
      ResultBehindGroup(ms, n, i, j + n);
    }
  }

  lemma ResultBehindGroup(ms: seq<Message>, n: nat, i: nat, j: nat)
    requires ms != [] && n == GroupLength(ms) <= j && ResultOf(ms, i, j)
    requires forall i | 0 < i < n :: ms[i].Tool?
    ensures n <= i && ResultOf(ms[n..], i - n, j - n)
  {
  }

  /** A history is well formed exactly when every message with calls is followed
      at once by their results and no result stands anywhere else. */
  lemma WellFormedMeansMatched(ms: seq<Message>)
    ensures WellFormed(ms) <==> CallsAndResultsMatch(ms)
  {
    if WellFormed(ms) { WellFormedMatches(ms); }
    if CallsAndResultsMatch(ms) { MatchingIsWellFormed(ms); }
  }

  /* ---------- Joining and cutting ---------- */

  lemma {:induction false} WellFormedConcat(xs: seq<Message>, ys: seq<Message>)
    requires WellFormed(xs) && WellFormed(ys)
    ensures WellFormed(xs + ys)
    decreases |xs|
  {
    if xs == [] {
      assert xs + ys == ys;
    } else {
      var n := if HasCalls(xs[0]) then 1 + |xs[0].calls.value| else 1;
      WellFormedConcat(xs[n..], ys);
      assert (xs + ys)[n..] == xs[n..] + ys;
      assert (xs + ys)[1..] == xs[1..] + ys;
    }
  }

  /** A well-formed history may be cut exactly where no tool result comes first;
      there both parts are well formed, and elsewhere neither is. */
  lemma {:induction false} CuttingIsSafe(ms: seq<Message>, i: nat)
    requires WellFormed(ms) && i <= |ms|
    ensures WellFormed(ms[i..]) <==> i == |ms| || !ms[i].Tool?
    ensures WellFormed(ms[..i]) <==> i == |ms| || !ms[i].Tool?
    decreases |ms|
  {
    if i == 0 {
      assert ms[0..] == ms && ms[..0] == [];
    } else {
      var n := GroupLength(ms);
      if n <= i {
        CuttingIsSafe(ms[n..], i - n);
        assert ms[n..][i - n..] == ms[i..];
        assert ms[..i][n..] == ms[n..][..i - n] && ms[..i][1..] == ms[1..i];
        GroupHoldsResults(ms);
        PrefixOfGroup(ms, i);
      } else {
        assert ms[i] == ms[1..][i - 1];
        assert |ms[..i][1..]| < |ms[0].calls.value|;
      }
    }
  }

  /** The group at the front is the group at the front of any part that holds it. */
  lemma PrefixOfGroup(ms: seq<Message>, i: nat)
    requires ms != [] && WellFormed(ms) && GroupLength(ms) <= i <= |ms|
    ensures WellFormed(ms[..i]) <==> WellFormed(ms[..i][GroupLength(ms)..])
  {
    FirstGroup(ms);
    FirstGroup(ms[..i]);
    hide WellFormed;
    assert ms[..i][0] == ms[0];
    if HasCalls(ms[0]) {
      var calls := ms[0].calls.value;
      assert forall k | 0 <= k < |calls| :: ms[..i][1..][k] == ms[1..][k];
    }
  }

  lemma FirstGroup(ms: seq<Message>)
    requires ms != []
    ensures WellFormed(ms) <==>
      && (if HasCalls(ms[0]) then ms[0].calls.value != [] && Answered(ms[0].calls.value, ms[1..]) else !ms[0].Tool?)
      && GroupLength(ms) <= |ms| && WellFormed(ms[GroupLength(ms)..])
  {
  }

  /** A call that was run, with what it printed. */
  datatype Run = Run(call: ToolCall, output: string)

  /** Each call was run once, in order. */
  predicate AreRunsOf(runs: seq<Run>, calls: seq<ToolCall>) {
    |runs| == |calls| && forall i | 0 <= i < |runs| :: runs[i].call == calls[i]
  }

  /** The results, each under the id of its call. */
  function Results(runs: seq<Run>): (r: seq<Message>)
    ensures |r| == |runs| && forall i | 0 <= i < |r| :: r[i] == Tool(runs[i].call.id, runs[i].output)
  {
    seq(|runs|, i requires 0 <= i < |runs| => Tool(runs[i].call.id, runs[i].output))
  }

  lemma GroupIsWellFormed(text: Option<string>, calls: seq<ToolCall>, runs: seq<Run>)
    requires calls != [] && AreRunsOf(runs, calls)
    ensures WellFormed([Assistant(text, Some(calls))] + Results(runs))
  {
    var group := [Assistant(text, Some(calls))] + Results(runs);
    assert group[1..] == Results(runs) && group[1 + |calls|..] == [];
  }

  /* ---------- Compaction ---------- */

  const KEEP_RECENT_MESSAGES := 6
  const COMPACT_THRESHOLD_CHARS := 200_000

  /** The history starts with the system prompt, then a user message, possibly
      behind the summary of an earlier compaction. */
  predicate Anchored(ms: seq<Message>) {
    && ms != [] && ms[0].System?
    && (|ms| > 1 ==> ms[1].User? || (ms[1].System? && |ms| > 2 && ms[2].User?))
  }

  /** Where to cut: at the last user message that keeps at least `keepRecent`. */
  method FindSafeSplit(ms: seq<Message>, keepRecent: nat) returns (split: nat)
    ensures |ms| <= keepRecent + 1 ==> split == 1
    ensures |ms| > keepRecent + 1 ==>
      && 1 <= split <= |ms| - keepRecent
      && (forall j | split < j <= |ms| - keepRecent :: !(j < |ms| && ms[j].User?))
      && ((split < |ms| && ms[split].User?)
          || (split == |ms| - keepRecent && forall j | 1 <= j <= split :: !(j < |ms| && ms[j].User?)))
  {
    if |ms| <= keepRecent + 1 {
      return 1;
    }
    var desired := |ms| - keepRecent;
    var i := desired;
    while 1 <= i
      invariant 0 <= i <= desired
      invariant forall j | i < j <= desired :: !(j < |ms| && ms[j].User?)
    {
      if i < |ms| && ms[i].User? {
        return i;
      }
      i := i - 1;
    }
    split := desired;
  }

  /** The history after compaction at `split`. */
  function Compacted(ms: seq<Message>, split: nat, summary: string): (c: seq<Message>)
    requires ms != [] && split <= |ms|
    ensures |c| == 2 + |ms| - split && c[0] == ms[0] && c[2..] == ms[split..]
    ensures c[1] == System("[Conversation summary]\n" + summary)
  {
    [ms[0], System("[Conversation summary]\n" + summary)] + ms[split..]
  }

  /** Compaction keeps the history well formed exactly when it does not cut
      inside a group of tool results. */
  lemma CompactionIsSafe(ms: seq<Message>, split: nat, summary: string)
    requires WellFormed(ms) && Anchored(ms) && split <= |ms|
    ensures WellFormed(Compacted(ms, split, summary)) <==> split == |ms| || !ms[split].Tool?
  {
    CuttingIsSafe(ms, split);
    var c := Compacted(ms, split, summary);
    assert c[1..][1..] == ms[split..];
    assert WellFormed(c) == WellFormed(c[1..]) == WellFormed(ms[split..]);
  }

  /** The last user message among the first `bound` and the one after them. */
  predicate LastUserUpTo(ms: seq<Message>, bound: nat, split: nat) {
    && split <= bound < |ms| && ms[split].User?
    && forall j | split < j <= bound :: !ms[j].User?
  }

  /** With an anchored history the search for a cut never falls back on the
      position that could lie inside a group. */
  lemma SplitIsAtUser(ms: seq<Message>, split: nat)
    requires Anchored(ms) && |ms| > KEEP_RECENT_MESSAGES + 2
    requires 1 <= split <= |ms| - KEEP_RECENT_MESSAGES
    requires ms[split].User? ||
      (split == |ms| - KEEP_RECENT_MESSAGES && forall j | 1 <= j <= split :: !ms[j].User?)
    ensures ms[split].User?
  {
    assert ms[1].User? || ms[2].User?;
  }

  /* ---------- What one answer adds ---------- */

  function Join(chunks: seq<string>): string {
    if chunks == [] then "" else chunks[0] + Join(chunks[1..])
  }

  /** Joining leaves nothing out and keeps the order. */
  lemma {:induction false} JoinKeepsChunks(xs: seq<string>, last: string)
    ensures Join([]) == "" && Join(xs + [last]) == Join(xs) + last
    decreases |xs|
  {
    if xs == [] {
      assert (xs + [last])[1..] == [];
    } else {
      JoinKeepsChunks(xs[1..], last);
      assert (xs + [last])[1..] == xs[1..] + [last];
    }
  }

  function TextIn(decode: Decoder, chunks: seq<Chunk>): seq<string> {
    ReadAll(decode, Arrived(chunks)).progress.text
  }

  function CallsIn(decode: Decoder, chunks: seq<Chunk>): seq<ToolCall> {
    Collect(ReadAll(decode, Arrived(chunks)).progress.calls)
  }

  /** The assistant's message for an answer, none for an empty one. */
  function Said(text: seq<string>, calls: seq<ToolCall>): seq<Message> {
    if text == [] && calls == [] then []
    else [Assistant(if text == [] then None else Some(Join(text)), if calls == [] then None else Some(calls))]
  }

  /** One pass of a turn's loop, with the answers that came from outside. */
  datatype Step =
    | Late
    | Refusal(request: seq<Message>)
    | Answer(request: seq<Message>, chunks: seq<Chunk>, runs: seq<Run>)

  predicate IsStep(decode: Decoder, h: seq<Message>, s: Step) {
    match s
    case Late => true
    case Refusal(request) => request == h
    case Answer(request, chunks, runs) => request == h && AreRunsOf(runs, CallsIn(decode, chunks))
  }

  predicate CallsTools(decode: Decoder, s: Step) {
    s.Answer? && CallsIn(decode, s.chunks) != []
  }

  /** The history behind a step. */
  function After(decode: Decoder, h: seq<Message>, s: Step): seq<Message>
  {
    match s
    case Late => h
    case Refusal(_) => h
    case Answer(_, chunks, runs) => h + (Said(TextIn(decode, chunks), CallsIn(decode, chunks)) + Results(runs))
  }

  lemma StepKeepsShape(decode: Decoder, h: seq<Message>, s: Step)
    requires IsStep(decode, h, s) && WellFormed(h)
    ensures WellFormed(After(decode, h, s)) && h <= After(decode, h, s)
    ensures CallsTools(decode, s) ==> GrowsByGroup(h, After(decode, h, s))
    ensures !CallsTools(decode, s) ==> Concludes(h, After(decode, h, s))
  {
    hide TextIn, CallsIn, Join;
    if s.Answer? {
      var text, calls := TextIn(decode, s.chunks), CallsIn(decode, s.chunks);
      AnswerIsWellFormed(text, calls, s.runs);
      hide WellFormed;
      WellFormedConcat(h, Said(text, calls) + Results(s.runs));
    } else {
      assert After(decode, h, s) == h;
    }
  }

  lemma AnswerIsWellFormed(text: seq<string>, calls: seq<ToolCall>, runs: seq<Run>)
    requires AreRunsOf(runs, calls)
    ensures WellFormed(Said(text, calls) + Results(runs))
  {
    hide Join;
    if calls != [] {
      GroupIsWellFormed(Said(text, calls)[0].text, calls, runs);
    } else {
      assert Said(text, calls) + Results(runs) == Said(text, calls);
      if text != [] { assert Said(text, calls)[1..] == []; }
    }
  }

  /** What a step adds to the history, message by message. */
  lemma AnswerIsRecorded(decode: Decoder, h: seq<Message>, s: Step)
    requires IsStep(decode, h, s)
    ensures !s.Answer? ==> After(decode, h, s) == h
    ensures s.Answer? ==>
      var text, calls, after := TextIn(decode, s.chunks), CallsIn(decode, s.chunks), After(decode, h, s);
      && (text == [] && calls == [] ==> after == h)
      && (text != [] && calls == [] ==> after == h + [Assistant(Some(Join(text)), None)])
      && (calls != [] ==>
          && |after| == |h| + 1 + |calls| && after[..|h|] == h
          && after[|h|] == Assistant(if text == [] then None else Some(Join(text)), Some(calls))
          && forall i | 0 <= i < |calls| :: after[|h| + 1 + i] == Tool(calls[i].id, s.runs[i].output))
  {
    hide Said, Results, TextIn, CallsIn, Join;
    if s.Answer? { SaidAndResults(h, TextIn(decode, s.chunks), CallsIn(decode, s.chunks), s.runs); }
  }

  lemma SaidAndResults(h: seq<Message>, text: seq<string>, calls: seq<ToolCall>, runs: seq<Run>)
    requires AreRunsOf(runs, calls)
    ensures var after := h + (Said(text, calls) + Results(runs));
      && (text == [] && calls == [] ==> after == h)
      && (text != [] && calls == [] ==> after == h + [Assistant(Some(Join(text)), None)])
      && (calls != [] ==>
          && |after| == |h| + 1 + |calls| && after[..|h|] == h
          && after[|h|] == Assistant(if text == [] then None else Some(Join(text)), Some(calls))
          && forall i | 0 <= i < |calls| :: after[|h| + 1 + i] == Tool(calls[i].id, runs[i].output))
  {
    hide Join;
    if calls == [] {
      assert Results(runs) == [];
    } else {
      var after := h + (Said(text, calls) + Results(runs));
      forall i | 0 <= i < |calls| ensures after[|h| + 1 + i] == Tool(calls[i].id, runs[i].output) {
        assert after[|h| + 1 + i] == Results(runs)[i];
      }
    }
  }

  /** The longer history adds one message with calls and their results. */
  predicate GrowsByGroup(a: seq<Message>, b: seq<Message>) {
    a < b && HasCalls(b[|a|]) && |b| == |a| + 1 + |b[|a|].calls.value|
  }

  /** The longer history adds at most one message, without calls. */
  predicate Concludes(a: seq<Message>, b: seq<Message>) {
    a <= b && (|b| == |a| || (|b| == |a| + 1 && b[|a|].Assistant? && b[|a|].calls.None?))
  }

  /* ---------- Turns ---------- */

  /** The history behind the first steps of a turn. */
  function History(decode: Decoder, h: seq<Message>, steps: seq<Step>): seq<Message>
    decreases |steps|
  {
    if steps == [] then h
    else
      var n := |steps| - 1;
      After(decode, History(decode, h, steps[..n]), steps[n])
  }

  /** Each step goes on from the history behind the one before it. */
  predicate AreSteps(decode: Decoder, h: seq<Message>, steps: seq<Step>)
    decreases |steps|
  {
    steps == [] ||
    var n := |steps| - 1;
    && AreSteps(decode, h, steps[..n])
    && IsStep(decode, History(decode, h, steps[..n]), steps[n])
  }

  /** A turn goes on while tools are called, for fifty steps at most, and succeeds
      when it ends for another reason than the clock or a refusal. */
  predicate IsTurn(decode: Decoder, h: seq<Message>, steps: seq<Step>, success: bool) {
    && AreSteps(decode, h, steps) && 1 <= |steps| <= 50
    && (forall i | 0 <= i < |steps| - 1 :: CallsTools(decode, steps[i]))
    && (|steps| < 50 ==> !CallsTools(decode, steps[|steps| - 1]))
    && (success <==> steps[|steps| - 1].Answer?)
  }

  /** A request is well formed and carries the one before it and one group. */
  predicate IsGoodRequest(h: seq<Message>, steps: seq<Step>, i: nat)
    requires i < |steps|
  {
    !steps[i].Late? ==>
      && WellFormed(steps[i].request)
      && (i == 0 ==> steps[i].request == h)
      && (i > 0 ==> steps[i - 1].Answer? && GrowsByGroup(steps[i - 1].request, steps[i].request))
  }

  /** Over a turn the history only grows and stays well formed, and so is every
      request; each carries the one before it and one group of calls and results. */
  lemma {:induction false} TurnKeepsShape(decode: Decoder, h: seq<Message>, steps: seq<Step>)
    requires AreSteps(decode, h, steps) && WellFormed(h)
    requires forall i | 0 <= i < |steps| - 1 :: CallsTools(decode, steps[i])
    ensures WellFormed(History(decode, h, steps)) && h <= History(decode, h, steps)
    ensures forall i | 0 <= i < |steps| :: IsGoodRequest(h, steps, i)
    decreases |steps|
  {
    hide CallsTools, WellFormed, IsStep, After, IsGoodRequest;
    if steps != [] {
      var n := |steps| - 1;
      TurnKeepsShape(decode, h, steps[..n]);
      if n > 0 {
        assert steps[..n][..n - 1] == steps[..n - 1];
        TurnKeepsShape(decode, h, steps[..n - 1]);
      }
      StepKeepsShape(decode, History(decode, h, steps[..n]), steps[n]);
      LastRequestIsGood(decode, h, steps);
      forall i: nat | i < n ensures IsGoodRequest(h, steps, i) { EarlierRequestIsGood(h, steps, n, i); }
    }
  }

  lemma EarlierRequestIsGood(h: seq<Message>, steps: seq<Step>, n: nat, i: nat)
    requires i < n <= |steps| && IsGoodRequest(h, steps[..n], i)
    ensures IsGoodRequest(h, steps, i)
  {
    hide WellFormed, GrowsByGroup;
  }

  lemma LastRequestIsGood(decode: Decoder, h: seq<Message>, steps: seq<Step>)
    requires steps != [] && AreSteps(decode, h, steps) && AreSteps(decode, h, steps[..|steps| - 1])
    requires |steps| > 1 ==> CallsTools(decode, steps[|steps| - 2])
    requires WellFormed(History(decode, h, steps[..|steps| - 1]))
    requires |steps| > 1 ==> WellFormed(History(decode, h, steps[..|steps| - 2]))
    ensures IsGoodRequest(h, steps, |steps| - 1)
  {
    hide WellFormed, After, GrowsByGroup, AreRunsOf;
    var n := |steps| - 1;
    if n > 0 {
      var before := steps[..n];
      assert before[n - 1] == steps[n - 1] && before[..n - 1] == steps[..n - 1];
      StepKeepsShape(decode, History(decode, h, steps[..n - 1]), steps[n - 1]);
    }
  }

  /** An answer written by the gateway is recorded as it was meant: the contents
      of its events as one text, and one call for every index of their deltas. */
  lemma WrittenAnswerIsRecorded(decode: Decoder, chunks: seq<Chunk>, xs: seq<Sent>, rest: string)
    requires Arrived(chunks) == Write(xs) + rest && forall x | x in xs :: Writable(x)
    requires '\n' !in rest || "data: [DONE]\n" <= rest || "data: [DONE]\r\n" <= rest
    ensures TextIn(decode, chunks) == Contents(decode, xs)
    ensures CallsIn(decode, chunks) == Collect(AbsorbTools(map[], Tools(decode, xs)))
  {
    hide ReadAll, Write, Contents, Tools, AbsorbTools, Collect, Arrived;
    WrittenStreamIsRead(decode, xs, rest);
  }

  /* ---------- What is asked outside ---------- */

  datatype Reply = Refused | Streamed(chunks: seq<Chunk>)

  /** A question to the outside and its answer. */
  datatype Event =
    | Key(isSet: bool)
    | Clock(late: bool)
    | Request(history: seq<Message>, reply: Reply)
    | Ran(run: Run)
    | Summarized(part: seq<Message>, summary: Option<string>)

  /** Everything outside the chat: any answers, by the number of the question, and
      any measure of how long a history is. */
  datatype Outside = Outside(
    key: nat -> bool,
    late: nat -> bool,
    gateway: nat -> Reply,
    tool: nat -> string,
    summary: nat -> Option<string>,
    chars: seq<Message> -> nat)

  predicate IsAnswerOf(outside: Outside, e: Event, i: nat) {
    match e
    case Key(isSet) => isSet == outside.key(i)
    case Clock(late) => late == outside.late(i)
    case Request(_, reply) => reply == outside.gateway(i)
    case Ran(run) => run.output == outside.tool(i)
    case Summarized(_, summary) => summary == outside.summary(i)
  }

  /** Nothing is on record that the outside did not answer. */
  predicate Genuine(outside: Outside, events: seq<Event>) {
    forall i | 0 <= i < |events| :: IsAnswerOf(outside, events[i], i)
  }

  predicate SentWellFormed(events: seq<Event>) {
    forall e | e in events && e.Request? :: WellFormed(e.history)
  }

  lemma SentTogether(xs: seq<Event>, ys: seq<Event>)
    ensures SentWellFormed(xs + ys) <==> SentWellFormed(xs) && SentWellFormed(ys)
  {
    hide WellFormed;
    forall e | e in xs || e in ys ensures e in xs + ys { }
  }

  function RunEvents(runs: seq<Run>): (r: seq<Event>)
    ensures |r| == |runs| && forall i | 0 <= i < |r| :: r[i] == Ran(runs[i])
  {
    seq(|runs|, i requires 0 <= i < |runs| => Ran(runs[i]))
  }

  /** What is asked in a step, in order. */
  function StepEvents(s: Step): seq<Event> {
    match s
    case Late => [Clock(true)]
    case Refusal(request) => [Clock(false), Request(request, Refused)]
    case Answer(request, chunks, runs) => [Clock(false), Request(request, Streamed(chunks))] + RunEvents(runs)
  }

  function TurnEvents(steps: seq<Step>): seq<Event> {
    if steps == [] then [] else TurnEvents(steps[..|steps| - 1]) + StepEvents(steps[|steps| - 1])
  }

  lemma OneMoreStep(decode: Decoder, h: seq<Message>, steps: seq<Step>, s: Step)
    requires AreSteps(decode, h, steps) && IsStep(decode, History(decode, h, steps), s)
    ensures AreSteps(decode, h, steps + [s])
    ensures History(decode, h, steps + [s]) == After(decode, History(decode, h, steps), s)
    ensures TurnEvents(steps + [s]) == TurnEvents(steps) + StepEvents(s)
  {
    hide IsStep, After, StepEvents;
    assert (steps + [s])[..|steps|] == steps;
  }

  lemma OneMoreRun(runs: seq<Run>, run: Run)
    ensures Results(runs + [run]) == Results(runs) + [Tool(run.call.id, run.output)]
    ensures RunEvents(runs + [run]) == RunEvents(runs) + [Ran(run)]
  {
  }

  /** What compaction may do to a history, and what it asks for it: a history over
      both limits has everything between its prompt and the last user message that
      leaves the most recent ones summarised, and replaced if a summary comes. */
  predicate IsCompaction(chars: nat, before: seq<Message>, asked: seq<Event>, after: seq<Message>) {
    if chars > COMPACT_THRESHOLD_CHARS && |before| > KEEP_RECENT_MESSAGES + 2 then
      && |asked| == 1 && asked[0].Summarized? && 1 <= |asked[0].part| + 1 <= |before|
      && var split := |asked[0].part| + 1;
         && asked[0].part == before[1..split]
         && LastUserUpTo(before, |before| - KEEP_RECENT_MESSAGES, split)
         && match asked[0].summary
            case None => after == before
            case Some(summary) =>
              && |after| == 2 + |before| - split && after[2..] == before[split..]
              && after[0] == before[0] && after[1] == System("[Conversation summary]\n" + summary)
    else
      asked == [] && after == before
  }

  /** One question of the interactive loop, with all that was asked for it. */
  datatype Round = Round(
    input: string,
    compaction: seq<Event>,
    start: seq<Message>,
    keyIsSet: bool,
    steps: seq<Step>,
    success: bool,
    end: seq<Message>)

  /** The input is added, a long history compacted, and then a turn taken. */
  predicate IsRound(outside: Outside, decode: Decoder, h: seq<Message>, r: Round) {
    var before := h + [User(r.input)];
    && IsCompaction(outside.chars(before), before, r.compaction, r.start)
    && (if r.keyIsSet then IsTurn(decode, r.start, r.steps, r.success) else r.steps == [] && !r.success)
    && r.end == History(decode, r.start, r.steps)
  }

  function RoundEvents(r: Round): seq<Event> {
    r.compaction + ([Key(r.keyIsSet)] + TurnEvents(r.steps))
  }

  /** The history behind some rounds. */
  function Reached(h: seq<Message>, rounds: seq<Round>): seq<Message> {
    if rounds == [] then h else rounds[|rounds| - 1].end
  }

  predicate AreRounds(outside: Outside, decode: Decoder, h: seq<Message>, rounds: seq<Round>) {
    forall i | 0 <= i < |rounds| :: IsRound(outside, decode, Reached(h, rounds[..i]), rounds[i])
  }

  function Inputs(rounds: seq<Round>): (r: seq<string>)
    ensures |r| == |rounds| && forall i | 0 <= i < |r| :: r[i] == rounds[i].input
  {
    seq(|rounds|, i requires 0 <= i < |rounds| => rounds[i].input)
  }

  function AllEvents(rounds: seq<Round>): seq<Event> {
    if rounds == [] then [] else AllEvents(rounds[..|rounds| - 1]) + RoundEvents(rounds[|rounds| - 1])
  }

  lemma OneMoreRound(outside: Outside, decode: Decoder, h: seq<Message>, rounds: seq<Round>, r: Round)
    requires AreRounds(outside, decode, h, rounds) && IsRound(outside, decode, Reached(h, rounds), r)
    ensures AreRounds(outside, decode, h, rounds + [r]) && Reached(h, rounds + [r]) == r.end
    ensures AllEvents(rounds + [r]) == AllEvents(rounds) + RoundEvents(r)
    ensures Inputs(rounds + [r]) == Inputs(rounds) + [r.input]
  {
    hide IsRound, RoundEvents;
    var more := rounds + [r];
    assert more[..|rounds|] == rounds;
    forall i | 0 <= i < |more| ensures IsRound(outside, decode, Reached(h, more[..i]), more[i]) {
      if i < |rounds| { assert more[..i] == rounds[..i]; }
    }
  }

  /** What a chat over these lines of input asks. */
  function Questions(lines: seq<string>): seq<string> {
    if lines == [] then []
    else
      var input := Trim(lines[0]);
      if input == "" then Questions(lines[1..])
      else if input == "quit" || input == "exit" || input == "q" then []
      else [input] + Questions(lines[1..])
  }

  lemma QuestionsStep(lines: seq<string>, i: nat)
    requires i <= |lines|
    ensures lines[0..] == lines
    ensures if i == |lines| then Questions(lines[i..]) == []
            else
              var input := Trim(lines[i]);
              if input == "" then Questions(lines[i..]) == Questions(lines[i + 1..])
              else if input == "quit" || input == "exit" || input == "q" then Questions(lines[i..]) == []
              else Questions(lines[i..]) == [input] + Questions(lines[i + 1..])
  {
    hide Trim;
    if i < |lines| { assert lines[i..][0] == lines[i] && lines[i..][1..] == lines[i + 1..]; }
  }

  /** Blank lines are skipped, and nothing is asked from the first line on that
      says quit, exit or q. */
  lemma {:induction false} QuestionsUpToQuit(lines: seq<string>, line: string, more: seq<string>)
    requires forall l | l in lines :: Trim(l) !in ["quit", "exit", "q"]
    ensures Trim(line) in ["quit", "exit", "q"] ==> Questions(lines + [line] + more) == Questions(lines)
    ensures Trim(line) !in ["quit", "exit", "q"] ==>
      Questions(lines + [line]) == Questions(lines) + if Trim(line) == "" then [] else [Trim(line)]
    decreases |lines|
  {
    hide Trim;
    if lines == [] {
      assert (lines + [line] + more)[0] == line;
      assert lines + [line] == [line] && [line][1..] == [];
    } else {
      assert lines[0] in lines && forall l | l in lines[1..] :: l in lines;
      assert (lines + [line] + more)[1..] == lines[1..] + [line] + more;
      assert (lines + [line])[1..] == lines[1..] + [line];
      QuestionsUpToQuit(lines[1..], line, more);
    }
  }

  /* ---------- The running chat ---------- */

  datatype StepOutcome = Failed | Finished | CalledTools

  lemma StepKeepsSession(outside: Outside, decode: Decoder, h: seq<Message>, events: seq<Event>, s: Step)
    requires IsStep(decode, h, s) && WellFormed(h) && Anchored(h) && |h| > 1 && SentWellFormed(events)
    ensures var after := After(decode, h, s); WellFormed(after) && Anchored(after) && |after| > 1
    ensures SentWellFormed(events + StepEvents(s))
  {
    StepKeepsShape(decode, h, s);
    SentTogether(events, StepEvents(s));
    hide WellFormed, After, IsStep;
    assert IsStep(decode, h, s) && !s.Late? ==> s.request == h by { RequestIsHistory(decode, h, s); }
  }

  lemma RequestIsHistory(decode: Decoder, h: seq<Message>, s: Step)
    requires IsStep(decode, h, s)
    ensures !s.Late? ==> s.request == h
  {
  }

  class ChatSession {
    const outside: Outside
    const decode: Decoder
    /** How many questions have been answered from outside. */
    var answers: nat
    var messages: seq<Message>
    ghost var events: seq<Event>

    constructor (prompt: string, outside: Outside, decode: Decoder)
      ensures messages == [System(prompt)] && events == [] && this.outside == outside && this.decode == decode
      ensures Sound()
    {
      this.outside, this.decode := outside, decode;
      messages, events, answers := [System(prompt)], [], 0;
    }

    /** Every answer on record came from outside. */
    ghost predicate Honest()
      reads this
    {
      answers == |events| && Genuine(outside, events)
    }

    /** The history and every request sent so far are well formed. */
    ghost predicate Sound()
      reads this
    {
      Honest() && WellFormed(messages) && Anchored(messages) && SentWellFormed(events)
    }

    /* ----- Questions to the outside ----- */

    method ReadKey() returns (isSet: bool)
      requires Honest()
      modifies this`answers, this`events
      ensures Honest() && events == old(events) + [Key(isSet)]
    {
      isSet := outside.key(answers);
      answers, events := answers + 1, events + [Key(isSet)];
    }

    method ReadClock() returns (late: bool)
      requires Honest()
      modifies this`answers, this`events
      ensures Honest() && events == old(events) + [Clock(late)]
    {
      late := outside.late(answers);
      answers, events := answers + 1, events + [Clock(late)];
    }

    method Post() returns (reply: Reply)
      requires Honest()
      modifies this`answers, this`events
      ensures Honest() && events == old(events) + [Request(messages, reply)]
    {
      reply := outside.gateway(answers);
      answers, events := answers + 1, events + [Request(messages, reply)];
    }

    method RunTool(call: ToolCall) returns (output: string)
      requires Honest()
      modifies this`answers, this`events
      ensures Honest() && events == old(events) + [Ran(Run(call, output))]
    {
      output := outside.tool(answers);
      answers, events := answers + 1, events + [Ran(Run(call, output))];
    }

    method Summarize(part: seq<Message>) returns (summary: Option<string>)
      requires Honest()
      modifies this`answers, this`events
      ensures Honest() && events == old(events) + [Summarized(part, summary)]
    {
      summary := outside.summary(answers);
      answers, events := answers + 1, events + [Summarized(part, summary)];
    }

    /* ----- The chat ----- */

    /** The assistant's part of one step: its text, its calls, and, when there
        are calls, one result for each of them. */
    method RecordStep(textChunks: seq<string>, toolCalls: seq<ToolCall>) returns (ghost runs: seq<Run>)
      requires Honest()
      modifies this
      ensures Honest() && AreRunsOf(runs, toolCalls) && events == old(events) + RunEvents(runs)
      ensures messages == old(messages) + (Said(textChunks, toolCalls) + Results(runs))
    {
      hide Join, Genuine;
      ghost var before := messages;
      runs := [];
      if textChunks != [] {
        messages := messages + [Assistant(Some(Join(textChunks)), None)];
      }
      if toolCalls == [] {
        return;
      }
      if textChunks == [] {
        messages := messages + [Assistant(None, Some(toolCalls))];
      } else {
        var last := messages[|messages| - 1];
        if last.Assistant? && last.calls.None? {
          messages := messages[|messages| - 1 := last.(calls := Some(toolCalls))];
        } else {
          // The separate push of the calls can never be reached.
          assert false;
        }
      }
      assert messages == before + Said(textChunks, toolCalls);
      runs := RunTools(toolCalls);
      ConcatIsAssociative(before, Said(textChunks, toolCalls), Results(runs));
    }

    method RunTools(toolCalls: seq<ToolCall>) returns (ghost runs: seq<Run>)
      requires Honest()
      modifies this
      ensures Honest() && AreRunsOf(runs, toolCalls) && events == old(events) + RunEvents(runs)
      ensures messages == old(messages) + Results(runs)
    {
      hide Genuine;
      runs := [];
      for i := 0 to |toolCalls|
        invariant Honest() && AreRunsOf(runs, toolCalls[..i])
        invariant messages == old(messages) + Results(runs) && events == old(events) + RunEvents(runs)
      {
        var output := RunTool(toolCalls[i]);
        messages := messages + [Tool(toolCalls[i].id, output)];
        OneMoreRun(runs, Run(toolCalls[i], output));
        runs := runs + [Run(toolCalls[i], output)];
      }
    }

    /** One pass of the loop: the clock, one request, and what comes of it. */
    method RunStep() returns (outcome: StepOutcome, ghost step: Step)
      requires Sound() && |messages| > 1
      modifies this
      ensures Sound() && |messages| > 1
      ensures IsStep(decode, old(messages), step) && messages == After(decode, old(messages), step)
      ensures match step
              case Late => events == old(events) + [Clock(true)]
              case Refusal(h) => events == old(events) + [Clock(false), Request(h, Refused)]
              case Answer(h, chunks, runs) =>
                events == old(events) + ([Clock(false), Request(h, Streamed(chunks))] + RunEvents(runs))
      ensures outcome == if !step.Answer? then Failed else if CallsTools(decode, step) then CalledTools else Finished
    {
      hide WellFormed, Anchored, Genuine, SentWellFormed, Said, Results, RunEvents, ReadAll, AreRunsOf;
      ghost var before, asked := messages, events;
      var late := ReadClock();
      if late {
        StepKeepsSession(outside, decode, before, asked, Late);
        return Failed, Late;
      }
      var reply := Post();
      assert events == asked + [Clock(false), Request(before, reply)];
      if reply.Refused? {
        StepKeepsSession(outside, decode, before, asked, Refusal(before));
        return Failed, Refusal(before);
      }
      var textChunks, toolCalls := ParseGatewayStream(reply.chunks, decode);
      ghost var runs := RecordStep(textChunks, toolCalls);
      step := Answer(before, reply.chunks, runs);
      ConcatIsAssociative(asked, [Clock(false), Request(before, reply)], RunEvents(runs));
      StepKeepsSession(outside, decode, before, asked, step);
      outcome := if toolCalls == [] then Finished else CalledTools;
    }

    /** One turn: ask the gateway, record its answer, run the tools it calls, and
        ask again until it calls none. Without a key nothing is sent and the turn
        fails; with one the result and the history are those of its steps. */
    method RunChatTurn() returns (success: bool, ghost keyIsSet: bool, ghost steps: seq<Step>)
      requires Sound() && |messages| > 1
      modifies this
      ensures Sound() && messages == History(decode, old(messages), steps)
      ensures events == old(events) + ([Key(keyIsSet)] + TurnEvents(steps))
      ensures if keyIsSet then IsTurn(decode, old(messages), steps, success) else steps == [] && !success
    {
      hide IsStep, After, StepEvents, WellFormed, Anchored, CallsIn, Genuine, SentWellFormed;
      ghost var asked := events;
      steps := [];
      var isSet := ReadKey();
      keyIsSet := isSet;
      SentTogether(asked, [Key(isSet)]);
      OnlyAKey(isSet);
      if !isSet { return false, false, []; }
      for i := 0 to 50
        invariant Sound() && |messages| > 1 && |steps| == i
        invariant AreSteps(decode, old(messages), steps) && messages == History(decode, old(messages), steps)
        invariant forall j | 0 <= j < i :: CallsTools(decode, steps[j])
        invariant events == asked + ([Key(true)] + TurnEvents(steps))
      {
        ghost var noted := events;
        var outcome: StepOutcome;
        ghost var step: Step;
        outcome, step := RunStep();
        EventsOfStep(noted, events, step);
        OneMoreStep(decode, old(messages), steps, step);
        OnePartMore(asked, [Key(true)], TurnEvents(steps), StepEvents(step));
        steps := steps + [step];
        if outcome == Failed { return false, true, steps; }
        if outcome == Finished { break; }
      }
      success := true;
    }

    /** Summarise the older part of a long history, when a summary can be had:
        cut at the last user message that leaves at least the most recent ones. */
    method Compact() returns (ghost asked: seq<Event>)
      requires Sound() && |messages| > 1
      modifies this
      ensures Sound() && |messages| > 1 && events == old(events) + asked
      ensures IsCompaction(outside.chars(old(messages)), old(messages), asked, messages)
    {
      hide WellFormed, Genuine, SentWellFormed;
      asked := [];
      if outside.chars(messages) > COMPACT_THRESHOLD_CHARS && |messages| > KEEP_RECENT_MESSAGES + 2 {
        var split := FindSafeSplit(messages, KEEP_RECENT_MESSAGES);
        SplitIsAtUser(messages, split);
        assert LastUserUpTo(messages, |messages| - KEEP_RECENT_MESSAGES, split);
        ghost var noted := events;
        var summary := Summarize(messages[1..split]);
        asked := [Summarized(messages[1..split], summary)];
        SentTogether(noted, asked);
        OnlyASummary(messages[1..split], summary);
        if summary.Some? {
          CompactionIsSafe(messages, split, summary.value);
          messages := [messages[0], System("[Conversation summary]\n" + summary.value)] + messages[split..];
        }
      }
    }

    /** One question: note it, compact the history if it is too long, then take
        a turn. */
    method TakeQuestion(input: string) returns (ghost round: Round)
      requires Sound()
      modifies this
      ensures Sound() && events == old(events) + RoundEvents(round) && messages == round.end
      ensures IsRound(outside, decode, old(messages), round) && round.input == input
    {
      hide WellFormed, Genuine, SentWellFormed, IsCompaction, IsTurn, History, TurnEvents;
      ghost var asked := events;
      PushUser(input);
      ghost var compaction := Compact();
      ghost var start := messages;
      var success: bool;
      ghost var keyIsSet: bool;
      ghost var steps: seq<Step>;
      success, keyIsSet, steps := RunChatTurn();
      round := Round(input, compaction, start, keyIsSet, steps, success, messages);
      ConcatIsAssociative(asked, compaction, [Key(keyIsSet)] + TurnEvents(steps));
    }

    method PushUser(content: string)
      requires Sound()
      modifies this`messages
      ensures Sound() && |messages| > 1 && messages == old(messages) + [User(content)]
    {
      WellFormedConcat(messages, [User(content)]);
      messages := messages + [User(content)];
    }

    /** The interactive loop over any lines of input: it asks, in order, what is
        not blank and comes before the first line that quits, and goes on however
        a question ends. */
    method RunInteractive(lines: seq<string>) returns (ghost rounds: seq<Round>)
      requires Sound()
      modifies this
      ensures Sound() && Inputs(rounds) == Questions(lines)
      ensures AreRounds(outside, decode, old(messages), rounds) && messages == Reached(old(messages), rounds)
      ensures events == old(events) + AllEvents(rounds)
    {
      hide Questions, Trim, WellFormed, Anchored, Genuine, SentWellFormed, IsRound, RoundEvents, AreRounds, AllEvents;
      rounds := [];
      NoRounds(outside, decode, messages);
      QuestionsStep(lines, 0);
      for i := 0 to |lines|
        invariant Sound() && Inputs(rounds) + Questions(lines[i..]) == Questions(lines)
        invariant AreRounds(outside, decode, old(messages), rounds) && messages == Reached(old(messages), rounds)
        invariant events == old(events) + AllEvents(rounds)
      {
        QuestionsStep(lines, i);
        var input := Trim(lines[i]);
        if input == "" { continue; }
        if input == "quit" || input == "exit" || input == "q" { return; }
        ghost var round := TakeQuestion(input);
        OneMoreRound(outside, decode, old(messages), rounds, round);
        ConcatIsAssociative(old(events), AllEvents(rounds), RoundEvents(round));
        ConcatIsAssociative(Inputs(rounds), [input], Questions(lines[i + 1..]));
        rounds := rounds + [round];
      }
      QuestionsStep(lines, |lines|);
    }
  }

  lemma NoRounds(outside: Outside, decode: Decoder, h: seq<Message>)
    ensures AreRounds(outside, decode, h, []) && Inputs([]) == [] && AllEvents([]) == []
  {
  }

  lemma OnlyAKey(isSet: bool)
    ensures SentWellFormed([Key(isSet)]) && [Key(isSet)] + TurnEvents([]) == [Key(isSet)]
  {
  }

  lemma OnlyASummary(part: seq<Message>, summary: Option<string>)
    ensures SentWellFormed([Summarized(part, summary)])
  {
  }

  lemma EventsOfStep(before: seq<Event>, after: seq<Event>, s: Step)
    ensures (match s
             case Late => after == before + [Clock(true)]
             case Refusal(h) => after == before + [Clock(false), Request(h, Refused)]
             case Answer(h, chunks, runs) =>
               after == before + ([Clock(false), Request(h, Streamed(chunks))] + RunEvents(runs)))
      <==> after == before + StepEvents(s)
  {
    hide RunEvents;
  }

  lemma OnePartMore(a: seq<Event>, b: seq<Event>, c: seq<Event>, d: seq<Event>)
    ensures a + (b + c) + d == a + (b + (c + d))
  {
  }
}
