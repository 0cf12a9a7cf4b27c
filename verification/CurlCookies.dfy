/**
 Finding the Cookie header in a command line copied from a browser: the byte
 scan for a quoted option argument, joined lines, and the choice of format.
 */
module CurlCookies {
  import opened Ascii
  import opened Sequences
  import opened Wrappers
  import opened Cookies

  /** White space for `u8::is_ascii_whitespace`: no vertical tab. */
  predicate IsGap(c: char) {
    c == ' ' || c == '\t' || c == '\n' || c == '\U{0C}' || c == '\r'
  }

  predicate AllGap(s: string) { forall c | c in s :: IsGap(c) }

  predicate IsQuote(c: char) { c == '\'' || c == '"' }

  function Lower(s: string): (r: string)
    ensures |r| == |s|
  {
    seq(|s|, i requires 0 <= i < |s| => ToLower(s[i]))
  }

  function SkipGap(s: string): (r: string)
    ensures |r| <= |s| && r == s[|s| - |r|..]
    ensures r == "" || !IsGap(r[0])
    ensures s != "" && IsGap(s[0]) ==> |r| < |s|
  {
    if s != "" && IsGap(s[0]) then SkipGap(s[1..]) else s
  }

  /** The quoted text is the header looked for. */
  predicate IsHeader(value: string, header: string) {
    Lower(header + ":") <= Lower(value)
  }

  /** The scan, by what is left to read and whether a word may start there. */
  function Match(s: string, atBoundary: bool, flag: string, header: Option<string>): Option<string>
    decreases |s|, 0
  {
    if |s| <= |flag| then None
    else if !(flag <= s && atBoundary && IsGap(s[|flag|])) then Match(s[1..], IsGap(s[0]), flag, header)
    else MatchArgument(SkipGap(s[|flag|..]), flag, header)
  }

  /** The scan behind the flag and the white space that follows it. */
  function MatchArgument(rest: string, flag: string, header: Option<string>): Option<string>
    decreases |rest|, 1
  {
    if rest == "" then None
    else if !IsQuote(rest[0]) then Match(rest, true, flag, header)
    else
      var n := Find(rest[1..], rest[0]);
      if n == |rest| - 1 then None
      else if header.None? then Some(rest[1..n + 1])
      else if IsHeader(rest[1..n + 1], header.value) then Some(Trim(rest[1..n + 1][|header.value| + 1..]))
      else Match(rest[n + 2..], false, flag, header)
  }

  /** A word may start at position `i`. */
  predicate Boundary(s: string, i: nat)
    requires i <= |s|
  {
    i == 0 || IsGap(s[i - 1])
  }

  /** What the scan finds from position `i` on. */
  function MatchFrom(s: string, i: nat, flag: string, header: Option<string>): Option<string>
    requires i <= |s|
  {
    Match(s[i..], Boundary(s, i), flag, header)
  }

  /** The flag stands at `i` as a word of its own. */
  predicate FlagAt(s: string, i: nat, flag: string)
    requires i + |flag| < |s|
  {
    s[i..i + |flag|] == flag && Boundary(s, i) && IsGap(s[i + |flag|])
  }

  lemma MatchStep(s: string, i: nat, flag: string, header: Option<string>)
    requires i + |flag| < |s|
    ensures !FlagAt(s, i, flag) ==> MatchFrom(s, i, flag, header) == MatchFrom(s, i + 1, flag, header)
    ensures FlagAt(s, i, flag) ==>
      MatchFrom(s, i, flag, header) == MatchArgument(SkipGap(s[i + |flag|..]), flag, header)
  {
    var rest := s[i..];
    assert rest[1..] == s[i + 1..] && rest[..|flag|] == s[i..i + |flag|] && rest[|flag|..] == s[i + |flag|..];
    assert flag <= rest <==> s[i..i + |flag|] == flag;
  }

  lemma ArgumentStep(s: string, j: nat, n: nat, flag: string, header: Option<string>)
    requires 0 < j < |s| && IsGap(s[j - 1]) && n == Find(s[j + 1..], s[j])
    ensures !IsQuote(s[j]) ==> MatchArgument(s[j..], flag, header) == MatchFrom(s, j, flag, header)
    ensures IsQuote(s[j]) ==> MatchArgument(s[j..], flag, header) ==
                              if j + 1 + n == |s| then None
                              else if header.None? then Some(s[j + 1..j + 1 + n])
                              else if IsHeader(s[j + 1..j + 1 + n], header.value)
                              then Some(Trim(s[j + 1..j + 1 + n][|header.value| + 1..]))
                              else MatchFrom(s, j + n + 2, flag, header)
  {
    hide Match, Find, Trim;
    var rest := s[j..];
    assert rest[1..] == s[j + 1..];
    if j + 1 + n < |s| {
      assert rest[1..n + 1] == s[j + 1..j + 1 + n] && rest[n + 2..] == s[j + n + 2..];
      assert s[j + 1..][n] == s[j + 1 + n];
    }
  }

  /** What reading one argument comes to: a result, or a position to scan on from. */
  datatype Outcome = Done(result: Option<string>) | Resume(at: nat)

  method MatchQuotedArg(haystack: string, flag: string, header: Option<string>) returns (r: Option<string>)
    ensures r == Match(haystack, true, flag, header)
  {
    hide Match, MatchArgument, MatchFrom, SkipGap;
    var i := 0;
    MatchAtEnds(haystack, 0, flag, header);
    while i + |flag| < |haystack|
      invariant i <= |haystack|
      invariant MatchFrom(haystack, i, flag, header) == Match(haystack, true, flag, header)
    {
      MatchStep(haystack, i, flag, header);
      if haystack[i..i + |flag|] != flag {
        i := i + 1;
        continue;
      }
      if i > 0 && !IsGap(haystack[i - 1]) {
        i := i + 1;
        continue;
      }
      if !IsGap(haystack[i + |flag|]) {
        i := i + 1;
        continue;
      }
      var j := SkipGapFrom(haystack, i + |flag|);
      var outcome := ReadArgument(haystack, j, flag, header);
      match outcome
      case Done(result) => return result;
      case Resume(at) => i := at;
    }
    MatchAtEnds(haystack, i, flag, header);
    r := None;
  }

  /** Read the argument at `j`, behind the flag and white space. */
  method ReadArgument(haystack: string, j: nat, flag: string, header: Option<string>) returns (outcome: Outcome)
    requires 0 < j <= |haystack| && IsGap(haystack[j - 1])
    ensures outcome.Done? ==> MatchArgument(haystack[j..], flag, header) == outcome.result
    ensures outcome.Resume? ==>
      && j <= outcome.at <= |haystack|
      && MatchArgument(haystack[j..], flag, header) == MatchFrom(haystack, outcome.at, flag, header)
  {
    hide Match, MatchArgument, MatchFrom, Find, Lower, Trim;
    if j >= |haystack| {
      NoArgument(haystack[j..], flag, header);
      return Done(None);
    }
    var quote := haystack[j];
    ArgumentStep(haystack, j, Find(haystack[j + 1..], quote), flag, header);
    if quote != '\'' && quote != '"' {
      return Resume(j);
    }
    var start := j + 1;
    var k := FindFrom(haystack, start, quote);
    if k >= |haystack| {
      return Done(None);
    }
    var value := haystack[start..k];
    if header.Some? {
      var prefix := Lower(header.value + ":");
      if prefix <= Lower(value) {
        return Done(Some(Trim(value[|prefix|..])));
      }
      return Resume(k + 1);
    }
    return Done(Some(value));
  }

  lemma MatchAtEnds(s: string, i: nat, flag: string, header: Option<string>)
    requires i <= |s|
    ensures i == 0 ==> MatchFrom(s, i, flag, header) == Match(s, true, flag, header)
    ensures i + |flag| >= |s| ==> MatchFrom(s, i, flag, header) == None
  {
    assert s[0..] == s;
  }

  lemma NoArgument(rest: string, flag: string, header: Option<string>)
    requires rest == ""
    ensures MatchArgument(rest, flag, header) == None
  {
  }

  method SkipGapFrom(s: string, from: nat) returns (j: nat)
    requires from < |s| && IsGap(s[from])
    ensures from < j <= |s| && IsGap(s[j - 1]) && s[j..] == SkipGap(s[from..])
  {
    hide SkipGap;
    j := from;
    while j < |s| && IsGap(s[j])
      invariant from <= j <= |s| && forall i | from <= i < j :: IsGap(s[i])
    {
      j := j + 1;
    }
    SkipGapIs(s[from..], j - from);
    assert s[from..][j - from..] == s[j..];
  }

  lemma {:induction false} SkipGapIs(s: string, n: nat)
    requires n <= |s| && (forall i | 0 <= i < n :: IsGap(s[i])) && (n < |s| ==> !IsGap(s[n]))
    ensures SkipGap(s) == s[n..]
    decreases n
  {
    if n > 0 { SkipGapIs(s[1..], n - 1); }
  }

  lemma SkipGapStep(s: string, j: nat)
    requires j <= |s|
    ensures if j < |s| && IsGap(s[j]) then SkipGap(s[j..]) == SkipGap(s[j + 1..]) else SkipGap(s[j..]) == s[j..]
  {
    if j < |s| { assert s[j..][1..] == s[j + 1..]; }
  }

  method FindFrom(s: string, from: nat, c: char) returns (k: nat)
    requires from <= |s|
    ensures from <= k <= |s| && k - from == Find(s[from..], c)
  {
    k := from;
    while k < |s| && s[k] != c
      invariant from <= k <= |s| && forall i | from <= i < k :: s[i] != c
    {
      k := k + 1;
    }
    FindIs(s[from..], c, k - from);
  }

  lemma FindIs(s: string, c: char, n: nat)
    requires n <= |s| && (forall i | 0 <= i < n :: s[i] != c) && (n < |s| ==> s[n] == c)
    ensures Find(s, c) == n
  {
  }

  /* ---------- Command lines whose words the scan tells apart ---------- */

  predicate IsWord(t: string) {
    t != "" && forall c | c in t :: !IsGap(c)
  }

  predicate IsSeparator(gap: string) { gap != "" && AllGap(gap) }

  /** One part of a command line, with the white space behind it: a word other
      than the flag, the flag with an unquoted argument, or the flag with a
      quoted argument that is not the header looked for. */
  datatype Item =
    | Word(text: string, gap: string)
    | Unquoted(sep: string, text: string, gap: string)
    | Other(sep: string, quote: char, value: string, gap: string)

  predicate Passed(item: Item, flag: string, header: Option<string>) {
    && IsSeparator(item.gap)
    && match item
       case Word(text, _) => IsWord(text) && text != flag
       case Unquoted(sep, text, _) => IsSeparator(sep) && IsWord(text) && text != flag && !IsQuote(text[0])
       case Other(sep, quote, value, _) =>
         IsSeparator(sep) && IsQuote(quote) && quote !in value && header.Some? && !IsHeader(value, header.value)
  }

  function PrintItem(item: Item, flag: string): string {
    match item
    case Word(text, gap) => text + gap
    case Unquoted(sep, text, gap) => flag + sep + (text + gap)
    case Other(sep, quote, value, gap) => flag + sep + Quoted(quote, value) + gap
  }

  function Quoted(quote: char, value: string): string { [quote] + value + [quote] }

  function PrintItems(items: seq<Item>, flag: string): string {
    if items == [] then "" else PrintItem(items[0], flag) + PrintItems(items[1..], flag)
  }

  lemma {:induction false} InsideWordIsSkipped(t: string, u: string, flag: string, header: Option<string>)
    requires forall c | c in t :: !IsGap(c)
    ensures Match(t + u, false, flag, header) == Match(u, false, flag, header)
    decreases |t|
  {
    hide MatchArgument;
    if t == "" {
      assert t + u == u;
    } else {
      assert (t + u)[1..] == t[1..] + u && (t + u)[0] == t[0];
      InsideWordIsSkipped(t[1..], u, flag, header);
    }
  }

  lemma {:induction false} GapIsSkipped(gap: string, u: string, b: bool, flag: string, header: Option<string>)
    requires IsSeparator(gap) && IsWord(flag)
    ensures Match(gap + u, b, flag, header) == Match(u, true, flag, header)
    decreases |gap|
  {
    hide MatchArgument;
    var s := gap + u;
    assert s[1..] == gap[1..] + u && s[0] == gap[0] && gap[0] in gap && flag[0] in flag;
    if |gap| == 1 {
      assert gap[1..] + u == u;
    } else {
      GapIsSkipped(gap[1..], u, true, flag, header);
    }
  }

  /** A word that is not the flag is passed over, with the white space behind it. */
  lemma WordIsSkipped(text: string, gap: string, u: string, flag: string, header: Option<string>)
    requires IsWord(text) && text != flag && IsWord(flag) && IsSeparator(gap)
    ensures Match(text + gap + u, true, flag, header) == Match(u, true, flag, header)
  {
    hide MatchArgument;
    var s := text + (gap + u);
    assert text + gap + u == s;
    assert s[1..] == text[1..] + (gap + u) && text[0] in text && s[0] == text[0];
    WordIsNotTheFlag(text, gap + u, flag);
    InsideWordIsSkipped(text[1..], gap + u, flag, header);
    GapIsSkipped(gap, u, false, flag, header);
  }

  lemma WordIsNotTheFlag(text: string, u: string, flag: string)
    requires IsWord(text) && text != flag && IsWord(flag) && u != "" && IsGap(u[0])
    ensures flag <= text + u && |flag| < |text + u| ==> !IsGap((text + u)[|flag|])
  {
    var s := text + u;
    assert s[..|text|] == text && s[|text|] == u[0];
    assert forall i | 0 <= i < |flag| :: !IsGap(flag[i]);
    assert |flag| < |text| ==> s[|flag|] == text[|flag|];
    assert flag <= s ==> s[..|flag|] == flag;
  }

  lemma {:induction false} SkipGapSkips(gap: string, u: string)
    requires AllGap(gap) && (u == "" || !IsGap(u[0]))
    ensures SkipGap(gap + u) == u
    decreases |gap|
  {
    if gap == "" {
      assert gap + u == u;
    } else {
      assert (gap + u)[1..] == gap[1..] + u && gap[0] in gap;
      SkipGapSkips(gap[1..], u);
    }
  }

  /** At a word boundary the flag and a separator lead to the argument. */
  lemma FlagIsTaken(flag: string, sep: string, u: string, header: Option<string>)
    requires IsSeparator(sep) && (u == "" || !IsGap(u[0]))
    ensures Match(flag + sep + u, true, flag, header) == MatchArgument(u, flag, header)
  {
    hide MatchArgument, SkipGap;
    var s := flag + sep + u;
    assert s[..|flag|] == flag && s[|flag|..] == sep + u && s[|flag|] == sep[0] && sep[0] in sep;
    SkipGapSkips(sep, u);
  }

  /** What a quoted argument comes to, whatever follows its closing quote. */
  lemma QuotedArgument(quote: char, value: string, u: string, flag: string, header: Option<string>)
    requires IsQuote(quote) && quote !in value
    ensures MatchArgument(Quoted(quote, value) + u, flag, header) ==
            if header.None? then Some(value)
            else if IsHeader(value, header.value) then Some(Trim(value[|header.value| + 1..]))
            else Match(u, false, flag, header)
  {
    hide Match, Find, Trim;
    var s := Quoted(quote, value) + u;
    FindInJoined(value, quote, u);
    assert s[1..] == value + [quote] + u && s[0] == quote;
    assert s[1..|value| + 1] == value && s[|value| + 2..] == u;
  }

  lemma ItemIsSkipped(item: Item, u: string, flag: string, header: Option<string>)
    requires Passed(item, flag, header) && IsWord(flag)
    ensures Match(PrintItem(item, flag) + u, true, flag, header) == Match(u, true, flag, header)
  {
    hide Match, IsHeader, Trim;
    match item
    case Word(text, gap) => WordIsSkipped(text, gap, u, flag, header);
    case Unquoted(sep, text, gap) =>
      var v := text + gap + u;
      assert PrintItem(item, flag) + u == flag + sep + v;
      assert v[0] == text[0] && text[0] in text;
      FlagIsTaken(flag, sep, v, header);
      WordIsSkipped(text, gap, u, flag, header);
    case Other(sep, quote, value, gap) =>
      var v := Quoted(quote, value) + (gap + u);
      assert PrintItem(item, flag) + u == flag + sep + v;
      assert v[0] == quote;
      FlagIsTaken(flag, sep, v, header);
      QuotedArgument(quote, value, gap + u, flag, header);
      GapIsSkipped(gap, u, false, flag, header);
  }

  lemma {:induction false} ItemsAreSkipped(items: seq<Item>, u: string, flag: string, header: Option<string>)
    requires (forall item | item in items :: Passed(item, flag, header)) && IsWord(flag)
    ensures Match(PrintItems(items, flag) + u, true, flag, header) == Match(u, true, flag, header)
    decreases |items|
  {
    hide Match, Passed, PrintItem;
    if items == [] {
      assert PrintItems(items, flag) + u == u;
    } else {
      assert items[0] in items;
      var rest := PrintItems(items[1..], flag) + u;
      assert PrintItems(items, flag) + u == PrintItem(items[0], flag) + rest;
      ItemIsSkipped(items[0], rest, flag, header);
      ItemsAreSkipped(items[1..], u, flag, header);
    }
  }

  /** The scan finds the first argument that qualifies, behind any parts that do
      not and whatever follows it; without one it finds nothing. */
  lemma ScanFindsTheArgument(items: seq<Item>, sep: string, quote: char, value: string, u: string,
                             flag: string, header: Option<string>)
    requires (forall item | item in items :: Passed(item, flag, header)) && IsWord(flag)
    requires IsSeparator(sep) && IsQuote(quote) && quote !in value
    requires header.Some? ==> IsHeader(value, header.value)
    ensures Match(PrintItems(items, flag) + (flag + sep + (Quoted(quote, value) + u)), true, flag, header) ==
            Some(if header.None? then value else Trim(value[|header.value| + 1..]))
    ensures Match(PrintItems(items, flag), true, flag, header) == None
  {
    hide Match, MatchArgument, Trim, IsHeader, Passed;
    var v := Quoted(quote, value) + u;
    assert v[0] == quote;
    ItemsAreSkipped(items, flag + sep + v, flag, header);
    FlagIsTaken(flag, sep, v, header);
    QuotedArgument(quote, value, u, flag, header);
    ItemsAreSkipped(items, "", flag, header);
    assert PrintItems(items, flag) + "" == PrintItems(items, flag);
    MatchAtEnds("", 0, flag, header);
  }

  lemma FindBefore(s: string, c: char, d: char)
    requires c != d
    ensures Find(s + [d], c) == if Find(s, c) < |s| then Find(s, c) else |s| + 1
  {
    var n := if Find(s, c) < |s| then Find(s, c) else |s| + 1;
    FindIs(s + [d], c, n);
  }

  lemma SkipGapFirst(s: string, rest: string)
    requires s != "" && rest == s[1..]
    ensures SkipGap(s) == if IsGap(s[0]) then SkipGap(rest) else s
  {
  }

  lemma SkipGapOfGap(d: char)
    requires IsGap(d)
    ensures SkipGap([d]) == SkipGap("") == ""
  {
    assert [d][1..] == "";
  }

  lemma {:induction false} SkipGapBefore(s: string, d: char)
    requires IsGap(d)
    ensures SkipGap(s + [d]) == if SkipGap(s) == "" then "" else SkipGap(s) + [d]
    decreases |s|
  {
    hide SkipGap;
    if s == "" {
      assert s + [d] == [d];
      SkipGapOfGap(d);
    } else {
      assert (s + [d])[1..] == s[1..] + [d];
      SkipGapFirst(s, s[1..]);
      SkipGapFirst(s + [d], s[1..] + [d]);
      if IsGap(s[0]) { SkipGapBefore(s[1..], d); }
    }
  }

  /** White space at the end of the line changes nothing. */
  lemma {:induction false} TrailingGapIsIgnored(s: string, d: char, b: bool, flag: string, header: Option<string>)
    requires IsGap(d)
    ensures Match(s + [d], b, flag, header) == Match(s, b, flag, header)
    decreases |s|, 0
  {
    hide MatchArgument, SkipGap;
    var t := s + [d];
    if |s| < |flag| {
    } else if |s| == |flag| {
      assert t[|flag|..] == [d];
      SkipGapBefore("", d);
      assert "" + [d] == [d];
      NoArgument("", flag, header);
      SkipGapStep("", 0);
    } else {
      assert t[1..] == s[1..] + [d] && t[..|flag|] == s[..|flag|] && t[|flag|..] == s[|flag|..] + [d];
      assert flag <= t <==> flag <= s;
      var rest := SkipGap(s[|flag|..]);
      SkipGapBefore(s[|flag|..], d);
      if IsGap(s[|flag|]) { GapArgumentIsIgnored(rest, d, flag, header); }
      TrailingGapIsIgnored(s[1..], d, IsGap(s[0]), flag, header);
    }
  }

  lemma {:induction false} GapArgumentIsIgnored(rest: string, d: char, flag: string, header: Option<string>)
    requires IsGap(d)
    ensures rest != "" ==> MatchArgument(rest + [d], flag, header) == MatchArgument(rest, flag, header)
    decreases |rest|, 1
  {
    hide Match, Find, Trim, IsHeader;
    if rest != "" {
      TrailingGapIsIgnored(rest, d, true, flag, header);
      var body, n := rest[1..], Find(rest[1..], rest[0]);
      assert (rest + [d])[1..] == body + [d];
      if IsQuote(rest[0]) {
        FindBefore(body, rest[0], d);
        if n < |body| {
          assert (rest + [d])[1..n + 1] == rest[1..n + 1] && (rest + [d])[n + 2..] == rest[n + 2..] + [d];
          TrailingGapIsIgnored(rest[n + 2..], d, false, flag, header);
        }
      }
    }
  }

  /** A line made only of parts that do not qualify has no such argument. */
  lemma ScanFindsNothing(items: seq<Item>, line: string, d: char, flag: string, header: Option<string>)
    requires (forall item | item in items :: Passed(item, flag, header)) && IsWord(flag)
    requires IsGap(d) && line + [d] == PrintItems(items, flag)
    ensures Match(line, true, flag, header) == None
  {
    hide Match, Passed;
    ItemsAreSkipped(items, "", flag, header);
    assert PrintItems(items, flag) + "" == PrintItems(items, flag);
    MatchAtEnds("", 0, flag, header);
    TrailingGapIsIgnored(line, d, true, flag, header);
  }

  /* ---------- Joining continued lines ---------- */

  /** Every occurrence of the pattern, from the left, becomes a space. */
  function Blank(s: string, pattern: string): string
    requires pattern != ""
    decreases |s|
  {
    if s == "" then ""
    else if pattern <= s then " " + Blank(s[|pattern|..], pattern)
    else [s[0]] + Blank(s[1..], pattern)
  }

  /** A line continuation of bash (a backslash) or cmd (a caret). */
  datatype Break = Break(mark: char, crlf: bool) {
    predicate Valid() { mark == '\\' || mark == '^' }

    function Text(): (r: string)
      ensures r != ""
    {
      if crlf then [mark, '\r', '\n'] else [mark, '\n']
    }
  }

  const BREAKS := [Break('\\', true), Break('\\', false), Break('^', true), Break('^', false)]

  /** The replacements one after the other, each over the whole text. */
  function JoinLines(s: string, breaks: seq<Break>): string
    decreases |breaks|
  {
    if breaks == [] then s else JoinLines(Blank(s, breaks[0].Text()), breaks[1..])
  }

  /** The length of the line end at the start of the text, or 0. */
  function LineEnd(s: string): (n: nat)
    ensures n <= |s|
  {
    if |s| >= 1 && s[0] == '\n' then 1
    else if |s| >= 2 && s[0] == '\r' && s[1] == '\n' then 2
    else 0
  }

  /** The text starts with a continuation of one of these kinds. */
  predicate Continues(s: string, breaks: seq<Break>) {
    s != "" && LineEnd(s[1..]) > 0 && Break(s[0], LineEnd(s[1..]) == 2) in breaks
  }

  /** A single pass from left to right that blanks every continuation. */
  function OnePass(s: string): string
    decreases |s|
  {
    if s == "" then ""
    else if Continues(s, BREAKS) then " " + OnePass(s[1 + LineEnd(s[1..])..])
    else [s[0]] + OnePass(s[1..])
  }

  lemma BlankStep(s: string, b: Break)
    requires s != ""
    ensures Blank(s, b.Text()) ==
            if Continues(s, [b]) then " " + Blank(s[1 + LineEnd(s[1..])..], b.Text())
            else [s[0]] + Blank(s[1..], b.Text())
  {
    var pattern := b.Text();
    if pattern <= s {
      assert s[0] == pattern[0] && s[1] == pattern[1] && (b.crlf ==> s[2] == pattern[2]);
    }
    if Continues(s, [b]) {
      assert s[..|pattern|] == pattern;
    }
  }

  lemma BlankKeepsLineEnd(s: string, b: Break)
    requires b.Valid()
    ensures LineEnd(Blank(s, b.Text())) == LineEnd(s)
    ensures Blank(s, b.Text())[LineEnd(s)..] == Blank(s[LineEnd(s)..], b.Text())
  {
    hide Blank;
    var e := LineEnd(s);
    assert s[0..] == s;
    if s == "" {
      BlankNothing(b);
    } else {
      BlankStep(s, b);
      if |s| > 1 { BlankStep(s[1..], b); } else { BlankNothing(b); }
      if e == 2 { assert s[1..][1..] == s[2..]; }
    }
  }

  lemma BlankNothing(b: Break)
    ensures Blank("", b.Text()) == ""
  {
  }

  lemma {:induction false} JoinStep(s: string, breaks: seq<Break>)
    requires s != "" && forall b | b in breaks :: b.Valid()
    ensures JoinLines(s, breaks) ==
            if Continues(s, breaks) then " " + JoinLines(s[1 + LineEnd(s[1..])..], breaks)
            else [s[0]] + JoinLines(s[1..], breaks)
    decreases |breaks|
  {
    hide Blank, LineEnd;
    if breaks == [] {
      assert [s[0]] + s[1..] == s;
    } else {
      var b, rest, e := breaks[0], breaks[1..], LineEnd(s[1..]);
      var once := Blank(s, b.Text());
      assert b in breaks && forall d | d in rest :: d in breaks;
      assert breaks == [b] + rest;
      BlankStep(s, b);
      BlankKeepsLineEnd(s[1..], b);
      assert s[1..][e..] == s[1 + e..];
      JoinStep(once, rest);
    }
  }

  /** The four replacements, run one after the other over the whole text, do
      what a single pass does: none makes or breaks a match of another. */
  lemma {:induction false} JoinIsOnePass(s: string)
    ensures JoinLines(s, BREAKS) == OnePass(s)
    decreases |s|
  {
    hide JoinLines, Blank, Continues;
    if s == "" {
      JoinNothing(BREAKS);
    } else {
      JoinStep(s, BREAKS);
      JoinIsOnePass(s[1..]);
      JoinIsOnePass(s[1 + LineEnd(s[1..])..]);
    }
  }

  lemma {:induction false} JoinNothing(breaks: seq<Break>)
    ensures JoinLines("", breaks) == ""
  {
    if breaks != [] {
      BlankNothing(breaks[0]);
      JoinNothing(breaks[1..]);
    }
  }

  lemma {:induction false} OneLineIsJoined(s: string)
    requires '\n' !in s
    ensures OnePass(s) == s
    decreases |s|
  {
    if s != "" {
      assert LineEnd(s[1..]) == 0;
      OneLineIsJoined(s[1..]);
      assert [s[0]] + s[1..] == s;
    }
  }

  predicate IsMark(c: char) { c == '\\' || c == '^' }

  /** The text ends in a backslash or caret, or in one behind which only a
      carriage return stands. */
  predicate EndsInMark(a: string) {
    a != "" && (IsMark(a[|a| - 1]) || (|a| > 1 && a[|a| - 1] == '\r' && IsMark(a[|a| - 2])))
  }

  lemma NoContinuation(s: string)
    requires s != "" && (!IsMark(s[0]) || LineEnd(s[1..]) == 0)
    ensures OnePass(s) == [s[0]] + OnePass(s[1..])
  {
    assert forall b | b in BREAKS :: IsMark(b.mark);
  }

  lemma Continuation(mark: char, crlf: bool, rest: string)
    requires IsMark(mark)
    ensures OnePass([mark] + (if crlf then "\r\n" else "\n") + rest) == " " + OnePass(rest)
  {
    var s := [mark] + (if crlf then "\r\n" else "\n") + rest;
    var n := if crlf then 2 else 1;
    assert LineEnd(s[1..]) == n && s[1 + n..] == rest;
    assert Break(mark, crlf) in BREAKS;
  }

  lemma NoLineEndBehind(a: string, rest: string)
    requires a != "" && '\n' !in a && rest != ""
    requires (rest[0] != '\r' && rest[0] != '\n') || (rest[0] == '\n' && !EndsInMark(a))
    ensures IsMark(a[0]) ==> LineEnd(a[1..] + rest) == 0
  {
    var t := a[1..] + rest;
    assert |a| > 1 ==> t[0] == a[1] && a[1] in a;
    assert |a| > 2 ==> t[1] == a[2] && a[2] in a;
    assert |a| == 1 ==> t[0] == rest[0];
    assert |a| == 2 ==> t[1] == rest[0];
  }

  /** Inside a line nothing is joined. */
  lemma {:induction false} InsideLine(a: string, rest: string)
    requires '\n' !in a && rest != ""
    requires (rest[0] != '\r' && rest[0] != '\n') || (rest[0] == '\n' && !EndsInMark(a))
    ensures OnePass(a + rest) == a + OnePass(rest)
    decreases |a|
  {
    hide OnePass, IsMark, LineEnd;
    if a == "" {
      assert a + rest == rest;
    } else {
      NoLineEndBehind(a, rest);
      DropJoined(a, rest, 1);
      NoContinuation(a + rest);
      assert !EndsInMark(a) ==> !EndsInMark(a[1..]);
      InsideLine(a[1..], rest);
      ConcatIsAssociative([a[0]], a[1..], OnePass(rest));
    }
  }

  /** Line by line: a line that ends in a backslash or a caret goes on with a
      space, and every other line end stays. */
  lemma LinesAreJoined(line: string, mark: char, crlf: bool, rest: string)
    requires '\n' !in line
    ensures IsMark(mark) ==>
      OnePass(line + ([mark] + (if crlf then "\r\n" else "\n") + rest)) == line + (" " + OnePass(rest))
    ensures !EndsInMark(line) ==> OnePass(line + ("\n" + rest)) == line + ("\n" + OnePass(rest))
  {
    hide OnePass;
    if IsMark(mark) {
      InsideLine(line, [mark] + (if crlf then "\r\n" else "\n") + rest);
      Continuation(mark, crlf, rest);
    }
    if !EndsInMark(line) {
      InsideLine(line, "\n" + rest);
      NoContinuation("\n" + rest);
      assert ("\n" + rest)[1..] == rest;
    }
  }

  /* ---------- The Cookie header of a command line ---------- */

  const COOKIE := Some("cookie")

  /** The Cookie header of a joined command line: from `-H`, else `-b`, else `--cookie`. */
  function CookieHeader(line: string): Option<string> {
    Match(line, true, "-H", COOKIE).Or(Match(line, true, "-b", None).Or(Match(line, true, "--cookie", None)))
  }

  method ExtractCookieHeader(curl: string) returns (r: Option<string>)
    ensures r == CookieHeader(OnePass(curl))
  {
    hide Match, OnePass;
    var joined := JoinLines(curl, BREAKS);
    JoinIsOnePass(curl);
    r := MatchQuotedArg(joined, "-H", COOKIE);
    if r.Some? { return; }
    r := MatchQuotedArg(joined, "-b", None);
    if r.Some? { return; }
    r := MatchQuotedArg(joined, "--cookie", None);
  }

  /** The line, with white space behind it, divides into parts none of which qualifies. */
  predicate Without(line: string, items: seq<Item>, flag: string, header: Option<string>) {
    (forall item | item in items :: Passed(item, flag, header)) && line + " " == PrintItems(items, flag)
  }

  /** Without a Cookie header the argument of `-b` counts, and without that the
      argument of `--cookie`; with none of them there is no header. */
  lemma CookieOptionsComeNext(line: string, headers: seq<Item>, short: seq<Item>, long: seq<Item>, before: seq<Item>,
                              flag: string, sep: string, quote: char, value: string, rest: string)
    requires Without(line, headers, "-H", COOKIE)
    requires flag in {"-b", "--cookie"} && IsSeparator(sep) && IsQuote(quote) && quote !in value
    requires forall item | item in before :: Passed(item, flag, None)
    ensures (line == PrintItems(before, flag) + (flag + sep + (Quoted(quote, value) + rest))
             && (flag == "-b" || Without(line, short, "-b", None))) ==> CookieHeader(line) == Some(value)
    ensures Without(line, short, "-b", None) && Without(line, long, "--cookie", None) ==> CookieHeader(line) == None
  {
    hide Match, Passed, PrintItems;
    assert line + [' '] == line + " ";
    ScanFindsNothing(headers, line, ' ', "-H", COOKIE);
    if Without(line, short, "-b", None) { ScanFindsNothing(short, line, ' ', "-b", None); }
    if Without(line, long, "--cookie", None) { ScanFindsNothing(long, line, ' ', "--cookie", None); }
    ScanFindsTheArgument(before, sep, quote, value, rest, flag, None);
  }
}
