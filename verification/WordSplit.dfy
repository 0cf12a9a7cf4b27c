/**
 Splitting a command text into words, with single quotes, double quotes and
 backslashes, as the shell does it, except that empty words vanish.
 */
module WordSplit {

  datatype State = State(args: seq<string>, current: string, inDouble: bool, inSingle: bool)

  const START := State([], "", false, false)

  function Push(st: State, c: char): State {
    st.(current := st.current + [c])
  }

  function Flush(st: State): State {
    if st.current == "" then st else st.(args := st.args + [st.current], current := "")
  }

  predicate Outside(st: State) { !st.inDouble && !st.inSingle }

  /** The state after one character that is no escaping backslash. */
  function Take(c: char, st: State): State {
    if c == '"' && !st.inSingle then st.(inDouble := !st.inDouble)
    else if c == '\'' && !st.inDouble then st.(inSingle := !st.inSingle)
    else if c == ' ' && Outside(st) then Flush(st)
    else Push(st, c)
  }

  function Scan(s: string, st: State): State
    decreases |s|
  {
    if s == "" then st
    else if s[0] == '\\' && !st.inSingle then
      if |s| > 1 then Scan(s[2..], Push(st, s[1])) else st
    else Scan(s[1..], Take(s[0], st))
  }

  function Words(s: string): seq<string> {
    Flush(Scan(s, START)).args
  }

  method ShellWordsSplit(s: string) returns (args: seq<string>)
    ensures args == Words(s)
  {
    args := [];
    var current := "";
    var inDouble, inSingle := false, false;
    var i := 0;
    while i < |s|
      invariant i <= |s|
      invariant Scan(s[i..], State(args, current, inDouble, inSingle)) == Scan(s, START)
    {
      var c := s[i];
      i := i + 1;
      assert s[i - 1..][1..] == s[i..];
      if c == '\\' && !inSingle {
        if i < |s| {
          assert s[i - 1..][2..] == s[i + 1..] && s[i - 1..][1] == s[i];
          current := current + [s[i]];
          i := i + 1;
        }
      } else if c == '"' && !inSingle {
        inDouble := !inDouble;
      } else if c == '\'' && !inDouble {
        inSingle := !inSingle;
      } else if c == ' ' && !inDouble && !inSingle {
        if current != "" {
          args, current := args + [current], "";
        }
      } else {
        current := current + [c];
      }
    }
    if current != "" {
      args := args + [current];
    }
  }

  /* ---------- No empty words ---------- */

  predicate NoEmptyWord(args: seq<string>) { forall w | w in args :: w != "" }

  lemma {:induction false} ScanKeepsWordsNonEmpty(s: string, st: State)
    requires NoEmptyWord(st.args)
    ensures NoEmptyWord(Scan(s, st).args)
    decreases |s|
  {
    if s == "" {
    } else if s[0] == '\\' && !st.inSingle {
      if |s| > 1 { ScanKeepsWordsNonEmpty(s[2..], Push(st, s[1])); }
    } else {
      ScanKeepsWordsNonEmpty(s[1..], Take(s[0], st));
    }
  }

  lemma WordsAreNonEmpty(s: string)
    ensures NoEmptyWord(Words(s))
  {
    ScanKeepsWordsNonEmpty(s, START);
  }

  /* ---------- Cutting the text ---------- */

  /** The text ends in a backslash that has nothing to escape. */
  predicate Dangles(s: string, st: State)
    decreases |s|
  {
    if s == "" then false
    else if s[0] == '\\' && !st.inSingle then |s| == 1 || Dangles(s[2..], Push(st, s[1]))
    else Dangles(s[1..], Take(s[0], st))
  }

  lemma {:induction false} ScanConcat(s: string, t: string, st: State)
    requires !Dangles(s, st)
    ensures Scan(s + t, st) == Scan(t, Scan(s, st))
    decreases |s|
  {
    if s == "" {
      assert s + t == t;
    } else if s[0] == '\\' && !st.inSingle {
      assert (s + t)[2..] == s[2..] + t && (s + t)[1] == s[1];
      ScanConcat(s[2..], t, Push(st, s[1]));
    } else {
      assert (s + t)[1..] == s[1..] + t;
      ScanConcat(s[1..], t, Take(s[0], st));
    }
  }

  lemma {:induction false} DanglesConcat(s: string, t: string, st: State)
    requires !Dangles(s, st)
    ensures Dangles(s + t, st) == Dangles(t, Scan(s, st))
    decreases |s|
  {
    if s == "" {
      assert s + t == t;
    } else if s[0] == '\\' && !st.inSingle {
      assert (s + t)[2..] == s[2..] + t && (s + t)[1] == s[1];
      DanglesConcat(s[2..], t, Push(st, s[1]));
    } else {
      assert (s + t)[1..] == s[1..] + t;
      DanglesConcat(s[1..], t, Take(s[0], st));
    }
  }

  /** Words already found do not influence those to come. */
  lemma {:induction false} EarlierWordsStay(s: string, st: State, before: seq<string>)
    ensures Scan(s, st.(args := before + st.args)) == Scan(s, st).(args := before + Scan(s, st).args)
    decreases |s|
  {
    if s == "" {
    } else if s[0] == '\\' && !st.inSingle {
      if |s| > 1 { EarlierWordsStay(s[2..], Push(st, s[1]), before); }
    } else {
      var next := Take(s[0], st);
      EarlierWordsStay(s[1..], next, before);
      assert before + (st.args + [st.current]) == (before + st.args) + [st.current];
    }
  }

  lemma WordsAfter(s: string, before: seq<string>)
    ensures Flush(Scan(s, START.(args := before))).args == before + Words(s)
  {
    EarlierWordsStay(s, START, before);
    assert before + [] == before;
    var st := Scan(s, START);
    assert before + (st.args + [st.current]) == (before + st.args) + [st.current];
  }

  /** A text that ends outside quotes, and not in a lone backslash, may be
      followed by a space and any other text: the words are those of both. */
  lemma WordsOfJoined(s: string, t: string)
    requires !Dangles(s, START) && Outside(Scan(s, START))
    ensures Words(s + " " + t) == Words(s) + Words(t)
  {
    var st := Scan(s, START);
    assert s + " " + t == s + (" " + t);
    ScanConcat(s, " " + t, START);
    assert (" " + t)[1..] == t;
    assert Scan(" " + t, st) == Scan(t, Flush(st));
    assert Flush(st) == START.(args := Words(s));
    WordsAfter(t, Words(s));
  }

  /** A quote left open counts as closed at the end, and a backslash with nothing
      to escape is dropped. */
  lemma OpenEndsAreClosed(s: string)
    requires !Dangles(s, START)
    ensures Scan(s, START).inSingle && !Scan(s, START).inDouble ==> Words(s + "'") == Words(s)
    ensures Scan(s, START).inDouble && !Scan(s, START).inSingle ==> Words(s + "\"") == Words(s)
    ensures !Scan(s, START).inSingle ==> Words(s + "\\") == Words(s)
  {
    ScanConcat(s, "'", START);
    ScanConcat(s, "\"", START);
    ScanConcat(s, "\\", START);
    assert "'"[1..] == "" && "\""[1..] == "";
  }

  /* ---------- Quoting ---------- */

  /** A piece of a quoted word. */
  datatype Piece = Bare(c: char) | Escaped(c: char) | Single(text: string) | Double(text: string)

  predicate Valid(p: Piece) {
    match p
    case Bare(c) => c != ' ' && c != '\\' && c != '"' && c != '\''
    case Single(text) => '\'' !in text
    case _ => true
  }

  function DoubleEscape(text: string): string {
    if text == "" then ""
    else (if text[0] == '"' || text[0] == '\\' then "\\" + [text[0]] else [text[0]]) + DoubleEscape(text[1..])
  }

  function Render(p: Piece): string {
    match p
    case Bare(c) => [c]
    case Escaped(c) => ['\\', c]
    case Single(text) => "'" + text + "'"
    case Double(text) => "\"" + DoubleEscape(text) + "\""
  }

  function Meaning(p: Piece): string {
    match p
    case Bare(c) => [c]
    case Escaped(c) => [c]
    case Single(text) => text
    case Double(text) => text
  }

  function RenderWord(pieces: seq<Piece>): string {
    if pieces == [] then "" else Render(pieces[0]) + RenderWord(pieces[1..])
  }

  function WordMeaning(pieces: seq<Piece>): string {
    if pieces == [] then "" else Meaning(pieces[0]) + WordMeaning(pieces[1..])
  }

  function RenderLine(words: seq<seq<Piece>>): string {
    if words == [] then ""
    else if |words| == 1 then RenderWord(words[0])
    else RenderWord(words[0]) + " " + RenderLine(words[1..])
  }

  /** What the words mean, the empty ones left out. */
  function LineMeaning(words: seq<seq<Piece>>): seq<string> {
    if words == [] then []
    else (if WordMeaning(words[0]) == "" then [] else [WordMeaning(words[0])]) + LineMeaning(words[1..])
  }

  predicate ValidWord(pieces: seq<Piece>) { forall p | p in pieces :: Valid(p) }

  /** Reading `s` in state `st` adds exactly `text` to the current word. */
  predicate Adds(s: string, st: State, text: string) {
    Scan(s, st) == st.(current := st.current + text) && !Dangles(s, st)
  }

  lemma {:induction false} SingleQuotedAdds(text: string, st: State)
    requires '\'' !in text && st.inSingle && !st.inDouble
    ensures Adds(text, st, text)
    decreases |text|
  {
    if text == "" {
      assert st.current + "" == st.current;
    } else {
      assert Take(text[0], st) == Push(st, text[0]);
      SingleQuotedAdds(text[1..], Push(st, text[0]));
      assert st.current + [text[0]] + text[1..] == st.current + text;
    }
  }

  lemma {:induction false} DoubleQuotedAdds(text: string, st: State)
    requires !st.inSingle && st.inDouble
    ensures Adds(DoubleEscape(text), st, text)
    decreases |text|
  {
    if text == "" {
      assert st.current + "" == st.current;
    } else {
      var rest := DoubleEscape(text[1..]);
      DoubleQuotedAdds(text[1..], Push(st, text[0]));
      assert st.current + [text[0]] + text[1..] == st.current + text;
      var whole := DoubleEscape(text);
      if text[0] == '"' || text[0] == '\\' {
        assert whole[0] == '\\' && whole[1] == text[0] && whole[2..] == rest;
      } else {
        assert whole[0] == text[0] && whole[1..] == rest;
      }
    }
  }

  lemma PieceAdds(p: Piece, st: State)
    requires Valid(p) && Outside(st)
    ensures Adds(Render(p), st, Meaning(p))
  {
    match p
    case Bare(c) =>
      assert [c][1..] == "";
    case Escaped(c) =>
      assert ['\\', c][2..] == "";
    case Single(text) => QuotedAdds("'", text, text, st, st.(inSingle := true));
    case Double(text) => QuotedAdds("\"", DoubleEscape(text), text, st, st.(inDouble := true));
  }

  lemma QuotedAdds(quote: string, body: string, text: string, st: State, inner: State)
    requires Outside(st)
    requires (quote == "'" && inner == st.(inSingle := true) && body == text && '\'' !in text)
          || (quote == "\"" && inner == st.(inDouble := true) && body == DoubleEscape(text))
    ensures Adds(quote + body + quote, st, text)
  {
    if quote == "'" { SingleQuotedAdds(text, inner); } else { DoubleQuotedAdds(text, inner); }
    var s := quote + body + quote;
    assert s[0] == quote[0] && s[1..] == body + quote;
    ScanConcat(body, quote, inner);
    DanglesConcat(body, quote, inner);
    assert quote[1..] == "";
  }

  lemma {:induction false} WordAdds(pieces: seq<Piece>, st: State)
    requires ValidWord(pieces) && Outside(st)
    ensures Adds(RenderWord(pieces), st, WordMeaning(pieces))
    decreases |pieces|
  {
    if pieces == [] {
      assert st.current + "" == st.current;
    } else {
      var head := Render(pieces[0]);
      PieceAdds(pieces[0], st);
      WordAdds(pieces[1..], Scan(head, st));
      ScanConcat(head, RenderWord(pieces[1..]), st);
      DanglesConcat(head, RenderWord(pieces[1..]), st);
      assert st.current + Meaning(pieces[0]) + WordMeaning(pieces[1..]) == st.current + WordMeaning(pieces);
    }
  }

  /** Splitting inverts quoting: however each word is quoted, by any mixture of
      bare, escaped, single-quoted and double-quoted pieces, splitting the words
      joined by spaces returns what they mean, without the empty ones. */
  lemma {:induction false} SplittingInvertsQuoting(words: seq<seq<Piece>>)
    requires forall w | w in words :: ValidWord(w)
    ensures Words(RenderLine(words)) == LineMeaning(words)
    decreases |words|
  {
    if words != [] {
      var first := RenderWord(words[0]);
      assert words[0] in words;
      WordAdds(words[0], START);
      assert "" + WordMeaning(words[0]) == WordMeaning(words[0]);
      assert Words(first) == if WordMeaning(words[0]) == "" then [] else [WordMeaning(words[0])];
      if |words| > 1 {
        SplittingInvertsQuoting(words[1..]);
        WordsOfJoined(first, RenderLine(words[1..]));
      } else {
        assert LineMeaning(words[1..]) == [];
      }
    }
  }

  /** A word with every character escaped. */
  function EscapeAll(word: string): seq<Piece> {
    if word == "" then [] else [Escaped(word[0])] + EscapeAll(word[1..])
  }

  function EscapeEach(words: seq<string>): seq<seq<Piece>> {
    if words == [] then [] else [EscapeAll(words[0])] + EscapeEach(words[1..])
  }

  lemma {:induction false} EscapedMeansItself(word: string)
    ensures ValidWord(EscapeAll(word)) && WordMeaning(EscapeAll(word)) == word
  {
    if word != "" { EscapedMeansItself(word[1..]); }
  }

  lemma {:induction false} EscapedWordsMeanThemselves(words: seq<string>)
    requires NoEmptyWord(words)
    ensures LineMeaning(EscapeEach(words)) == words
    ensures forall w | w in EscapeEach(words) :: ValidWord(w)
  {
    if words != [] {
      assert words[0] in words && forall w | w in words[1..] :: w in words;
      EscapedMeansItself(words[0]);
      EscapedWordsMeanThemselves(words[1..]);
      assert EscapeEach(words)[1..] == EscapeEach(words[1..]);
      assert [words[0]] + words[1..] == words;
    }
  }

  /** Every list of non-empty words, whatever characters they are made of, is
      the splitting of some text: its words escaped and joined by spaces. */
  lemma EveryWordListIsSplit(words: seq<string>)
    requires NoEmptyWord(words)
    ensures Words(RenderLine(EscapeEach(words))) == words
  {
    EscapedWordsMeanThemselves(words);
    SplittingInvertsQuoting(EscapeEach(words));
  }
}
