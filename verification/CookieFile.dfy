/**
 A cookies file in one of three formats: a JSON list, a command line copied from
 a browser, or a bare Cookie header.
 */
module CookieFile {
  import opened Ascii
  import opened AsciiLaws
  import opened Wrappers
  import opened Cookies
  import opened CookieWeight
  import opened CurlCookies

  predicate LooksLikeCurl(text: string) {
    |text| > 4 && Lower(text[..4]) == "curl" && (IsSpace(text[4]) || IsQuote(text[4]))
  }

  /** A command line starts with the word curl, in any case, and white space or a
      quote right behind it. */
  lemma CurlStartsTheLine(word: string, c: char, rest: string)
    requires |word| == 4
    ensures LooksLikeCurl(word + [c] + rest) <==>
            (forall i | 0 <= i < 4 :: ToLower(word[i]) == "curl"[i]) && (IsSpace(c) || c in ['\'', '"'])
    ensures !LooksLikeCurl(word)
  {
    var text := word + [c] + rest;
    assert text[..4] == word && text[4] == c;
    assert Lower(word) == "curl" <==> forall i | 0 <= i < 4 :: Lower(word)[i] == "curl"[i];
  }

  const NO_HEADER := "no Cookie header found in this cURL - right-click an authenticated request in DevTools "
                     + "\U{2192} Network \U{2192} Copy \U{2192} Copy as cURL"

  /** What a cookies file means; `json` reads the JSON format. */
  function CookiesInFile(json: string -> Result<seq<Cookie>, string>, raw: string): Result<seq<Cookie>, string> {
    var text := Trim(raw);
    if text == "" then Err("cookies file is empty")
    else if text[0] == '[' then json(text)
    else if !LooksLikeCurl(text) then ParseHeader(text)
    else
      var header := CookieHeader(OnePass(text));
      if header.None? then Err(NO_HEADER) else ParseHeader(header.value)
  }

  method ParseCurlCookies(json: string -> Result<seq<Cookie>, string>, raw: string)
    returns (r: Result<seq<Cookie>, string>)
    ensures r == CookiesInFile(json, raw)
  {
    hide Trim, ParseHeader, OnePass, CookieHeader;
    var trimmed := Trim(raw);
    if trimmed == "" {
      return Err("cookies file is empty");
    }
    if trimmed[0] == '[' {
      r := json(trimmed);
      return;
    }
    var header := trimmed;
    if LooksLikeCurl(trimmed) {
      var found := ExtractCookieHeader(trimmed);
      if found.None? {
        return Err(NO_HEADER);
      }
      header := found.value;
    }
    r := ParseCookieHeader(header);
  }

  /** White space alone is an empty file, and a text without an equals sign that is
      neither JSON nor a command line holds no cookies. */
  lemma NothingToRead(json: string -> Result<seq<Cookie>, string>, raw: string)
    ensures AllSpaces(raw) ==> CookiesInFile(json, raw) == Err("cookies file is empty")
    ensures Trim(raw) != "" && '=' !in Trim(raw) && Trim(raw)[0] != '[' && !LooksLikeCurl(Trim(raw)) ==>
      CookiesInFile(json, raw) == Err("no cookies found in input")
  {
    hide Trim, LooksLikeCurl;
    if AllSpaces(raw) {
      TrimmingRemovesSpaces(raw, "", "");
      assert raw + "" + "" == raw;
    }
    if '=' !in Trim(raw) { NoPairsNoCookies(Trim(raw)); }
  }

  lemma NoPairsNoCookies(header: string)
    requires '=' !in header
    ensures ParseHeader(header) == Err("no cookies found in input")
  {
    PiecesAreParts(header, ';');
    NoPairs(SplitOn(header, ';'));
  }

  lemma {:induction false} PiecesAreParts(s: string, c: char)
    ensures forall p, d | p in SplitOn(s, c) && d in p :: d in s
    decreases |s|
  {
    SplitAtFirst(s, c);
    var n := Find(s, c);
    hide SplitOn, Find;
    if n < |s| { PiecesAreParts(s[n + 1..], c); }
  }

  lemma {:induction false} NoPairs(pieces: seq<string>)
    requires forall p | p in pieces :: '=' !in p
    ensures CookiesOf(pieces) == []
  {
    hide CookieOf;
    if pieces != [] {
      assert pieces[0] in pieces && forall p | p in pieces[1..] :: p in pieces;
      NoPair(pieces[0]);
      NoPairs(pieces[1..]);
    }
  }

  lemma NoPair(piece: string)
    requires '=' !in piece
    ensures CookieOf(piece) == []
  {
    hide Trim;
    TrimIsPart(piece);
  }

  lemma TrimIsPart(s: string)
    ensures forall d | d in Trim(s) :: d in s
  {
    assert TrimEnd(TrimStart(s)) <= TrimStart(s);
  }

  /** Printed cookies, kept in a file, are read back exactly when the text is
      taken for what it is: when it does not look like a command line, or, if it
      looks like JSON, when the JSON reader happens to return them. */
  lemma PrintedFileReadsBack(json: string -> Result<seq<Cookie>, string>, cookies: seq<Cookie>)
    requires cookies != [] && forall c | c in cookies :: Printable(c)
    ensures var text := Trim(PrintHeader(cookies));
            && text != ""
            && (CookiesInFile(json, PrintHeader(cookies)) == Ok(cookies)
                <==> if text[0] == '[' then json(text) == Ok(cookies) else !LooksLikeCurl(text))
  {
    hide Trim, ParseHeader, LooksLikeCurl, CookieHeader, OnePass;
    PrintingRoundTrips("", cookies);
    TrimmedHeaderParsesAlike(PrintHeader(cookies));
    EmptyHeaderHasNoCookies();
    NoLineContainsItself(cookies);
  }

  const CURL_COOKIE := Cookie("curl a", "1")

  lemma CurlCookiePrints()
    ensures Printable(CURL_COOKIE) && PrintHeader([CURL_COOKIE]) == "curl a=1"
  {
  }

  /** A cookie whose name begins with the word curl is one that cannot be read back. */
  lemma CurlNameIsMisread(json: string -> Result<seq<Cookie>, string>)
    ensures Printable(CURL_COOKIE) && CookiesInFile(json, PrintHeader([CURL_COOKIE])) == Err(NO_HEADER)
  {
    hide Trim, OnePass, CookieHeader, PrintHeader, Printable, ParseHeader, Lower;
    var text := "curl a=1";
    CurlCookiePrints();
    TrimIsIdentityWhenBare(text);
    CurlIsLower();
    assert text[..4] == "curl";
    OneLineIsJoined(text);
    UnquotedLineHasNoHeader(text);
  }

  lemma UnquotedLineHasNoHeader(line: string)
    requires forall c | c in line :: !IsQuote(c)
    ensures CookieHeader(line) == None
  {
    hide Match;
    NothingIsQuoted(line, true, "-H", COOKIE);
    NothingIsQuoted(line, true, "-b", None);
    NothingIsQuoted(line, true, "--cookie", None);
  }

  lemma {:induction false} NothingIsQuoted(s: string, b: bool, flag: string, header: Option<string>)
    requires forall c | c in s :: !IsQuote(c)
    ensures Match(s, b, flag, header) == None
    decreases |s|
  {
    hide SkipGap, Find;
    if |s| > |flag| {
      var rest := SkipGap(s[|flag|..]);
      NothingIsQuoted(s[1..], IsGap(s[0]), flag, header);
      if IsGap(s[|flag|]) {
        assert rest == s[|s| - |rest|..];
        NothingIsQuoted(rest, true, flag, header);
      }
    }
  }

  lemma EmptyHeaderHasNoCookies()
    ensures ParseHeader("").Err?
  {
  }

  /** A file whose text, once its continued lines are joined, is a command line
      of parts that are no Cookie header, then the header in quotes, then
      anything, means exactly the cookies of that header. */
  lemma CurlFileMeansItsHeader(json: string -> Result<seq<Cookie>, string>, raw: string, items: seq<Item>,
                               sep: string, quote: char, name: string, header: string, rest: string)
    requires LooksLikeCurl(Trim(raw))
    requires forall item | item in items :: Passed(item, "-H", COOKIE)
    requires IsSeparator(sep) && IsQuote(quote) && Lower(name) == "cookie" && quote !in name + ":" + header
    requires OnePass(Trim(raw)) == PrintItems(items, "-H") + ("-H" + sep + (Quoted(quote, name + ":" + header) + rest))
    ensures CookiesInFile(json, raw) == ParseHeader(header)
  {
    hide Trim, ParseHeader, OnePass, Match, Passed;
    var value := name + ":" + header;
    assert value[|"cookie"| + 1..] == header;
    NamedHeader(name, header);
    ScanFindsTheArgument(items, sep, quote, value, rest, "-H", COOKIE);
    TrimmedHeaderParsesAlike(header);
    assert Trim(raw)[0] != '[' by { assert Lower(Trim(raw)[..4])[0] == 'c'; }
  }

  lemma NamedHeader(name: string, header: string)
    requires Lower(name) == "cookie"
    ensures IsHeader(name + ":" + header, "cookie")
  {
    var value := name + ":" + header;
    assert |name| == 6;
    assert forall i | 0 <= i < 6 :: value[i] == name[i] && Lower(value)[i] == Lower(name)[i] == ToLower("cookie"[i]);
    assert Lower("cookie" + ":") == Lower(value)[..7];
  }

  lemma CurlComesFirst(items: seq<Item>, gap: string)
    ensures PrintItems([Word("curl", gap)] + items, "-H") == "curl" + gap + PrintItems(items, "-H")
  {
    assert ([Word("curl", gap)] + items)[1..] == items;
  }

  lemma CommandIsBareCurl(gap: string, middle: string, quote: char)
    requires IsSeparator(gap) && IsQuote(quote)
    ensures Trim("curl" + gap + middle + [quote]) == "curl" + gap + middle + [quote]
    ensures LooksLikeCurl("curl" + gap + middle + [quote])
  {
    hide Trim, Lower;
    var s := "curl" + gap + middle + [quote];
    assert s[..4] == "curl" && s[4] == gap[0] && gap[0] in gap;
    assert s[|s| - 1] == quote;
    CurlIsLower();
    TrimIsIdentityWhenBare(s);
  }

  lemma CurlIsLower()
    ensures Lower("curl") == "curl"
  {
  }

  /** A request copied on one line: `curl`, any parts that are no Cookie header,
      and the Cookie header last. */
  lemma CopiedRequestMeansItsHeader(json: string -> Result<seq<Cookie>, string>, items: seq<Item>, gap: string,
                                    sep: string, quote: char, header: string, raw: string)
    requires forall item | item in items :: Passed(item, "-H", COOKIE)
    requires IsSeparator(gap) && IsSeparator(sep) && quote in ['\'', '"'] && quote !in header
    requires raw == "curl" + gap + PrintItems(items, "-H") + ("-H" + sep + Quoted(quote, "cookie:" + header))
    requires '\n' !in raw
    ensures CookiesInFile(json, raw) == ParseHeader(header)
  {
    hide ParseHeader, OnePass, Match, CookiesInFile, PrintItems, LooksLikeCurl, Trim, Lower;
    var value := "cookie" + ":" + header;
    assert value == "cookie:" + header;
    var last := Quoted(quote, value);
    var middle := PrintItems(items, "-H") + ("-H" + sep + ([quote] + value));
    assert raw == "curl" + gap + middle + [quote];
    CommandIsBareCurl(gap, middle, quote);
    OneLineIsJoined(raw);
    CurlComesFirst(items, gap);
    assert last + "" == last;
    CookieIsLower();
    CurlFileMeansItsHeader(json, raw, [Word("curl", gap)] + items, sep, quote, "cookie", header, "");
  }

  lemma CookieIsLower()
    ensures Lower("cookie") == "cookie"
  {
  }
}
