/**
 Reading cookies from a Cookie header (section 4.2.1 of RFC 6265): pairs
 separated by semicolons, anything without an equals sign or a name passed over.
 */
module Cookies {
  import opened Ascii
  import opened Wrappers

  datatype Cookie = Cookie(name: string, value: string)

  function SplitOn(s: string, c: char): (pieces: seq<string>)
    ensures pieces != []
    decreases |s|
  {
    var n := Find(s, c);
    if n == |s| then [s] else [s[..n]] + SplitOn(s[n + 1..], c)
  }

  /** The cookie in one piece of the header, as a list of at most one. */
  function CookieOf(piece: string): (cookies: seq<Cookie>)
    ensures |cookies| <= 1
  {
    var p := Trim(piece);
    var eq := Find(p, '=');
    if eq == |p| || Trim(p[..eq]) == "" then []
    else [Cookie(Trim(p[..eq]), Trim(p[eq + 1..]))]
  }

  function CookiesOf(pieces: seq<string>): seq<Cookie> {
    if pieces == [] then [] else CookieOf(pieces[0]) + CookiesOf(pieces[1..])
  }

  lemma CookiesOfFirst(piece: string, rest: seq<string>)
    ensures CookiesOf([piece] + rest) == CookieOf(piece) + CookiesOf(rest)
  {
    assert ([piece] + rest)[1..] == rest;
  }

  lemma CookiesOfNone(pieces: seq<string>)
    ensures CookiesOf(pieces[..0]) == []
  {
  }

  lemma SplitAtFirst(s: string, c: char)
    ensures Find(s, c) == |s| ==> SplitOn(s, c) == [s]
    ensures Find(s, c) < |s| ==> SplitOn(s, c) == [s[..Find(s, c)]] + SplitOn(s[Find(s, c) + 1..], c)
  {
  }

  lemma {:induction false} CookiesOfExtended(pieces: seq<string>, piece: string)
    ensures CookiesOf(pieces + [piece]) == CookiesOf(pieces) + CookieOf(piece)
    decreases |pieces|
  {
    hide CookieOf;
    if pieces == [] {
      assert [] + [piece] == [piece];
      assert CookiesOf([piece][1..]) == [];
    } else {
      assert (pieces + [piece])[1..] == pieces[1..] + [piece];
      CookiesOfExtended(pieces[1..], piece);
    }
  }

  function ParseHeader(header: string): Result<seq<Cookie>, string> {
    var out := CookiesOf(SplitOn(header, ';'));
    if out == [] then Err("no cookies found in input") else Ok(out)
  }

  method ParseCookieHeader(header: string) returns (r: Result<seq<Cookie>, string>)
    ensures r == ParseHeader(header)
  {
    hide CookiesOf, SplitOn, Trim, Find;
    var out := [];
    var pieces := SplitOn(header, ';');
    CookiesOfNone(pieces);
    for i := 0 to |pieces|
      invariant out == CookiesOf(pieces[..i])
    {
      assert CookiesOf(pieces[..i + 1]) == out + CookieOf(pieces[i]) by {
        hide *;
        CookiesOfExtended(pieces[..i], pieces[i]);
        assert pieces[..i] + [pieces[i]] == pieces[..i + 1];
      }
      var piece := Trim(pieces[i]);
      var eq := Find(piece, '=');
      if eq == |piece| { continue; }
      var name := Trim(piece[..eq]);
      var value := Trim(piece[eq + 1..]);
      if name != "" {
        out := out + [Cookie(name, value)];
      }
    }
    assert pieces[..|pieces|] == pieces;
    r := if out == [] then Err("no cookies found in input") else Ok(out);
  }

  /* ---------- What is parsed can be printed and parsed again ---------- */

  predicate IsBare(s: string) {
    s == "" || (!IsSpace(s[0]) && !IsSpace(s[|s| - 1]))
  }

  /** Cookies that a header can carry unchanged. */
  predicate Printable(c: Cookie) {
    && c.name != "" && IsBare(c.name) && '=' !in c.name && ';' !in c.name
    && IsBare(c.value) && ';' !in c.value
  }

  function PrintCookie(c: Cookie): string { c.name + "=" + c.value }

  function PrintHeader(cookies: seq<Cookie>): string {
    if cookies == [] then ""
    else if |cookies| == 1 then PrintCookie(cookies[0])
    else PrintCookie(cookies[0]) + "; " + PrintHeader(cookies[1..])
  }

  lemma {:induction false} TrimStartKeepsOnly(s: string, c: char)
    requires c in TrimStart(s)
    ensures c in s
    decreases |s|
  {
    if s != "" && IsSpace(s[0]) { TrimStartKeepsOnly(s[1..], c); }
  }

  lemma {:induction false} TrimEndKeepsOnly(s: string, c: char)
    requires c in TrimEnd(s)
    ensures c in s
    decreases |s|
  {
    if s != "" && IsSpace(s[|s| - 1]) { TrimEndKeepsOnly(s[..|s| - 1], c); }
  }

  lemma TrimKeepsOnly(s: string, c: char)
    ensures c !in s ==> c !in Trim(s)
  {
    if c in Trim(s) {
      TrimEndKeepsOnly(TrimStart(s), c);
      TrimStartKeepsOnly(s, c);
    }
  }

  lemma ParsedCookieIsPrintable(piece: string)
    requires ';' !in piece
    ensures forall c | c in CookieOf(piece) :: Printable(c)
  {
    hide Trim, Find;
    var p := Trim(piece);
    var eq := Find(p, '=');
    TrimKeepsOnly(piece, ';');
    TrimKeepsOnly(p[..eq], '=');
    TrimKeepsOnly(p[..eq], ';');
    if eq < |p| { TrimKeepsOnly(p[eq + 1..], ';'); }
  }

  lemma {:induction false} PiecesHaveNoSeparator(s: string, c: char)
    ensures forall p | p in SplitOn(s, c) :: c !in p
    decreases |s|
  {
    var n := Find(s, c);
    if n < |s| { PiecesHaveNoSeparator(s[n + 1..], c); }
  }

  lemma {:induction false} ParsedCookiesArePrintable(pieces: seq<string>)
    requires forall p | p in pieces :: ';' !in p
    ensures forall c | c in CookiesOf(pieces) :: Printable(c)
  {
    if pieces != [] {
      assert pieces[0] in pieces;
      ParsedCookieIsPrintable(pieces[0]);
      ParsedCookiesArePrintable(pieces[1..]);
    }
  }

  lemma FindInJoined(s: string, c: char, t: string)
    requires c !in s
    ensures Find(s + [c] + t, c) == |s|
  {
    var n := Find(s + [c] + t, c);
    assert (s + [c] + t)[|s|] == c;
    assert forall i | 0 <= i < |s| :: (s + [c] + t)[i] == s[i];
  }

  lemma PrintedCookieIsBare(c: Cookie)
    requires Printable(c)
    ensures IsBare(PrintCookie(c)) && ';' !in PrintCookie(c)
  {
    var p := PrintCookie(c);
    assert p[0] == c.name[0];
    assert p[|p| - 1] == if c.value == "" then '=' else c.value[|c.value| - 1];
  }

  /** A printed cookie reads back as itself. */
  lemma PrintedCookieReadsBack(c: Cookie)
    requires Printable(c)
    ensures CookieOf(PrintCookie(c)) == [c]
  {
    hide Find, Trim;
    var p := PrintCookie(c);
    PrintedCookieIsBare(c);
    TrimIsIdentityWhenBare(p);
    assert p == c.name + ['='] + c.value;
    FindInJoined(c.name, '=', c.value);
    assert p[..|c.name|] == c.name && p[|c.name| + 1..] == c.value;
    TrimIsIdentityWhenBare(c.name);
    TrimIsIdentityWhenBare(c.value);
  }

  lemma SplitJoined(s: string, c: char, t: string)
    requires c !in s
    ensures SplitOn(s + [c] + t, c) == [s] + SplitOn(t, c)
  {
    FindInJoined(s, c, t);
    SplitAtFirst(s + [c] + t, c);
    assert (s + [c] + t)[..|s|] == s && (s + [c] + t)[|s| + 1..] == t;
  }

  lemma {:induction false} PrintedCookiesReadBack(cookies: seq<Cookie>)
    requires cookies != [] && forall c | c in cookies :: Printable(c)
    ensures CookiesOf(SplitOn(PrintHeader(cookies), ';')) == cookies
    decreases |cookies|
  {
    hide CookiesOf, SplitOn, CookieOf, Printable, PrintCookie;
    var first := PrintCookie(cookies[0]);
    assert cookies[0] in cookies;
    PrintedCookieIsBare(cookies[0]);
    PrintedCookieReadsBack(cookies[0]);
    assert [cookies[0]] + cookies[1..] == cookies;
    if |cookies| == 1 {
      SplitAtFirst(first, ';');
      CookiesOfOne(first);
    } else {
      assert forall c | c in cookies[1..] :: c in cookies;
      PrintedCookiesReadBack(cookies[1..]);
      var rest := PrintHeader(cookies[1..]);
      assert PrintHeader(cookies) == first + [';'] + (" " + rest);
      SplitJoined(first, ';', " " + rest);
      CookiesOfFirst(first, SplitOn(" " + rest, ';'));
      LeadingSpaceIsIgnored(' ', rest);
      assert [' '] + rest == " " + rest;
    }
  }

  lemma CookiesOfOne(piece: string)
    ensures CookiesOf([piece]) == CookieOf(piece)
  {
    CookiesOfFirst(piece, []);
    assert [piece] + [] == [piece];
  }

  /** Printing and parsing again is the identity on everything that parses, and
      every non-empty list of printable cookies is the parse of its own print. */
  lemma PrintingRoundTrips(header: string, cookies: seq<Cookie>)
    ensures ParseHeader(header).Ok? ==> ParseHeader(PrintHeader(ParseHeader(header).value)) == ParseHeader(header)
    ensures cookies != [] && (forall c | c in cookies :: Printable(c)) ==>
      ParseHeader(PrintHeader(cookies)) == Ok(cookies)
  {
    if ParseHeader(header).Ok? {
      PiecesHaveNoSeparator(header, ';');
      ParsedCookiesArePrintable(SplitOn(header, ';'));
      PrintedCookiesReadBack(ParseHeader(header).value);
    }
    if cookies != [] && (forall c | c in cookies :: Printable(c)) {
      PrintedCookiesReadBack(cookies);
    }
  }

  /* ---------- White space around a header does not matter ---------- */

  lemma TrimIgnoresLeadingSpace(c: char, s: string)
    requires IsSpace(c)
    ensures Trim([c] + s) == Trim(s)
  {
    assert ([c] + s)[1..] == s;
  }

  lemma {:induction false} TrimStartOfJoined(s: string, c: char)
    ensures TrimStart(s + [c]) == if TrimStart(s) == "" then TrimStart([c]) else TrimStart(s) + [c]
    decreases |s|
  {
    if s == "" {
      assert s + [c] == [c];
    } else {
      assert (s + [c])[1..] == s[1..] + [c];
      if IsSpace(s[0]) { TrimStartOfJoined(s[1..], c); }
    }
  }

  lemma TrimIgnoresTrailingSpace(s: string, c: char)
    requires IsSpace(c)
    ensures Trim(s + [c]) == Trim(s)
  {
    TrimStartOfJoined(s, c);
    if TrimStart(s) == "" {
      assert [c][1..] == "";
    } else {
      var t := TrimStart(s) + [c];
      assert t[..|t| - 1] == TrimStart(s);
    }
  }

  /** The cookies of a text: those of its pieces between semicolons. */
  lemma CookiesOfText(s: string)
    ensures Find(s, ';') == |s| ==> CookiesOf(SplitOn(s, ';')) == CookieOf(s)
    ensures Find(s, ';') < |s| ==> (CookiesOf(SplitOn(s, ';'))
                                    == CookieOf(s[..Find(s, ';')]) + CookiesOf(SplitOn(s[Find(s, ';') + 1..], ';')))
  {
    hide CookiesOf, SplitOn, CookieOf;
    SplitAtFirst(s, ';');
    var n := Find(s, ';');
    if n == |s| { CookiesOfOne(s); } else { CookiesOfFirst(s[..n], SplitOn(s[n + 1..], ';')); }
  }

  lemma CookieOfTrimmed(s: string, t: string)
    requires Trim(s) == Trim(t)
    ensures CookieOf(s) == CookieOf(t)
  {
    hide Trim, Find;
  }

  lemma FindBehind(c: char, s: string)
    requires c != ';'
    ensures Find([c] + s, ';') == Find(s, ';') + 1
  {
    assert ([c] + s)[1..] == s;
  }

  lemma LeadingSpaceIsIgnored(c: char, s: string)
    requires IsSpace(c)
    ensures CookiesOf(SplitOn([c] + s, ';')) == CookiesOf(SplitOn(s, ';'))
  {
    hide CookiesOf, SplitOn, CookieOf, Trim, Find;
    var n := Find(s, ';');
    var piece := s[..n];
    assert n < |s| ==> [c] + piece == ([c] + s)[..n + 1] && ([c] + s)[n + 2..] == s[n + 1..];
    assert n == |s| ==> piece == s;
    FindBehind(c, s);
    CookiesOfText(s);
    CookiesOfText([c] + s);
    TrimIgnoresLeadingSpace(c, piece);
    CookieOfTrimmed([c] + piece, piece);
  }

  lemma FindInExtended(s: string, c: char)
    requires c != ';' && Find(s, ';') == |s|
    ensures Find(s + [c], ';') == |s| + 1
  {
    var n := Find(s + [c], ';');
    assert forall i | 0 <= i < |s| :: s[i] != ';' && (s + [c])[i] == s[i];
  }

  lemma {:induction false} TrailingSpaceIsIgnored(s: string, c: char)
    requires IsSpace(c)
    ensures CookiesOf(SplitOn(s + [c], ';')) == CookiesOf(SplitOn(s, ';'))
    decreases |s|
  {
    hide CookiesOf, SplitOn, CookieOf, Trim, Find;
    var n := Find(s, ';');
    if n < |s| {
      var first, rest := s[..n], s[n + 1..];
      assert s == first + [';'] + rest;
      assert s + [c] == first + [';'] + (rest + [c]);
      SplitJoined(first, ';', rest);
      SplitJoined(first, ';', rest + [c]);
      CookiesOfFirst(first, SplitOn(rest, ';'));
      CookiesOfFirst(first, SplitOn(rest + [c], ';'));
      TrailingSpaceIsIgnored(rest, c);
    } else {
      FindInExtended(s, c);
      CookiesOfText(s);
      CookiesOfText(s + [c]);
      TrimIgnoresTrailingSpace(s, c);
      CookieOfTrimmed(s + [c], s);
    }
  }

  lemma {:induction false} TrimStartIsIgnored(s: string)
    ensures CookiesOf(SplitOn(TrimStart(s), ';')) == CookiesOf(SplitOn(s, ';'))
    decreases |s|
  {
    hide SplitOn, CookiesOf;
    if s != "" && IsSpace(s[0]) {
      assert [s[0]] + s[1..] == s;
      TrimStartIsIgnored(s[1..]);
      LeadingSpaceIsIgnored(s[0], s[1..]);
    }
  }

  lemma {:induction false} TrimEndIsIgnored(s: string)
    ensures CookiesOf(SplitOn(TrimEnd(s), ';')) == CookiesOf(SplitOn(s, ';'))
    decreases |s|
  {
    hide SplitOn, CookiesOf;
    if s != "" && IsSpace(s[|s| - 1]) {
      var n := |s| - 1;
      assert s[..n] + [s[n]] == s;
      TrimEndIsIgnored(s[..n]);
      TrailingSpaceIsIgnored(s[..n], s[n]);
    }
  }

  lemma TrimmedHeaderParsesAlike(header: string)
    ensures ParseHeader(Trim(header)) == ParseHeader(header)
  {
    TrimStartIsIgnored(header);
    TrimEndIsIgnored(TrimStart(header));
  }
}
