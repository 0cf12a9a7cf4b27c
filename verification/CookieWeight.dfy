/**
 How many characters of a text can end up in cookies: those that are neither
 white space nor semicolons. Reading never creates any, and finding a header in a
 command line loses some.
 */
module CookieWeight {
  import opened Ascii
  import opened Wrappers
  import opened Cookies
  import opened CurlCookies

  function Weight(s: string): nat {
    if s == "" then 0 else (if IsSpace(s[0]) || s[0] == ';' then 0 else 1) + Weight(s[1..])
  }

  lemma {:induction false} WeightConcat(a: string, b: string)
    ensures Weight(a + b) == Weight(a) + Weight(b)
  {
    if a == "" {
      assert a + b == b;
    } else {
      assert (a + b)[1..] == a[1..] + b;
      WeightConcat(a[1..], b);
    }
  }

  lemma PartsWeighNoMore(s: string, i: nat, j: nat)
    requires i <= j <= |s|
    ensures Weight(s[i..j]) <= Weight(s) && Weight(s[i..]) <= Weight(s)
    ensures i < j ==> Weight(s[i..j]) >= Weight([s[i]])
  {
    hide Weight;
    assert s == s[..i] + s[i..] && s[i..] == s[i..j] + s[j..];
    WeightConcat(s[..i], s[i..]);
    WeightConcat(s[i..j], s[j..]);
    if i < j {
      assert s[i..j] == [s[i]] + s[i + 1..j];
      WeightConcat([s[i]], s[i + 1..j]);
    }
  }

  /** `s` is cut around position `i`. */
  lemma WeightAround(s: string, i: nat)
    requires i < |s|
    ensures Weight(s) == Weight(s[..i]) + Weight([s[i]]) + Weight(s[i + 1..])
  {
    hide Weight;
    assert s == s[..i] + ([s[i]] + s[i + 1..]);
    WeightConcat(s[..i], [s[i]] + s[i + 1..]);
    WeightConcat([s[i]], s[i + 1..]);
  }

  lemma WeightOfOne(c: char)
    ensures Weight([c]) == if IsSpace(c) || c == ';' then 0 else 1
  {
    assert [c][1..] == "";
  }

  lemma {:induction false} TrimStartWeighs(s: string)
    ensures Weight(TrimStart(s)) == Weight(s)
  {
    if s != "" && IsSpace(s[0]) { TrimStartWeighs(s[1..]); }
  }

  lemma {:induction false} TrimEndWeighs(s: string)
    ensures Weight(TrimEnd(s)) == Weight(s)
    decreases |s|
  {
    if s != "" && IsSpace(s[|s| - 1]) {
      var n := |s| - 1;
      TrimEndWeighs(s[..n]);
      WeightAround(s, n);
      WeightOfOne(s[n]);
      assert s[n + 1..] == "";
    }
  }

  lemma TrimWeighs(s: string)
    ensures Weight(Trim(s)) == Weight(s)
  {
    TrimStartWeighs(s);
    TrimEndWeighs(TrimStart(s));
  }

  /* ---------- Cookies ---------- */

  function Burden(cookies: seq<Cookie>): nat {
    if cookies == [] then 0 else Weight(PrintCookie(cookies[0])) + Burden(cookies[1..])
  }

  lemma {:induction false} BurdenConcat(a: seq<Cookie>, b: seq<Cookie>)
    ensures Burden(a + b) == Burden(a) + Burden(b)
  {
    hide Weight, PrintCookie;
    if a == [] {
      assert a + b == b;
    } else {
      assert (a + b)[1..] == a[1..] + b;
      BurdenConcat(a[1..], b);
    }
  }

  lemma CookieWeighs(c: Cookie)
    ensures Weight(PrintCookie(c)) == Weight(c.name) + 1 + Weight(c.value)
  {
    hide Weight;
    WeightConcat(c.name + "=", c.value);
    WeightConcat(c.name, "=");
    WeightOfOne('=');
    assert "=" == ['='];
  }

  /** A printed list weighs what its cookies weigh. */
  lemma {:induction false} PrintedWeighs(cookies: seq<Cookie>)
    ensures Weight(PrintHeader(cookies)) == Burden(cookies)
    decreases |cookies|
  {
    hide Weight, PrintCookie;
    if cookies == [] {
      NothingWeighs();
    } else {
      PrintedWeighs(cookies[1..]);
      if |cookies| > 1 {
        var first, rest := PrintCookie(cookies[0]), PrintHeader(cookies[1..]);
        WeightConcat(first + "; ", rest);
        WeightConcat(first, "; ");
        SeparatorWeighs();
      }
    }
  }

  lemma NothingWeighs()
    ensures Weight("") == 0
  {
  }

  lemma SeparatorWeighs()
    ensures Weight("; ") == 0
  {
    assert "; "[1..] == " " && " "[1..] == "";
  }

  lemma PieceWeighs(piece: string)
    ensures Burden(CookieOf(piece)) <= Weight(piece)
  {
    hide Weight, Find, Trim, PrintCookie;
    var p := Trim(piece);
    var eq := Find(p, '=');
    TrimWeighs(piece);
    if CookieOf(piece) != [] {
      var c := CookieOf(piece)[0];
      assert CookieOf(piece)[1..] == [];
      WeightAround(p, eq);
      WeightOfOne('=');
      TrimWeighs(p[..eq]);
      TrimWeighs(p[eq + 1..]);
      CookieWeighs(c);
    }
  }

  /** The cookies read from a header weigh no more than the header. */
  lemma {:induction false} ReadCookiesWeigh(s: string)
    ensures Burden(CookiesOf(SplitOn(s, ';'))) <= Weight(s)
    decreases |s|
  {
    hide Weight, Burden, CookiesOf, SplitOn, CookieOf, Find;
    var n := Find(s, ';');
    CookiesOfText(s);
    if n == |s| {
      PieceWeighs(s);
    } else {
      var first, rest := s[..n], s[n + 1..];
      PieceWeighs(first);
      ReadCookiesWeigh(rest);
      BurdenConcat(CookieOf(first), CookiesOf(SplitOn(rest, ';')));
      WeightAround(s, n);
    }
  }

  /* ---------- Command lines ---------- */

  lemma NothingIsJoined()
    ensures OnePass("") == ""
  {
  }

  lemma OnePassStep(s: string)
    requires s != ""
    ensures OnePass(s) == if Continues(s, BREAKS) then " " + OnePass(s[1 + LineEnd(s[1..])..])
                          else [s[0]] + OnePass(s[1..])
  {
  }

  lemma {:induction false} JoiningWeighsNoMore(s: string)
    ensures Weight(OnePass(s)) <= Weight(s)
    decreases |s|
  {
    hide Weight, LineEnd, Continues, OnePass;
    if s == "" {
      NothingIsJoined();
      return;
    }
    OnePassStep(s);
    if Continues(s, BREAKS) {
      var n := 1 + LineEnd(s[1..]);
      JoiningWeighsNoMore(s[n..]);
      PartsWeighNoMore(s, n, n);
      WeightConcat(" ", OnePass(s[n..]));
      WeightOfOne(' ');
      assert " " == [' '];
    } else {
      JoiningWeighsNoMore(s[1..]);
      WeightAround(s, 0);
      WeightConcat([s[0]], OnePass(s[1..]));
    }
  }

  /** A header found in a line weighs less than the line: the quotes are lost. */
  lemma {:induction false} FoundWeighsLess(s: string, b: bool, flag: string, header: Option<string>)
    ensures Match(s, b, flag, header).Some? ==> Weight(Match(s, b, flag, header).value) < Weight(s)
    decreases |s|, 0
  {
    hide Weight, MatchArgument, SkipGap;
    if |s| > |flag| {
      var rest := SkipGap(s[|flag|..]);
      PartsWeighNoMore(s, 1, 1);
      PartsWeighNoMore(s, |s| - |rest|, |s|);
      assert rest == s[|s| - |rest|..];
      FoundWeighsLess(s[1..], IsGap(s[0]), flag, header);
      if IsGap(s[|flag|]) { FoundArgumentWeighsLess(rest, flag, header); }
    }
  }

  lemma {:induction false} FoundArgumentWeighsLess(rest: string, flag: string, header: Option<string>)
    ensures MatchArgument(rest, flag, header).Some? ==> Weight(MatchArgument(rest, flag, header).value) < Weight(rest)
    decreases |rest|, 1
  {
    hide Weight, Match, Find, Trim;
    if rest != "" {
      FoundWeighsLess(rest, true, flag, header);
      var n := Find(rest[1..], rest[0]);
      if IsQuote(rest[0]) && n < |rest| - 1 {
        var value := rest[1..n + 1];
        WeightAround(rest, 0);
        WeightOfOne(rest[0]);
        assert value == rest[1..][..n];
        PartsWeighNoMore(rest[1..], 0, n);
        if header.Some? && IsHeader(value, header.value) {
          var k := |header.value| + 1;
          PartsWeighNoMore(value, k, k);
          TrimWeighs(value[k..]);
        }
        PartsWeighNoMore(rest, n + 2, n + 2);
        FoundWeighsLess(rest[n + 2..], false, flag, header);
      }
    }
  }

  /** So no command line, however its lines are continued, yields the cookies
      that it is itself the print of. */
  lemma NoLineContainsItself(cookies: seq<Cookie>)
    ensures var found := CookieHeader(OnePass(Trim(PrintHeader(cookies))));
            found.Some? ==> ParseHeader(found.value) != Ok(cookies)
  {
    hide Weight, OnePass, Match, Burden, CookiesOf, SplitOn, Trim;
    var text := Trim(PrintHeader(cookies));
    var line := OnePass(text);
    FoundWeighsLess(line, true, "-H", COOKIE);
    FoundWeighsLess(line, true, "-b", None);
    FoundWeighsLess(line, true, "--cookie", None);
    JoiningWeighsNoMore(text);
    TrimWeighs(PrintHeader(cookies));
    PrintedWeighs(cookies);
    var found := CookieHeader(line);
    if found.Some? { ReadCookiesWeigh(found.value); }
  }
}
