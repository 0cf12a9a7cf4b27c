/** Turning any text into a valid session-name component. */
module Sanitize {
  import opened Ascii
  import opened AsciiLaws
  import opened Sequences

  predicate IsLower(c: char) { 'a' <= c <= 'z' }
  predicate IsAlnum(c: char) { IsUpper(c) || IsLower(c) || '0' <= c <= '9' }
  predicate IsSep(c: char) { c == '-' || c == '_' }

  predicate IsValidSessionName(name: string) {
    name != "" && forall c | c in name :: IsAlnum(c) || IsSep(c)
  }

  predicate EndsInSep(s: string) { s != "" && IsSep(s[|s| - 1]) }

  /** The output after one more character. */
  function Put(out: string, c: char): string {
    if IsAlnum(c) then out + [ToLower(c)]
    else if out == "" || EndsInSep(out) then out
    else out + [if IsSep(c) then c else '-']
  }

  function PutAll(out: string, s: string): string
    decreases |s|
  {
    if s == "" then out else PutAll(Put(out, s[0]), s[1..])
  }

  function DropSeps(s: string): (r: string)
    ensures !EndsInSep(r) && r <= s
  {
    if EndsInSep(s) then DropSeps(s[..|s| - 1]) else s
  }

  function Sanitized(s: string): string { DropSeps(PutAll("", s)) }

  method SanitizeSessionComponent(value: string) returns (out: string)
    ensures out == Sanitized(value)
  {
    out := "";
    var lastWasSep := false;
    for i := 0 to |value|
      invariant lastWasSep == EndsInSep(out)
      invariant PutAll(out, value[i..]) == PutAll("", value)
    {
      var c := value[i];
      assert value[i..][1..] == value[i + 1..];
      if IsAlnum(c) {
        out := out + [ToLower(c)];
        lastWasSep := false;
      } else if c == '-' || c == '_' {
        if out != "" && !lastWasSep {
          out := out + [c];
          lastWasSep := true;
        }
      } else if out != "" && !lastWasSep {
        out := out + ['-'];
        lastWasSep := true;
      }
    }
    while EndsInSep(out)
      invariant DropSeps(out) == Sanitized(value)
      decreases |out|
    {
      out := out[..|out| - 1];
    }
  }

  /* ---------- The normal form ---------- */

  /** Lower-case words, joined by single separators, none at the start. */
  predicate Tidy(s: string) {
    && (forall i | 0 <= i < |s| :: (IsAlnum(s[i]) && !IsUpper(s[i])) || IsSep(s[i]))
    && (s != "" ==> IsAlnum(s[0]))
    && (forall i | 0 < i < |s| :: IsSep(s[i]) ==> IsAlnum(s[i - 1]))
  }

  predicate Normal(s: string) { Tidy(s) && !EndsInSep(s) }

  lemma {:induction false} PutAllIsTidy(out: string, s: string)
    requires Tidy(out)
    ensures Tidy(PutAll(out, s))
    decreases |s|
  {
    if s != "" {
      PutAllIsTidy(Put(out, s[0]), s[1..]);
    }
  }

  lemma PrefixIsTidy(s: string, r: string)
    requires Tidy(s) && r <= s
    ensures Tidy(r)
  {
  }

  lemma {:induction false} TidyIsKept(out: string, s: string)
    requires Tidy(out + s)
    ensures PutAll(out, s) == out + s
    decreases |s|
  {
    if s == "" {
      assert out + s == out;
    } else {
      var c, n := s[0], |out|;
      assert (out + s)[n] == c;
      if n > 0 && IsSep(c) {
        assert IsAlnum((out + s)[n - 1]);
        assert out[n - 1] == (out + s)[n - 1];
      }
      assert Put(out, c) == out + [c];
      assert (out + [c]) + s[1..] == out + s;
      TidyIsKept(out + [c], s[1..]);
    }
  }

  /** The result is always in normal form, hence a valid session name or empty;
      and exactly the texts in normal form are left as they are. */
  lemma SanitizingNormalizes(s: string)
    ensures Normal(Sanitized(s))
    ensures IsValidSessionName(Sanitized(s)) || Sanitized(s) == ""
    ensures Sanitized(s) == s <==> Normal(s)
    ensures Sanitized(Sanitized(s)) == Sanitized(s)
  {
    hide PutAll, DropSeps;
    var r := Sanitized(s);
    PutAllIsTidy("", s);
    PrefixIsTidy(PutAll("", s), r);
    NormalIsKept(r);
    if Normal(s) { NormalIsKept(s); }
  }

  lemma NormalIsKept(s: string)
    requires Normal(s)
    ensures Sanitized(s) == s
  {
    assert "" + s == s;
    TidyIsKept("", s);
  }

  /* ---------- What is kept of the text ---------- */

  /** The letters and digits, in lower case. */
  function Letters(s: string): string {
    if s == "" then "" else (if IsAlnum(s[0]) then [ToLower(s[0])] else "") + Letters(s[1..])
  }

  lemma {:induction false} LettersConcat(a: string, b: string)
    ensures Letters(a + b) == Letters(a) + Letters(b)
  {
    hide IsAlnum, ToLower;
    if a == "" {
      assert a + b == b;
    } else {
      DropJoined(a, b, 1);
      LettersConcat(a[1..], b);
      ConcatIsAssociative(if IsAlnum(a[0]) then [ToLower(a[0])] else "", Letters(a[1..]), Letters(b));
    }
  }

  lemma PutKeepsLetters(out: string, c: char)
    ensures Letters(Put(out, c)) == Letters(out) + if IsAlnum(c) then [ToLower(c)] else ""
  {
    LettersConcat(out, [ToLower(c)]);
    LettersConcat(out, [if IsSep(c) then c else '-']);
    assert [ToLower(c)][1..] == "" && [if IsSep(c) then c else '-'][1..] == "";
  }

  lemma {:induction false} PutAllKeepsLetters(out: string, s: string)
    ensures Letters(PutAll(out, s)) == Letters(out) + Letters(s)
    decreases |s|
  {
    if s != "" {
      PutKeepsLetters(out, s[0]);
      PutAllKeepsLetters(Put(out, s[0]), s[1..]);
    }
  }

  lemma {:induction false} DropSepsKeepsLetters(s: string)
    ensures Letters(DropSeps(s)) == Letters(s)
  {
    if EndsInSep(s) {
      var n := |s| - 1;
      DropSepsKeepsLetters(s[..n]);
      assert s == s[..n] + [s[n]] && [s[n]][1..] == "";
      LettersConcat(s[..n], [s[n]]);
    }
  }

  /** No letter or digit is lost, added or moved; so the result is empty only
      for a text without any. */
  lemma LettersSurvive(s: string)
    ensures Letters(Sanitized(s)) == Letters(s)
    ensures Sanitized(s) == "" <==> forall c | c in s :: !IsAlnum(c)
  {
    hide DropSeps, PutAll, Put;
    PutAllKeepsLetters("", s);
    DropSepsKeepsLetters(PutAll("", s));
    NoLetters(s);
    SanitizingNormalizes(s);
    var r := Sanitized(s);
    NoLetters(r);
    assert r != "" ==> r[0] in r && IsAlnum(r[0]);
  }

  lemma {:induction false} NoLetters(s: string)
    ensures Letters(s) == "" <==> forall c | c in s :: !IsAlnum(c)
  {
    if s != "" { NoLetters(s[1..]); }
  }

  /* ---------- What stands between the words ---------- */

  /** The letters and digits are those of the ASCII alphabet. */
  lemma LettersAndDigits(c: char)
    ensures IsAlnum(c) <==> c in UPPER || c in LOWER || c in DIGITS
  {
    hide IsUpper;
    Capitals(c);
    SmallLetters(c);
    Digits(c);
  }

  predicate NoAlnum(s: string) { forall c | c in s :: !IsAlnum(c) }
  predicate StartsWithAlnum(s: string) { s != "" && IsAlnum(s[0]) }
  predicate EndsWithAlnum(s: string) { s != "" && IsAlnum(s[|s| - 1]) }

  /** What a gap between words is written as: its first character if that is a
      separator, otherwise a hyphen. */
  function Joint(gap: string): char
    requires gap != ""
  {
    if gap[0] == '_' then '_' else '-'
  }

  lemma {:induction false} PutAllConcat(out: string, a: string, b: string)
    ensures PutAll(out, a + b) == PutAll(PutAll(out, a), b)
    decreases |a|
  {
    if a == "" {
      assert a + b == b;
    } else {
      assert (a + b)[1..] == a[1..] + b;
      PutAllConcat(Put(out, a[0]), a[1..], b);
    }
  }

  lemma {:induction false} GapAfterSep(out: string, gap: string)
    requires (out == "" || EndsInSep(out)) && NoAlnum(gap)
    ensures PutAll(out, gap) == out
    decreases |gap|
  {
    if gap != "" {
      assert gap[0] in gap && forall c | c in gap[1..] :: c in gap;
      GapAfterSep(out, gap[1..]);
    }
  }

  lemma GapAfterWord(out: string, gap: string)
    requires EndsWithAlnum(out) && gap != "" && NoAlnum(gap)
    ensures PutAll(out, gap) == out + [Joint(gap)]
  {
    assert gap[0] in gap && forall c | c in gap[1..] :: c in gap;
    assert Put(out, gap[0]) == out + [Joint(gap)];
    GapAfterSep(out + [Joint(gap)], gap[1..]);
  }

  /** Behind some output a further word is put as it would be at the start. */
  lemma {:induction false} PutBehind(out: string, more: string, s: string)
    requires more != "" || StartsWithAlnum(s)
    ensures PutAll(out + more, s) == out + PutAll(more, s)
    decreases |s|
  {
    if s != "" {
      var c := s[0];
      assert more != "" ==> (out + more)[|out + more| - 1] == more[|more| - 1];
      assert Put(out + more, c) == out + Put(more, c);
      PutBehind(out, Put(more, c), s[1..]);
    }
  }

  lemma {:induction false} WordIsPut(out: string, s: string)
    requires EndsWithAlnum(s)
    ensures EndsWithAlnum(PutAll(out, s))
    decreases |s|
  {
    if |s| > 1 {
      WordIsPut(Put(out, s[0]), s[1..]);
    } else {
      assert s[1..] == "" && PutAll(Put(out, s[0]), "") == Put(out, s[0]);
    }
  }

  lemma {:induction false} DropsBehind(a: string, b: string)
    requires StartsWithAlnum(b)
    ensures DropSeps(a + b) == a + DropSeps(b)
    decreases |b|
  {
    assert (a + b)[|a + b| - 1] == b[|b| - 1];
    if EndsInSep(b) {
      assert (a + b)[..|a + b| - 1] == a + b[..|b| - 1];
      DropsBehind(a, b[..|b| - 1]);
    }
  }

  lemma {:induction false} WordStarts(out: string, s: string)
    requires if out == "" then StartsWithAlnum(s) else StartsWithAlnum(out)
    ensures StartsWithAlnum(PutAll(out, s))
    decreases |s|
  {
    if s != "" { WordStarts(Put(out, s[0]), s[1..]); }
  }

  /** Whatever stands between two words becomes one separator. */
  lemma GapsBecomeOneSeparator(a: string, gap: string, b: string)
    requires EndsWithAlnum(a) && gap != "" && NoAlnum(gap) && StartsWithAlnum(b)
    ensures Sanitized(a + gap + b) == Sanitized(a) + [Joint(gap)] + Sanitized(b)
  {
    hide PutAll, DropSeps, Joint, NoAlnum;
    var left := PutAll("", a);
    PutAllConcat("", a + gap, b);
    PutAllConcat("", a, gap);
    WordIsPut("", a);
    WordIsKept(left);
    GapAfterWord(left, gap);
    assert left + [Joint(gap)] + "" == left + [Joint(gap)];
    PutBehind(left + [Joint(gap)], "", b);
    WordStarts("", b);
    DropsBehind(left + [Joint(gap)], PutAll("", b));
  }

  lemma WordIsKept(s: string)
    requires EndsWithAlnum(s)
    ensures DropSeps(s) == s
  {
  }

  /** What stands before the first word or behind the last one is dropped. */
  lemma OuterGapsAreDropped(before: string, s: string, after: string)
    requires NoAlnum(before) && NoAlnum(after) && StartsWithAlnum(s) && EndsWithAlnum(s)
    ensures Sanitized(before + s + after) == Sanitized(s)
  {
    hide PutAll, DropSeps, NoAlnum;
    PutAllConcat("", before + s, after);
    PutAllConcat("", before, s);
    GapAfterSep("", before);
    var out := PutAll("", s);
    WordIsPut("", s);
    WordIsKept(out);
    if after == "" {
      NothingIsPut(out);
    } else {
      GapAfterWord(out, after);
      SeparatorIsDropped(out, Joint(after));
    }
  }

  lemma NothingIsPut(out: string)
    ensures PutAll(out, "") == out
  {
  }

  lemma SeparatorIsDropped(out: string, c: char)
    requires EndsWithAlnum(out) && IsSep(c)
    ensures DropSeps(out + [c]) == out
  {
    assert (out + [c])[..|out|] == out;
  }

  function Lowered(s: string): (r: string)
    ensures |r| == |s| && forall i | 0 <= i < |s| :: r[i] == ToLower(s[i])
  {
    seq(|s|, i requires 0 <= i < |s| => ToLower(s[i]))
  }

  lemma LoweredStart(s: string)
    requires s != ""
    ensures Lowered(s) == [ToLower(s[0])] + Lowered(s[1..])
  {
  }

  /** A word is written in small letters. */
  lemma WordsAreLowered(s: string)
    requires forall c | c in s :: IsAlnum(c)
    ensures Sanitized(s) == Lowered(s)
  {
    hide PutAll, DropSeps;
    WordIsLowered("", s);
    assert "" + Lowered(s) == Lowered(s);
    if s == "" {
      NothingIsPut("");
      NothingIsDropped();
    } else {
      assert s[|s| - 1] in s;
      WordIsPut("", s);
      WordIsKept(PutAll("", s));
    }
  }

  lemma NothingIsDropped()
    ensures DropSeps("") == ""
  {
  }

  lemma {:induction false} WordIsLowered(out: string, s: string)
    requires forall c | c in s :: IsAlnum(c)
    ensures PutAll(out, s) == out + Lowered(s)
    decreases |s|
  {
    hide Lowered, ToLower, IsAlnum;
    if s == "" {
      NothingIsPut(out);
      assert Lowered("") == "" && out + "" == out;
    } else {
      assert s[0] in s && forall c | c in s[1..] :: c in s;
      LoweredStart(s);
      WordIsLowered(out + [ToLower(s[0])], s[1..]);
      ConcatIsAssociative(out, [ToLower(s[0])], Lowered(s[1..]));
    }
  }
}
