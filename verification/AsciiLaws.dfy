/** What the string operations of `Ascii` mean, said without them: the alphabet,
    white space, and numbers as they are printed. */
module AsciiLaws {
  import opened Ascii
  import opened Wrappers

  const UPPER := "ABCDEFGHIJKLMNOPQRSTUVWXYZ"
  const LOWER := "abcdefghijklmnopqrstuvwxyz"
  const DIGITS := "0123456789"

  /** Each capital becomes the small letter at its place in the alphabet, and every
      other character stays. */
  lemma LoweringFollowsAlphabet(c: char)
    ensures |UPPER| == |LOWER| == 26
    ensures forall i | 0 <= i < 26 :: ToLower(UPPER[i]) == LOWER[i]
    ensures c !in UPPER ==> ToLower(c) == c
  {
    forall i | 0 <= i < 26 ensures UPPER[i] == 'A' + i as char && LOWER[i] == 'a' + i as char { }
    Capitals(c);
  }

  lemma Capitals(c: char)
    ensures IsUpper(c) <==> c in UPPER
  {
    if IsUpper(c) { assert UPPER[c as int - 'A' as int] == c; }
  }

  lemma SmallLetters(c: char)
    ensures 'a' <= c <= 'z' <==> c in LOWER
  {
    if 'a' <= c <= 'z' { assert LOWER[c as int - 'a' as int] == c; }
  }

  lemma Digits(c: char)
    ensures IsDigit(c) <==> c in DIGITS
  {
    if IsDigit(c) { assert DIGITS[c as int - '0' as int] == c; }
  }

  predicate AllSpaces(s: string) { forall c | c in s :: c in " \t\n\U{000b}\U{000c}\r" }

  lemma SpacesAreSpaces(c: char)
    ensures IsSpace(c) <==> c in " \t\n\U{000b}\U{000c}\r"
  {
  }

  /** Trimming takes away all white space on both sides and nothing else. */
  lemma TrimmingRemovesSpaces(before: string, s: string, after: string)
    requires AllSpaces(before) && AllSpaces(after)
    requires s == "" || (!IsSpace(s[0]) && !IsSpace(s[|s| - 1]))
    ensures Trim(before + s + after) == s
  {
    hide TrimStart, TrimEnd, IsSpace, AllSpaces;
    assert before + s + after == before + (s + after);
    StartIsTrimmed(before, s + after);
    BareStays(s + after);
    if s == "" {
      assert s + after == after && after + "" == after;
      StartIsTrimmed(after, "");
      BareStays("");
    } else {
      EndIsTrimmed(s, after);
    }
  }

  lemma BareStays(s: string)
    ensures s == "" || !IsSpace(s[0]) ==> TrimStart(s) == s
    ensures s == "" ==> TrimEnd(s) == s
  {
  }

  lemma {:induction false} StartIsTrimmed(before: string, s: string)
    requires AllSpaces(before)
    ensures TrimStart(before + s) == TrimStart(s)
  {
    if before == "" {
      assert before + s == s;
    } else {
      SpacesAreSpaces(before[0]);
      assert before[0] in before && (before + s)[1..] == before[1..] + s;
      StartIsTrimmed(before[1..], s);
    }
  }

  lemma {:induction false} EndIsTrimmed(s: string, after: string)
    requires AllSpaces(after) && s != "" && !IsSpace(s[|s| - 1])
    ensures TrimEnd(s + after) == s
  {
    var n := |after| - 1;
    if after == "" {
      assert s + after == s;
    } else {
      SpacesAreSpaces(after[n]);
      assert after[n] in after && (s + after)[..|s + after| - 1] == s + after[..n];
      EndIsTrimmed(s, after[..n]);
    }
  }

  /** A number as it is printed. */
  function Decimal(n: nat): (s: string)
    ensures s != "" && AllDigits(s)
  {
    if n < 10 then [DIGITS[n]] else Decimal(n / 10) + [DIGITS[n % 10]]
  }

  function Zeros(k: nat): (s: string)
    ensures |s| == k && forall c | c in s :: c == '0'
  {
    seq(k, _ => '0')
  }

  lemma DigitValue(d: nat)
    requires d < 10
    ensures IsDigit(DIGITS[d]) && DIGITS[d] as int - '0' as int == d
  {
  }

  lemma {:induction false} DecimalIsRead(k: nat, n: nat)
    ensures DecimalValue(Zeros(k) + Decimal(n)) == n
    decreases n
  {
    var s := Zeros(k) + Decimal(n);
    var m := |s| - 1;
    DigitValue(n % 10);
    if n < 10 {
      assert s[..m] == Zeros(k);
      ZerosAreNothing(k);
    } else {
      assert s[..m] == Zeros(k) + Decimal(n / 10);
      DecimalIsRead(k, n / 10);
    }
  }

  lemma {:induction false} ZerosAreNothing(k: nat)
    ensures DecimalValue(Zeros(k)) == 0
  {
    if k > 0 {
      assert Zeros(k)[..k - 1] == Zeros(k - 1);
      ZerosAreNothing(k - 1);
    }
  }

  lemma OneMoreDigit(v: nat, d: nat, k: nat) returns (j: nat)
    requires d < 10
    ensures (Zeros(k) + Decimal(v)) + [DIGITS[d]] == Zeros(j) + Decimal(v * 10 + d)
  {
    if v == 0 {
      j := k + 1;
      assert Decimal(0) == "0" && Zeros(k) + "0" == Zeros(j);
      assert v * 10 + d == d && Decimal(d) == [DIGITS[d]];
    } else {
      j := k;
      assert (v * 10 + d) / 10 == v && (v * 10 + d) % 10 == d;
      assert Decimal(v * 10 + d) == Decimal(v) + [DIGITS[d]];
    }
  }

  lemma DigitOf(c: char) returns (d: nat)
    requires IsDigit(c)
    ensures d < 10 && d == c as int - '0' as int && DIGITS[d] == c
  {
    d := c as int - '0' as int;
    DigitValue(d);
  }

  lemma {:induction false} DigitsArePrinted(s: string) returns (k: nat)
    requires s != "" && AllDigits(s)
    ensures s == Zeros(k) + Decimal(DecimalValue(s))
    decreases |s|
  {
    hide Decimal, Zeros, IsDigit;
    var m := |s| - 1;
    assert s[m] in s && forall c | c in s[..m] :: c in s;
    var d := DigitOf(s[m]);
    assert s == s[..m] + [s[m]];
    if m == 0 {
      k := 0;
      assert DecimalValue(s[..m]) == 0;
      OneDigit(d);
    } else {
      k := DigitsArePrinted(s[..m]);
      k := OneMoreDigit(DecimalValue(s[..m]), d, k);
    }
  }

  lemma OneDigit(d: nat)
    requires d < 10
    ensures Zeros(0) + Decimal(d) == [DIGITS[d]]
  {
  }

  predicate Prints(s: string, plus: string, k: nat, n: nat) {
    plus in ["", "+"] && s == plus + (Zeros(k) + Decimal(n))
  }

  lemma ReadIsPrinted(s: string, n: nat)
    requires ParseU32(s) == Some(n)
    ensures exists plus, k :: Prints(s, plus, k, n)
  {
    hide Decimal, Zeros, DecimalValue;
    var plus := if s[0] == '+' then "+" else "";
    var digits := s[|plus|..];
    var k := DigitsArePrinted(digits);
    assert s == plus + digits;
    assert Prints(s, plus, k, n);
  }

  lemma PrintedIsRead(s: string, plus: string, k: nat, n: nat)
    requires Prints(s, plus, k, n) && n < 0x1_0000_0000
    ensures ParseU32(s) == Some(n)
  {
    hide Decimal, Zeros, DecimalValue;
    var digits := Zeros(k) + Decimal(n);
    DecimalIsRead(k, n);
    assert forall c | c in digits :: c in Zeros(k) || c in Decimal(n);
    assert digits[0] in digits && IsDigit(digits[0]);
    assert s[|plus|..] == digits && s[0] == (plus + digits)[0];
  }

  /** A text is read as a number exactly when it is that number printed, perhaps
      behind a plus sign and zeros, and the number fits into 32 bits. */
  lemma NumbersAreRead(s: string, n: nat)
    ensures ParseU32(s) == Some(n) <==> n < 0x1_0000_0000 && exists plus, k :: Prints(s, plus, k, n)
  {
    hide Prints;
    if ParseU32(s) == Some(n) { ReadIsPrinted(s, n); }
    if n < 0x1_0000_0000 && exists plus, k :: Prints(s, plus, k, n) {
      var plus, k :| Prints(s, plus, k, n);
      PrintedIsRead(s, plus, k, n);
    }
  }

  predicate IsBare(v: string) { v != "" && !IsSpace(v[0]) && !IsSpace(v[|v| - 1]) }

  lemma DecimalIsBare(n: nat)
    ensures var s := Decimal(n); !IsSpace(s[0]) && !IsSpace(s[|s| - 1])
  {
    hide Decimal;
    var s := Decimal(n);
    assert s[0] in s && s[|s| - 1] in s;
  }

  lemma PrintedNumber(n: nat)
    ensures ParseU32(Decimal(n)) == if n < 0x1_0000_0000 then Some(n) else None
  {
    hide Decimal, ParseU32;
    assert "" + (Zeros(0) + Decimal(n)) == Decimal(n);
    assert Prints(Decimal(n), "", 0, n);
    NumbersAreRead(Decimal(n), n);
    if n >= 0x1_0000_0000 && ParseU32(Decimal(n)).Some? {
      var m := ParseU32(Decimal(n)).value;
      NumbersAreRead(Decimal(n), m);
      var plus, k :| Prints(Decimal(n), plus, k, m);
      PrintedAlike(n, plus, k, m);
    }
  }

  lemma PrintedAlike(n: nat, plus: string, k: nat, m: nat)
    requires Prints(Decimal(n), plus, k, m)
    ensures n == m
  {
    hide Decimal, Zeros;
    assert Decimal(n)[0] in Decimal(n);
    assert plus == "";
    assert "" + (Zeros(k) + Decimal(m)) == Zeros(k) + Decimal(m);
    assert Zeros(0) + Decimal(n) == Decimal(n);
    DecimalIsRead(0, n);
    DecimalIsRead(k, m);
  }
}
