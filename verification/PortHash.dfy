/** The TCP port that stands for a session where there are no socket files. */
module PortHash {
  import opened Wrappers
  import Sanitize

  const TWO_32: nat := 0x1_0000_0000
  type I32 = x: int | -0x8000_0000 <= x < 0x8000_0000

  /** The signed 32-bit number with the same residue. */
  function Wrap(x: int): (w: I32)
    ensures (w - x) % TWO_32 == 0
  {
    (x + 0x8000_0000) % TWO_32 - 0x8000_0000
  }

  function Shl5(h: I32): I32 { Wrap(h * 32) }

  function WrappingSub(a: I32, b: I32): I32 { Wrap(a - b) }

  function WrappingAdd(a: I32, b: I32): I32 { Wrap(a + b) }

  /** The code of a character, at most 0x10FFFF. */
  function Code(c: char): (n: I32)
    ensures n >= 0
  {
    c as int
  }

  function Pow31(n: nat): int {
    if n == 0 then 1 else 31 * Pow31(n - 1)
  }

  /** The text as a number in base 31, the first character highest. */
  function Polynomial(s: string): int {
    if s == "" then 0 else Polynomial(s[..|s| - 1]) * 31 + Code(s[|s| - 1])
  }

  /** The specification of the hash: the residue of the polynomial. */
  function Hash(s: string): I32 { Wrap(Polynomial(s)) }

  lemma WrapDependsOnResidue(x: int, y: int, k: int)
    requires x - y == k * TWO_32
    ensures Wrap(x) == Wrap(y)
  {
    assert (x + 0x8000_0000) - (y + 0x8000_0000) == k * TWO_32;
  }

  /** A wrapped number may be replaced by the number itself under a factor. */
  lemma WrapUnderFactor(x: int, a: int, b: int)
    ensures Wrap(Wrap(x) * a + b) == Wrap(x * a + b)
  {
    var k := (Wrap(x) - x) / TWO_32;
    assert Wrap(x) == x + k * TWO_32;
    assert (Wrap(x) * a + b) - (x * a + b) == (k * a) * TWO_32;
    WrapDependsOnResidue(Wrap(x) * a + b, x * a + b, k * a);
  }

  /** Shift, subtract and add, each wrapping, multiply by 31 and add. */
  lemma StepMultipliesBy31(h: I32, c: I32)
    ensures WrappingAdd(WrappingSub(Shl5(h), h), c) == Wrap(h * 31 + c)
  {
    var n: int := h;
    WrapUnderFactor(n * 32, 1, -n);
    WrapUnderFactor(n * 31, 1, c);
    assert Wrap(n * 32) * 1 + -n == Wrap(n * 32) - n && n * 32 * 1 + -n == n * 31;
    assert Wrap(h * 31) * 1 + c == Wrap(h * 31) + c && h * 31 * 1 + c == h * 31 + c;
  }

  function UnsignedAbs(h: I32): nat { if h < 0 then -(h as int) else h }

  function PortOf(h: I32): nat { 49152 + UnsignedAbs(h) % 16383 }

  method GetPortForSession(namespace: Option<string>, session: string) returns (port: nat)
    ensures port == PortOf(Hash(Identity(namespace, session)))
    ensures 49152 <= port <= 65534
  {
    var identity := PortIdentityForSession(namespace, session);
    var hash: I32 := 0;
    for i := 0 to |identity|
      invariant hash == Hash(identity[..i])
    {
      ghost var s := identity[..i + 1];
      assert s[..i] == identity[..i] && s[i] == identity[i];
      StepMultipliesBy31(hash, Code(identity[i]));
      WrapUnderFactor(Polynomial(identity[..i]), 31, Code(identity[i]));
      hash := WrappingAdd(WrappingSub(Shl5(hash), hash), Code(identity[i]));
    }
    assert identity[..|identity|] == identity;
    port := 49152 + UnsignedAbs(hash) % 16383;
  }

  /* ---------- The hash of a concatenation ---------- */

  lemma {:induction false} PolynomialConcat(a: string, b: string)
    ensures Polynomial(a + b) == Polynomial(a) * Pow31(|b|) + Polynomial(b)
    decreases |b|
  {
    if b == "" {
      assert a + b == a;
    } else {
      var n := |b| - 1;
      assert (a + b)[..|a + b| - 1] == a + b[..n];
      PolynomialConcat(a, b[..n]);
      assert Polynomial(a) * Pow31(n) * 31 == Polynomial(a) * Pow31(|b|);
    }
  }

  /** The hash of a longer text follows from the hashes of its parts. */
  lemma HashConcat(a: string, b: string)
    ensures Hash(a + b) == Wrap(Hash(a) * Pow31(|b|) + Hash(b))
  {
    hide Polynomial, Pow31, Wrap;
    PolynomialConcat(a, b);
    WrapOfSum(Polynomial(a), Pow31(|b|), Polynomial(b));
  }

  lemma WrapOfSum(x: int, p: int, y: int)
    ensures Wrap(Wrap(x) * p + Wrap(y)) == Wrap(x * p + y)
  {
    hide Wrap;
    WrapUnderFactor(x, p, Wrap(y));
    WrapUnderFactor(y, 1, x * p);
    assert Wrap(y) * 1 + x * p == x * p + Wrap(y) && y * 1 + x * p == x * p + y;
  }

  /** The empty text hashes to zero and a single character to its code. */
  lemma HashStarts(c: char)
    ensures Hash("") == 0 && Hash([c]) == c as int
  {
    assert [c][..0] == "" && Polynomial([c]) == c as int;
  }

  /** The ports in use are exactly those from 49152 to 65534, none is out of
      reach, and two hashes share one exactly when their absolute values, that of
      the least 32-bit number included, are congruent. */
  lemma PortsAreTight(port: nat, g: I32, h: I32)
    ensures 49152 <= port <= 65534 <==> exists x: I32 :: PortOf(x) == port
    ensures PortOf(g) == PortOf(h) <==> (UnsignedAbs(g) - UnsignedAbs(h)) % 16383 == 0
    ensures h != -0x8000_0000 ==> PortOf(-(h as int)) == PortOf(h)
  {
    if 49152 <= port <= 65534 {
      var x: I32 := port - 49152;
      assert PortOf(x) == port;
    }
  }

  /** The one hash whose absolute value has no signed representation. */
  lemma LeastHashHasAPort()
    ensures PortOf(-0x8000_0000) == 49160
  {
  }

  /* ---------- The identity that is hashed ---------- */

  function Identity(namespace: Option<string>, session: string): string {
    if namespace.Some? && Sanitize.Sanitized(namespace.value) != ""
    then Sanitize.Sanitized(namespace.value) + ":" + session
    else session
  }

  method PortIdentityForSession(namespace: Option<string>, session: string) returns (identity: string)
    ensures identity == Identity(namespace, session)
  {
    if namespace.Some? {
      var clean := Sanitize.SanitizeSessionComponent(namespace.value);
      if clean != "" {
        return clean + ":" + session;
      }
    }
    return session;
  }

  /** A namespace with a letter or digit in it qualifies the session, any other
      does not. */
  lemma NamespaceQualifies(namespace: string, session: string)
    ensures Identity(None, session) == session
    ensures (exists c | c in namespace :: Sanitize.IsAlnum(c)) ==>
      Identity(Some(namespace), session) == Sanitize.Sanitized(namespace) + ":" + session
    ensures (forall c | c in namespace :: !Sanitize.IsAlnum(c)) ==> Identity(Some(namespace), session) == session
  {
    Sanitize.LettersSurvive(namespace);
  }

  /** The namespace a session name is qualified with: none, when nothing is left of it. */
  function Qualifier(namespace: Option<string>): string {
    if namespace.Some? then Sanitize.Sanitized(namespace.value) else ""
  }

  /** Valid sessions share an identity only when they are the same session of
      the same sanitized namespace. */
  lemma IdentityTellsSessionsApart(n1: Option<string>, s1: string, n2: Option<string>, s2: string)
    requires Sanitize.IsValidSessionName(s1) && Sanitize.IsValidSessionName(s2)
    ensures Identity(n1, s1) == Identity(n2, s2) <==> Qualifier(n1) == Qualifier(n2) && s1 == s2
  {
    hide Sanitize.Sanitized;
    QualifierHasNoColon(n1);
    QualifierHasNoColon(n2);
    var q1, q2 := Qualifier(n1), Qualifier(n2);
    var i1, i2 := Identity(n1, s1), Identity(n2, s2);
    assert i1 == if q1 == "" then s1 else q1 + ":" + s1;
    assert i2 == if q2 == "" then s2 else q2 + ":" + s2;
    if i1 == i2 {
      ColonPlace(q1, s1, i1);
      ColonPlace(q2, s2, i2);
      assert q1 != "" ==> q1 == i1[..|q1|] && s1 == i1[|q1| + 1..];
      assert q2 != "" ==> q2 == i2[..|q2|] && s2 == i2[|q2| + 1..];
    }
  }

  lemma QualifierHasNoColon(namespace: Option<string>)
    ensures ':' !in Qualifier(namespace)
  {
    if namespace.Some? { Sanitize.SanitizingNormalizes(namespace.value); }
  }

  lemma ColonPlace(q: string, s: string, identity: string)
    requires ':' !in q && ':' !in s
    requires identity == if q == "" then s else q + ":" + s
    ensures q == "" <==> ':' !in identity
    ensures q != "" ==> identity[|q|] == ':' && forall i | 0 <= i < |identity| :: identity[i] == ':' ==> i == |q|
  {
    if q != "" {
      assert identity[|q|] == ':';
      assert forall i | 0 <= i < |identity| && i != |q| :: identity[i] != ':';
    }
  }
}
