/**
 The identity of a set of CA certificates: the bytes fed to the hash are the
 certificates in byte order, without duplicates, each behind its length.
 */
module CaBundle {

  type Byte = b: int | 0 <= b < 256
  type Certificate = seq<Byte>

  /* ---------- The byte order ---------- */

  /** Lexicographic order on bytes, a prefix first. */
  predicate Le(a: Certificate, b: Certificate) {
    a == [] || (b != [] && (a[0] < b[0] || (a[0] == b[0] && Le(a[1..], b[1..]))))
  }

  lemma {:induction false} OneOrder(a: Certificate, b: Certificate)
    ensures Le(a, b) || Le(b, a)
    ensures Le(a, b) && Le(b, a) ==> a == b
  {
    if a != [] && b != [] {
      OneOrder(a[1..], b[1..]);
      assert a == [a[0]] + a[1..] && b == [b[0]] + b[1..];
    }
  }

  lemma {:induction false} LeIsTransitive(a: Certificate, b: Certificate, c: Certificate)
    requires Le(a, b) && Le(b, c)
    ensures Le(a, c)
  {
    if a != [] && b != [] && c != [] && a[0] == b[0] == c[0] { LeIsTransitive(a[1..], b[1..], c[1..]); }
  }

  /** The order is decided by the first byte that differs, and a prefix comes first. */
  lemma {:induction false} OrderIsLexicographic(common: Certificate, x: Byte, u: Certificate, y: Byte, v: Certificate)
    requires x != y
    ensures Le(common + ([x] + u), common + ([y] + v)) <==> x < y
    ensures Le(common, common + u)
  {
    if common == [] {
      assert common + ([x] + u) == [x] + u && common + ([y] + v) == [y] + v;
    } else {
      OrderIsLexicographic(common[1..], x, u, y, v);
      assert (common + ([x] + u))[1..] == common[1..] + ([x] + u);
      assert (common + ([y] + v))[1..] == common[1..] + ([y] + v);
      assert (common + u)[1..] == common[1..] + u;
    }
  }

  predicate Sorted(certs: seq<Certificate>) {
    forall i, j | 0 <= i < j < |certs| :: Le(certs[i], certs[j])
  }

  predicate Distinct(certs: seq<Certificate>) {
    forall i, j | 0 <= i < j < |certs| :: certs[i] != certs[j]
  }

  function Members(certs: seq<Certificate>): set<Certificate> { set c | c in certs }

  /* ---------- The digest input ---------- */

  /** The `k` low bytes of a number, the highest first. */
  function BigEndian(n: nat, k: nat): (bytes: seq<Byte>)
    ensures |bytes| == k
  {
    if k == 0 then [] else BigEndian(n / 256, k - 1) + [n % 256]
  }

  function Feed(certs: seq<Certificate>): seq<Byte> {
    if certs == [] then [] else BigEndian(|certs[0]|, 8) + certs[0] + Feed(certs[1..])
  }

  lemma {:induction false} FeedExtended(certs: seq<Certificate>, c: Certificate)
    ensures Feed(certs + [c]) == Feed(certs) + BigEndian(|c|, 8) + c
  {
    if certs == [] {
      assert certs + [c] == [c] && [c][1..] == [];
    } else {
      assert (certs + [c])[1..] == certs[1..] + [c];
      FeedExtended(certs[1..], c);
    }
  }

  /** What `bundle` makes of a list of certificates. */
  predicate IsBundle(input: seq<Certificate>, certs: seq<Certificate>, fed: seq<Byte>) {
    Sorted(certs) && Distinct(certs) && Members(certs) == Members(input) && fed == Feed(certs)
  }

  method Bundle(input: seq<Certificate>) returns (certs: seq<Certificate>, fed: seq<Byte>)
    ensures IsBundle(input, certs, fed)
  {
    certs := SortBy(input);
    certs := DedupBy(certs);
    fed := [];
    for i := 0 to |certs|
      invariant fed == Feed(certs[..i])
    {
      FeedExtended(certs[..i], certs[i]);
      assert certs[..i] + [certs[i]] == certs[..i + 1];
      fed := fed + BigEndian(|certs[i]|, 8);
      fed := fed + certs[i];
    }
    assert certs[..|certs|] == certs;
  }

  /** The library's sort; any sorting method does. */
  method SortBy(certs: seq<Certificate>) returns (sorted: seq<Certificate>)
    ensures Sorted(sorted) && multiset(sorted) == multiset(certs)
    ensures Members(sorted) == Members(certs)
  {
    sorted := [];
    for i := 0 to |certs|
      invariant Sorted(sorted) && multiset(sorted) == multiset(certs[..i])
    {
      assert certs[..i + 1] == certs[..i] + [certs[i]];
      sorted := InsertSorted(sorted, certs[i]);
    }
    assert certs[..|certs|] == certs;
    SameMembers(sorted, certs);
  }

  lemma SameMembers(a: seq<Certificate>, b: seq<Certificate>)
    requires multiset(a) == multiset(b)
    ensures Members(a) == Members(b)
  {
    assert forall c :: c in a <==> c in multiset(a);
    assert forall c :: c in b <==> c in multiset(b);
  }

  method InsertSorted(certs: seq<Certificate>, c: Certificate) returns (r: seq<Certificate>)
    requires Sorted(certs)
    ensures Sorted(r) && multiset(r) == multiset(certs) + multiset{c}
  {
    var k := |certs|;
    while k > 0 && !Le(certs[k - 1], c)
      invariant 0 <= k <= |certs|
      invariant forall i | k <= i < |certs| :: Le(c, certs[i])
    {
      OneOrder(certs[k - 1], c);
      k := k - 1;
    }
    r := certs[..k] + [c] + certs[k..];
    assert certs == certs[..k] + certs[k..];
    InsertedIsSorted(certs, c, k);
  }

  lemma InsertedIsSorted(certs: seq<Certificate>, c: Certificate, k: nat)
    requires Sorted(certs) && k <= |certs| && (k > 0 ==> Le(certs[k - 1], c))
    requires forall i | k <= i < |certs| :: Le(c, certs[i])
    ensures Sorted(certs[..k] + [c] + certs[k..])
  {
    hide Le;
    var r := certs[..k] + [c] + certs[k..];
    forall i | 0 <= i < k ensures Le(certs[i], c) {
      if i < k - 1 { LeIsTransitive(certs[i], certs[k - 1], c); }
    }
    forall i, j | 0 <= i < j < |r| ensures Le(r[i], r[j]) {
      if i < k && j < k {
        assert r[i] == certs[i] && r[j] == certs[j];
      } else if i < k && j > k {
        assert r[i] == certs[i] && r[j] == certs[j - 1];
      } else if i > k {
        assert r[i] == certs[i - 1] && r[j] == certs[j - 1];
      }
    }
  }

  /** Keep the first of each run of equal certificates. */
  method DedupBy(certs: seq<Certificate>) returns (r: seq<Certificate>)
    requires Sorted(certs)
    ensures Sorted(r) && Distinct(r) && Members(r) == Members(certs)
  {
    r := [];
    for i := 0 to |certs|
      invariant Sorted(r) && Distinct(r) && Members(r) == Members(certs[..i])
      invariant r == [] <==> i == 0
      invariant i > 0 ==> r[|r| - 1] == certs[i - 1]
    {
      assert certs[..i + 1] == certs[..i] + [certs[i]];
      assert Members(certs[..i + 1]) == Members(certs[..i]) + {certs[i]};
      if r == [] || r[|r| - 1] != certs[i] {
        ghost var before := r;
        forall k | 0 <= k < |r| ensures Le(r[k], certs[i]) && r[k] != certs[i] {
          if k < |r| - 1 {
            LeIsTransitive(r[k], r[|r| - 1], certs[i]);
            OneOrder(r[k], r[|r| - 1]);
          }
        }
        r := r + [certs[i]];
        assert Members(r) == Members(before) + {certs[i]};
      }
    }
    assert certs[..|certs|] == certs;
  }

  /* ---------- Equal input means equal certificates ---------- */

  lemma LeastComesFirst(certs: seq<Certificate>, c: Certificate)
    requires Sorted(certs) && c in certs
    ensures Le(certs[0], c)
  {
    OneOrder(c, c);
  }

  lemma MembersOfRest(certs: seq<Certificate>)
    requires certs != [] && Distinct(certs)
    ensures Members(certs[1..]) == Members(certs) - {certs[0]}
  {
    assert certs == [certs[0]] + certs[1..];
  }

  /** Sorted and without duplicates, the members determine the list. */
  lemma {:induction false} MembersDetermineList(a: seq<Certificate>, b: seq<Certificate>)
    requires Sorted(a) && Distinct(a) && Sorted(b) && Distinct(b) && Members(a) == Members(b)
    ensures a == b
    decreases |a|
  {
    assert b != [] ==> b[0] in Members(b);
    if a != [] {
      assert a[0] in Members(a);
      assert a[0] in b;
      LeastComesFirst(a, b[0]);
      LeastComesFirst(b, a[0]);
      OneOrder(a[0], b[0]);
      MembersOfRest(a);
      MembersOfRest(b);
      MembersDetermineList(a[1..], b[1..]);
      assert a == [a[0]] + a[1..] && b == [b[0]] + b[1..];
    }
  }

  function Pow256(k: nat): (p: nat)
    ensures p > 0
  {
    if k == 0 then 1 else 256 * Pow256(k - 1)
  }

  /** The number that bytes stand for, each worth 256 times the one behind it. */
  function NumberOf(bytes: seq<Byte>): nat {
    if bytes == [] then 0 else bytes[0] * Pow256(|bytes| - 1) + NumberOf(bytes[1..])
  }

  lemma {:induction false} NumberExtended(bytes: seq<Byte>, last: Byte)
    ensures NumberOf(bytes + [last]) == 256 * NumberOf(bytes) + last
  {
    if bytes == [] {
      assert bytes + [last] == [last] && [last][1..] == [];
    } else {
      assert (bytes + [last])[1..] == bytes[1..] + [last];
      NumberExtended(bytes[1..], last);
      assert Pow256(|bytes|) == 256 * Pow256(|bytes| - 1);
    }
  }

  /** A number that fits is what its bytes stand for. */
  lemma {:induction false} BytesGiveNumber(n: nat, k: nat)
    requires n < Pow256(k)
    ensures NumberOf(BigEndian(n, k)) == n
  {
    if k > 0 {
      BytesGiveNumber(n / 256, k - 1);
      NumberExtended(BigEndian(n / 256, k - 1), n % 256);
    }
  }

  /** Lengths that the eight-byte prefix can hold. */
  predicate Fits(certs: seq<Certificate>) { forall c | c in certs :: |c| < Pow256(8) }

  lemma BundleFits(input: seq<Certificate>, certs: seq<Certificate>)
    requires Fits(input) && Members(certs) == Members(input)
    ensures Fits(certs)
  {
    forall c | c in certs ensures |c| < Pow256(8) {
      assert c in Members(certs);
      assert c in input;
    }
  }

  /** The bytes fed to the hash can be decoded: they determine the list. */
  lemma {:induction false} FeedDeterminesList(a: seq<Certificate>, b: seq<Certificate>)
    requires Fits(a) && Fits(b) && Feed(a) == Feed(b)
    ensures a == b
    decreases |a|
  {
    hide BigEndian, Pow256;
    if a == [] || b == [] {
      assert a == [] || |Feed(a)| >= 8;
      assert b == [] || |Feed(b)| >= 8;
    } else {
      var f, g := Feed(a), Feed(b);
      assert a[0] in a && b[0] in b;
      assert f[..8] == BigEndian(|a[0]|, 8) && g[..8] == BigEndian(|b[0]|, 8);
      BytesGiveNumber(|a[0]|, 8);
      BytesGiveNumber(|b[0]|, 8);
      var n := |a[0]|;
      assert f[8..8 + n] == a[0] && g[8..8 + n] == b[0];
      assert f[8 + n..] == Feed(a[1..]) && g[8 + n..] == Feed(b[1..]);
      FeedDeterminesList(a[1..], b[1..]);
      assert a == [a[0]] + a[1..] && b == [b[0]] + b[1..];
    }
  }

  /** The digest input is canonical: two lists of certificates feed the same
      bytes to the hash exactly when they hold the same set of certificates,
      in whatever order and however often. */
  lemma DigestInputIsCanonical(input1: seq<Certificate>, certs1: seq<Certificate>, fed1: seq<Byte>,
                               input2: seq<Certificate>, certs2: seq<Certificate>, fed2: seq<Byte>)
    requires IsBundle(input1, certs1, fed1) && IsBundle(input2, certs2, fed2)
    requires Fits(input1) && Fits(input2)
    ensures fed1 == fed2 <==> Members(input1) == Members(input2)
    ensures fed1 == fed2 <==> certs1 == certs2
  {
    if fed1 == fed2 {
      BundleFits(input1, certs1);
      BundleFits(input2, certs2);
      FeedDeterminesList(certs1, certs2);
    }
    if Members(input1) == Members(input2) {
      MembersDetermineList(certs1, certs2);
    }
  }
}
