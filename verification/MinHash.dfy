/** MinHash signatures (processing/deduplicator.py): h_i(x) = (a_i * x + b_i) mod p, minimised over the
    hashed shingles. */
module MinHash {

  function Permuted(a: nat, b: nat, p: nat, h: nat): nat
    requires p > 0
  {
    (a * h + b) % p
  }

  /** m is the signature entry of the hash values hs: their least image, or p when there is none. */
  ghost predicate IsEntry(m: nat, a: nat, b: nat, p: nat, hs: set<nat>)
    requires p > 0
  {
    if hs == {} then m == p
    else (exists h :: h in hs && Permuted(a, b, p, h) == m) && (forall h :: h in hs ==> m <= Permuted(a, b, p, h))
  }

  ghost function SetOf(xs: seq<nat>): set<nat>
  {
    set x | x in xs
  }

  method MinOver(a: nat, b: nat, p: nat, hashed: seq<nat>) returns (m: nat)
    requires p > 0 && hashed != []
    ensures IsEntry(m, a, b, p, SetOf(hashed))
  {
    hide Permuted;
    m := Permuted(a, b, p, hashed[0]);
    for i := 1 to |hashed|
      invariant exists k :: 0 <= k < i && Permuted(a, b, p, hashed[k]) == m
      invariant forall k :: 0 <= k < i ==> m <= Permuted(a, b, p, hashed[k])
    {
      var x := Permuted(a, b, p, hashed[i]);
      if x < m {
        m := x;
      }
    }
    ghost var hs := SetOf(hashed);
    ghost var k :| 0 <= k < |hashed| && Permuted(a, b, p, hashed[k]) == m;
    assert hashed[k] in hs;
    forall h | h in hs ensures m <= Permuted(a, b, p, h) {
      var j :| 0 <= j < |hashed| && hashed[j] == h;
    }
  }

  /** The values the entries are computed from: the shingle hashes reduced modulo p. */
  ghost function Reduced(hashes: seq<nat>, p: nat): set<nat>
    requires p > 0
  {
    set h | h in hashes :: h % p
  }

  lemma ReducedIsSet(hashes: seq<nat>, hashed: seq<nat>, p: nat)
    requires p > 0 && |hashed| == |hashes| && forall i :: 0 <= i < |hashes| ==> hashed[i] == hashes[i] % p
    ensures SetOf(hashed) == Reduced(hashes, p)
  {
    forall h | h in Reduced(hashes, p) ensures h in hashed {
      var x :| x in hashes && x % p == h;
      var i :| 0 <= i < |hashes| && hashes[i] == x;
      assert hashed[i] == h;
    }
    forall i | 0 <= i < |hashed| ensures hashed[i] in Reduced(hashes, p) {
      assert hashes[i] in hashes;
    }
  }

  /** signature: one entry per pair of coefficients. */
  method Signature(coefA: seq<nat>, coefB: seq<nat>, p: nat, hashes: seq<nat>) returns (sig: seq<nat>)
    requires p > 0 && |coefA| == |coefB|
    ensures |sig| == |coefA|
    ensures forall i :: 0 <= i < |sig| ==> IsEntry(sig[i], coefA[i], coefB[i], p, Reduced(hashes, p))
  {
    if hashes == [] {
      return seq(|coefA|, _ => p);
    }
    var hashed := seq(|hashes|, i requires 0 <= i < |hashes| => hashes[i] % p);
    ReducedIsSet(hashes, hashed, p);
    hide Reduced;
    sig := [];
    for i := 0 to |coefA|
      invariant |sig| == i
      invariant forall k :: 0 <= k < i ==> IsEntry(sig[k], coefA[k], coefB[k], p, Reduced(hashes, p))
    {
      var m := MinOver(coefA[i], coefB[i], p, hashed);
      sig := sig + [m];
    }
  }

  // ----- when a permutation is a permutation

  ghost predicate Times(d: nat, k: int, n: int)
  {
    d * k == n
  }

  ghost predicate Divides(d: nat, n: int)
  {
    d > 0 && exists k :: Times(d, k, n)
  }

  ghost predicate Coprime(a: nat, p: nat)
  {
    forall d :: Divides(d, a) && Divides(d, p) ==> d == 1
  }

  ghost predicate Injective(a: nat, b: nat, p: nat)
    requires p > 0
  {
    forall x: nat, y: nat :: x < p && y < p && Permuted(a, b, p, x) == Permuted(a, b, p, y) ==> x == y
  }

  lemma RemainderDivisors(a: nat, p: nat, d: nat)
    requires p > 0 && Divides(d, p) && Divides(d, a % p)
    ensures Divides(d, a)
  {
    var i :| Times(d, i, p);
    var j :| Times(d, j, a % p);
    Regroup(d, i, j, a / p);
    assert Times(d, i * (a / p) + j, a);
  }

  lemma Regroup(d: int, i: int, j: int, q: int)
    ensures d * (i * q + j) == (d * i) * q + d * j
  {
  }

  /** Coprime numbers combine to one. */
  lemma {:induction false} Bezout(a: nat, p: nat) returns (u: int, v: int)
    requires Coprime(a, p) && a + p > 0
    ensures u * a + v * p == 1
    decreases p
  {
    if p == 0 {
      assert Times(a, 1, a) && Times(a, 0, 0);
      assert Divides(a, a) && Divides(a, 0);
      u, v := 1, 0;
    } else {
      forall d | Divides(d, p) && Divides(d, a % p) ensures d == 1 {
        RemainderDivisors(a, p, d);
      }
      var s, t := Bezout(p, a % p);
      u, v := t, s - t * (a / p);
      BezoutStep(a, p, a / p, a % p, s, t);
    }
  }

  lemma BezoutStep(a: int, p: int, q: int, r: int, s: int, t: int)
    requires a == p * q + r
    ensures t * a + (s - t * q) * p == s * p + t * r
  {
  }

  /** Equal residues differ by a multiple of the modulus. */
  lemma SameResidue(m: int, n: int, p: nat)
    requires p > 0
    ensures m % p == n % p <==> Divides(p, m - n)
  {
    if m % p == n % p {
      assert Times(p, m / p - n / p, m - n);
    }
    if Divides(p, m - n) {
      var k :| Times(p, k, m - n);
      Shift(n, k, p);
    }
  }

  lemma Shift(n: int, k: int, p: nat)
    requires p > 0
    ensures (n + p * k) % p == n % p
  {
    var q, r := n / p, n % p;
    assert n + p * k == p * (q + k) + r;
    Remainder(q + k, r, p);
  }

  lemma Remainder(q: int, r: int, p: nat)
    requires 0 <= r < p
    ensures (p * q + r) % p == r
  {
    var x := p * q + r;
    assert x == p * (x / p) + x % p;
    assert p * (q - x / p) == x % p - r;
    NoSmallMultiple(p, q - x / p);
  }

  lemma NoSmallMultiple(p: int, k: int)
    requires -p < p * k < p
    ensures k == 0
  {
    assert k >= 1 ==> p * k >= p * 1;
    assert k <= -1 ==> p * k <= p * -1;
  }

  // ----- injectivity

  /** With a coprime multiplier the permutation is injective on the residues. */
  lemma CoprimeIsInjective(a: nat, b: nat, p: nat)
    requires p > 0 && Coprime(a, p)
    ensures Injective(a, b, p)
  {
    var u, v := Bezout(a, p);
    forall x: nat, y: nat | x < p && y < p && Permuted(a, b, p, x) == Permuted(a, b, p, y) ensures x == y {
      SameResidue(a * x + b, a * y + b, p);
      var k :| Times(p, k, (a * x + b) - (a * y + b));
      Cancel(a, p, u, v, x - y, k);
      NoSmallMultiple(p, u * k + v * (x - y));
    }
  }

  lemma Cancel(a: int, p: int, u: int, v: int, d: int, k: int)
    requires u * a + v * p == 1 && a * d == p * k
    ensures p * (u * k + v * d) == d
  {
    assert (u * a + v * p) * d == u * (a * d) + v * p * d;
    assert u * (p * k) + v * p * d == p * (u * k + v * d);
  }

  /** A common divisor makes two residues collide: so coprimality is exactly what injectivity takes. */
  lemma InjectiveIffCoprime(a: nat, b: nat, p: nat)
    requires p > 0
    ensures Injective(a, b, p) <==> Coprime(a, p)
  {
    if Coprime(a, p) {
      CoprimeIsInjective(a, b, p);
    } else {
      var d: nat :| Divides(d, a) && Divides(d, p) && d != 1;
      var i :| Times(d, i, p);
      var j :| Times(d, j, a);
      QuotientIsResidue(d, i, p);
      assert a * i - a * 0 == p * j by { Swap(d, i, j); }
      assert Times(p, j, (a * i + b) - (a * 0 + b));
      SameResidue(a * i + b, a * 0 + b, p);
      assert Permuted(a, b, p, i) == Permuted(a, b, p, 0);
    }
  }

  lemma QuotientIsResidue(d: nat, i: int, p: nat)
    requires d > 0 && d != 1 && d * i == p && p > 0
    ensures 0 < i < p
  {
    assert i <= 0 ==> d * i <= 0;
    assert i > 0 ==> d * i >= 2 * i;
  }

  lemma Swap(d: int, i: int, j: int)
    ensures (d * j) * i == (d * i) * j
  {
  }

  // ----- universal hashing

  ghost predicate Prime(p: nat)
  {
    p > 1 && forall a: nat :: 0 < a < p ==> Coprime(a, p)
  }

  /** The coefficients a and b send x to s and y to t. */
  ghost predicate Sends(a: nat, b: nat, p: nat, x: nat, s: nat, y: nat, t: nat)
    requires p > 0
  {
    a < p && b < p && Permuted(a, b, p, x) == s && Permuted(a, b, p, y) == t
  }

  /** The difference of two residues can be inverted. */
  lemma DifferenceInverts(p: nat, x: nat, y: nat) returns (u: int, v: int)
    requires Prime(p) && x < p && y < p && x != y
    ensures u * (x - y) + v * p == 1
  {
    var d := (x - y) % p;
    var q := (x - y) / p;
    assert x - y == p * q + d;
    if d == 0 {
      NoSmallMultiple(p, q);
    }
    var i, j := Bezout(d, p);
    u, v := i, j - i * q;
    assert i * (p * q) == i * q * p;
    assert u * (x - y) == i * (p * q) + i * d;
  }

  lemma ResidueOf(m: int, r: nat, p: nat, k: int)
    requires 0 <= r < p && m - r == p * k
    ensures m % p == r
  {
    assert Times(p, k, m - r);
    SameResidue(m, r, p);
    Remainder(0, r, p);
  }

  lemma SecondImage(a: int, e: int, p: int, u: int, v: int, diff: int, r: int, q: int)
    requires u * e + v * p == 1 && a == diff * u - p * r
    ensures diff - a * e - p * q == p * (diff * v + r * e - q)
  {
    assert diff * (u * e) + diff * (v * p) == diff;
    assert a * e == diff * (u * e) - p * (r * e);
    assert diff * (v * p) == p * (diff * v);
  }

  /** For a prime modulus some coefficients send two different values to any two given images. */
  lemma SomeSends(p: nat, x: nat, y: nat, s: nat, t: nat) returns (a: nat, b: nat)
    requires Prime(p) && x < p && y < p && x != y && s < p && t < p
    ensures Sends(a, b, p, x, s, y, t)
  {
    var u, v := DifferenceInverts(p, x, y);
    var whole, diff := (s - t) * u, s - t;
    a := whole % p;
    var r := whole / p;
    assert whole == p * r + a;
    var rest := s - a * x;
    b := rest % p;
    var q := rest / p;
    assert rest == p * q + b;
    assert a * x + b - s == p * -q;
    ResidueOf(a * x + b, s, p, -q);
    SecondImage(a, x - y, p, u, v, diff, r, q);
    assert a * (x - y) == a * x - a * y;
    ResidueOf(a * y + b, t, p, diff * v + r * (x - y) - q);
  }

  /** And only one pair of coefficients does. */
  lemma OnlyOneSends(p: nat, x: nat, y: nat, s: nat, t: nat, a: nat, b: nat, c: nat, d: nat)
    requires Prime(p) && x < p && y < p && x != y
    requires Sends(a, b, p, x, s, y, t) && Sends(c, d, p, x, s, y, t)
    ensures a == c && b == d
  {
    var u, v := DifferenceInverts(p, x, y);
    SameResidue(a * x + b, c * x + d, p);
    SameResidue(a * y + b, c * y + d, p);
    var i :| Times(p, i, (a * x + b) - (c * x + d));
    var j :| Times(p, j, (a * y + b) - (c * y + d));
    Subtract(a, b, c, d, x, y, p, i, j);
    Cancel(x - y, p, u, v, a - c, i - j);
    NoSmallMultiple(p, u * (i - j) + v * (a - c));
    NoSmallMultiple(p, i);
  }

  lemma Subtract(a: int, b: int, c: int, d: int, x: int, y: int, p: int, i: int, j: int)
    requires p * i == (a * x + b) - (c * x + d) && p * j == (a * y + b) - (c * y + d)
    ensures (x - y) * (a - c) == p * (i - j)
  {
    assert p * (i - j) == a * x - c * x - (a * y - c * y);
    assert (x - y) * (a - c) == a * x - c * x - (a * y - c * y);
  }

  /** The permutations are a universal family: modulo a prime, exactly one pair of coefficients sends two
      different hash values to two given images, whatever these are. */
  lemma PairwiseIndependent(p: nat, x: nat, y: nat, s: nat, t: nat)
    requires Prime(p) && x < p && y < p && x != y && s < p && t < p
    ensures exists a, b ::
      && Sends(a, b, p, x, s, y, t)
      && forall c, d :: Sends(c, d, p, x, s, y, t) ==> c == a && d == b
  {
    hide Sends, Prime;
    var a, b := SomeSends(p, x, y, s, t);
    forall c, d | Sends(c, d, p, x, s, y, t) ensures c == a && d == b {
      OnlyOneSends(p, x, y, s, t, a, b, c, d);
    }
  }

  // ----- what a signature entry says

  ghost predicate Residues(hs: set<nat>, p: nat)
  {
    forall h :: h in hs ==> h < p
  }

  /** The entry of a union is the smaller of the two entries, also when one of the sets is empty. */
  lemma EntryOfUnion(x: nat, y: nat, z: nat, a: nat, b: nat, p: nat, xs: set<nat>, ys: set<nat>)
    requires p > 0 && IsEntry(x, a, b, p, xs) && IsEntry(y, a, b, p, ys) && IsEntry(z, a, b, p, xs + ys)
    ensures z == if x <= y then x else y
  {
    hide Permuted;
    forall h ensures Permuted(a, b, p, h) < p { PermutedBelow(a, b, p, h); }
  }

  lemma PermutedBelow(a: nat, b: nat, p: nat, h: nat)
    requires p > 0
    ensures Permuted(a, b, p, h) < p
  {
  }

  /** Two entries agree exactly when the hash value that is least over the union lies in both sets. */
  lemma EntriesAgree(x: nat, y: nat, a: nat, b: nat, p: nat, xs: set<nat>, ys: set<nat>)
    requires p > 0 && Coprime(a, p) && Residues(xs, p) && Residues(ys, p) && xs + ys != {}
    requires IsEntry(x, a, b, p, xs) && IsEntry(y, a, b, p, ys)
    ensures x == y
      <==> exists h :: h in xs && h in ys && forall k :: k in xs + ys ==> Permuted(a, b, p, h) <= Permuted(a, b, p, k)
  {
    CoprimeIsInjective(a, b, p);
    EntryBelow(x, a, b, p, xs);
    EntryBelow(y, a, b, p, ys);
    hide Coprime, Permuted;
    if x == y {
      var h :| h in xs && Permuted(a, b, p, h) == x;
      var k :| k in ys && Permuted(a, b, p, k) == y;
      assert h == k;
    }
  }

  lemma EntryBelow(x: nat, a: nat, b: nat, p: nat, xs: set<nat>)
    requires p > 0 && IsEntry(x, a, b, p, xs)
    ensures x < p <==> xs != {}
  {
    forall h ensures Permuted(a, b, p, h) < p { PermutedBelow(a, b, p, h); }
    hide Permuted;
  }
}
