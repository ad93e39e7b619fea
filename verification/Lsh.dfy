/** Banded LSH over MinHash signatures (processing/deduplicator.py): an index that stands in for a
    scan of all stored signatures. */
module Lsh {
  import opened Numbers

  type Key = string
  type Signature = seq<int>
  type Buckets = map<(nat, int), set<Key>>

  // ----- how far two signatures are apart

  /** The number of positions at which two sequences of one length differ. */
  function DiffCount<T(==)>(s: seq<T>, t: seq<T>): (n: nat)
    requires |s| == |t|
    ensures n <= |s|
  {
    if s == [] then 0
    else DiffCount(s[..|s| - 1], t[..|s| - 1]) + (if s[|s| - 1] == t[|s| - 1] then 0 else 1)
  }

  /** MinHash.similarity: the fraction of equal positions; zero for empty or unequal lengths. */
  function Similarity(s: Signature, t: Signature): real
  {
    if s == [] || |s| != |t| then 0.0 else (|s| - DiffCount(s, t)) as real / |s| as real
  }

  lemma {:induction false} DiffConcat<T>(a: seq<T>, b: seq<T>, c: seq<T>, d: seq<T>)
    requires |a| == |c| && |b| == |d|
    ensures DiffCount(a + b, c + d) == DiffCount(a, c) + DiffCount(b, d)
    decreases |b|
  {
    if b == [] {
      assert a + b == a && c + d == c;
    } else {
      var k := |b| - 1;
      DiffConcat(a, b[..k], c, d[..k]);
      assert (a + b)[..|a + b| - 1] == a + b[..k] && (c + d)[..|a + b| - 1] == c + d[..k];
    }
  }

  lemma {:induction false} DiffZero<T>(s: seq<T>, t: seq<T>)
    requires |s| == |t|
    ensures DiffCount(s, t) == 0 <==> s == t
    decreases |s|
  {
    if s != [] {
      var k := |s| - 1;
      DiffZero(s[..k], t[..k]);
      assert s == s[..k] + [s[k]] && t == t[..k] + [t[k]];
    }
  }

  lemma {:induction false} DiffAll<T>(s: seq<T>, t: seq<T>)
    requires |s| == |t|
    ensures DiffCount(s, t) == |s| <==> forall i :: 0 <= i < |s| ==> s[i] != t[i]
    decreases |s|
  {
    if s != [] {
      DiffAll(s[..|s| - 1], t[..|s| - 1]);
    }
  }

  lemma Fraction(part: int, n: nat)
    requires 0 <= part <= n && n > 0
    ensures var f := part as real / n as real; 0.0 <= f <= 1.0 && (f == 1.0 <==> part == n) && (f == 0.0 <==> part == 0)
  {
    var f := part as real / n as real;
    assert f * n as real == part as real;
    TimesOrder(f, 1.0, n as real);
    TimesOrder(1.0, f, n as real);
    TimesOrder(f, 0.0, n as real);
    TimesOrder(0.0, f, n as real);
  }

  /** Similarity is one exactly for equal signatures, and zero exactly when nothing agrees: when the
      lengths differ, or no position is equal. */
  lemma SimilarityRange(s: Signature, t: Signature)
    ensures 0.0 <= Similarity(s, t) <= 1.0
    ensures Similarity(s, t) == 1.0 <==> s == t && s != []
    ensures Similarity(s, t) == 0.0 <==> s == [] || |s| != |t| || forall i :: 0 <= i < |s| ==> s[i] != t[i]
  {
    if s != [] && |s| == |t| {
      DiffZero(s, t);
      DiffAll(s, t);
      hide DiffCount;
      Fraction(|s| - DiffCount(s, t), |s|);
    }
  }

  // ----- bands

  function Least(a: nat, b: nat): nat { if a <= b then a else b }

  /** One band of a signature; a slice is cut off at the end of the signature. */
  function Band(sig: Signature, rows: nat, b: nat): Signature
  {
    sig[Least(b * rows, |sig|)..Least((b + 1) * rows, |sig|)]
  }

  ghost predicate SomeBandAgrees(s: Signature, t: Signature, bands: nat, rows: nat)
  {
    exists b :: 0 <= b < bands && Band(s, rows, b) == Band(t, rows, b)
  }

  /** If each of the first b bands differs, there are at least b differences. */
  lemma {:induction false} Pigeonhole(s: Signature, t: Signature, rows: nat, b: nat)
    requires |s| == |t| && b * rows <= |s|
    requires forall i :: 0 <= i < b ==> Band(s, rows, i) != Band(t, rows, i)
    ensures DiffCount(s[..b * rows], t[..b * rows]) >= b
    decreases b
  {
    if b > 0 {
      var from, to := (b - 1) * rows, b * rows;
      assert to == from + rows;
      Pigeonhole(s, t, rows, b - 1);
      assert Band(s, rows, b - 1) == s[from..to] && Band(t, rows, b - 1) == t[from..to];
      DiffZero(s[from..to], t[from..to]);
      assert s[..to] == s[..from] + s[from..to] && t[..to] == t[..from] + t[from..to];
      DiffConcat(s[..from], s[from..to], t[..from], t[from..to]);
    }
  }

  lemma RowsFit(numPerm: nat, bands: nat)
    requires bands > 0
    ensures bands * (numPerm / bands) <= numPerm
  {
  }

  lemma AllBandsDiffer(s: Signature, t: Signature, bands: nat, rows: nat)
    requires |s| == |t| && bands * rows <= |s| && !SomeBandAgrees(s, t, bands, rows)
    ensures DiffCount(s, t) >= bands
  {
    Pigeonhole(s, t, rows, bands);
    DiffPrefix(s, t, bands * rows);
    hide Band, DiffCount;
  }

  lemma DiffPrefix<T>(s: seq<T>, t: seq<T>, n: nat)
    requires n <= |s| == |t|
    ensures DiffCount(s[..n], t[..n]) <= DiffCount(s, t)
  {
    hide DiffCount;
    assert s == s[..n] + s[n..] && t == t[..n] + t[n..];
    DiffConcat(s[..n], s[n..], t[..n], t[n..]);
  }

  /** Fewer differences than bands leave a whole band equal. */
  lemma FewDifferences(s: Signature, t: Signature, bands: nat)
    requires bands > 0 && |s| == |t| && DiffCount(s, t) < bands
    ensures SomeBandAgrees(s, t, bands, |s| / bands)
  {
    hide Band, SomeBandAgrees, DiffCount;
    RowsFit(|s|, bands);
    var rows := |s| / bands;
    if !SomeBandAgrees(s, t, bands, rows) {
      AllBandsDiffer(s, t, bands, rows);
    }
  }

  // ----- the index as a value

  function Members(buckets: Buckets, bk: (nat, int)): set<Key>
  {
    if bk in buckets then buckets[bk] else {}
  }

  /** Every stored key is in the bucket of each of its bands, and every key in a bucket is stored. A
      key added again may linger in buckets of its earlier signature. */
  ghost predicate Indexed(bands: nat, rows: nat, hash: Signature -> int, buckets: Buckets, sigs: map<Key, Signature>)
  {
    && (forall k, b :: k in sigs && 0 <= b < bands ==> k in Members(buckets, (b, hash(Band(sigs[k], rows, b)))))
    && (forall bk, k :: bk in buckets && k in buckets[bk] ==> k in sigs)
  }

  ghost predicate IsCandidate(bands: nat, rows: nat, hash: Signature -> int, buckets: Buckets, sig: Signature, k: Key)
  {
    exists b :: 0 <= b < bands && k in Members(buckets, (b, hash(Band(sig, rows, b))))
  }

  /** A stored signature that agrees with sig on a band is found, whatever else the hash maps together. */
  lemma AgreementIsFound(bands: nat, rows: nat, hash: Signature -> int, buckets: Buckets, sigs: map<Key, Signature>,
                         sig: Signature, k: Key)
    requires Indexed(bands, rows, hash, buckets, sigs) && k in sigs
    requires SomeBandAgrees(sig, sigs[k], bands, rows)
    ensures IsCandidate(bands, rows, hash, buckets, sig, k)
  {
    var b :| 0 <= b < bands && Band(sig, rows, b) == Band(sigs[k], rows, b);
    assert k in Members(buckets, (b, hash(Band(sigs[k], rows, b))));
  }

  lemma CountBound(n: real, d: real, threshold: real)
    requires n > 0.0
    ensures (n - d) / n >= threshold <==> d <= (1.0 - threshold) * n
  {
    var q := (n - d) / n;
    assert q * n == n - d;
    if q >= threshold {
      assert q * n >= threshold * n;
    } else {
      assert (threshold - q) * n > 0.0;
    }
  }

  /** The similarity threshold bounds the number of differences. */
  lemma SimilarDiffers(s: Signature, t: Signature, threshold: real, bands: nat)
    requires |s| == |t| && s != [] && (1.0 - threshold) * |s| as real < bands as real
    requires Similarity(s, t) >= threshold
    ensures DiffCount(s, t) < bands
  {
    hide DiffCount;
    var d := DiffCount(s, t);
    assert Similarity(s, t) == (|s| as real - d as real) / |s| as real;
    CountBound(|s| as real, d as real, threshold);
  }

  /** Fewer differences than bands are compatible with the threshold, or the bands are empty slices, on
      which all signatures agree. */
  predicate Complete(numPerm: nat, bands: nat, threshold: real)
  {
    numPerm < bands || (1.0 - threshold) * numPerm as real < bands as real
  }

  lemma EmptyBandsAgree(s: Signature, t: Signature, bands: nat)
    requires |s| == |t| < bands
    ensures SomeBandAgrees(s, t, bands, |s| / bands)
  {
    assert Band(s, 0, 0) == Band(t, 0, 0);
  }

  lemma SimilarAgree(numPerm: nat, bands: nat, threshold: real, s: Signature, t: Signature)
    requires 0 < bands && Complete(numPerm, bands, threshold)
    requires |s| == |t| == numPerm && Similarity(s, t) >= threshold
    ensures SomeBandAgrees(s, t, bands, numPerm / bands)
  {
    if numPerm < bands {
      EmptyBandsAgree(s, t, bands);
    } else {
      SimilarDiffers(s, t, threshold, bands);
      FewDifferences(s, t, bands);
    }
  }

  /** Looking only at the candidates gives the answer of a scan over all stored signatures. */
  lemma IndexEqualsScan(numPerm: nat, bands: nat, hash: Signature -> int, buckets: Buckets, sigs: map<Key, Signature>,
                        sig: Signature, threshold: real)
    requires bands > 0 && Indexed(bands, numPerm / bands, hash, buckets, sigs)
    requires |sig| == numPerm && forall k :: k in sigs ==> |sigs[k]| == numPerm
    requires Complete(numPerm, bands, threshold)
    ensures (exists k :: k in sigs && IsCandidate(bands, numPerm / bands, hash, buckets, sig, k)
                           && Similarity(sig, sigs[k]) >= threshold)
       <==> (exists k :: k in sigs && Similarity(sig, sigs[k]) >= threshold)
  {
    forall k | k in sigs && Similarity(sig, sigs[k]) >= threshold
      ensures IsCandidate(bands, numPerm / bands, hash, buckets, sig, k)
    {
      SimilarAgree(numPerm, bands, threshold, sig, sigs[k]);
      AgreementIsFound(bands, numPerm / bands, hash, buckets, sigs, sig, k);
    }
  }

  // ----- the bound is exact

  function Zeros(n: nat): (s: Signature)
    ensures |s| == n && forall i :: 0 <= i < n ==> s[i] == 0
  {
    if n == 0 then [] else Zeros(n - 1) + [0]
  }

  /** A signature with a one at the start of each of b bands and zeros elsewhere. */
  function Marked(b: nat, rows: nat): Signature
    requires rows > 0
  {
    if b == 0 then [] else Marked(b - 1, rows) + ([1] + Zeros(rows - 1))
  }

  lemma {:induction false} MarkedLength(b: nat, rows: nat)
    requires rows > 0
    ensures |Marked(b, rows)| == b * rows
    decreases b
  {
    if b > 0 {
      MarkedLength(b - 1, rows);
      assert b * rows == (b - 1) * rows + rows;
    }
  }

  lemma {:induction false} MarkedStarts(b: nat, rows: nat, i: nat)
    requires rows > 0 && i < b
    ensures i * rows < |Marked(b, rows)| && Marked(b, rows)[i * rows] == 1
    decreases b
  {
    MarkedLength(b, rows);
    MarkedLength(b - 1, rows);
    RowBefore(i, b - 1, rows);
    if i < b - 1 {
      MarkedStarts(b - 1, rows, i);
    }
  }

  lemma RowBefore(i: nat, k: nat, rows: nat)
    requires i <= k
    ensures i * rows <= k * rows && (k + 1) * rows == k * rows + rows
  {
  }

  lemma {:induction false} MarkedDiffers(b: nat, rows: nat)
    requires rows > 0
    ensures DiffCount(Zeros(|Marked(b, rows)|), Marked(b, rows)) == b
    decreases b
  {
    hide DiffCount, Zeros;
    if b > 0 {
      MarkedDiffers(b - 1, rows);
      MarkAnother(Marked(b - 1, rows), rows);
    }
  }

  lemma MarkAnother(marked: Signature, rows: nat)
    requires rows > 0
    ensures var more := marked + ([1] + Zeros(rows - 1));
      DiffCount(Zeros(|more|), more) == DiffCount(Zeros(|marked|), marked) + 1
  {
    hide DiffCount, Zeros;
    ZerosSplit(|marked|, rows);
    OneMark(rows);
    DiffConcat(Zeros(|marked|), [0] + Zeros(rows - 1), marked, [1] + Zeros(rows - 1));
  }

  lemma ZerosSplit(n: nat, rows: nat)
    requires rows > 0
    ensures Zeros(n + rows) == Zeros(n) + ([0] + Zeros(rows - 1))
  {
    hide Zeros;
  }

  lemma OneMark(rows: nat)
    requires rows > 0
    ensures DiffCount([0] + Zeros(rows - 1), [1] + Zeros(rows - 1)) == 1
  {
    DiffZero(Zeros(rows - 1), Zeros(rows - 1));
    assert DiffCount([0], [1]) == 1 by { assert [0][..0] == []; }
    hide DiffCount, Zeros;
    DiffConcat([0], Zeros(rows - 1), [1], Zeros(rows - 1));
  }

  /** The two signatures start every band differently. */
  ghost predicate StartDifferently(s: Signature, t: Signature, bands: nat, rows: nat)
  {
    forall b :: 0 <= b < bands ==> FirstEntry(Band(s, rows, b)) != FirstEntry(Band(t, rows, b))
  }

  /** A hash that looks at the first entry only. */
  function FirstEntry(sig: Signature): int
  {
    if sig == [] then -1 else sig[0]
  }

  /** Two signatures that differ exactly once in every band, at its start. */
  lemma OneDifferencePerBand(numPerm: nat, bands: nat) returns (s: Signature, t: Signature)
    requires 0 < bands <= numPerm
    ensures |s| == |t| == numPerm && DiffCount(s, t) == bands && StartDifferently(s, t, bands, numPerm / bands)
  {
    var rows := numPerm / bands;
    RowsFit(numPerm, bands);
    RowsPositive(numPerm, bands);
    var n := bands * rows;
    var tail := Zeros(numPerm - n);
    s, t := Zeros(n) + tail, Marked(bands, rows) + tail;
    MarkedLength(bands, rows);
    MarkedDiffers(bands, rows);
    DiffConcat(Zeros(n), tail, Marked(bands, rows), tail);
    DiffZero(tail, tail);
    forall b | 0 <= b < bands ensures FirstEntry(Band(s, rows, b)) != FirstEntry(Band(t, rows, b)) {
      MarkedStarts(bands, rows, b);
      BandStart(s, rows, b);
      BandStart(t, rows, b);
    }
  }

  lemma RowsPositive(numPerm: nat, bands: nat)
    requires 0 < bands <= numPerm
    ensures numPerm / bands > 0
  {
  }

  lemma BandStart(sig: Signature, rows: nat, b: nat)
    requires rows > 0 && b * rows < |sig|
    ensures FirstEntry(Band(sig, rows, b)) == sig[b * rows]
  {
    assert (b + 1) * rows == b * rows + rows;
  }

  lemma MissAboveBound(numPerm: nat, bands: nat, threshold: real) returns (s: Signature, t: Signature)
    requires 0 < bands && !Complete(numPerm, bands, threshold)
    ensures |s| == |t| == numPerm && Similarity(s, t) >= threshold && StartDifferently(s, t, bands, numPerm / bands)
  {
    s, t := OneDifferencePerBand(numPerm, bands);
    hide DiffCount, StartDifferently;
    assert Similarity(s, t) == (numPerm as real - bands as real) / numPerm as real;
    CountBound(numPerm as real, bands as real, threshold);
  }

  lemma NoneAgrees(s: Signature, t: Signature, bands: nat, rows: nat)
    requires StartDifferently(s, t, bands, rows)
    ensures !SomeBandAgrees(s, t, bands, rows)
  {
  }

  /** The index can be relied on for every pair of similar signatures exactly when fewer than
      `bands` differences are compatible with the threshold, or there are more bands than entries. */
  lemma BoundIsExact(numPerm: nat, bands: nat, threshold: real)
    requires 0 < bands
    ensures (forall s: Signature, t: Signature :: |s| == |t| == numPerm && Similarity(s, t) >= threshold
              ==> SomeBandAgrees(s, t, bands, numPerm / bands))
       <==> Complete(numPerm, bands, threshold)
  {
    hide Similarity, SomeBandAgrees, Complete, StartDifferently;
    if Complete(numPerm, bands, threshold) {
      forall s: Signature, t: Signature | |s| == |t| == numPerm && Similarity(s, t) >= threshold
        ensures SomeBandAgrees(s, t, bands, numPerm / bands)
      {
        SimilarAgree(numPerm, bands, threshold, s, t);
      }
    } else {
      var s, t := MissAboveBound(numPerm, bands, threshold);
      NoneAgrees(s, t, bands, numPerm / bands);
    }
  }
}
