/** The LSH index as an object, SimHash, and the near-duplicate detector built on them
    (processing/deduplicator.py). Hash functions are opaque parameters. */
module Deduplicator {
  import opened Lsh

  /** The buckets with key added to those of sig's first `bands` bands. */
  function FileBands(bands: nat, rows: nat, hash: Signature -> int, buckets: Buckets, key: Key, sig: Signature): Buckets
  {
    if bands == 0 then
      buckets
    else
      var before := FileBands(bands - 1, rows, hash, buckets, key, sig);
      var bk := (bands - 1, hash(Band(sig, rows, bands - 1)));
      before[bk := Members(before, bk) + {key}]
  }

  /** after is before with key added to the buckets of sig's first `bands` bands, and nothing else. */
  ghost predicate Filed(bands: nat, rows: nat, hash: Signature -> int, before: Buckets, after: Buckets, key: Key,
                        sig: Signature)
  {
    forall bk: (nat, int), k ::
      k in Members(after, bk) <==>
        k in Members(before, bk) || (k == key && bk.0 < bands && bk.1 == hash(Band(sig, rows, bk.0)))
  }

  lemma {:induction false} FileBandsFiles(bands: nat, rows: nat, hash: Signature -> int, buckets: Buckets, key: Key,
                                          sig: Signature)
    ensures Filed(bands, rows, hash, buckets, FileBands(bands, rows, hash, buckets, key, sig), key, sig)
    decreases bands
  {
    if bands > 0 {
      FileBandsFiles(bands - 1, rows, hash, buckets, key, sig);
      FiledNext(bands - 1, rows, hash, buckets, FileBands(bands - 1, rows, hash, buckets, key, sig), key, sig);
    }
  }

  lemma FiledNext(b: nat, rows: nat, hash: Signature -> int, before: Buckets, after: Buckets, key: Key, sig: Signature)
    requires Filed(b, rows, hash, before, after, key, sig)
    ensures var bk := (b, hash(Band(sig, rows, b)));
      Filed(b + 1, rows, hash, before, after[bk := Members(after, bk) + {key}], key, sig)
  {
    hide Band;
    var at := (b, hash(Band(sig, rows, b)));
    var next := after[at := Members(after, at) + {key}];
    forall bk: (nat, int), k
      ensures k in Members(next, bk) <==>
        k in Members(before, bk) || (k == key && bk.0 < b + 1 && bk.1 == hash(Band(sig, rows, bk.0)))
    {
      assert Members(next, bk) == if bk == at then Members(after, at) + {key} else Members(after, bk);
    }
  }

  class LSHIndex {
    const numPerm: nat
    const bands: nat
    const hash: Signature -> int
    var buckets: Buckets
    var sigs: map<Key, Signature>

    ghost predicate Valid()
      reads this
    {
      bands > 0 && Indexed(bands, numPerm / bands, hash, buckets, sigs)
    }

    constructor (numPerm: nat, bands: nat, hash: Signature -> int)
      requires bands > 0
      ensures Valid() && buckets == map[] && sigs == map[]
      ensures this.numPerm == numPerm && this.bands == bands && this.hash == hash
    {
      this.numPerm, this.bands, this.hash := numPerm, bands, hash;
      buckets, sigs := map[], map[];
    }

    function Rows(): nat
      requires bands > 0
    {
      numPerm / bands
    }

    /** add: the signature replaces any earlier one under the key; every band files the key. */
    method Add(key: Key, sig: Signature)
      requires Valid()
      modifies this
      ensures Valid() && sigs == old(sigs)[key := sig]
      ensures buckets == FileBands(bands, numPerm / bands, hash, old(buckets), key, sig)
    {
      hide Indexed, Band;
      var rows := Rows();
      sigs := sigs[key := sig];
      for b := 0 to bands
        invariant sigs == old(sigs)[key := sig]
        invariant buckets == FileBands(b, rows, hash, old(buckets), key, sig)
      {
        var bk := (b, hash(Band(sig, rows, b)));
        buckets := buckets[bk := Members(buckets, bk) + {key}];
      }
      FileBandsFiles(bands, rows, hash, old(buckets), key, sig);
      AddKeeps(bands, rows, hash, old(buckets), buckets, old(sigs), key, sig);
    }

    /** candidates: the keys that share a bucket with some band of sig. */
    method Candidates(sig: Signature) returns (found: set<Key>)
      requires Valid()
      ensures forall k :: k in found <==> IsCandidate(bands, numPerm / bands, hash, buckets, sig, k)
      ensures found <= sigs.Keys
    {
      var rows := Rows();
      found := {};
      for b := 0 to bands
        invariant forall k :: k in found <==> IsCandidate(b, rows, hash, buckets, sig, k)
      {
        found := found + Members(buckets, (b, hash(Band(sig, rows, b))));
      }
    }
  }

  lemma AddKeeps(bands: nat, rows: nat, hash: Signature -> int, buckets: Buckets, buckets': Buckets,
                 sigs: map<Key, Signature>, key: Key, sig: Signature)
    requires Indexed(bands, rows, hash, buckets, sigs)
    requires Filed(bands, rows, hash, buckets, buckets', key, sig)
    ensures Indexed(bands, rows, hash, buckets', sigs[key := sig])
  {
    hide Band;
    forall bk, k | bk in buckets' && k in buckets'[bk] ensures k in sigs[key := sig] {
      assert k in Members(buckets', bk);
      assert k in Members(buckets, bk) || k == key;
    }
  }

  // ----- the detector as a value

  type Bits = b: seq<bool> | |b| == 64 witness seq(64, _ => false)

  /** The parameters, with the hash functions of a band and of a text left open. */
  datatype Config = Config(
    threshold: real, maxDistance: nat, numPerm: nat, bands: nat, bandHash: Signature -> int,
    contentHash: string -> string, signatureOf: string -> Signature, simhashOf: string -> Bits)

  /** There are bands, and signatures have num_perm entries. */
  ghost predicate Proper(c: Config)
  {
    c.bands > 0 && forall t :: |c.signatureOf(t)| == c.numPerm
  }

  datatype Doc = Doc(key: Key, text: string)

  datatype Seen = Seen(exact: set<string>, buckets: Buckets, sigs: map<Key, Signature>, simhashes: map<Key, Bits>)

  const NOTHING := Seen({}, map[], map[], map[])

  function Rows(c: Config): nat
  {
    if c.bands == 0 then 0 else c.numPerm / c.bands
  }

  /** Some candidate's stored signature reaches the threshold. */
  ghost predicate NearCandidate(c: Config, s: Seen, sig: Signature)
  {
    exists k :: k in s.sigs && IsCandidate(c.bands, Rows(c), c.bandHash, s.buckets, sig, k)
      && Similarity(sig, s.sigs[k]) >= c.threshold
  }

  ghost predicate Close(c: Config, bits: Bits, simhashes: map<Key, Bits>)
  {
    exists k :: k in simhashes && DiffCount(bits, simhashes[k]) <= c.maxDistance
  }

  /** is_duplicate: the content hash, then the candidates, then every SimHash. */
  ghost predicate Duplicate(c: Config, s: Seen, text: string)
  {
    || c.contentHash(text) in s.exact
    || NearCandidate(c, s, c.signatureOf(text))
    || Close(c, c.simhashOf(text), s.simhashes)
  }

  function Register(c: Config, s: Seen, d: Doc): Seen
  {
    var sig := c.signatureOf(d.text);
    Seen(s.exact + {c.contentHash(d.text)},
         FileBands(c.bands, Rows(c), c.bandHash, s.buckets, d.key, sig),
         s.sigs[d.key := sig],
         s.simhashes[d.key := c.simhashOf(d.text)])
  }

  ghost function Run(c: Config, docs: seq<Doc>): Seen
  {
    if docs == [] then
      NOTHING
    else
      var s, d := Run(c, docs[..|docs| - 1]), docs[|docs| - 1];
      if Duplicate(c, s, d.text) then s else Register(c, s, d)
  }

  ghost function Accepted(c: Config, docs: seq<Doc>): seq<Doc>
  {
    if docs == [] then
      []
    else
      var s, d := Run(c, docs[..|docs| - 1]), docs[|docs| - 1];
      Accepted(c, docs[..|docs| - 1]) + (if Duplicate(c, s, d.text) then [] else [d])
  }

  lemma RunSnoc(c: Config, docs: seq<Doc>, d: Doc)
    ensures var s := Run(c, docs);
      && Run(c, docs + [d]) == (if Duplicate(c, s, d.text) then s else Register(c, s, d))
      && Accepted(c, docs + [d]) == Accepted(c, docs) + (if Duplicate(c, s, d.text) then [] else [d])
  {
    assert (docs + [d])[..|docs|] == docs;
  }

  /** The last document is registered and accepted, or changes nothing. */
  lemma LastStep(c: Config, docs: seq<Doc>)
    requires docs != []
    ensures var k := |docs| - 1;
      var s, before, d := Run(c, docs[..k]), Accepted(c, docs[..k]), docs[k];
      if Duplicate(c, s, d.text) then Run(c, docs) == s && Accepted(c, docs) == before
      else Run(c, docs) == Register(c, s, d) && Accepted(c, docs) == before + [d]
  {
  }

  // ----- the candidates and a scan

  ghost predicate Near(c: Config, sig: Signature, sigs: map<Key, Signature>)
  {
    exists k :: k in sigs && Similarity(sig, sigs[k]) >= c.threshold
  }

  /** What a scan over everything remembered says about a text. */
  ghost predicate ScanDuplicate(c: Config, s: Seen, text: string)
  {
    c.contentHash(text) in s.exact || Near(c, c.signatureOf(text), s.sigs) || Close(c, c.simhashOf(text), s.simhashes)
  }

  /** Every stored signature is filed in all its bands and has the right length. */
  ghost predicate Searchable(c: Config, s: Seen)
  {
    && Indexed(c.bands, Rows(c), c.bandHash, s.buckets, s.sigs)
    && (forall k :: k in s.sigs ==> |s.sigs[k]| == c.numPerm)
  }

  lemma RegisterKeeps(c: Config, s: Seen, d: Doc)
    requires Proper(c) && Searchable(c, s)
    ensures Searchable(c, Register(c, s, d))
  {
    var sig := c.signatureOf(d.text);
    FileBandsFiles(c.bands, Rows(c), c.bandHash, s.buckets, d.key, sig);
    var buckets := FileBands(c.bands, Rows(c), c.bandHash, s.buckets, d.key, sig);
    AddKeeps(c.bands, Rows(c), c.bandHash, s.buckets, buckets, s.sigs, d.key, sig);
    hide Indexed, Filed, FileBands;
  }

  lemma {:induction false} RunIsSearchable(c: Config, docs: seq<Doc>)
    requires Proper(c)
    ensures Searchable(c, Run(c, docs))
    decreases |docs|
  {
    if docs != [] {
      var k := |docs| - 1;
      RunIsSearchable(c, docs[..k]);
      RegisterKeeps(c, Run(c, docs[..k]), docs[k]);
    }
  }

  /** The detector never reports what a scan would not; with a complete index it reports the same. */
  lemma DuplicateIsScan(c: Config, s: Seen, text: string)
    requires Proper(c) && Searchable(c, s)
    ensures Duplicate(c, s, text) ==> ScanDuplicate(c, s, text)
    ensures Complete(c.numPerm, c.bands, c.threshold) ==> (Duplicate(c, s, text) <==> ScanDuplicate(c, s, text))
  {
    if Complete(c.numPerm, c.bands, c.threshold) {
      IndexEqualsScan(c.numPerm, c.bands, c.bandHash, s.buckets, s.sigs, c.signatureOf(text), c.threshold);
    }
  }

  // ----- what was accepted

  /** A text once accepted is reported as a duplicate ever after, even when its key is used again. */
  lemma {:induction false} AcceptedStaysKnown(c: Config, docs: seq<Doc>, d: Doc)
    requires d in Accepted(c, docs)
    ensures c.contentHash(d.text) in Run(c, docs).exact
    ensures Duplicate(c, Run(c, docs), d.text)
    decreases |docs|
  {
    var k := |docs| - 1;
    if d in Accepted(c, docs[..k]) {
      AcceptedStaysKnown(c, docs[..k], d);
    }
  }

  /** Something accepted has the same content hash, a signature that reaches the threshold, or a SimHash
      within the maximum distance. */
  ghost predicate HasReason(c: Config, docs: seq<Doc>, text: string)
  {
    exists d :: d in docs && (c.contentHash(d.text) == c.contentHash(text)
      || Similarity(c.signatureOf(text), c.signatureOf(d.text)) >= c.threshold
      || DiffCount(c.simhashOf(text), c.simhashOf(d.text)) <= c.maxDistance)
  }

  /** All that is remembered comes from accepted documents. */
  ghost predicate Remembers(c: Config, s: Seen, docs: seq<Doc>)
  {
    && (forall h :: h in s.exact ==> exists d :: d in docs && c.contentHash(d.text) == h)
    && (forall k :: k in s.sigs ==> exists d :: d in docs && d.key == k && c.signatureOf(d.text) == s.sigs[k])
    && (forall k :: k in s.simhashes ==> exists d :: d in docs && d.key == k && c.simhashOf(d.text) == s.simhashes[k])
  }

  lemma RemembersNext(c: Config, s: Seen, docs: seq<Doc>, d: Doc)
    requires Remembers(c, s, docs)
    ensures Remembers(c, Register(c, s, d), docs + [d])
  {
    hide FileBands;
    assert d in docs + [d] && forall e :: e in docs ==> e in docs + [d];
  }

  lemma {:induction false} RunRemembers(c: Config, docs: seq<Doc>)
    ensures Remembers(c, Run(c, docs), Accepted(c, docs))
    decreases |docs|
  {
    if docs != [] {
      var k := |docs| - 1;
      LastStep(c, docs);
      RunRemembers(c, docs[..k]);
      hide Run, Accepted, Duplicate, FileBands, Remembers;
      if !Duplicate(c, Run(c, docs[..k]), docs[k].text) {
        RemembersNext(c, Run(c, docs[..k]), Accepted(c, docs[..k]), docs[k]);
      }
    }
  }

  lemma ReasonRemembered(c: Config, s: Seen, docs: seq<Doc>, text: string)
    requires Remembers(c, s, docs) && Duplicate(c, s, text)
    ensures HasReason(c, docs, text)
  {
    hide Similarity, DiffCount, IsCandidate;
  }

  /** Nothing is reported without a reason: a text reported as a duplicate has the content hash of an
      accepted document, or is similar to one by its signature or its SimHash. */
  lemma ReportedForAReason(c: Config, docs: seq<Doc>, text: string)
    requires Duplicate(c, Run(c, docs), text)
    ensures HasReason(c, Accepted(c, docs), text)
  {
    RunRemembers(c, docs);
    ReasonRemembered(c, Run(c, docs), Accepted(c, docs), text);
  }

  ghost predicate DistinctKeys(docs: seq<Doc>)
  {
    forall i, j :: 0 <= i < j < |docs| ==> docs[i].key != docs[j].key
  }

  ghost predicate SignatureStored(c: Config, s: Seen, d: Doc)
  {
    d.key in s.sigs && s.sigs[d.key] == c.signatureOf(d.text)
  }

  ghost predicate SimHashStored(c: Config, s: Seen, d: Doc)
  {
    d.key in s.simhashes && s.simhashes[d.key] == c.simhashOf(d.text)
  }

  lemma DistinctPrefix(docs: seq<Doc>, d: Doc)
    requires DistinctKeys(docs + [d])
    ensures DistinctKeys(docs)
    ensures forall e :: e in docs ==> e.key != d.key
  {
    var all := docs + [d];
    assert all[|docs|] == d && forall i :: 0 <= i < |docs| ==> all[i] == docs[i];
  }

  lemma OtherKeyKeeps(c: Config, s: Seen, d: Doc, e: Doc)
    requires SignatureStored(c, s, e) && SimHashStored(c, s, e) && e.key != d.key
    ensures SignatureStored(c, Register(c, s, d), e) && SimHashStored(c, Register(c, s, d), e)
  {
  }

  /** When no two accepted documents have the same key, each is still stored under its key. */
  lemma {:induction false} AcceptedIsStored(c: Config, docs: seq<Doc>, d: Doc)
    requires DistinctKeys(Accepted(c, docs)) && d in Accepted(c, docs)
    ensures SignatureStored(c, Run(c, docs), d) && SimHashStored(c, Run(c, docs), d)
    decreases |docs|
  {
    var k := |docs| - 1;
    LastStep(c, docs);
    hide Run, Accepted, Duplicate, FileBands;
    if Duplicate(c, Run(c, docs[..k]), docs[k].text) {
      AcceptedIsStored(c, docs[..k], d);
    } else {
      DistinctPrefix(Accepted(c, docs[..k]), docs[k]);
      if d in Accepted(c, docs[..k]) {
        AcceptedIsStored(c, docs[..k], d);
        OtherKeyKeeps(c, Run(c, docs[..k]), docs[k], d);
      }
    }
  }

  ghost predicate SignaturesApart(c: Config, docs: seq<Doc>)
  {
    forall i, j :: 0 <= i < j < |docs|
      ==> Similarity(c.signatureOf(docs[j].text), c.signatureOf(docs[i].text)) < c.threshold
  }

  ghost predicate SimHashesApart(c: Config, docs: seq<Doc>)
  {
    forall i, j :: 0 <= i < j < |docs|
      ==> DiffCount(c.simhashOf(docs[j].text), c.simhashOf(docs[i].text)) > c.maxDistance
  }

  lemma SimHashesNext(c: Config, docs: seq<Doc>, d: Doc)
    requires SimHashesApart(c, docs)
    requires forall i :: 0 <= i < |docs| ==> DiffCount(c.simhashOf(d.text), c.simhashOf(docs[i].text)) > c.maxDistance
    ensures SimHashesApart(c, docs + [d])
  {
    hide DiffCount;
  }

  lemma SignaturesNext(c: Config, docs: seq<Doc>, d: Doc)
    requires SignaturesApart(c, docs)
    requires forall i :: 0 <= i < |docs| ==>
                        Similarity(c.signatureOf(d.text), c.signatureOf(docs[i].text)) < c.threshold
    ensures SignaturesApart(c, docs + [d])
  {
    hide Similarity;
  }

  lemma FarFromStored(c: Config, s: Seen, d: Doc, e: Doc)
    requires !Duplicate(c, s, d.text) && SimHashStored(c, s, e)
    ensures DiffCount(c.simhashOf(d.text), c.simhashOf(e.text)) > c.maxDistance
  {
    hide DiffCount, NearCandidate;
  }

  lemma UnlikeStored(c: Config, s: Seen, d: Doc, e: Doc)
    requires !ScanDuplicate(c, s, d.text) && SignatureStored(c, s, e)
    ensures Similarity(c.signatureOf(d.text), c.signatureOf(e.text)) < c.threshold
  {
    hide Similarity, Close;
  }

  /** The documents before the last one have different keys: the last one may reuse a key. */
  ghost predicate DistinctBefore(docs: seq<Doc>)
  {
    docs != [] ==> DistinctKeys(docs[..|docs| - 1])
  }

  lemma DistinctEarlier(docs: seq<Doc>, d: Doc)
    requires DistinctBefore(docs + [d])
    ensures DistinctKeys(docs) && DistinctBefore(docs)
  {
    assert (docs + [d])[..|docs|] == docs;
    if docs != [] {
      var k := |docs| - 1;
      assert docs == docs[..k] + [docs[k]];
      DistinctPrefix(docs[..k], docs[k]);
    }
  }

  lemma DistinctIsBefore(docs: seq<Doc>)
    requires DistinctKeys(docs)
    ensures DistinctBefore(docs)
  {
    if docs != [] {
      var k := |docs| - 1;
      assert docs == docs[..k] + [docs[k]];
      DistinctPrefix(docs[..k], docs[k]);
    }
  }

  /** When no two accepted documents but the last have the same key, any two have SimHashes further
      apart than the maximum distance, whatever the index finds. */
  lemma {:induction false} SimHashesAreApart(c: Config, docs: seq<Doc>)
    requires DistinctBefore(Accepted(c, docs))
    ensures SimHashesApart(c, Accepted(c, docs))
    decreases |docs|
  {
    if docs != [] {
      var k := |docs| - 1;
      var before, s, d := Accepted(c, docs[..k]), Run(c, docs[..k]), docs[k];
      LastStep(c, docs);
      hide Run, Accepted, Duplicate, FileBands, DiffCount, SimHashesApart, DistinctKeys, DistinctBefore;
      if Duplicate(c, s, d.text) {
        SimHashesAreApart(c, docs[..k]);
      } else {
        DistinctEarlier(before, d);
        SimHashesAreApart(c, docs[..k]);
        forall i | 0 <= i < |before|
          ensures DiffCount(c.simhashOf(d.text), c.simhashOf(before[i].text)) > c.maxDistance
        {
          AcceptedIsStored(c, docs[..k], before[i]);
          FarFromStored(c, s, d, before[i]);
        }
        SimHashesNext(c, before, d);
      }
    }
  }

  /** With a complete index their signatures are also below the threshold. */
  lemma {:induction false} SignaturesAreApart(c: Config, docs: seq<Doc>)
    requires Proper(c) && Complete(c.numPerm, c.bands, c.threshold) && DistinctBefore(Accepted(c, docs))
    ensures SignaturesApart(c, Accepted(c, docs))
    decreases |docs|
  {
    if docs != [] {
      var k := |docs| - 1;
      var before, s, d := Accepted(c, docs[..k]), Run(c, docs[..k]), docs[k];
      LastStep(c, docs);
      hide Run, Accepted, Duplicate, FileBands, Similarity, Complete, Searchable, ScanDuplicate, SignaturesApart,
           DistinctKeys, DistinctBefore;
      if Duplicate(c, s, d.text) {
        SignaturesAreApart(c, docs[..k]);
      } else {
        DistinctEarlier(before, d);
        SignaturesAreApart(c, docs[..k]);
        RunIsSearchable(c, docs[..k]);
        DuplicateIsScan(c, s, d.text);
        forall i | 0 <= i < |before|
          ensures Similarity(c.signatureOf(d.text), c.signatureOf(before[i].text)) < c.threshold
        {
          AcceptedIsStored(c, docs[..k], before[i]);
          UnlikeStored(c, s, d, before[i]);
        }
        SignaturesNext(c, before, d);
      }
    }
  }

  lemma NothingIsFiled(c: Config, text: string)
    ensures !Duplicate(c, NOTHING, text)
  {
  }

  /** Two texts that the index does not bring together, and that differ otherwise, are both accepted. */
  lemma BothAccepted(c: Config, x: Doc, y: Doc)
    requires Proper(c) && c.contentHash(x.text) != c.contentHash(y.text)
    requires forall b :: 0 <= b < c.bands ==>
      c.bandHash(Band(c.signatureOf(x.text), Rows(c), b)) != c.bandHash(Band(c.signatureOf(y.text), Rows(c), b))
    requires DiffCount(c.simhashOf(y.text), c.simhashOf(x.text)) > c.maxDistance
    ensures Accepted(c, [x, y]) == [x, y]
  {
    RunSnoc(c, [], x);
    RunSnoc(c, [x], y);
    assert [] + [x] == [x] && [x] + [y] == [x, y];
    NothingIsFiled(c, x.text);
    var s := Register(c, NOTHING, x);
    assert Run(c, [x]) == s && Accepted(c, [x]) == [x];
    FileBandsFiles(c.bands, Rows(c), c.bandHash, map[], x.key, c.signatureOf(x.text));
    hide FileBands, Run, Accepted, Band, DiffCount, Similarity;
    assert forall k :: !IsCandidate(c.bands, Rows(c), c.bandHash, s.buckets, c.signatureOf(y.text), k);
    assert !Duplicate(c, s, y.text);
  }

  ghost predicate Parameters(c: Config, threshold: real, maxDistance: nat, numPerm: nat, bands: nat)
  {
    Proper(c) && c.threshold == threshold && c.maxDistance == maxDistance && c.numPerm == numPerm && c.bands == bands
  }

  /** The run [x, y] accepts two documents with different keys and similar signatures. */
  ghost predicate Misses(c: Config, x: Doc, y: Doc)
  {
    x.key != y.key && Accepted(c, [x, y]) == [x, y]
    && Similarity(c.signatureOf(y.text), c.signatureOf(x.text)) >= c.threshold
  }

  /** With an incomplete index some hash functions and two documents make the detector accept a similar text. */
  lemma IncompleteMisses(threshold: real, maxDistance: nat, numPerm: nat, bands: nat)
    returns (c: Config, x: Doc, y: Doc)
    requires bands > 0 && maxDistance < 64 && !Complete(numPerm, bands, threshold)
    ensures Parameters(c, threshold, maxDistance, numPerm, bands) && Misses(c, x, y)
  {
    var s, t := MissAboveBound(numPerm, bands, threshold);
    x, y := Doc("a", "a"), Doc("b", "b");
    c := TwoTexts(threshold, maxDistance, numPerm, bands, t, s);
    OppositeBits();
    hide DiffCount, Similarity, Complete;
    BothAccepted(c, x, y);
  }

  /** Hash functions for two texts, "a" and any other. */
  ghost function TwoTexts(threshold: real, maxDistance: nat, numPerm: nat, bands: nat, s: Signature,
                          t: Signature): Config
  {
    Config(threshold, maxDistance, numPerm, bands, FirstEntry,
           text => text, text => if text == "a" then s else t, text => seq(64, _ => text == "a"))
  }

  lemma {:induction false} AllDiffer(n: nat)
    ensures DiffCount(seq(n, _ => false), seq(n, _ => true)) == n
    decreases n
  {
    if n > 0 {
      AllDiffer(n - 1);
      assert seq(n, _ => false)[..n - 1] == seq(n - 1, _ => false)
        && seq(n, _ => true)[..n - 1] == seq(n - 1, _ => true);
    }
  }

  lemma OppositeBits()
    ensures DiffCount<bool>(seq(64, _ => "b" == "a"), seq(64, _ => "a" == "a")) == 64
  {
    AllDiffer(64);
    assert seq(64, _ => "b" == "a") == seq(64, _ => false) && seq(64, _ => "a" == "a") == seq(64, _ => true);
  }

  lemma {:induction false} FirstStaysStored(c: Config, docs: seq<Doc>)
    requires Accepted(c, docs) != []
    ensures Run(c, docs).simhashes != map[]
    decreases |docs|
  {
    LastStep(c, docs);
    var k := |docs| - 1;
    hide Run, Accepted, Duplicate, FileBands;
    if Duplicate(c, Run(c, docs[..k]), docs[k].text) {
      FirstStaysStored(c, docs[..k]);
    } else {
      assert docs[k].key in Run(c, docs).simhashes;
    }
  }

  /** A maximum distance of all bits lets a single document in. */
  lemma {:induction false} AllClose(c: Config, docs: seq<Doc>)
    requires c.maxDistance >= 64
    ensures |Accepted(c, docs)| <= 1
    decreases |docs|
  {
    if docs != [] {
      var k := |docs| - 1;
      LastStep(c, docs);
      AllClose(c, docs[..k]);
      hide Run, Accepted, FileBands, NearCandidate;
      if Accepted(c, docs[..k]) != [] {
        FirstStaysStored(c, docs[..k]);
        var key :| key in Run(c, docs[..k]).simhashes;
        assert DiffCount(c.simhashOf(docs[k].text), Run(c, docs[..k]).simhashes[key]) <= 64;
      }
    }
  }

  /** Signatures below the threshold can be relied on, over all hash functions and all runs in which no key
      is reused before the last accepted document, exactly when the index is complete, or every SimHash
      counts as close. */
  lemma ApartIffComplete(threshold: real, maxDistance: nat, numPerm: nat, bands: nat)
    requires bands > 0
    ensures (forall c: Config, docs: seq<Doc> ::
              Parameters(c, threshold, maxDistance, numPerm, bands) && DistinctBefore(Accepted(c, docs)) ==>
              SignaturesApart(c, Accepted(c, docs)))
       <==> Complete(numPerm, bands, threshold) || maxDistance >= 64
  {
    if Complete(numPerm, bands, threshold) || maxDistance >= 64 {
      hide Similarity, Complete, Accepted;
      forall c: Config, docs: seq<Doc>
        | Parameters(c, threshold, maxDistance, numPerm, bands) && DistinctBefore(Accepted(c, docs))
        ensures SignaturesApart(c, Accepted(c, docs))
      {
        if maxDistance >= 64 {
          AllClose(c, docs);
        } else {
          SignaturesAreApart(c, docs);
        }
      }
    } else {
      var c, x, y := IncompleteMisses(threshold, maxDistance, numPerm, bands);
      hide Similarity, Complete, Accepted;
      var both := [x, y];
      DistinctIsBefore(both);
      assert Accepted(c, both) == both && both[0] == x && both[1] == y;
      assert !SignaturesApart(c, both);
    }
  }

  // ----- distinct keys are needed

  ghost predicate StandsFor(c: Config, s: Seen, docs: seq<Doc>, k: Key)
  {
    exists e :: e in docs && e.key == k && SignatureStored(c, s, e) && SimHashStored(c, s, e)
  }

  /** What is stored under a key is that of an accepted document with that key. */
  lemma {:induction false} StoredIsAccepted(c: Config, docs: seq<Doc>, d: Doc)
    requires d in Accepted(c, docs)
    ensures StandsFor(c, Run(c, docs), Accepted(c, docs), d.key)
    decreases |docs|
  {
    var k := |docs| - 1;
    var before, s, last := Accepted(c, docs[..k]), Run(c, docs[..k]), docs[k];
    LastStep(c, docs);
    hide Run, Accepted, Duplicate, FileBands;
    if Duplicate(c, s, last.text) {
      StoredIsAccepted(c, docs[..k], d);
    } else if last.key == d.key {
      assert last in Accepted(c, docs);
    } else {
      StoredIsAccepted(c, docs[..k], d);
      var e :| e in before && e.key == d.key && SignatureStored(c, s, e) && SimHashStored(c, s, e);
      OtherKeyKeeps(c, s, last, e);
      assert e in Accepted(c, docs);
    }
  }

  /** A text that is not a duplicate differs in its SimHash from everything stored, and in its signature
      when equal signatures reach the threshold. */
  lemma NewIsDifferent(c: Config, s: Seen, d: Doc, e: Doc)
    requires Proper(c) && Searchable(c, s) && !Duplicate(c, s, d.text)
    requires SignatureStored(c, s, e) && SimHashStored(c, s, e)
    ensures c.simhashOf(d.text) != c.simhashOf(e.text)
    ensures c.threshold <= 1.0 && c.numPerm > 0 ==> c.signatureOf(d.text) != c.signatureOf(e.text)
  {
    DiffZero(c.simhashOf(d.text), c.simhashOf(e.text));
    if c.threshold <= 1.0 && c.numPerm > 0 && c.signatureOf(d.text) == c.signatureOf(e.text) {
      StoredIsFound(c, s, e);
    }
  }

  lemma SelfSimilar(sig: Signature)
    requires sig != []
    ensures Similarity(sig, sig) == 1.0
  {
    DiffZero(sig, sig);
    hide DiffCount;
  }

  /** A stored signature is a candidate for itself. */
  lemma StoredIsFound(c: Config, s: Seen, e: Doc)
    requires Proper(c) && Searchable(c, s) && SignatureStored(c, s, e) && c.threshold <= 1.0 && c.numPerm > 0
    ensures NearCandidate(c, s, c.signatureOf(e.text))
  {
    hide DiffCount, Similarity, IsCandidate, Indexed;
    var sig := c.signatureOf(e.text);
    SelfSimilar(sig);
    assert Band(sig, Rows(c), 0) == Band(s.sigs[e.key], Rows(c), 0);
    AgreementIsFound(c.bands, Rows(c), c.bandHash, s.buckets, s.sigs, sig, e.key);
  }

  ghost predicate Overwritten(c: Config, s: Seen, e: Doc)
  {
    && !SimHashStored(c, s, e)
    && (c.threshold <= 1.0 && c.numPerm > 0 ==> !SignatureStored(c, s, e))
  }

  lemma {:induction false} RepeatedKeyOverwrites(c: Config, docs: seq<Doc>) returns (e: Doc)
    requires Proper(c) && !DistinctKeys(Accepted(c, docs))
    ensures e in Accepted(c, docs) && Overwritten(c, Run(c, docs), e)
    decreases |docs|
  {
    var k := |docs| - 1;
    assert docs != [];
    var before, s, d := Accepted(c, docs[..k]), Run(c, docs[..k]), docs[k];
    LastStep(c, docs);
    hide Run, Accepted, Duplicate, FileBands, Searchable;
    if Duplicate(c, s, d.text) {
      e := RepeatedKeyOverwrites(c, docs[..k]);
    } else if x :| x in before && x.key == d.key {
      StoredIsAccepted(c, docs[..k], x);
      e :| e in before && e.key == d.key && SignatureStored(c, s, e) && SimHashStored(c, s, e);
      RunIsSearchable(c, docs[..k]);
      NewIsDifferent(c, s, d, e);
    } else {
      FreshKeyKeeps(before, d);
      e := RepeatedKeyOverwrites(c, docs[..k]);
    }
  }

  lemma FreshKeyKeeps(docs: seq<Doc>, d: Doc)
    requires !DistinctKeys(docs + [d]) && forall x :: x in docs ==> x.key != d.key
    ensures !DistinctKeys(docs)
  {
  }

  /** Every accepted document's SimHash stays stored exactly when no two accepted documents have the
      same key. The same goes for the signatures, when equal signatures reach the threshold. */
  lemma StoredIffDistinct(c: Config, docs: seq<Doc>)
    requires Proper(c)
    ensures (forall d :: d in Accepted(c, docs) ==> SimHashStored(c, Run(c, docs), d))
      <==> DistinctKeys(Accepted(c, docs))
    ensures c.threshold <= 1.0 && c.numPerm > 0 ==>
      ((forall d :: d in Accepted(c, docs) ==> SignatureStored(c, Run(c, docs), d))
        <==> DistinctKeys(Accepted(c, docs)))
  {
    if DistinctKeys(Accepted(c, docs)) {
      forall d | d in Accepted(c, docs)
        ensures SimHashStored(c, Run(c, docs), d) && SignatureStored(c, Run(c, docs), d)
      {
        AcceptedIsStored(c, docs, d);
      }
    } else {
      var e := RepeatedKeyOverwrites(c, docs);
    }
  }

  /** The two documents are told apart by both measures. */
  ghost predicate Apart(c: Config, d: Doc, e: Doc)
  {
    && Similarity(c.signatureOf(d.text), c.signatureOf(e.text)) < c.threshold
    && DiffCount(c.simhashOf(d.text), c.simhashOf(e.text)) > c.maxDistance
  }

  lemma OnlyOneStored(c: Config, s: Seen, text: string, e: Doc)
    requires s.sigs == map[e.key := c.signatureOf(e.text)] && s.simhashes == map[e.key := c.simhashOf(e.text)]
    requires c.contentHash(text) !in s.exact && Apart(c, Doc(e.key, text), e)
    ensures !Duplicate(c, s, text)
  {
    hide Similarity, DiffCount, IsCandidate;
  }

  /** A key used again hides what it stood for before. Whenever two texts a and b are apart, a third
      one with a's signature and SimHash is accepted once b has been accepted under a's key. */
  lemma ReusedKeyForgets(c: Config, k: Key, m: Key, a: string, b: string, copy: string)
    requires c.signatureOf(copy) == c.signatureOf(a) && c.simhashOf(copy) == c.simhashOf(a)
    requires Apart(c, Doc(m, copy), Doc(k, b)) && Apart(c, Doc(k, b), Doc(k, a))
    requires c.contentHash(a) != c.contentHash(b) && c.contentHash(copy) !in {c.contentHash(a), c.contentHash(b)}
    ensures Accepted(c, [Doc(k, a), Doc(k, b), Doc(m, copy)]) == [Doc(k, a), Doc(k, b), Doc(m, copy)]
    ensures DiffCount(c.simhashOf(copy), c.simhashOf(a)) == 0
  {
    DiffZero(c.simhashOf(copy), c.simhashOf(a));
    hide DiffCount, Similarity, FileBands;
    var x, y, z := Doc(k, a), Doc(k, b), Doc(m, copy);
    RunSnoc(c, [], x);
    RunSnoc(c, [x], y);
    RunSnoc(c, [x, y], z);
    assert [] + [x] == [x] && [x] + [y] == [x, y] && [x, y] + [z] == [x, y, z];
    assert Run(c, []) == NOTHING && Accepted(c, []) == [];
    hide Run, Accepted;
    NothingIsFiled(c, a);
    var s := Register(c, NOTHING, x);
    OnlyOneStored(c, s, b, x);
    OnlyOneStored(c, Register(c, s, y), copy, y);
    hide Duplicate;
  }

  // ----- the detector as an object

  class NearDuplicateDetector {
    const config: Config
    const lsh: LSHIndex
    var simhashes: map<Key, Bits>
    var exact: set<string>
    /** Every document ever offered. */
    ghost var offered: seq<Doc>

    ghost function Contents(): Seen
      reads this, lsh
    {
      Seen(exact, lsh.buckets, lsh.sigs, simhashes)
    }

    ghost predicate Valid()
      reads this, lsh
    {
      && lsh.Valid() && Proper(config)
      && lsh.numPerm == config.numPerm && lsh.bands == config.bands && lsh.hash == config.bandHash
      && Contents() == Run(config, offered)
    }

    constructor (config: Config)
      requires Proper(config)
      ensures Valid() && offered == [] && this.config == config && fresh(lsh)
    {
      this.config := config;
      lsh := new LSHIndex(config.numPerm, config.bands, config.bandHash);
      simhashes, exact, offered := map[], {}, [];
    }

    /** The candidates are compared with the stored signatures. */
    method CandidateIsNear(sig: Signature) returns (near: bool)
      requires Valid()
      ensures near <==> NearCandidate(config, Contents(), sig)
    {
      hide Similarity, Indexed, IsCandidate, Run;
      var found := lsh.Candidates(sig);
      var left := found;
      near := false;
      while left != {} && !near
        invariant left <= found
        invariant near ==> NearCandidate(config, Contents(), sig)
        invariant near || forall k :: k in found && k !in left ==> Similarity(sig, lsh.sigs[k]) < config.threshold
        decreases |left|, !near
      {
        var cand :| cand in left;
        left := left - {cand};
        near := Similarity(sig, lsh.sigs[cand]) >= config.threshold;
      }
    }

    method CloseSimHash(bits: Bits) returns (close: bool)
      ensures close <==> Close(config, bits, simhashes)
    {
      var left := simhashes.Keys;
      close := false;
      while left != {} && !close
        invariant left <= simhashes.Keys
        invariant close ==> Close(config, bits, simhashes)
        invariant close || forall k :: k in simhashes.Keys - left ==> DiffCount(bits, simhashes[k]) > config.maxDistance
        decreases |left|, !close
      {
        var other :| other in left;
        left := left - {other};
        close := DiffCount(bits, simhashes[other]) <= config.maxDistance;
      }
    }

    /** A text that is no duplicate is remembered. */
    method Remember(key: Key, text: string, sig: Signature, bits: Bits)
      requires Valid() && !Duplicate(config, Contents(), text)
      requires sig == config.signatureOf(text) && bits == config.simhashOf(text)
      modifies this, lsh
      ensures Valid() && offered == old(offered) + [Doc(key, text)]
    {
      RunSnoc(config, offered, Doc(key, text));
      hide Run, Duplicate, FileBands, Indexed, Proper;
      exact := exact + {config.contentHash(text)};
      lsh.Add(key, sig);
      simhashes := simhashes[key := bits];
      offered := offered + [Doc(key, text)];
    }

    /** is_duplicate: exactly what the content hash, the candidates and the SimHashes say. All that was
        offered so far decides it, and a duplicate changes nothing. */
    method IsDuplicate(key: Key, text: string) returns (duplicate: bool)
      requires Valid()
      modifies this, lsh
      ensures Valid() && offered == old(offered) + [Doc(key, text)] && Contents() == Run(config, offered)
      ensures duplicate <==> Duplicate(config, old(Contents()), text)
      ensures duplicate ==> Contents() == old(Contents())
    {
      hide Run, Proper, Indexed, NearCandidate, Close, FileBands;
      var sig, bits := config.signatureOf(text), config.simhashOf(text);
      duplicate := config.contentHash(text) in exact;
      if !duplicate {
        duplicate := CandidateIsNear(sig);
      }
      if !duplicate {
        duplicate := CloseSimHash(bits);
      }
      if duplicate {
        RunSnoc(config, offered, Doc(key, text));
        offered := offered + [Doc(key, text)];
      } else {
        Remember(key, text, sig, bits);
      }
    }
  }

  // ----- SimHash

  /** The votes for bit i: plus one for each feature hash with the bit set, minus one for the others. */
  function Votes(hashes: seq<Bits>, i: nat): int
    requires i < 64
  {
    if hashes == [] then 0 else Votes(hashes[..|hashes| - 1], i) + (if hashes[|hashes| - 1][i] then 1 else -1)
  }

  function SetCount(hashes: seq<Bits>, i: nat): nat
    requires i < 64
  {
    if hashes == [] then 0 else SetCount(hashes[..|hashes| - 1], i) + (if hashes[|hashes| - 1][i] then 1 else 0)
  }

  lemma {:induction false} VotesCount(hashes: seq<Bits>, i: nat)
    requires i < 64
    ensures Votes(hashes, i) == 2 * SetCount(hashes, i) - |hashes|
    decreases |hashes|
  {
    if hashes != [] {
      VotesCount(hashes[..|hashes| - 1], i);
    }
  }

  method AddVotes(vector: array<int>, h: Bits)
    requires vector.Length == 64
    modifies vector
    ensures forall i :: 0 <= i < 64 ==> vector[i] == old(vector[i]) + (if h[i] then 1 else -1)
  {
    for i := 0 to 64
      invariant forall k :: 0 <= k < i ==> vector[k] == old(vector[k]) + (if h[k] then 1 else -1)
      invariant forall k :: i <= k < 64 ==> vector[k] == old(vector[k])
    {
      vector[i] := vector[i] + (if h[i] then 1 else -1);
    }
  }

  /** simhash: a bit is set exactly when more than half of the feature hashes have it set. */
  method SimHash(hashes: seq<Bits>) returns (bits: Bits)
    ensures forall i :: 0 <= i < 64 ==> (bits[i] <==> 2 * SetCount(hashes, i) > |hashes|)
  {
    var vector := new int[64](_ => 0);
    for j := 0 to |hashes|
      invariant forall i :: 0 <= i < 64 ==> vector[i] == Votes(hashes[..j], i)
    {
      assert hashes[..j + 1][..j] == hashes[..j];
      AddVotes(vector, hashes[j]);
    }
    assert hashes[..|hashes|] == hashes;
    forall i | 0 <= i < 64 ensures vector[i] > 0 <==> 2 * SetCount(hashes, i) > |hashes| {
      VotesCount(hashes, i);
    }
    bits := seq(64, i requires 0 <= i < 64 reads vector => vector[i] > 0);
  }
}
