/** Claiming of matches and masking of the text (compliance/pii_masker.py). What the patterns match is an
    input: for each pattern, its matches in the order finditer yields them. */
module PiiMasker {
  import opened Sorting

  datatype Kind = Email | Krrn | CreditCard | PhoneKr | PhoneIntl | OtherKind

  datatype Span = Span(kind: Kind, start: nat, end: nat)

  function Token(k: Kind): string
  {
    match k
    case Email => "[EMAIL]"
    case Krrn => "[RRN]"
    case CreditCard => "[CARD]"
    case PhoneKr => "[PHONE]"
    case PhoneIntl => "[PHONE]"
    case OtherKind => "[PII]"
  }

  /** What a token may stand for. */
  function Hidden(token: string): set<Kind>
  {
    if token == "[EMAIL]" then {Email}
    else if token == "[RRN]" then {Krrn}
    else if token == "[CARD]" then {CreditCard}
    else if token == "[PHONE]" then {PhoneKr, PhoneIntl}
    else if token == "[PII]" then {OtherKind}
    else {}
  }

  /** A token says what it hides, up to the two sorts of telephone numbers. */
  lemma TokenTells(token: string, k: Kind)
    ensures Token(k) == token <==> k in Hidden(token)
  {
  }

  // ----- claiming

  predicate Overlap(a: Span, b: Span)
  {
    a.start < b.end && a.end > b.start
  }

  predicate Overlaps(claimed: seq<Span>, m: Span)
  {
    exists c :: c in claimed && Overlap(m, c)
  }

  /** A pattern matches no empty text, inside the text, from left to right without overlap. */
  ghost predicate Matches(ms: seq<Span>, length: nat)
  {
    && (forall i :: 0 <= i < |ms| ==> ms[i].start < ms[i].end <= length)
    && (forall i, j :: 0 <= i < j < |ms| ==> ms[i].end <= ms[j].start)
  }

  ghost predicate Disjoint(spans: seq<Span>)
  {
    forall i, j :: 0 <= i < j < |spans| ==> !Overlap(spans[i], spans[j])
  }

  ghost predicate Proper(spans: seq<Span>, length: nat)
  {
    forall i :: 0 <= i < |spans| ==> spans[i].start < spans[i].end <= length
  }

  /** The spans claimed after the first k matches of one pattern. */
  function ClaimSome(claimed: seq<Span>, ms: seq<Span>): seq<Span>
  {
    if ms == [] then
      claimed
    else
      var before, m := ClaimSome(claimed, ms[..|ms| - 1]), ms[|ms| - 1];
      if Overlaps(before, m) then before else before + [m]
  }

  /** The spans claimed after all matches of the patterns, in their order. */
  function Claim(patterns: seq<seq<Span>>): seq<Span>
  {
    if patterns == [] then [] else ClaimSome(Claim(patterns[..|patterns| - 1]), patterns[|patterns| - 1])
  }

  function ByStart(s: Span): real { s.start as real }

  /** detect_only on a non-empty text. */
  method Detect(patterns: seq<seq<Span>>) returns (detections: seq<Span>)
    ensures detections == SortBy(Claim(patterns), ByStart)
  {
    var claimed := [];
    for p := 0 to |patterns|
      invariant claimed == Claim(patterns[..p])
    {
      var ms := patterns[p];
      for k := 0 to |ms|
        invariant claimed == ClaimSome(Claim(patterns[..p]), ms[..k])
      {
        assert ms[..k + 1][..k] == ms[..k];
        if Overlaps(claimed, ms[k]) {
          continue;
        }
        claimed := claimed + [ms[k]];
      }
      assert ms[..|ms|] == ms && patterns[..p + 1][..p] == patterns[..p];
    }
    assert patterns[..|patterns|] == patterns;
    detections := SortBy(claimed, ByStart);
  }

  lemma {:induction false} ClaimSomeKeeps(claimed: seq<Span>, ms: seq<Span>, length: nat)
    requires Disjoint(claimed) && Proper(claimed, length) && Proper(ms, length)
    ensures Disjoint(ClaimSome(claimed, ms)) && Proper(ClaimSome(claimed, ms), length)
    ensures claimed <= ClaimSome(claimed, ms)
    decreases |ms|
  {
    if ms != [] {
      ClaimSomeKeeps(claimed, ms[..|ms| - 1], length);
      var before, m := ClaimSome(claimed, ms[..|ms| - 1]), ms[|ms| - 1];
      if !Overlaps(before, m) {
        forall i | 0 <= i < |before| ensures !Overlap(before[i], m) {
          assert before[i] in before;
        }
      }
    }
  }

  /** A match of the pattern is claimed exactly when no span claimed by an earlier pattern overlaps it:
      matches of the same pattern never stand in each other's way. */
  lemma {:induction false} ClaimedIffFree(claimed: seq<Span>, ms: seq<Span>, length: nat, m: Span)
    requires Matches(ms, length) && m in ms
    ensures m in ClaimSome(claimed, ms) <==> m in claimed || !Overlaps(claimed, m)
    decreases |ms|
  {
    var k := |ms| - 1;
    var before := ClaimSome(claimed, ms[..k]);
    OnlyFromPattern(claimed, ms[..k]);
    forall s | s in ms[..k] ensures s.end <= ms[k].start && s != ms[k] && !Overlap(ms[k], s) {
      var i :| 0 <= i < k && ms[i] == s;
    }
    if m in ms[..k] {
      ClaimedIffFree(claimed, ms[..k], length, m);
    } else {
      assert m == ms[k] && m !in ms[..k];
      assert Overlaps(before, m) <==> Overlaps(claimed, m);
    }
  }

  lemma {:induction false} OnlyFromPattern(claimed: seq<Span>, ms: seq<Span>)
    ensures forall s :: s in ClaimSome(claimed, ms) ==> s in claimed || s in ms
    ensures forall s :: s in claimed ==> s in ClaimSome(claimed, ms)
    decreases |ms|
  {
    if ms != [] {
      OnlyFromPattern(claimed, ms[..|ms| - 1]);
    }
  }

  // ----- what detect_only yields

  ghost predicate AllMatches(patterns: seq<seq<Span>>, length: nat)
  {
    forall p :: 0 <= p < |patterns| ==> Matches(patterns[p], length)
  }

  lemma {:induction false} ClaimKeeps(patterns: seq<seq<Span>>, length: nat)
    requires AllMatches(patterns, length)
    ensures Disjoint(Claim(patterns)) && Proper(Claim(patterns), length)
    decreases |patterns|
  {
    if patterns != [] {
      var k := |patterns| - 1;
      ClaimKeeps(patterns[..k], length);
      assert Matches(patterns[k], length);
      ClaimSomeKeeps(Claim(patterns[..k]), patterns[k], length);
    }
  }

  lemma {:induction false} ClaimGrows(patterns: seq<seq<Span>>, p: nat)
    requires p <= |patterns|
    ensures forall s :: s in Claim(patterns[..p]) ==> s in Claim(patterns)
    decreases |patterns|
  {
    if p == |patterns| {
      assert patterns[..p] == patterns;
    } else {
      var k := |patterns| - 1;
      ClaimGrows(patterns[..k], p);
      assert patterns[..k][..p] == patterns[..p];
      OnlyFromPattern(Claim(patterns[..k]), patterns[k]);
    }
  }

  /** Nothing is missed: every match of every pattern is claimed or overlaps a claimed span. */
  lemma EveryMatchIsCovered(patterns: seq<seq<Span>>, length: nat, p: nat, m: Span)
    requires AllMatches(patterns, length) && p < |patterns| && m in patterns[p]
    ensures m in Claim(patterns) || Overlaps(Claim(patterns), m)
  {
    assert Matches(patterns[p], length);
    ClaimedIffFree(Claim(patterns[..p]), patterns[p], length, m);
    assert patterns[..p + 1][..p] == patterns[..p];
    ClaimGrows(patterns, p + 1);
    ClaimGrows(patterns, p);
  }

  /** The detections in order of position, each ending before the next one starts. */
  ghost predicate InOrder(spans: seq<Span>, length: nat)
  {
    && Proper(spans, length)
    && (forall i, j :: 0 <= i < j < |spans| ==> spans[i].end <= spans[j].start)
  }

  lemma {:induction false} DisjointMembers(spans: seq<Span>, s: Span, t: Span)
    requires Disjoint(spans) && s in spans && t in spans
    ensures s == t || !Overlap(s, t)
  {
    var i :| 0 <= i < |spans| && spans[i] == s;
    var j :| 0 <= j < |spans| && spans[j] == t;
    assert i < j ==> !Overlap(spans[i], spans[j]);
    assert j < i ==> !Overlap(spans[j], spans[i]);
  }

  /** A disjoint family of proper spans lists each span once, also after sorting. */
  lemma {:induction false} EachOnce(spans: seq<Span>, length: nat, s: Span)
    requires Disjoint(spans) && Proper(spans, length)
    ensures multiset(spans)[s] <= 1
    decreases |spans|
  {
    if spans != [] {
      var k := |spans| - 1;
      EachOnce(spans[..k], length, s);
      assert spans == spans[..k] + [spans[k]];
      if s in spans[..k] {
        var i :| 0 <= i < k && spans[i] == s;
        assert !Overlap(spans[i], spans[k]);
      }
    }
  }

  lemma TwiceCounted(xs: seq<Span>, i: nat, j: nat)
    requires i < j < |xs| && xs[i] == xs[j]
    ensures multiset(xs)[xs[i]] >= 2
  {
    assert xs == xs[..j] + [xs[j]] + xs[j + 1..];
    assert multiset(xs) == multiset(xs[..j]) + multiset{xs[j]} + multiset(xs[j + 1..]);
    assert xs[i] in xs[..j];
  }

  /** detect_only: the spans are in order and pairwise disjoint, and every match of every pattern is
      among them or overlaps one of them. */
  lemma DetectionsAreMaximal(patterns: seq<seq<Span>>, length: nat)
    requires AllMatches(patterns, length)
    ensures var ds := SortBy(Claim(patterns), ByStart);
      && InOrder(ds, length)
      && (forall p, m :: 0 <= p < |patterns| && m in patterns[p] ==> m in ds || Overlaps(ds, m))
  {
    var claimed := Claim(patterns);
    var ds := SortBy(claimed, ByStart);
    ClaimKeeps(patterns, length);
    SortedInOrder(claimed, length);
    SameMembers(claimed);
    forall p, m | 0 <= p < |patterns| && m in patterns[p] ensures m in ds || Overlaps(ds, m) {
      EveryMatchIsCovered(patterns, length, p, m);
    }
  }

  lemma SameMembers(claimed: seq<Span>)
    ensures forall s :: s in SortBy(claimed, ByStart) <==> s in claimed
  {
    SortByKeeps(claimed, ByStart);
    var ds := SortBy(claimed, ByStart);
    hide SortBy;
    assert forall s :: s in ds <==> s in multiset(ds);
    assert forall s :: s in claimed <==> s in multiset(claimed);
  }

  lemma SortedInOrder(claimed: seq<Span>, length: nat)
    requires Disjoint(claimed) && Proper(claimed, length)
    ensures InOrder(SortBy(claimed, ByStart), length)
  {
    var ds := SortBy(claimed, ByStart);
    SameMembers(claimed);
    SortByKeeps(claimed, ByStart);
    SortBySorted(claimed, ByStart);
    hide SortBy;
    forall i | 0 <= i < |ds| ensures ds[i].start < ds[i].end <= length {
      assert ds[i] in claimed;
    }
    forall i, j | 0 <= i < j < |ds| ensures ds[i].end <= ds[j].start {
      DisjointMembers(claimed, ds[i], ds[j]);
      EachOnce(claimed, length, ds[i]);
      assert ds[i] != ds[j] by {
        if ds[i] == ds[j] {
          TwiceCounted(ds, i, j);
        }
      }
      assert ByStart(ds[i]) <= ByStart(ds[j]);
    }
  }

  // ----- masking

  /** The left-to-right reading: untouched text up to each span, then its token, then the rest. */
  function Redacted(text: string, from: nat, spans: seq<Span>): string
    requires InOrder(spans, |text|) && from <= |text| && (spans != [] ==> from <= spans[0].start)
    decreases |spans|
  {
    if spans == [] then
      text[from..]
    else
      text[from..spans[0].start] + Token(spans[0].kind) + Redacted(text, spans[0].end, spans[1..])
  }

  /** Splicing in one span that lies before all others only touches the text in front of them. */
  lemma {:induction false} SpliceFirst(text: string, spans: seq<Span>)
    requires InOrder(spans, |text|) && spans != []
    ensures var s, rest := spans[0], Redacted(text, 0, spans[1..]);
      && s.end <= |rest|
      && rest[..s.start] + Token(s.kind) + rest[s.end..] == Redacted(text, 0, spans)
  {
    var s := spans[0];
    var tail := Redacted(text, s.end, spans[1..]);
    assert Redacted(text, 0, spans) == text[0..s.start] + Token(s.kind) + tail;
    RedactedFrom(text, s.end, spans[1..]);
    hide Redacted, Token, InOrder;
    SpliceInto(text[..s.end], tail, s.start, Token(s.kind));
    assert text[..s.end][..s.start] == text[0..s.start];
  }

  /** Replacing the end of the front of a text, from `start` on, by a token. */
  lemma SpliceInto(front: string, tail: string, start: nat, token: string)
    requires start <= |front|
    ensures (front + tail)[..start] + token + (front + tail)[|front|..] == front[..start] + token + tail
  {
    assert (front + tail)[..start] == front[..start] && (front + tail)[|front|..] == tail;
  }

  lemma RedactedFrom(text: string, from: nat, spans: seq<Span>)
    requires InOrder(spans, |text|) && from <= |text| && (spans != [] ==> from <= spans[0].start)
    ensures Redacted(text, 0, spans) == text[..from] + Redacted(text, from, spans)
  {
    if spans == [] {
      assert text == text[..from] + text[from..] && text[0..] == text;
    } else {
      var a, b, c := text[..from], text[from..spans[0].start], Token(spans[0].kind);
      var d := Redacted(text, spans[0].end, spans[1..]);
      assert Redacted(text, 0, spans) == text[0..spans[0].start] + c + d;
      assert Redacted(text, from, spans) == b + c + d;
      hide Redacted, Token, InOrder;
      assert text[0..spans[0].start] == a + b;
      Regroup(a, b, c, d);
    }
  }

  lemma Regroup(a: string, b: string, c: string, d: string)
    ensures a + b + c + d == a + (b + c + d)
  {
  }

  /** mask on given detections: the spans are replaced from the last to the first, and the result is the
      single left-to-right pass. */
  method Mask(text: string, detections: seq<Span>) returns (out: string)
    requires InOrder(detections, |text|)
    ensures out == Redacted(text, 0, detections)
  {
    out := text;
    var n := |detections|;
    for i := n downto 0
      invariant out == Redacted(text, 0, detections[i..])
    {
      var det := detections[i];
      assert detections[i..][1..] == detections[i + 1..] && detections[i..][0] == det;
      SpliceFirst(text, detections[i..]);
      out := out[..det.start] + Token(det.kind) + out[det.end..];
    }
    assert detections[0..] == detections;
  }

  // ----- the detected texts

  /** A detection keeps the text it stands for. */
  datatype Detection = Detection(span: Span, original: string)

  function Spans(ds: seq<Detection>): seq<Span>
  {
    seq(|ds|, i requires 0 <= i < |ds| => ds[i].span)
  }

  /** Each detection keeps what the text has at its span. */
  ghost predicate Keeps(text: string, ds: seq<Detection>)
  {
    forall i :: 0 <= i < |ds| ==>
      var s := ds[i].span;
      s.start <= s.end <= |text| && ds[i].original == text[s.start..s.end]
  }

  /** detect_only. */
  method DetectOnly(text: string, patterns: seq<seq<Span>>) returns (ds: seq<Detection>)
    requires AllMatches(patterns, |text|)
    ensures Spans(ds) == (if text == "" then [] else SortBy(Claim(patterns), ByStart))
    ensures InOrder(Spans(ds), |text|) && Keeps(text, ds)
  {
    ds := [];
    if text == "" {
      return;
    }
    DetectionsAreMaximal(patterns, |text|);
    var spans := Detect(patterns);
    for i := 0 to |spans|
      invariant |ds| == i && Keeps(text, ds)
      invariant forall k :: 0 <= k < i ==> ds[k].span == spans[k]
    {
      ds := ds + [Detection(spans[i], text[spans[i].start..spans[i].end])];
    }
    assert Spans(ds) == spans;
  }

  /** The gaps of the text with the kept texts between them. */
  function Unmasked(text: string, from: nat, ds: seq<Detection>): string
    requires InOrder(Spans(ds), |text|) && from <= |text| && (ds != [] ==> from <= ds[0].span.start)
    decreases |ds|
  {
    if ds == [] then
      text[from..]
    else
      assert Spans(ds)[0] == ds[0].span && Spans(ds[1..]) == Spans(ds)[1..];
      assert ds[1..] != [] ==> Spans(ds)[1] == ds[1].span;
      text[from..ds[0].span.start] + ds[0].original + Unmasked(text, ds[0].span.end, ds[1..])
  }

  /** Putting the kept texts where the tokens are gives the original text back. */
  lemma {:induction false} OriginalsRestore(text: string, from: nat, ds: seq<Detection>)
    requires InOrder(Spans(ds), |text|) && from <= |text| && (ds != [] ==> from <= ds[0].span.start) && Keeps(text, ds)
    ensures Unmasked(text, from, ds) == text[from..]
    decreases |ds|
  {
    if ds != [] {
      var s := ds[0].span;
      assert Spans(ds)[0] == s && Spans(ds[1..]) == Spans(ds)[1..];
      assert ds[1..] != [] ==> Spans(ds)[1] == ds[1].span;
      OriginalsRestore(text, s.end, ds[1..]);
      assert text[from..] == text[from..s.start] + text[s.start..s.end] + text[s.end..];
    }
  }

  /** mask: the detections of the text, replaced by their tokens. */
  method DetectAndMask(text: string, patterns: seq<seq<Span>>) returns (out: string, detections: seq<Detection>)
    requires AllMatches(patterns, |text|)
    ensures Spans(detections) == (if text == "" then [] else SortBy(Claim(patterns), ByStart))
      && Keeps(text, detections)
    ensures InOrder(Spans(detections), |text|) && out == Redacted(text, 0, Spans(detections))
  {
    detections := DetectOnly(text, patterns);
    out := Mask(text, Spans(detections));
  }
}
