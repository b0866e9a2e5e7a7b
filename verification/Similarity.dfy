/** Similarity of submissions: what the indexed search and the exhaustive search are meant to report. */
module Similarity {
  import opened Common

  // Labs, owners and submission ids stand for their ranks in the order of their text.
  type Lab = nat
  type Owner = nat
  type Id = nat
  type Shingle = seq<string>

  datatype Document = Document(id: Id, owner: Owner, lab: Lab, submittedAt: int, inputDigest: string,
                               deltaDigest: string, hasFiles: bool, incomplete: bool, shingles: set<Shingle>)

  /** The Jaccard threshold is `num/den`; `rank(p, s)` is where permutation `p` puts shingle `s`. */
  datatype Policy = Policy(num: nat, den: nat, permutations: nat, bandSize: nat, rank: (nat, Shingle) -> nat)
  {
    ghost predicate Valid() {
      num <= den && den > 0 && permutations > 0 && bandSize > 0 && permutations % bandSize == 0
    }

    function Bands(): nat
      requires bandSize > 0
    {
      permutations / bandSize
    }
  }

  datatype Signal = ExactSubmission | ExactDelta | Minhash | ExhaustiveJaccard

  /** Exact submission over exact delta over either form of Jaccard similarity. */
  function Strength(s: Signal): nat {
    match s
    case ExactSubmission => 2
    case ExactDelta => 1
    case _ => 0
  }

  /** `shared/total`, never reduced, so equal ratios of one pair of sets are equal values. */
  datatype Ratio = Ratio(shared: nat, total: nat)

  function Jaccard(a: set<Shingle>, b: set<Shingle>): Ratio {
    if a + b == {} then Ratio(0, 1) else Ratio(|a * b|, |a + b|)
  }

  predicate ReachesThreshold(policy: Policy, r: Ratio) {
    r.shared * policy.den >= policy.num * r.total
  }

  datatype Candidate = Candidate(lab: Lab, first: Id, second: Id, signal: Signal, jaccard: Ratio,
                                 firstDelta: string, secondDelta: string)

  predicate Earlier(a: Document, b: Document) {
    a.submittedAt < b.submittedAt || (a.submittedAt == b.submittedAt && a.id < b.id)
  }

  function MakeCandidate(a: Document, b: Document, signal: Signal): Candidate {
    var (x, y) := if Earlier(b, a) then (b, a) else (a, b);
    Candidate(a.lab, x.id, y.id, signal, Jaccard(a.shingles, b.shingles), x.deltaDigest, y.deltaDigest)
  }

  function PairKey(a: Document, b: Document): (Id, Id) {
    if a.id <= b.id then (a.id, b.id) else (b.id, a.id)
  }

  // ----- order of documents

  predicate Before(a: Document, b: Document) {
    a.lab < b.lab || (a.lab == b.lab && Earlier(a, b))
  }

  ghost predicate Sorted(docs: seq<Document>) {
    forall i, j | 0 <= i < j < |docs| :: !Before(docs[j], docs[i])
  }

  ghost predicate UniqueIds(docs: seq<Document>) {
    forall i, j | 0 <= i < |docs| && 0 <= j < |docs| && docs[i].id == docs[j].id :: i == j
  }

  // ----- the exact layers

  datatype Layer = BySubmission | ByDelta

  function LayerSignal(layer: Layer): Signal {
    if layer.BySubmission? then ExactSubmission else ExactDelta
  }

  function Identity(layer: Layer, d: Document): string {
    if layer.BySubmission? then d.inputDigest else d.deltaDigest
  }

  predicate EligibleFor(layer: Layer, d: Document) {
    && Identity(layer, d) != ""
    && if layer.BySubmission? then d.hasFiles || d.incomplete else d.hasFiles && !d.incomplete && d.shingles != {}
  }

  predicate SameGroup(layer: Layer, a: Document, b: Document) {
    EligibleFor(layer, a) && EligibleFor(layer, b) && a.lab == b.lab && Identity(layer, a) == Identity(layer, b)
  }

  /** `docs[i]` is the first eligible document of its owner in its group. */
  ghost predicate Representative(layer: Layer, docs: seq<Document>, i: nat)
    requires i < |docs|
  {
    EligibleFor(layer, docs[i]) &&
    forall k | 0 <= k < i :: !(SameGroup(layer, docs[k], docs[i]) && docs[k].owner == docs[i].owner)
  }

  ghost predicate ExactPair(layer: Layer, docs: seq<Document>, i: nat, j: nat) {
    && i < j < |docs|
    && SameGroup(layer, docs[i], docs[j]) && docs[i].owner != docs[j].owner
    && Representative(layer, docs, i) && Representative(layer, docs, j)
  }

  // ----- the approximate layer

  predicate Indexed(d: Document) {
    d.shingles != {} && !d.incomplete
  }

  ghost predicate IsMinimum(policy: Policy, p: nat, shingles: set<Shingle>, m: nat) {
    (exists s :: s in shingles && policy.rank(p, s) == m) && forall s | s in shingles :: m <= policy.rank(p, s)
  }

  lemma {:induction false} MinimumExists(policy: Policy, p: nat, shingles: set<Shingle>) returns (m: nat)
    requires shingles != {}
    ensures IsMinimum(policy, p, shingles, m)
    decreases |shingles|
  {
    var s :| s in shingles;
    m := policy.rank(p, s);
    var rest := shingles - {s};
    assert forall t | t in shingles :: t == s || t in rest;
    if rest != {} {
      var n := MinimumExists(policy, p, rest);
      var u :| u in rest && policy.rank(p, u) == n;
      m := if n < m then n else m;
      assert u in shingles;
    }
  }

  ghost function MinRank(policy: Policy, p: nat, shingles: set<Shingle>): (m: nat)
    requires shingles != {}
    ensures IsMinimum(policy, p, shingles, m)
  {
    assert exists n :: IsMinimum(policy, p, shingles, n) by {
      var n := MinimumExists(policy, p, shingles);
    }
    var m :| IsMinimum(policy, p, shingles, m);
    m
  }

  /** The signature of a document: the minimum rank under each permutation, nothing for a document left out. */
  ghost function Signature(policy: Policy, d: Document): (s: seq<nat>)
    ensures |s| == if Indexed(d) then policy.permutations else 0
  {
    if Indexed(d) then seq(policy.permutations, p requires 0 <= p => MinRank(policy, p, d.shingles)) else []
  }

  function Band(policy: Policy, s: seq<nat>, b: nat): seq<nat>
    requires policy.bandSize > 0 && (b + 1) * policy.bandSize <= |s|
  {
    s[b * policy.bandSize..(b + 1) * policy.bandSize]
  }

  lemma BandFits(policy: Policy, b: nat)
    requires policy.Valid() && b < policy.Bands()
    ensures (b + 1) * policy.bandSize <= policy.permutations
  {
    var w := policy.bandSize;
    assert (b + 1) * w <= policy.Bands() * w;
  }

  ghost predicate SharesBand(policy: Policy, a: Document, b: Document)
    requires policy.Valid()
  {
    && Indexed(a) && Indexed(b)
    && exists k: nat :: k < policy.Bands() && (k + 1) * policy.bandSize <= policy.permutations
                        && Band(policy, Signature(policy, a), k) == Band(policy, Signature(policy, b), k)
  }

  ghost predicate NearPair(policy: Policy, docs: seq<Document>, i: nat, j: nat)
    requires policy.Valid()
  {
    && i < j < |docs| && docs[i].lab == docs[j].lab && docs[i].owner != docs[j].owner
    && SharesBand(policy, docs[i], docs[j])
    && ReachesThreshold(policy, Jaccard(docs[i].shingles, docs[j].shingles))
  }

  // ----- what the indexed search reports

  /** The signal of a pair: that of the first layer that selects it. */
  ghost function PairSignal(policy: Policy, docs: seq<Document>, i: nat, j: nat): Option<Signal>
    requires policy.Valid()
  {
    if ExactPair(BySubmission, docs, i, j) then Some(ExactSubmission)
    else if ExactPair(ByDelta, docs, i, j) then Some(ExactDelta)
    else if NearPair(policy, docs, i, j) then Some(Minhash)
    else None
  }

  ghost predicate Reported(policy: Policy, docs: seq<Document>, c: Candidate)
    requires policy.Valid()
  {
    exists i: nat, j: nat ::
      i < j < |docs| && PairSignal(policy, docs, i, j).Some?
      && c == MakeCandidate(docs[i], docs[j], PairSignal(policy, docs, i, j).value)
  }

  // ----- what the exhaustive search reports

  function ExhaustiveSignal(policy: Policy, a: Document, b: Document): Option<Signal> {
    if a.inputDigest == b.inputDigest && (a.hasFiles || a.incomplete) && (b.hasFiles || b.incomplete) then
      Some(ExactSubmission)
    else if a.deltaDigest == b.deltaDigest && a.hasFiles && b.hasFiles && Indexed(a) && Indexed(b) then
      Some(ExactDelta)
    else if Indexed(a) && Indexed(b) && ReachesThreshold(policy, Jaccard(a.shingles, b.shingles)) then
      Some(ExhaustiveJaccard)
    else None
  }

  predicate Comparable(a: Document, b: Document) {
    a.lab == b.lab && a.owner != b.owner
  }

  ghost predicate ReportedFor(policy: Policy, target: Document, docs: seq<Document>, c: Candidate) {
    exists j: nat ::
      j < |docs| && docs[j].id != target.id && Comparable(target, docs[j])
      && ExhaustiveSignal(policy, target, docs[j]).Some?
      && c == MakeCandidate(target, docs[j], ExhaustiveSignal(policy, target, docs[j]).value)
  }

  // ----- theorems

  lemma JaccardIsSymmetric(a: set<Shingle>, b: set<Shingle>)
    ensures Jaccard(a, b) == Jaccard(b, a)
  {
    assert a + b == b + a && a * b == b * a;
  }

  lemma CandidateIsSymmetric(a: Document, b: Document, signal: Signal)
    requires a.id != b.id && a.lab == b.lab
    ensures MakeCandidate(a, b, signal) == MakeCandidate(b, a, signal)
  {
    JaccardIsSymmetric(a.shingles, b.shingles);
  }

  lemma ExhaustiveIsSymmetric(policy: Policy, docs: seq<Document>, a: Document, b: Document)
    requires a in docs && b in docs && a.id != b.id && Comparable(a, b)
    ensures ExhaustiveSignal(policy, a, b) == ExhaustiveSignal(policy, b, a)
    ensures forall s :: MakeCandidate(a, b, s) == MakeCandidate(b, a, s)
    ensures ExhaustiveSignal(policy, a, b).Some? ==>
              var c := MakeCandidate(a, b, ExhaustiveSignal(policy, a, b).value);
              ReportedFor(policy, a, docs, c) && ReportedFor(policy, b, docs, c)
  {
    JaccardIsSymmetric(a.shingles, b.shingles);
    forall s
      ensures MakeCandidate(a, b, s) == MakeCandidate(b, a, s)
    {
      CandidateIsSymmetric(a, b, s);
    }
    var i :| 0 <= i < |docs| && docs[i] == a;
    var j :| 0 <= j < |docs| && docs[j] == b;
    if ExhaustiveSignal(policy, a, b).Some? {
      var c := MakeCandidate(a, b, ExhaustiveSignal(policy, a, b).value);
      assert docs[j].id != a.id && c == MakeCandidate(a, docs[j], ExhaustiveSignal(policy, a, docs[j]).value);
      assert docs[i].id != b.id && c == MakeCandidate(b, docs[i], ExhaustiveSignal(policy, b, docs[i]).value);
    }
  }

  lemma SignalIsConfirmed(policy: Policy, docs: seq<Document>, i: nat, j: nat)
    requires policy.Valid() && i < j < |docs| && PairSignal(policy, docs, i, j).Some?
    ensures Comparable(docs[i], docs[j]) && ExhaustiveSignal(policy, docs[i], docs[j]).Some?
    ensures Strength(ExhaustiveSignal(policy, docs[i], docs[j]).value) >= Strength(PairSignal(policy, docs, i, j).value)
  {
  }

  /** Every pair the indexed search reports is reported by the exhaustive search for either of its members, with the
      same members, order, digests and Jaccard ratio and a signal at least as strong. */
  lemma IndexedRefinesExhaustive(policy: Policy, docs: seq<Document>, c: Candidate)
    requires policy.Valid() && UniqueIds(docs) && Reported(policy, docs, c)
    ensures exists a, b, signal ::
              && a in docs && b in docs && a.id == c.first && b.id == c.second && a.id != b.id
              && Strength(signal) >= Strength(c.signal)
              && ReportedFor(policy, a, docs, c.(signal := signal))
              && ReportedFor(policy, b, docs, c.(signal := signal))
  {
    var i: nat, j: nat :| i < j < |docs| && PairSignal(policy, docs, i, j).Some?
                          && c == MakeCandidate(docs[i], docs[j], PairSignal(policy, docs, i, j).value);
    SignalIsConfirmed(policy, docs, i, j);
    var signal := ExhaustiveSignal(policy, docs[i], docs[j]).value;
    ExhaustiveIsSymmetric(policy, docs, docs[i], docs[j]);
    assert c.(signal := signal) == MakeCandidate(docs[i], docs[j], signal);
    if Earlier(docs[j], docs[i]) {
      assert docs[j].id == c.first && docs[i].id == c.second;
    } else {
      assert docs[i].id == c.first && docs[j].id == c.second;
    }
  }

  // ----- where the two searches differ

  lemma LayersAgreeIff(policy: Policy, docs: seq<Document>, i: nat, j: nat)
    requires policy.Valid() && i < j < |docs| && Comparable(docs[i], docs[j])
    ensures ExhaustiveSignal(policy, docs[i], docs[j]) == Some(ExactSubmission) ==>
              (PairSignal(policy, docs, i, j) == Some(ExactSubmission) <==>
                 docs[i].inputDigest != "" && Representative(BySubmission, docs, i) &&
                 Representative(BySubmission, docs, j))
    ensures ExhaustiveSignal(policy, docs[i], docs[j]) == Some(ExactDelta) ==>
              (PairSignal(policy, docs, i, j) == Some(ExactDelta) <==>
                 docs[i].deltaDigest != "" && Representative(ByDelta, docs, i) && Representative(ByDelta, docs, j))
    ensures ExhaustiveSignal(policy, docs[i], docs[j]) == Some(ExhaustiveJaccard) ==>
              (PairSignal(policy, docs, i, j) == Some(Minhash) <==> SharesBand(policy, docs[i], docs[j]))
    ensures ExhaustiveSignal(policy, docs[i], docs[j]).None? ==> PairSignal(policy, docs, i, j).None?
  {
  }

  /** Two submissions of one lab with empty digests and no shingles, as the database may hold them: the exhaustive
      comparison takes them for the same submission, the indexed search reports nothing. */
  lemma EmptyDigestsDiffer(policy: Policy) returns (docs: seq<Document>)
    requires policy.Valid()
    ensures Sorted(docs) && UniqueIds(docs) && |docs| == 2 && Comparable(docs[0], docs[1])
    ensures ExhaustiveSignal(policy, docs[0], docs[1]) == Some(ExactSubmission)
    ensures PairSignal(policy, docs, 0, 1).None?
    ensures forall c :: !Reported(policy, docs, c)
  {
    docs := [Document(0, 0, 0, 0, "", "", true, false, {}), Document(1, 1, 0, 1, "", "", true, false, {})];
    assert forall i: nat, j: nat | i < j < |docs| :: PairSignal(policy, docs, i, j).None?;
  }

  // ----- completeness of the index

  function Differences(a: seq<nat>, b: seq<nat>, n: nat): nat
    requires n <= |a| && n <= |b|
  {
    if n == 0 then 0 else Differences(a, b, n - 1) + if a[n - 1] == b[n - 1] then 0 else 1
  }

  lemma {:induction false} DifferencesGrow(a: seq<nat>, b: seq<nat>, lo: nat, hi: nat)
    requires lo <= hi <= |a| && hi <= |b|
    ensures Differences(a, b, lo) <= Differences(a, b, hi)
    ensures a[lo..hi] != b[lo..hi] ==> Differences(a, b, lo) < Differences(a, b, hi)
    decreases hi
  {
    if lo < hi {
      DifferencesGrow(a, b, lo, hi - 1);
      assert a[lo..hi] == a[lo..hi - 1] + [a[hi - 1]] && b[lo..hi] == b[lo..hi - 1] + [b[hi - 1]];
    }
  }

  /** If each of the first `n` bands differs, there are at least `n` differing positions. */
  lemma {:induction false} EachBandCosts(policy: Policy, a: seq<nat>, b: seq<nat>, n: nat)
    requires policy.Valid() && |a| == |b| == policy.permutations && n <= policy.Bands()
    requires forall k: nat | k < n && (k + 1) * policy.bandSize <= |a| :: Band(policy, a, k) != Band(policy, b, k)
    ensures n * policy.bandSize <= |a| && Differences(a, b, n * policy.bandSize) >= n
  {
    if n > 0 {
      EachBandCosts(policy, a, b, n - 1);
      BandFits(policy, n - 1);
      var lo, hi := (n - 1) * policy.bandSize, n * policy.bandSize;
      assert Band(policy, a, n - 1) == a[lo..hi] && Band(policy, b, n - 1) == b[lo..hi];
      DifferencesGrow(a, b, lo, hi);
    }
  }

  /** By the pigeonhole principle: two indexed documents whose signatures differ in fewer positions than there are
      bands agree on some whole band. */
  lemma FewDifferencesShareBand(policy: Policy, a: Document, b: Document)
    requires policy.Valid() && Indexed(a) && Indexed(b)
    requires Differences(Signature(policy, a), Signature(policy, b), policy.permutations) < policy.Bands()
    ensures SharesBand(policy, a, b)
  {
    var x, y := Signature(policy, a), Signature(policy, b);
    if forall k: nat | k < policy.Bands() && (k + 1) * policy.bandSize <= |x| ::
        Band(policy, x, k) != Band(policy, y, k) {
      EachBandCosts(policy, x, y, policy.Bands());
      DifferencesGrow(x, y, policy.Bands() * policy.bandSize, policy.permutations);
    }
  }

  /** Such a pair, if it belongs to one lab and two owners and reaches the threshold, is never missed. */
  lemma IndexIsComplete(policy: Policy, docs: seq<Document>, i: nat, j: nat)
    requires policy.Valid() && i < j < |docs| && Comparable(docs[i], docs[j]) && Indexed(docs[i]) && Indexed(docs[j])
    requires ReachesThreshold(policy, Jaccard(docs[i].shingles, docs[j].shingles))
    requires Differences(Signature(policy, docs[i]), Signature(policy, docs[j]), policy.permutations) < policy.Bands()
    ensures PairSignal(policy, docs, i, j).Some?
    ensures Reported(policy, docs, MakeCandidate(docs[i], docs[j], PairSignal(policy, docs, i, j).value))
  {
    FewDifferencesShareBand(policy, docs[i], docs[j]);
  }

  lemma {:induction false} NoDifferences(a: seq<nat>, n: nat)
    requires n <= |a|
    ensures Differences(a, a, n) == 0
  {
    if n > 0 {
      NoDifferences(a, n - 1);
    }
  }

  lemma MinimumIsUnique(policy: Policy, p: nat, shingles: set<Shingle>, m: nat, n: nat)
    requires IsMinimum(policy, p, shingles, m) && IsMinimum(policy, p, shingles, n)
    ensures m == n
  {
  }

  lemma SameShinglesSameSignature(policy: Policy, a: Document, b: Document)
    requires a.shingles == b.shingles && Indexed(a) && Indexed(b)
    ensures Signature(policy, a) == Signature(policy, b)
  {
  }

  lemma BandsArePositive(policy: Policy)
    requires policy.Valid()
    ensures policy.Bands() > 0
  {
    assert policy.permutations == policy.Bands() * policy.bandSize + policy.permutations % policy.bandSize;
  }

  /** In particular two documents with the same shingles are always reported, at ratio one. */
  lemma EqualShinglesAreReported(policy: Policy, docs: seq<Document>, i: nat, j: nat)
    requires policy.Valid() && i < j < |docs| && Comparable(docs[i], docs[j]) && Indexed(docs[i]) && Indexed(docs[j])
    requires docs[i].shingles == docs[j].shingles
    ensures PairSignal(policy, docs, i, j).Some?
    ensures var c := MakeCandidate(docs[i], docs[j], PairSignal(policy, docs, i, j).value);
            Reported(policy, docs, c) && c.jaccard.shared == c.jaccard.total > 0
  {
    var s := docs[i].shingles;
    assert s + s == s && s * s == s;
    SameShinglesSameSignature(policy, docs[i], docs[j]);
    NoDifferences(Signature(policy, docs[i]), policy.permutations);
    BandsArePositive(policy);
    assert |s| * policy.den >= policy.num * |s|;
    IndexIsComplete(policy, docs, i, j);
  }

  // ----- the exact layer, and the order of the input

  /** A reported pair names its earlier submission first: along the sorted documents, the lower index. */
  lemma CandidateFollowsOrder(docs: seq<Document>, i: nat, j: nat, signal: Signal)
    requires Sorted(docs) && UniqueIds(docs) && i < j < |docs| && docs[i].lab == docs[j].lab
    ensures var c := MakeCandidate(docs[i], docs[j], signal);
            && c == MakeCandidate(docs[j], docs[i], signal)
            && c.first == docs[i].id && c.second == docs[j].id
            && c.firstDelta == docs[i].deltaDigest && c.secondDelta == docs[j].deltaDigest
  {
    assert !Before(docs[j], docs[i]) && docs[i].id != docs[j].id;
    CandidateIsSymmetric(docs[i], docs[j], signal);
  }

  /** `d` is the earliest eligible submission of its owner in its group. */
  ghost predicate EarliestOfOwner(layer: Layer, docs: seq<Document>, d: Document) {
    && EligibleFor(layer, d)
    && forall e | e in docs && e != d && SameGroup(layer, e, d) && e.owner == d.owner :: Earlier(d, e)
  }

  lemma RepresentativeIsEarliest(layer: Layer, docs: seq<Document>, i: nat)
    requires Sorted(docs) && UniqueIds(docs) && i < |docs|
    ensures Representative(layer, docs, i) <==> EarliestOfOwner(layer, docs, docs[i])
  {
    if Representative(layer, docs, i) {
      forall e | e in docs && e != docs[i] && SameGroup(layer, e, docs[i]) && e.owner == docs[i].owner
        ensures Earlier(docs[i], e)
      {
        var k :| 0 <= k < |docs| && docs[k] == e;
        assert k > i && !Before(docs[k], docs[i]) && docs[k].id != docs[i].id;
      }
    }
    if EarliestOfOwner(layer, docs, docs[i]) {
      forall k | 0 <= k < i
        ensures !(SameGroup(layer, docs[k], docs[i]) && docs[k].owner == docs[i].owner)
      {
        assert !Before(docs[i], docs[k]) && docs[k].id != docs[i].id;
      }
    }
  }

  /** In sorted documents with unique ids: when the exhaustive comparison reports a pair, the indexed search reports it
      with the same layer exactly if, for an exact layer, the common digest is not empty and each of the two is the
      earliest eligible submission of its owner with that digest, and, for the Jaccard layer, their signatures share a
      band. */
  lemma SearchesAgreeIff(policy: Policy, docs: seq<Document>, i: nat, j: nat)
    requires policy.Valid() && Sorted(docs) && UniqueIds(docs) && i < j < |docs| && Comparable(docs[i], docs[j])
    ensures ExhaustiveSignal(policy, docs[i], docs[j]) == Some(ExactSubmission) ==>
              (PairSignal(policy, docs, i, j) == Some(ExactSubmission) <==>
                 docs[i].inputDigest != "" && EarliestOfOwner(BySubmission, docs, docs[i]) &&
                 EarliestOfOwner(BySubmission, docs, docs[j]))
    ensures ExhaustiveSignal(policy, docs[i], docs[j]) == Some(ExactDelta) ==>
              (PairSignal(policy, docs, i, j) == Some(ExactDelta) <==>
                 docs[i].deltaDigest != "" && EarliestOfOwner(ByDelta, docs, docs[i]) &&
                 EarliestOfOwner(ByDelta, docs, docs[j]))
    ensures ExhaustiveSignal(policy, docs[i], docs[j]) == Some(ExhaustiveJaccard) ==>
              (PairSignal(policy, docs, i, j) == Some(Minhash) <==> SharesBand(policy, docs[i], docs[j]))
    ensures ExhaustiveSignal(policy, docs[i], docs[j]).None? ==> PairSignal(policy, docs, i, j).None?
  {
    LayersAgreeIff(policy, docs, i, j);
    forall layer
      ensures Representative(layer, docs, i) <==> EarliestOfOwner(layer, docs, docs[i])
      ensures Representative(layer, docs, j) <==> EarliestOfOwner(layer, docs, docs[j])
    {
      RepresentativeIsEarliest(layer, docs, i);
      RepresentativeIsEarliest(layer, docs, j);
    }
  }

  ghost predicate ReportsPair(policy: Policy, docs: seq<Document>, a: Document, b: Document, signal: Signal)
    requires policy.Valid()
  {
    exists c :: Reported(policy, docs, c) && c.signal == signal && {c.first, c.second} == {a.id, b.id}
  }

  lemma ReportedPairIsExact(policy: Policy, docs: seq<Document>, a: Document, b: Document, c: Candidate)
    requires policy.Valid() && Sorted(docs) && UniqueIds(docs) && a in docs && b in docs
    requires Reported(policy, docs, c) && c.signal == ExactSubmission && {c.first, c.second} == {a.id, b.id}
    ensures SameGroup(BySubmission, a, b) && a.owner != b.owner
    ensures EarliestOfOwner(BySubmission, docs, a) && EarliestOfOwner(BySubmission, docs, b)
  {
    var i: nat, j: nat :| i < j < |docs| && PairSignal(policy, docs, i, j).Some?
                          && c == MakeCandidate(docs[i], docs[j], PairSignal(policy, docs, i, j).value);
    assert ExactPair(BySubmission, docs, i, j);
    RepresentativeIsEarliest(BySubmission, docs, i);
    RepresentativeIsEarliest(BySubmission, docs, j);
    assert {c.first, c.second} == {docs[i].id, docs[j].id};
    var x :| 0 <= x < |docs| && docs[x] == a;
    var y :| 0 <= y < |docs| && docs[y] == b;
    assert a.id in {docs[i].id, docs[j].id} && b.id in {docs[i].id, docs[j].id};
    assert docs[i].id in {a.id, b.id} && docs[j].id in {a.id, b.id};
  }

  lemma ExactPairIsReported(policy: Policy, docs: seq<Document>, a: Document, b: Document)
    requires policy.Valid() && Sorted(docs) && UniqueIds(docs) && a in docs && b in docs
    requires SameGroup(BySubmission, a, b) && a.owner != b.owner
    requires EarliestOfOwner(BySubmission, docs, a) && EarliestOfOwner(BySubmission, docs, b)
    ensures ReportsPair(policy, docs, a, b, ExactSubmission)
  {
    var x :| 0 <= x < |docs| && docs[x] == a;
    var y :| 0 <= y < |docs| && docs[y] == b;
    RepresentativeIsEarliest(BySubmission, docs, x);
    RepresentativeIsEarliest(BySubmission, docs, y);
    var i, j := if x < y then x else y, if x < y then y else x;
    assert ExactPair(BySubmission, docs, i, j);
    var c := MakeCandidate(docs[i], docs[j], ExactSubmission);
    assert PairSignal(policy, docs, i, j) == Some(ExactSubmission);
    assert Reported(policy, docs, c) && {c.first, c.second} == {a.id, b.id};
  }

  /** The exact-submission candidates are exactly the pairs of earliest eligible submissions of two owners with one
      lab and one input digest; the later layers never take their place. */
  lemma ExactLayerCoverage(policy: Policy, docs: seq<Document>, a: Document, b: Document)
    requires policy.Valid() && Sorted(docs) && UniqueIds(docs) && a in docs && b in docs
    ensures ReportsPair(policy, docs, a, b, ExactSubmission) <==>
              && SameGroup(BySubmission, a, b) && a.owner != b.owner
              && EarliestOfOwner(BySubmission, docs, a) && EarliestOfOwner(BySubmission, docs, b)
  {
    if ReportsPair(policy, docs, a, b, ExactSubmission) {
      var c :| Reported(policy, docs, c) && c.signal == ExactSubmission && {c.first, c.second} == {a.id, b.id};
      ReportedPairIsExact(policy, docs, a, b, c);
    } else if && SameGroup(BySubmission, a, b) && a.owner != b.owner
              && EarliestOfOwner(BySubmission, docs, a) && EarliestOfOwner(BySubmission, docs, b) {
      ExactPairIsReported(policy, docs, a, b);
    }
  }

  lemma HeadIsFirst(a: seq<Document>, i: nat)
    requires Sorted(a) && i < |a|
    ensures !Before(a[i], a[0])
  {
    if i > 0 {
      assert !Before(a[i], a[0]);
    }
  }

  lemma HeadsAgree(a: seq<Document>, b: seq<Document>)
    requires Sorted(a) && Sorted(b) && UniqueIds(a) && multiset(a) == multiset(b) && a != [] && b != []
    ensures a[0] == b[0]
  {
    assert a[0] in multiset(b) && b[0] in multiset(a);
    var j :| 0 <= j < |b| && b[j] == a[0];
    var i :| 0 <= i < |a| && a[i] == b[0];
    HeadIsFirst(a, i);
    HeadIsFirst(b, j);
  }

  lemma TailMultiset(a: seq<Document>)
    requires a != []
    ensures multiset(a[1..]) == multiset(a) - multiset{a[0]}
  {
    assert a == [a[0]] + a[1..];
  }

  lemma TailKeeps(a: seq<Document>)
    requires a != [] && Sorted(a)
    ensures Sorted(a[1..]) && (UniqueIds(a) ==> UniqueIds(a[1..]))
  {
    if UniqueIds(a) {
      forall i, j | 0 <= i < |a| - 1 && 0 <= j < |a| - 1 && a[1..][i].id == a[1..][j].id
        ensures i == j
      {
        assert a[i + 1].id == a[j + 1].id;
      }
    }
  }

  lemma TailsMatch(a: seq<Document>, b: seq<Document>)
    requires Sorted(a) && Sorted(b) && UniqueIds(a) && multiset(a) == multiset(b) && a != [] && b != []
    ensures a[0] == b[0] && multiset(a[1..]) == multiset(b[1..])
    ensures Sorted(a[1..]) && Sorted(b[1..]) && UniqueIds(a[1..])
  {
    HeadsAgree(a, b);
    TailMultiset(a);
    TailMultiset(b);
    TailKeeps(a);
    TailKeeps(b);
  }

  /** Sorting leaves no choice when ids are unique, so nothing computed from the sorted documents depends on the order
      in which they came. */
  lemma {:induction false} SortedIsUnique(a: seq<Document>, b: seq<Document>)
    requires Sorted(a) && Sorted(b) && UniqueIds(a) && multiset(a) == multiset(b)
    ensures a == b
  {
    assert |multiset(a)| == |a| && |multiset(b)| == |b|;
    if a != [] {
      TailsMatch(a, b);
      SortedIsUnique(a[1..], b[1..]);
      assert a == [a[0]] + a[1..] && b == [b[0]] + b[1..];
    }
  }
}
