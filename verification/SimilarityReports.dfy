/** What both searches find, said once more without their layers, groups and orders: by conditions on two submissions
    and the cardinalities of their shingle sets. */
module SimilarityReports {
  import opened Common
  import opened Similarity

  /** The candidate of two submissions: the one submitted first comes first, the smaller id if at the same time. */
  ghost predicate Names(c: Candidate, a: Document, b: Document) {
    && c.lab == a.lab && c.lab == b.lab && a.owner != b.owner
    && c.first == a.id && c.second == b.id && c.firstDelta == a.deltaDigest && c.secondDelta == b.deltaDigest
    && (a.submittedAt < b.submittedAt || (a.submittedAt == b.submittedAt && a.id < b.id))
    && c.jaccard == if a.shingles + b.shingles == {} then Ratio(0, 1)
                    else Ratio(|a.shingles * b.shingles|, |a.shingles + b.shingles|)
  }

  /** Two complete submissions whose shared shingles are at least the threshold's share of all their shingles. */
  ghost predicate Close(policy: Policy, a: Document, b: Document) {
    && a.shingles != {} && b.shingles != {} && !a.incomplete && !b.incomplete
    && |a.shingles * b.shingles| * policy.den >= policy.num * |a.shingles + b.shingles|
  }

  ghost predicate SameInput(a: Document, b: Document) {
    a.inputDigest == b.inputDigest && (a.hasFiles || a.incomplete) && (b.hasFiles || b.incomplete)
  }

  ghost predicate SameDelta(a: Document, b: Document) {
    && a.deltaDigest == b.deltaDigest && a.hasFiles && b.hasFiles
    && a.shingles != {} && b.shingles != {} && !a.incomplete && !b.incomplete
  }

  /** How the exhaustive search signals two submissions: the same input over the same delta over closeness. */
  ghost predicate ExhaustiveFinds(policy: Policy, s: Signal, a: Document, b: Document) {
    match s
    case ExactSubmission => SameInput(a, b)
    case ExactDelta => !SameInput(a, b) && SameDelta(a, b)
    case ExhaustiveJaccard => !SameInput(a, b) && !SameDelta(a, b) && Close(policy, a, b)
    case Minhash => false
  }

  /** What the exhaustive search finds for `target`. */
  ghost predicate FoundFor(policy: Policy, docs: seq<Document>, target: Document, c: Candidate) {
    exists a, b :: a in docs && b in docs && (a == target || b == target) && Names(c, a, b)
                   && ExhaustiveFinds(policy, c.signal, a, b)
  }

  /** The earliest submission of its owner in its lab with this input. */
  ghost predicate FirstWithInput(docs: seq<Document>, d: Document) {
    && d.inputDigest != "" && (d.hasFiles || d.incomplete)
    && forall e | e in docs && e != d && e.lab == d.lab && e.owner == d.owner && SameInput(e, d) ::
         d.submittedAt < e.submittedAt || (d.submittedAt == e.submittedAt && d.id < e.id)
  }

  /** The earliest complete submission of its owner in its lab with this delta. */
  ghost predicate FirstWithDelta(docs: seq<Document>, d: Document) {
    && d.deltaDigest != "" && d.hasFiles && d.shingles != {} && !d.incomplete
    && forall e | e in docs && e != d && e.lab == d.lab && e.owner == d.owner && SameDelta(e, d) ::
         d.submittedAt < e.submittedAt || (d.submittedAt == e.submittedAt && d.id < e.id)
  }

  ghost predicate FirstWithInputs(docs: seq<Document>, a: Document, b: Document) {
    a.inputDigest == b.inputDigest && FirstWithInput(docs, a) && FirstWithInput(docs, b)
  }

  ghost predicate FirstWithDeltas(docs: seq<Document>, a: Document, b: Document) {
    a.deltaDigest == b.deltaDigest && FirstWithDelta(docs, a) && FirstWithDelta(docs, b)
  }

  /** How the indexed search signals two submissions: the first of two owners with the same input, then those with the
      same delta, then close ones that share a band. */
  ghost predicate IndexFinds(policy: Policy, docs: seq<Document>, s: Signal, a: Document, b: Document)
    requires policy.Valid()
  {
    match s
    case ExactSubmission => FirstWithInputs(docs, a, b)
    case ExactDelta => !FirstWithInputs(docs, a, b) && FirstWithDeltas(docs, a, b)
    case Minhash =>
      !FirstWithInputs(docs, a, b) && !FirstWithDeltas(docs, a, b) && Close(policy, a, b) && SharesBand(policy, a, b)
    case ExhaustiveJaccard => false
  }

  /** What the indexed search finds. */
  ghost predicate Found(policy: Policy, docs: seq<Document>, c: Candidate)
    requires policy.Valid()
  {
    exists a, b :: a in docs && b in docs && Names(c, a, b) && IndexFinds(policy, docs, c.signal, a, b)
  }

  /** The order of a result: by lab, then by the id of the earlier and of the later submission. */
  predicate ByIds(a: Candidate, b: Candidate) {
    || a.lab < b.lab
    || (a.lab == b.lab && a.first < b.first)
    || (a.lab == b.lab && a.first == b.first && a.second < b.second)
  }

  // ----- candidates

  lemma CandidateNames(a: Document, b: Document, signal: Signal)
    requires a.lab == b.lab && a.owner != b.owner && Earlier(a, b)
    ensures Names(MakeCandidate(a, b, signal), a, b)
  {
    assert !Earlier(b, a);
  }

  lemma NamedIsCandidate(c: Candidate, a: Document, b: Document)
    requires Names(c, a, b)
    ensures c == MakeCandidate(a, b, c.signal) && Earlier(a, b)
  {
    assert !Earlier(b, a);
  }

  lemma OneIsEarlier(a: Document, b: Document)
    requires a.id != b.id
    ensures Earlier(a, b) <==> !Earlier(b, a)
  {
  }

  lemma OwnersTellApart(docs: seq<Document>, a: Document, b: Document)
    requires UniqueIds(docs) && a in docs && b in docs && a.owner != b.owner
    ensures a.id != b.id
  {
    var i :| 0 <= i < |docs| && docs[i] == a;
    var j :| 0 <= j < |docs| && docs[j] == b;
  }

  // ----- the exhaustive search

  lemma ExhaustiveSignalFinds(policy: Policy, a: Document, b: Document, s: Signal)
    ensures ExhaustiveSignal(policy, a, b) == Some(s) <==> ExhaustiveFinds(policy, s, a, b)
  {
  }

  lemma ReportedIsFoundFor(policy: Policy, docs: seq<Document>, target: Document, c: Candidate)
    requires target in docs && ReportedFor(policy, target, docs, c)
    ensures FoundFor(policy, docs, target, c)
  {
    var j: nat :| j < |docs| && docs[j].id != target.id && Comparable(target, docs[j])
      && ExhaustiveSignal(policy, target, docs[j]).Some?
      && c == MakeCandidate(target, docs[j], ExhaustiveSignal(policy, target, docs[j]).value);
    OneIsEarlier(target, docs[j]);
    CandidateIsSymmetric(target, docs[j], c.signal);
    ExhaustiveIsSymmetric(policy, docs, target, docs[j]);
    if Earlier(target, docs[j]) {
      CandidateNames(target, docs[j], c.signal);
      ExhaustiveSignalFinds(policy, target, docs[j], c.signal);
    } else {
      CandidateNames(docs[j], target, c.signal);
      ExhaustiveSignalFinds(policy, docs[j], target, c.signal);
    }
  }

  lemma FoundIsReportedFor(policy: Policy, docs: seq<Document>, target: Document, c: Candidate)
    requires UniqueIds(docs) && target in docs && FoundFor(policy, docs, target, c)
    ensures ReportedFor(policy, target, docs, c)
  {
    var a, b :| a in docs && b in docs && (a == target || b == target) && Names(c, a, b)
      && ExhaustiveFinds(policy, c.signal, a, b);
    NamedIsCandidate(c, a, b);
    ExhaustiveSignalFinds(policy, a, b, c.signal);
    OwnersTellApart(docs, a, b);
    ExhaustiveIsSymmetric(policy, docs, a, b);
  }

  // ----- the indexed search

  lemma FirstWithInputIff(docs: seq<Document>, d: Document)
    ensures FirstWithInput(docs, d) <==> EarliestOfOwner(BySubmission, docs, d)
  {
    if FirstWithInput(docs, d) {
      forall e | e in docs && e != d && SameGroup(BySubmission, e, d) && e.owner == d.owner
        ensures Earlier(d, e)
      {
        assert SameInput(e, d);
      }
    }
    if EarliestOfOwner(BySubmission, docs, d) {
      forall e | e in docs && e != d && e.lab == d.lab && e.owner == d.owner && SameInput(e, d)
        ensures Earlier(d, e)
      {
        assert SameGroup(BySubmission, e, d);
      }
    }
  }

  lemma FirstWithDeltaIff(docs: seq<Document>, d: Document)
    ensures FirstWithDelta(docs, d) <==> EarliestOfOwner(ByDelta, docs, d)
  {
    if FirstWithDelta(docs, d) {
      forall e | e in docs && e != d && SameGroup(ByDelta, e, d) && e.owner == d.owner
        ensures Earlier(d, e)
      {
        assert SameDelta(e, d);
      }
    }
    if EarliestOfOwner(ByDelta, docs, d) {
      forall e | e in docs && e != d && e.lab == d.lab && e.owner == d.owner && SameDelta(e, d)
        ensures Earlier(d, e)
      {
        assert SameGroup(ByDelta, e, d);
      }
    }
  }

  lemma ExactPairIff(docs: seq<Document>, i: nat, j: nat)
    requires Sorted(docs) && UniqueIds(docs) && i < j < |docs| && Comparable(docs[i], docs[j])
    ensures ExactPair(BySubmission, docs, i, j) <==> FirstWithInputs(docs, docs[i], docs[j])
    ensures ExactPair(ByDelta, docs, i, j) <==> FirstWithDeltas(docs, docs[i], docs[j])
  {
    forall layer
      ensures Representative(layer, docs, i) <==> EarliestOfOwner(layer, docs, docs[i])
      ensures Representative(layer, docs, j) <==> EarliestOfOwner(layer, docs, docs[j])
    {
      RepresentativeIsEarliest(layer, docs, i);
      RepresentativeIsEarliest(layer, docs, j);
    }
    FirstWithInputIff(docs, docs[i]);
    FirstWithInputIff(docs, docs[j]);
    FirstWithDeltaIff(docs, docs[i]);
    FirstWithDeltaIff(docs, docs[j]);
  }

  lemma PairSignalFinds(policy: Policy, docs: seq<Document>, i: nat, j: nat, s: Signal)
    requires policy.Valid() && Sorted(docs) && UniqueIds(docs) && i < j < |docs| && Comparable(docs[i], docs[j])
    ensures PairSignal(policy, docs, i, j) == Some(s) <==> IndexFinds(policy, docs, s, docs[i], docs[j])
  {
    ExactPairIff(docs, i, j);
  }

  lemma ReportedIsFound(policy: Policy, docs: seq<Document>, c: Candidate)
    requires policy.Valid() && Sorted(docs) && UniqueIds(docs) && Reported(policy, docs, c)
    ensures Found(policy, docs, c)
  {
    var i: nat, j: nat :| i < j < |docs| && PairSignal(policy, docs, i, j).Some?
                          && c == MakeCandidate(docs[i], docs[j], PairSignal(policy, docs, i, j).value);
    SignalIsConfirmed(policy, docs, i, j);
    PairSignalFinds(policy, docs, i, j, c.signal);
    assert !Before(docs[j], docs[i]);
    OneIsEarlier(docs[i], docs[j]);
    CandidateNames(docs[i], docs[j], c.signal);
  }

  lemma FoundIsReported(policy: Policy, docs: seq<Document>, c: Candidate)
    requires policy.Valid() && Sorted(docs) && UniqueIds(docs) && Found(policy, docs, c)
    ensures Reported(policy, docs, c)
  {
    var a, b :| a in docs && b in docs && Names(c, a, b) && IndexFinds(policy, docs, c.signal, a, b);
    NamedIsCandidate(c, a, b);
    var i :| 0 <= i < |docs| && docs[i] == a;
    var j :| 0 <= j < |docs| && docs[j] == b;
    assert Before(a, b);
    assert i < j;
    PairSignalFinds(policy, docs, i, j, c.signal);
  }

  /** The pairs of the approximate layer. */
  lemma NearPairIff(policy: Policy, docs: seq<Document>, i: nat, j: nat)
    requires policy.Valid()
    ensures NearPair(policy, docs, i, j) <==>
              && i < j < |docs| && docs[i].lab == docs[j].lab && docs[i].owner != docs[j].owner
              && Close(policy, docs[i], docs[j]) && SharesBand(policy, docs[i], docs[j])
  {
  }

  /** `m` is the least rank of a shingle under the `p`-th permutation. */
  ghost predicate IsLeastRank(policy: Policy, p: nat, shingles: set<Shingle>, m: nat) {
    (exists x :: x in shingles && policy.rank(p, x) == m) && forall x | x in shingles :: m <= policy.rank(p, x)
  }

  ghost predicate SameLeastRank(policy: Policy, p: nat, a: Document, b: Document) {
    exists m: nat :: IsLeastRank(policy, p, a.shingles, m) && IsLeastRank(policy, p, b.shingles, m)
  }

  /** Two submissions share a band if the least ranks of their shingles agree under all permutations of one band. */
  lemma SharesBandIff(policy: Policy, a: Document, b: Document)
    requires policy.Valid() && Indexed(a) && Indexed(b)
    ensures SharesBand(policy, a, b) <==>
              exists k: nat :: k < policy.permutations / policy.bandSize && LeastRanksAgree(policy, k, a, b)
  {
    forall k: nat | k < policy.Bands()
      ensures (k + 1) * policy.bandSize <= policy.permutations
      ensures Band(policy, Signature(policy, a), k) == Band(policy, Signature(policy, b), k) <==>
              LeastRanksAgree(policy, k, a, b)
    {
      BandFits(policy, k);
      BandAgreesIff(policy, k, a, b);
    }
  }

  /** Band `k` consists of the permutations from `k * bandSize` up to `(k + 1) * bandSize`. */
  ghost predicate LeastRanksAgree(policy: Policy, k: nat, a: Document, b: Document) {
    forall p: nat | k * policy.bandSize <= p < (k + 1) * policy.bandSize :: SameLeastRank(policy, p, a, b)
  }

  lemma SignatureIsLeastRank(policy: Policy, p: nat, a: Document, b: Document)
    requires Indexed(a) && Indexed(b) && p < policy.permutations
    ensures Signature(policy, a)[p] == Signature(policy, b)[p] <==> SameLeastRank(policy, p, a, b)
  {
    var m, n := MinRank(policy, p, a.shingles), MinRank(policy, p, b.shingles);
    assert IsLeastRank(policy, p, a.shingles, m) && IsLeastRank(policy, p, b.shingles, n);
  }

  lemma BandAgreesIff(policy: Policy, k: nat, a: Document, b: Document)
    requires Indexed(a) && Indexed(b) && policy.bandSize > 0 && (k + 1) * policy.bandSize <= policy.permutations
    ensures Band(policy, Signature(policy, a), k) == Band(policy, Signature(policy, b), k) <==>
            LeastRanksAgree(policy, k, a, b)
  {
    var x, y := Band(policy, Signature(policy, a), k), Band(policy, Signature(policy, b), k);
    var lo := k * policy.bandSize;
    assert lo + policy.bandSize == (k + 1) * policy.bandSize;
    forall p: nat | lo <= p < lo + policy.bandSize
      ensures x[p - lo] == y[p - lo] <==> SameLeastRank(policy, p, a, b)
    {
      SignatureIsLeastRank(policy, p, a, b);
    }
    if LeastRanksAgree(policy, k, a, b) {
      forall i | 0 <= i < policy.bandSize
        ensures x[i] == y[i]
      {
        assert SameLeastRank(policy, lo + i, a, b);
      }
    } else {
      var p: nat :| lo <= p < (k + 1) * policy.bandSize && !SameLeastRank(policy, p, a, b);
      assert x[p - lo] != y[p - lo];
    }
  }

  // ----- the order of the documents

  lemma FoundIgnoresOrder(policy: Policy, a: seq<Document>, b: seq<Document>, c: Candidate)
    requires policy.Valid() && (forall d :: d in a <==> d in b) && Found(policy, a, c)
    ensures Found(policy, b, c)
  {
    var x, y :| x in a && y in a && Names(c, x, y) && IndexFinds(policy, a, c.signal, x, y);
    forall d
      ensures FirstWithInput(a, d) <==> FirstWithInput(b, d)
      ensures FirstWithDelta(a, d) <==> FirstWithDelta(b, d)
    {
    }
    assert x in b && y in b && IndexFinds(policy, b, c.signal, x, y);
  }

  /** What the indexed search is meant to report along the sorted documents is what it is said to find among them, in
      whatever order they come. */
  lemma ReportedIff(policy: Policy, docs: seq<Document>, ordered: seq<Document>, c: Candidate)
    requires policy.Valid() && Sorted(ordered) && UniqueIds(ordered) && multiset(ordered) == multiset(docs)
    ensures Reported(policy, ordered, c) <==> Found(policy, docs, c)
  {
    forall d
      ensures d in docs <==> d in ordered
    {
      assert d in multiset(docs) <==> d in multiset(ordered);
    }
    if Reported(policy, ordered, c) {
      ReportedIsFound(policy, ordered, c);
      FoundIgnoresOrder(policy, ordered, docs, c);
    }
    if Found(policy, docs, c) {
      FoundIgnoresOrder(policy, docs, ordered, c);
      FoundIsReported(policy, ordered, c);
    }
  }

  /** What the exhaustive search is meant to report for a submission is what it is said to find for it. */
  lemma ReportedForIff(policy: Policy, docs: seq<Document>, target: Document, c: Candidate)
    requires UniqueIds(docs) && target in docs
    ensures ReportedFor(policy, target, docs, c) <==> FoundFor(policy, docs, target, c)
  {
    if ReportedFor(policy, target, docs, c) {
      ReportedIsFoundFor(policy, docs, target, c);
    }
    if FoundFor(policy, docs, target, c) {
      FoundIsReportedFor(policy, docs, target, c);
    }
  }

  // ----- consequences

  /** A candidate that either search finds by similarity reaches the threshold, and says by how much. */
  lemma FoundIsClose(policy: Policy, docs: seq<Document>, target: Document, c: Candidate)
    requires policy.Valid() && UniqueIds(docs)
    requires (Found(policy, docs, c) && c.signal == Minhash) ||
             (FoundFor(policy, docs, target, c) && c.signal == ExhaustiveJaccard)
    ensures c.jaccard.shared * policy.den >= policy.num * c.jaccard.total
    ensures forall a, b | a in docs && b in docs && a.id == c.first && b.id == c.second ::
              c.jaccard.shared == |a.shingles * b.shingles| && c.jaccard.total == |a.shingles + b.shingles|
  {
    var a, b :| a in docs && b in docs && Names(c, a, b) && Close(policy, a, b);
    assert a.shingles + b.shingles != {} by {
      assert forall s | s in a.shingles :: s in a.shingles + b.shingles;
    }
    forall x, y | x in docs && y in docs && x.id == c.first && y.id == c.second
      ensures x == a && y == b
    {
      SameIdSameDocument(docs, x, a);
      SameIdSameDocument(docs, y, b);
    }
  }

  lemma SameIdSameDocument(docs: seq<Document>, a: Document, b: Document)
    requires UniqueIds(docs) && a in docs && b in docs && a.id == b.id
    ensures a == b
  {
    var i :| 0 <= i < |docs| && docs[i] == a;
    var j :| 0 <= j < |docs| && docs[j] == b;
  }

  /** Two submissions with different inputs, different deltas and too little in common are found by neither search. */
  lemma DistantIsNotFound(policy: Policy, docs: seq<Document>, a: Document, b: Document, target: Document, c: Candidate)
    requires policy.Valid() && UniqueIds(docs) && a in docs && b in docs
    requires a.inputDigest != b.inputDigest && a.deltaDigest != b.deltaDigest
    requires |a.shingles * b.shingles| * policy.den < policy.num * |a.shingles + b.shingles|
    requires (c.first == a.id && c.second == b.id) || (c.first == b.id && c.second == a.id)
    ensures !Found(policy, docs, c) && !FoundFor(policy, docs, target, c)
  {
    assert a.shingles * b.shingles == b.shingles * a.shingles && a.shingles + b.shingles == b.shingles + a.shingles;
    forall x, y | x in docs && y in docs && Names(c, x, y)
      ensures (x == a && y == b) || (x == b && y == a)
    {
      if c.first == a.id {
        SameIdSameDocument(docs, x, a);
        SameIdSameDocument(docs, y, b);
      } else {
        SameIdSameDocument(docs, x, b);
        SameIdSameDocument(docs, y, a);
      }
    }
  }
}
