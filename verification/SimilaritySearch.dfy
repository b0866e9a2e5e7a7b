/** The indexed search over all pairs and the exhaustive search for one submission. */
module SimilaritySearch {
  import opened Common
  import opened Similarity
  import opened SimilarityDetector
  import opened SimilarityReports

  // ----- signatures

  method Enumerate(shingles: set<Shingle>) returns (values: seq<Shingle>)
    ensures forall s :: s in values <==> s in shingles
  {
    values := [];
    var left := shingles;
    while left != {}
      invariant left <= shingles && forall s :: s in values <==> s in shingles && s !in left
      decreases left
    {
      var s :| s in left;
      left := left - {s};
      values := values + [s];
    }
  }

  /** The minimum rank under each permutation, computed from the shingles in any order of iteration. */
  method MinhashSignature(policy: Policy, d: Document, values: seq<Shingle>) returns (signature: seq<nat>)
    requires Indexed(d) && forall s :: s in values <==> s in d.shingles
    ensures signature == Signature(policy, d)
    ensures |signature| == policy.permutations
    ensures forall p: nat | p < |signature| :: IsLeastRank(policy, p, d.shingles, signature[p])
  {
    signature := [];
    for p := 0 to policy.permutations
      invariant |signature| == p && forall q | 0 <= q < p :: signature[q] == Signature(policy, d)[q]
    {
      assert exists s :: s in values;
      var m := policy.rank(p, values[0]);
      for i := 1 to |values|
        invariant exists s :: s in values && policy.rank(p, s) == m
        invariant forall k | 0 <= k < i :: m <= policy.rank(p, values[k])
      {
        var rank := policy.rank(p, values[i]);
        m := if rank < m then rank else m;
      }
      MinimumFound(policy, p, d, values, m);
      signature := signature + [m];
    }
  }

  lemma MinimumFound(policy: Policy, p: nat, d: Document, values: seq<Shingle>, m: nat)
    requires Indexed(d) && forall s :: s in values <==> s in d.shingles
    requires exists s :: s in values && policy.rank(p, s) == m
    requires forall k | 0 <= k < |values| :: m <= policy.rank(p, values[k])
    ensures m == MinRank(policy, p, d.shingles)
  {
    assert IsMinimum(policy, p, d.shingles, m);
    MinimumIsUnique(policy, p, d.shingles, m, MinRank(policy, p, d.shingles));
  }

  ghost predicate SignaturesOf(policy: Policy, docs: seq<Document>, signatures: seq<seq<nat>>) {
    |signatures| == |docs| && forall k | 0 <= k < |docs| :: signatures[k] == Signature(policy, docs[k])
  }

  /** The signatures of the indexed documents, computed in whatever order the workers get to them. */
  method Signatures(policy: Policy, docs: seq<Document>) returns (signatures: seq<seq<nat>>)
    ensures SignaturesOf(policy, docs, signatures)
  {
    var left := set k: nat | k < |docs| && Indexed(docs[k]);
    signatures := seq(|docs|, _ => []);
    while left != {}
      invariant |signatures| == |docs|
      invariant forall k | k in left :: k < |docs| && Indexed(docs[k])
      invariant forall k: nat | k < |docs| && k !in left :: signatures[k] == Signature(policy, docs[k])
      decreases left
    {
      var k :| k in left;
      left := left - {k};
      var values := Enumerate(docs[k].shingles);
      var signature := MinhashSignature(policy, docs[k], values);
      signatures := signatures[k := signature];
    }
  }

  // ----- buckets

  type BucketKey = (Lab, nat, seq<nat>)

  type Buckets = map<BucketKey, set<nat>>

  function BandKey(policy: Policy, lab: Lab, signature: seq<nat>, b: nat): BucketKey
    requires policy.Valid() && |signature| == policy.permutations && b < policy.Bands()
  {
    BandFits(policy, b);
    (lab, b, Band(policy, signature, b))
  }

  predicate Stored(buckets: Buckets, key: BucketKey, k: nat) {
    key in buckets && k in buckets[key]
  }

  /** Document `k` belongs into bucket `key`. */
  ghost predicate Belongs(policy: Policy, docs: seq<Document>, key: BucketKey, k: nat)
    requires policy.Valid()
  {
    && k < |docs| && Indexed(docs[k]) && key.1 < policy.Bands()
    && key == BandKey(policy, docs[k].lab, Signature(policy, docs[k]), key.1)
  }

  ghost predicate AllBelong(policy: Policy, docs: seq<Document>, buckets: Buckets)
    requires policy.Valid()
  {
    forall key, k: nat | Stored(buckets, key, k) :: Belongs(policy, docs, key, k)
  }

  ghost predicate Keeps(buckets: Buckets, more: Buckets) {
    forall key, k | Stored(buckets, key, k) :: Stored(more, key, k)
  }

  /** One document is put into one bucket per band. */
  method FileDocument(policy: Policy, docs: seq<Document>, i: nat, signature: seq<nat>, buckets: Buckets)
    returns (more: Buckets)
    requires policy.Valid() && i < |docs| && Indexed(docs[i]) && signature == Signature(policy, docs[i])
    requires AllBelong(policy, docs, buckets)
    ensures AllBelong(policy, docs, more) && Keeps(buckets, more)
    ensures forall key | Belongs(policy, docs, key, i) :: Stored(more, key, i)
  {
    more := buckets;
    for b := 0 to policy.Bands()
      invariant AllBelong(policy, docs, more) && Keeps(buckets, more)
      invariant forall key: BucketKey | Belongs(policy, docs, key, i) && key.1 < b :: Stored(more, key, i)
    {
      var key := BandKey(policy, docs[i].lab, signature, b);
      assert Belongs(policy, docs, key, i);
      more := more[key := (if key in more then more[key] else {}) + {i}];
    }
  }

  /** Every non-empty signature is put into one bucket per band. */
  method FillBuckets(policy: Policy, docs: seq<Document>, signatures: seq<seq<nat>>) returns (buckets: Buckets)
    requires policy.Valid() && SignaturesOf(policy, docs, signatures)
    ensures forall key, k: nat :: Stored(buckets, key, k) <==> Belongs(policy, docs, key, k)
  {
    buckets := map[];
    for i := 0 to |docs|
      invariant AllBelong(policy, docs, buckets)
      invariant forall key, k: nat | Belongs(policy, docs, key, k) && k < i :: Stored(buckets, key, k)
    {
      if signatures[i] != [] {
        buckets := FileDocument(policy, docs, i, signatures[i], buckets);
      }
    }
  }

  ghost predicate Approximate(policy: Policy, docs: seq<Document>, i: nat, j: nat)
    requires policy.Valid()
  {
    i < j < |docs| && docs[i].lab == docs[j].lab && SharesBand(policy, docs[i], docs[j])
  }

  lemma BucketMatesShareBand(policy: Policy, docs: seq<Document>, key: BucketKey, i: nat, j: nat)
    requires policy.Valid() && i < j && Belongs(policy, docs, key, i) && Belongs(policy, docs, key, j)
    ensures Approximate(policy, docs, i, j)
  {
    BandFits(policy, key.1);
    assert Band(policy, Signature(policy, docs[i]), key.1) == Band(policy, Signature(policy, docs[j]), key.1);
  }

  lemma BandMatesShareBucket(policy: Policy, docs: seq<Document>, i: nat, j: nat) returns (key: BucketKey)
    requires policy.Valid() && Approximate(policy, docs, i, j)
    ensures Belongs(policy, docs, key, i) && Belongs(policy, docs, key, j)
  {
    var b: nat :| b < policy.Bands() && (b + 1) * policy.bandSize <= policy.permutations
                  && Band(policy, Signature(policy, docs[i]), b) == Band(policy, Signature(policy, docs[j]), b);
    key := BandKey(policy, docs[i].lab, Signature(policy, docs[i]), b);
  }

  /** The pairs that meet in some bucket are exactly those of one lab that share a band. */
  method ApproximatePairs(policy: Policy, docs: seq<Document>, signatures: seq<seq<nat>>)
    returns (pairs: set<(nat, nat)>)
    requires policy.Valid() && SignaturesOf(policy, docs, signatures)
    ensures forall i: nat, j: nat :: (i, j) in pairs <==> Approximate(policy, docs, i, j)
  {
    var buckets := FillBuckets(policy, docs, signatures);
    pairs := {};
    var left := buckets.Keys;
    while left != {}
      invariant left <= buckets.Keys
      invariant forall i: nat, j: nat | (i, j) in pairs :: Approximate(policy, docs, i, j)
      invariant forall key | key in buckets && key !in left ::
                  forall i, j | i in buckets[key] && j in buckets[key] && i < j :: (i, j) in pairs
      decreases left
    {
      var key :| key in left;
      left := left - {key};
      forall i, j | i in buckets[key] && j in buckets[key] && i < j
        ensures Approximate(policy, docs, i, j)
      {
        assert Stored(buckets, key, i) && Stored(buckets, key, j);
        BucketMatesShareBand(policy, docs, key, i, j);
      }
      pairs := pairs + set i, j | i in buckets[key] && j in buckets[key] && i < j :: (i, j);
    }
    forall i: nat, j: nat | Approximate(policy, docs, i, j)
      ensures (i, j) in pairs
    {
      var key := BandMatesShareBucket(policy, docs, i, j);
      assert Stored(buckets, key, i) && Stored(buckets, key, j);
    }
  }

  // ----- the approximate layer

  ghost predicate ApproximateSet(policy: Policy, docs: seq<Document>, pairs: set<(nat, nat)>)
    requires policy.Valid()
  {
    forall x: nat, y: nat :: (x, y) in pairs <==> Approximate(policy, docs, x, y)
  }

  method OfferNear(policy: Policy, docs: seq<Document>, pairs: set<(nat, nat)>, selected: Selection, i: nat, j: nat)
    returns (more: Selection, ghost near: set<(nat, nat)>)
    requires policy.Valid() && i < j < |docs| && ApproximateSet(policy, docs, pairs)
    ensures Offered(docs, selected, more, near, Minhash)
    ensures near == if NearPair(policy, docs, i, j) then {(i, j)} else {}
  {
    if (i, j) in pairs && docs[i].owner != docs[j].owner
       && ReachesThreshold(policy, Jaccard(docs[i].shingles, docs[j].shingles)) {
      near := {(i, j)};
      more := OfferPair(docs, selected, i, j, Minhash);
    } else {
      more, near := selected, {};
    }
  }

  /** One row of the sorted approximate pairs: those that begin with `i`. */
  method OfferNearRow(policy: Policy, docs: seq<Document>, pairs: set<(nat, nat)>, selected: Selection, i: nat)
    returns (more: Selection, ghost near: set<(nat, nat)>)
    requires policy.Valid() && i < |docs| && ApproximateSet(policy, docs, pairs)
    ensures Offered(docs, selected, more, near, Minhash)
    ensures forall x: nat, y: nat :: (x, y) in near <==> x == i && NearPair(policy, docs, x, y)
  {
    more, near := selected, {};
    for j := i + 1 to |docs|
      invariant Offered(docs, selected, more, near, Minhash)
      invariant forall x: nat, y: nat :: (x, y) in near <==> x == i && y < j && NearPair(policy, docs, x, y)
    {
      ghost var middle := more;
      ghost var added;
      more, added := OfferNear(policy, docs, pairs, more, i, j);
      OfferMore(docs, selected, middle, more, near, added, Minhash);
      near := near + added;
    }
  }

  ghost function NearPairs(policy: Policy, docs: seq<Document>): set<(nat, nat)>
    requires policy.Valid()
  {
    set i, j | 0 <= i < |docs| && 0 <= j < |docs| && NearPair(policy, docs, i, j) :: (i, j)
  }

  /** Every near pair is offered to the selection, and no other pair. */
  method AddNearCandidates(policy: Policy, docs: seq<Document>, selected: Selection) returns (more: Selection)
    requires policy.Valid()
    ensures Offered(docs, selected, more, NearPairs(policy, docs), Minhash)
    ensures forall x: nat, y: nat :: (x, y) in NearPairs(policy, docs) <==>
              && x < y < |docs| && docs[x].lab == docs[y].lab && docs[x].owner != docs[y].owner
              && Close(policy, docs[x], docs[y]) && SharesBand(policy, docs[x], docs[y])
  {
    var signatures := Signatures(policy, docs);
    var pairs := ApproximatePairs(policy, docs, signatures);
    more := selected;
    ghost var near: set<(nat, nat)> := {};
    for i := 0 to |docs|
      invariant Offered(docs, selected, more, near, Minhash)
      invariant forall x: nat, y: nat :: (x, y) in near <==> x < i && NearPair(policy, docs, x, y)
    {
      ghost var middle := more;
      ghost var row;
      more, row := OfferNearRow(policy, docs, pairs, more, i);
      OfferMore(docs, selected, middle, more, near, row, Minhash);
      near := near + row;
    }
    assert near == NearPairs(policy, docs);
    forall x: nat, y: nat
      ensures NearPair(policy, docs, x, y) <==>
                && x < y < |docs| && docs[x].lab == docs[y].lab && docs[x].owner != docs[y].owner
                && Close(policy, docs[x], docs[y]) && SharesBand(policy, docs[x], docs[y])
    {
      NearPairIff(policy, docs, x, y);
    }
  }

  // ----- the order of candidates

  predicate CandidateBefore(a: Candidate, b: Candidate) {
    a.lab < b.lab || (a.lab == b.lab && (a.first < b.first || (a.first == b.first && a.second < b.second)))
  }

  ghost predicate Ordered(s: seq<Candidate>) {
    forall i, j | 0 <= i < j < |s| :: !CandidateBefore(s[j], s[i])
  }

  ghost predicate StrictlyOrdered(s: seq<Candidate>) {
    StrictlySorted(s, CandidateBefore)
  }

  predicate SameIds(a: Candidate, b: Candidate) {
    a.first == b.first && a.second == b.second
  }

  method InsertCandidate(s: seq<Candidate>, c: Candidate) returns (r: seq<Candidate>)
    requires Ordered(s)
    ensures Ordered(r) && forall d :: d in r <==> d == c || d in s
    ensures StrictlyOrdered(s) && (forall d | d in s :: !SameIds(c, d)) ==> StrictlyOrdered(r)
  {
    var k := |s|;
    while k > 0 && CandidateBefore(c, s[k - 1])
      invariant 0 <= k <= |s| && forall i | k <= i < |s| :: CandidateBefore(c, s[i])
    {
      k := k - 1;
    }
    r := s[..k] + [c] + s[k..];
    assert s == s[..k] + s[k..];
    InsertionKeepsOrder(s, c, k);
    if StrictlyOrdered(s) && forall d | d in s :: !SameIds(c, d) {
      InsertionKeepsStrictOrder(s, c, k);
    }
  }

  lemma InsertionKeepsOrder(s: seq<Candidate>, c: Candidate, k: nat)
    requires Ordered(s) && k <= |s| && forall i | k <= i < |s| :: CandidateBefore(c, s[i])
    requires k > 0 ==> !CandidateBefore(c, s[k - 1])
    ensures Ordered(s[..k] + [c] + s[k..])
    ensures forall i | 0 <= i < k :: !CandidateBefore(c, s[i])
  {
    var r := s[..k] + [c] + s[k..];
    assert forall i | 0 <= i < |r| :: r[i] == if i < k then s[i] else if i == k then c else s[i - 1];
    forall i | 0 <= i < k
      ensures !CandidateBefore(c, s[i])
    {
      assert i < k - 1 ==> !CandidateBefore(s[k - 1], s[i]);
    }
  }

  lemma InsertionKeepsStrictOrder(s: seq<Candidate>, c: Candidate, k: nat)
    requires StrictlyOrdered(s) && k <= |s| && forall i | k <= i < |s| :: CandidateBefore(c, s[i])
    requires forall i | 0 <= i < k :: !CandidateBefore(c, s[i]) && !SameIds(c, s[i])
    ensures StrictlyOrdered(s[..k] + [c] + s[k..])
  {
    var r := s[..k] + [c] + s[k..];
    assert forall i | 0 <= i < |r| :: r[i] == if i < k then s[i] else if i == k then c else s[i - 1];
    assert forall i | 0 <= i < k :: CandidateBefore(s[i], c);
  }

  function IdKey(c: Candidate): (Id, Id) {
    if c.first <= c.second then (c.first, c.second) else (c.second, c.first)
  }

  ghost predicate KeysMatch(selected: Selection) {
    forall k | k in selected :: IdKey(selected[k]) == k
  }

  lemma KeyOfCandidate(a: Document, b: Document, signal: Signal)
    ensures IdKey(MakeCandidate(a, b, signal)) == PairKey(a, b)
  {
  }

  lemma OfferedKeepsKeys(docs: seq<Document>, before: Selection, after: Selection, pairs: set<(nat, nat)>,
                         signal: Signal)
    requires Offered(docs, before, after, pairs, signal) && KeysMatch(before)
    ensures KeysMatch(after)
  {
    forall k | k in after && k !in before
      ensures IdKey(after[k]) == k
    {
      var x :| x in pairs && k == PairKey(docs[x.0], docs[x.1]) &&
        after[k] == MakeCandidate(docs[x.0], docs[x.1], signal);
      KeyOfCandidate(docs[x.0], docs[x.1], signal);
    }
  }

  method SortSelection(selected: Selection) returns (s: seq<Candidate>)
    requires KeysMatch(selected)
    ensures StrictlyOrdered(s)
    ensures forall c :: c in s <==> exists k :: k in selected && selected[k] == c
  {
    s := [];
    var left := selected.Keys;
    while left != {}
      invariant left <= selected.Keys && Ordered(s) && StrictlyOrdered(s)
      invariant forall c :: c in s <==> exists k :: k in selected && k !in left && selected[k] == c
      decreases left
    {
      var key :| key in left;
      left := left - {key};
      s := InsertCandidate(s, selected[key]);
    }
  }

  // ----- the indexed search

  ghost predicate LayersOffered(policy: Policy, docs: seq<Document>, s1: Selection, s2: Selection, s3: Selection)
    requires policy.Valid()
  {
    && Offered(docs, map[], s1, ExactPairs(BySubmission, docs), ExactSubmission)
    && Offered(docs, s1, s2, ExactPairs(ByDelta, docs), ExactDelta)
    && Offered(docs, s2, s3, NearPairs(policy, docs), Minhash)
  }

  lemma SelectedBySomeLayer(policy: Policy, docs: seq<Document>, s1: Selection, s2: Selection, s3: Selection,
                            k: (Id, Id))
    returns (i: nat, j: nat)
    requires policy.Valid() && LayersOffered(policy, docs, s1, s2, s3) && k in s3
    ensures i < j < |docs| && k == PairKey(docs[i], docs[j]) && PairSignal(policy, docs, i, j).Some?
    ensures s3[k] == MakeCandidate(docs[i], docs[j], PairSignal(policy, docs, i, j).value)
  {
    var p1, p2, p3 := ExactPairs(BySubmission, docs), ExactPairs(ByDelta, docs), NearPairs(policy, docs);
    var x: (nat, nat);
    if k in s1 {
      x :| x in p1 && k == PairKey(docs[x.0], docs[x.1]) &&
        s1[k] == MakeCandidate(docs[x.0], docs[x.1], ExactSubmission);
    } else if k in s2 {
      x :| x in p2 && k == PairKey(docs[x.0], docs[x.1]) && s2[k] == MakeCandidate(docs[x.0], docs[x.1], ExactDelta);
      assert (x.0, x.1) !in p1;
    } else {
      x :| x in p3 && k == PairKey(docs[x.0], docs[x.1]) && s3[k] == MakeCandidate(docs[x.0], docs[x.1], Minhash);
      assert (x.0, x.1) !in p1 && (x.0, x.1) !in p2;
    }
    i, j := x.0, x.1;
    assert (i, j) == x;
  }

  lemma PairKeyIsInjective(docs: seq<Document>, i: nat, j: nat, x: nat, y: nat)
    requires UniqueIds(docs) && i < j < |docs| && x < y < |docs|
    requires PairKey(docs[i], docs[j]) == PairKey(docs[x], docs[y])
    ensures i == x && j == y
  {
    assert {docs[x].id, docs[y].id} == {docs[i].id, docs[j].id};
  }

  lemma PairIsSelected(policy: Policy, docs: seq<Document>, s1: Selection, s2: Selection, s3: Selection, i: nat, j: nat)
    requires policy.Valid() && LayersOffered(policy, docs, s1, s2, s3)
    requires i < j < |docs| && PairSignal(policy, docs, i, j).Some?
    ensures PairKey(docs[i], docs[j]) in s3
  {
    assert (i, j) in ExactPairs(BySubmission, docs) || (i, j) in ExactPairs(ByDelta, docs) ||
           (i, j) in NearPairs(policy, docs);
  }

  /** Three layers, each leaving what earlier ones selected, select what is reported and nothing else. */
  lemma SelectionIsReported(policy: Policy, docs: seq<Document>, s1: Selection, s2: Selection, s3: Selection,
                            c: Candidate)
    requires policy.Valid() && UniqueIds(docs) && LayersOffered(policy, docs, s1, s2, s3)
    ensures (exists k :: k in s3 && s3[k] == c) <==> Reported(policy, docs, c)
  {
    if k :| k in s3 && s3[k] == c {
      var i, j := SelectedBySomeLayer(policy, docs, s1, s2, s3, k);
    }
    if Reported(policy, docs, c) {
      var i: nat, j: nat :| i < j < |docs| && PairSignal(policy, docs, i, j).Some?
                            && c == MakeCandidate(docs[i], docs[j], PairSignal(policy, docs, i, j).value);
      PairIsSelected(policy, docs, s1, s2, s3, i, j);
      var key := PairKey(docs[i], docs[j]);
      var x, y := SelectedBySomeLayer(policy, docs, s1, s2, s3, key);
      PairKeyIsInjective(docs, i, j, x, y);
    }
  }

  /** The indexed search. Whatever order the dictionaries and sets are walked in, the result is the sorted list of the
      reported pairs. */
  method Detect(policy: Policy, docs: seq<Document>) returns (result: seq<Candidate>, ghost ordered: seq<Document>)
    requires policy.Valid()
    ensures Sorted(ordered) && multiset(ordered) == multiset(docs)
    ensures StrictlyOrdered(result)
    ensures forall p, q | 0 <= p < q < |result| :: ByIds(result[p], result[q])
    ensures UniqueIds(ordered) ==> forall c :: c in result <==> Reported(policy, ordered, c)
    ensures UniqueIds(docs) ==> forall c :: c in result <==> Found(policy, docs, c)
  {
    var sorted := SortDocuments(docs);
    ordered := sorted;
    var s1 := AddExactCandidates(sorted, map[], BySubmission);
    var s2 := AddExactCandidates(sorted, s1, ByDelta);
    var s3 := AddNearCandidates(policy, sorted, s2);
    OfferedKeepsKeys(sorted, map[], s1, ExactPairs(BySubmission, sorted), ExactSubmission);
    OfferedKeepsKeys(sorted, s1, s2, ExactPairs(ByDelta, sorted), ExactDelta);
    OfferedKeepsKeys(sorted, s2, s3, NearPairs(policy, sorted), Minhash);
    result := SortSelection(s3);
    if UniqueIds(ordered) {
      forall c
        ensures c in result <==> Reported(policy, ordered, c)
      {
        SelectionIsReported(policy, ordered, s1, s2, s3, c);
      }
    }
    if UniqueIds(docs) {
      UniqueIdsIgnoreOrder(docs, ordered);
      forall c
        ensures Reported(policy, ordered, c) <==> Found(policy, docs, c)
      {
        ReportedIff(policy, docs, ordered, c);
      }
    }
  }

  /** Two runs of the indexed search over the same documents, given in any two orders, return the same list. */
  lemma DetectionIgnoresInputOrder(policy: Policy, a: seq<Document>, b: seq<Document>, orderedA: seq<Document>,
                                   orderedB: seq<Document>, resultA: seq<Candidate>, resultB: seq<Candidate>)
    requires policy.Valid() && multiset(a) == multiset(b) && UniqueIds(orderedA)
    requires Sorted(orderedA) && multiset(orderedA) == multiset(a) && Sorted(orderedB) &&
             multiset(orderedB) == multiset(b)
    requires StrictlyOrdered(resultA) && forall c :: c in resultA <==> Reported(policy, orderedA, c)
    requires StrictlyOrdered(resultB) && forall c :: c in resultB <==> Reported(policy, orderedB, c)
    ensures orderedA == orderedB && resultA == resultB
  {
    SortedIsUnique(orderedA, orderedB);
    StrictOrderIsUnique(resultA, resultB, CandidateBefore);
  }

  // ----- the exhaustive search

  datatype SearchError = TargetNotUnique

  /** `d` is the one document with this id, and occurs once. */
  ghost predicate OnlyDocument(docs: seq<Document>, id: Id, d: Document) {
    multiset(docs)[d] == 1 && d.id == id && forall e | e in docs && e.id == id :: e == d
  }

  ghost predicate OneTarget(docs: seq<Document>, id: Id, t: nat) {
    t < |docs| && docs[t].id == id && forall k | 0 <= k < |docs| && docs[k].id == id :: k == t
  }

  lemma MultiplicityAt(docs: seq<Document>, t: nat)
    requires t < |docs|
    ensures multiset(docs)[docs[t]] == multiset(docs[..t])[docs[t]] + 1 + multiset(docs[t + 1..])[docs[t]]
  {
    assert docs == docs[..t] + [docs[t]] + docs[t + 1..];
  }

  lemma OnceAt(docs: seq<Document>, t: nat)
    requires t < |docs| && multiset(docs)[docs[t]] == 1
    ensures forall k | 0 <= k < |docs| && k != t :: docs[k] != docs[t]
  {
    MultiplicityAt(docs, t);
    assert docs[t] !in docs[..t] && docs[t] !in docs[t + 1..];
    forall k | 0 <= k < t
      ensures docs[k] != docs[t]
    {
      assert docs[k] == docs[..t][k];
    }
    forall k | t < k < |docs|
      ensures docs[k] != docs[t]
    {
      assert docs[k] == docs[t + 1..][k - t - 1];
    }
  }

  lemma TargetIsOnlyDocument(docs: seq<Document>, id: Id, t: nat)
    requires OneTarget(docs, id, t)
    ensures OnlyDocument(docs, id, docs[t])
  {
    MultiplicityAt(docs, t);
    assert docs[t] !in docs[..t] && docs[t] !in docs[t + 1..];
  }

  lemma OnlyDocumentIsTarget(docs: seq<Document>, id: Id, d: Document) returns (t: nat)
    requires OnlyDocument(docs, id, d)
    ensures OneTarget(docs, id, t)
  {
    assert d in multiset(docs);
    t :| 0 <= t < |docs| && docs[t] == d;
    OnceAt(docs, t);
    assert forall k | 0 <= k < |docs| && docs[k].id == id :: docs[k] in docs && docs[k] == d;
  }

  lemma SameDocuments(a: seq<Document>, b: seq<Document>, id: Id, d: Document)
    requires multiset(a) == multiset(b)
    ensures OnlyDocument(a, id, d) <==> OnlyDocument(b, id, d)
  {
    assert forall e :: e in a <==> e in multiset(a);
    assert forall e :: e in b <==> e in multiset(b);
  }

  lemma ReportedForIgnoresOrder(policy: Policy, target: Document, a: seq<Document>, b: seq<Document>, c: Candidate)
    requires multiset(a) == multiset(b) && ReportedFor(policy, target, a, c)
    ensures ReportedFor(policy, target, b, c)
  {
    var j: nat :| j < |a| && a[j].id != target.id && Comparable(target, a[j])
      && ExhaustiveSignal(policy, target, a[j]).Some?
      && c == MakeCandidate(target, a[j], ExhaustiveSignal(policy, target, a[j]).value);
    assert a[j] in multiset(b);
    var k :| 0 <= k < |b| && b[k] == a[j];
  }

  method FindTarget(docs: seq<Document>, id: Id) returns (r: Result<nat, SearchError>)
    ensures r.Ok? ==> OneTarget(docs, id, r.value)
    ensures r.Err? ==> forall t: nat :: !OneTarget(docs, id, t)
  {
    var targets: seq<nat> := [];
    for i := 0 to |docs|
      invariant forall p | 0 <= p < |targets| :: targets[p] < i && docs[targets[p]].id == id
      invariant forall p, q | 0 <= p < q < |targets| :: targets[p] < targets[q]
      invariant forall k | 0 <= k < i && docs[k].id == id :: k in targets
    {
      if docs[i].id == id {
        targets := targets + [i];
      }
    }
    if |targets| != 1 {
      assert |targets| > 1 ==> targets[0] < targets[1];
      return Err(TargetNotUnique);
    }
    return Ok(targets[0]);
  }

  ghost predicate ReportedBelow(policy: Policy, docs: seq<Document>, t: nat, n: nat, c: Candidate)
    requires t < |docs| && n <= |docs|
  {
    exists j: nat ::
      j < n && docs[j].id != docs[t].id && Comparable(docs[t], docs[j])
      && ExhaustiveSignal(policy, docs[t], docs[j]).Some?
      && c == MakeCandidate(docs[t], docs[j], ExhaustiveSignal(policy, docs[t], docs[j]).value)
  }

  /** The comparisons of the target with every document, in sorted order. */
  method CompareWithAll(policy: Policy, docs: seq<Document>, t: nat) returns (found: seq<Candidate>)
    requires t < |docs| && OneTarget(docs, docs[t].id, t)
    ensures Ordered(found) && (UniqueIds(docs) ==> StrictlyOrdered(found))
    ensures forall c :: c in found <==> ReportedFor(policy, docs[t], docs, c)
  {
    found := [];
    for j := 0 to |docs|
      invariant Ordered(found)
      invariant forall c :: c in found <==> ReportedBelow(policy, docs, t, j, c)
      invariant UniqueIds(docs) ==> StrictlyOrdered(found)
    {
      if j != t && Comparable(docs[t], docs[j]) {
        var signal := ExhaustiveSignal(policy, docs[t], docs[j]);
        if signal.Some? {
          found := InsertCandidate(found, MakeCandidate(docs[t], docs[j], signal.value));
        }
      }
    }
  }

  lemma UniqueIdsIgnoreOrder(a: seq<Document>, b: seq<Document>)
    requires multiset(a) == multiset(b) && UniqueIds(a)
    ensures UniqueIds(b)
  {
    forall i, j | 0 <= i < |b| && 0 <= j < |b| && b[i].id == b[j].id
      ensures i == j
    {
      assert b[i] in multiset(a) && b[j] in multiset(a);
      var p :| 0 <= p < |a| && a[p] == b[i];
      MultiplicityAt(a, p);
      assert b[i] !in a[..p] && b[i] !in a[p + 1..];
      OnceAt(b, i);
      assert b[j] == b[i];
    }
  }

  /** The exhaustive search for one submission: an error unless exactly one document has its id, otherwise the sorted
      list of what is reported for it. All candidates are of the target's lab, so the order is that of the ids. */
  method DetectForSubmission(policy: Policy, id: Id, docs: seq<Document>)
    returns (r: Result<seq<Candidate>, SearchError>)
    requires policy.Valid()
    ensures r.Ok? <==> exists d :: OnlyDocument(docs, id, d)
    ensures r.Ok? ==> Ordered(r.value) && (UniqueIds(docs) ==> StrictlyOrdered(r.value))
    ensures r.Ok? ==> forall d | OnlyDocument(docs, id, d) ::
              forall c :: c in r.value <==> ReportedFor(policy, d, docs, c)
    ensures r.Ok? && UniqueIds(docs) ==> forall d | OnlyDocument(docs, id, d) ::
              forall c :: c in r.value <==> FoundFor(policy, docs, d, c)
    ensures r.Ok? && UniqueIds(docs) ==> forall p, q | 0 <= p < q < |r.value| :: ByIds(r.value[p], r.value[q])
  {
    var sorted := SortDocuments(docs);
    forall d
      ensures OnlyDocument(docs, id, d) <==> OnlyDocument(sorted, id, d)
    {
      SameDocuments(docs, sorted, id, d);
    }
    var target := FindTarget(sorted, id);
    if target.Err? {
      forall d | OnlyDocument(sorted, id, d)
        ensures exists t :: OneTarget(sorted, id, t)
      {
        var t := OnlyDocumentIsTarget(sorted, id, d);
      }
      return Err(TargetNotUnique);
    }
    TargetIsOnlyDocument(sorted, id, target.value);
    var found := CompareWithAll(policy, sorted, target.value);
    r := Ok(found);
    if UniqueIds(docs) {
      UniqueIdsIgnoreOrder(docs, sorted);
    }
    forall d, c | OnlyDocument(docs, id, d)
      ensures c in r.value <==> ReportedFor(policy, d, docs, c)
    {
      assert d == sorted[target.value];
      if ReportedFor(policy, d, docs, c) {
        ReportedForIgnoresOrder(policy, d, docs, sorted, c);
      }
      if ReportedFor(policy, d, sorted, c) {
        ReportedForIgnoresOrder(policy, d, sorted, docs, c);
      }
    }
    if UniqueIds(docs) {
      forall d, c | OnlyDocument(docs, id, d)
        ensures ReportedFor(policy, d, docs, c) <==> FoundFor(policy, docs, d, c)
      {
        ReportedForIff(policy, docs, d, c);
      }
    }
  }

  /** Of two results over the same documents, one of the indexed search and one of the exhaustive search for a member of
      a reported pair, the second confirms the pair: the same candidate with a signal at least as strong. */
  lemma DetectedIsConfirmed(policy: Policy, docs: seq<Document>, ordered: seq<Document>, detected: seq<Candidate>,
                            c: Candidate, id: Id, confirmed: Result<seq<Candidate>, SearchError>)
    requires policy.Valid() && UniqueIds(docs)
    requires multiset(ordered) == multiset(docs) && forall e :: e in detected <==> Reported(policy, ordered, e)
    requires c in detected && (id == c.first || id == c.second)
    requires confirmed.Ok? <==> exists d :: OnlyDocument(docs, id, d)
    requires confirmed.Ok? ==>
               forall d | OnlyDocument(docs, id, d) ::
                 forall e :: e in confirmed.value <==> ReportedFor(policy, d, docs, e)
    ensures confirmed.Ok?
    ensures exists signal :: Strength(signal) >= Strength(c.signal) && c.(signal := signal) in confirmed.value
  {
    UniqueIdsIgnoreOrder(docs, ordered);
    IndexedRefinesExhaustive(policy, ordered, c);
    var a, b, signal :|
      && a in ordered && b in ordered && a.id == c.first && b.id == c.second && a.id != b.id
      && Strength(signal) >= Strength(c.signal)
      && ReportedFor(policy, a, ordered, c.(signal := signal))
      && ReportedFor(policy, b, ordered, c.(signal := signal));
    var d := if id == c.first then a else b;
    ReportedForIgnoresOrder(policy, d, ordered, docs, c.(signal := signal));
    UniqueIsOnlyDocument(ordered, d);
    SameDocuments(docs, ordered, id, d);
  }

  lemma UniqueIsOnlyDocument(docs: seq<Document>, d: Document)
    requires UniqueIds(docs) && d in docs
    ensures OnlyDocument(docs, d.id, d)
  {
    var t :| 0 <= t < |docs| && docs[t] == d;
    TargetIsOnlyDocument(docs, d.id, t);
  }
}
