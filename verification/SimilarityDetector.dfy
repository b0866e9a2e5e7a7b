/** The two searches as they are programmed: dictionaries of groups and buckets filled in loops, each proved to report
    exactly what `Similarity` says. */
module SimilarityDetector {
  import opened Similarity

  // ----- sorting the documents

  method SortDocuments(docs: seq<Document>) returns (ordered: seq<Document>)
    ensures Sorted(ordered) && multiset(ordered) == multiset(docs)
  {
    ordered := [];
    for i := 0 to |docs|
      invariant Sorted(ordered) && multiset(ordered) == multiset(docs[..i])
    {
      assert docs[..i + 1] == docs[..i] + [docs[i]];
      ordered := InsertDocument(ordered, docs[i]);
    }
    assert docs[..|docs|] == docs;
  }

  /** Equal keys keep their order: the new document goes behind every document it is not before. */
  method InsertDocument(ordered: seq<Document>, d: Document) returns (longer: seq<Document>)
    requires Sorted(ordered)
    ensures Sorted(longer) && multiset(longer) == multiset(ordered) + multiset{d}
  {
    var k := |ordered|;
    while k > 0 && Before(d, ordered[k - 1])
      invariant 0 <= k <= |ordered| && forall i | k <= i < |ordered| :: Before(d, ordered[i])
    {
      k := k - 1;
    }
    longer := ordered[..k] + [d] + ordered[k..];
    InsertionKeepsSorted(ordered, d, k);
    InsertionKeepsMultiset(ordered, d, k);
  }

  lemma InsertionKeepsMultiset(ordered: seq<Document>, d: Document, k: nat)
    requires k <= |ordered|
    ensures multiset(ordered[..k] + [d] + ordered[k..]) == multiset(ordered) + multiset{d}
  {
    assert ordered == ordered[..k] + ordered[k..];
  }

  lemma InsertionKeepsSorted(ordered: seq<Document>, d: Document, k: nat)
    requires Sorted(ordered) && k <= |ordered| && forall i | k <= i < |ordered| :: Before(d, ordered[i])
    requires k > 0 ==> !Before(d, ordered[k - 1])
    ensures Sorted(ordered[..k] + [d] + ordered[k..])
  {
    var longer := ordered[..k] + [d] + ordered[k..];
    assert forall i | 0 <= i < |longer| ::
        longer[i] == if i < k then ordered[i] else if i == k then d else ordered[i - 1];
    forall i | 0 <= i < k
      ensures !Before(d, ordered[i])
    {
      assert i < k - 1 ==> !Before(ordered[k - 1], ordered[i]);
    }
  }

  // ----- the exact layers

  type GroupKey = (Lab, string)

  function KeyOf(layer: Layer, d: Document): GroupKey {
    (d.lab, Identity(layer, d))
  }

  /** The eligible documents of one group among the first `n`, in order. */
  function Members(layer: Layer, docs: seq<Document>, key: GroupKey, n: nat): seq<nat>
    requires n <= |docs|
  {
    if n == 0 then []
    else Members(layer, docs, key, n - 1) + if InGroup(layer, docs[n - 1], key) then [n - 1] else []
  }

  predicate InGroup(layer: Layer, d: Document, key: GroupKey) {
    EligibleFor(layer, d) && KeyOf(layer, d) == key
  }

  lemma {:induction false} MembersBelong(layer: Layer, docs: seq<Document>, key: GroupKey, n: nat, p: nat)
    requires n <= |docs| && p < |Members(layer, docs, key, n)|
    ensures Members(layer, docs, key, n)[p] < n
    ensures InGroup(layer, docs[Members(layer, docs, key, n)[p]], key)
    ensures p > 0 ==> Members(layer, docs, key, n)[p - 1] < Members(layer, docs, key, n)[p]
  {
    var before := Members(layer, docs, key, n - 1);
    if p < |before| {
      MembersBelong(layer, docs, key, n - 1, p);
    } else if p > 0 {
      MembersBelong(layer, docs, key, n - 1, p - 1);
    }
  }

  lemma {:induction false} MembersAscend(layer: Layer, docs: seq<Document>, key: GroupKey, n: nat, p: nat, q: nat)
    requires n <= |docs| && p < q < |Members(layer, docs, key, n)|
    ensures Members(layer, docs, key, n)[p] < Members(layer, docs, key, n)[q]
    decreases q
  {
    MembersBelong(layer, docs, key, n, q);
    if p < q - 1 {
      MembersAscend(layer, docs, key, n, p, q - 1);
    }
  }

  lemma {:induction false} MembersAreAll(layer: Layer, docs: seq<Document>, key: GroupKey, n: nat, k: nat)
    returns (p: nat)
    requires k < n <= |docs| && InGroup(layer, docs[k], key)
    ensures p < |Members(layer, docs, key, n)| && Members(layer, docs, key, n)[p] == k
  {
    if k == n - 1 {
      p := |Members(layer, docs, key, n - 1)|;
    } else {
      p := MembersAreAll(layer, docs, key, n - 1, k);
    }
  }

  ghost predicate GroupsOf(layer: Layer, docs: seq<Document>, groups: map<GroupKey, seq<nat>>, n: nat)
    requires n <= |docs|
  {
    && (forall key | key in groups :: groups[key] == Members(layer, docs, key, n))
    && (forall key | key !in groups :: Members(layer, docs, key, n) == [])
  }

  lemma OneMoreDocument(layer: Layer, docs: seq<Document>, key: GroupKey, i: nat)
    requires i < |docs|
    ensures Members(layer, docs, key, i + 1) ==
            Members(layer, docs, key, i) + if InGroup(layer, docs[i], key) then [i] else []
  {
  }

  lemma GroupsGrow(layer: Layer, docs: seq<Document>, groups: map<GroupKey, seq<nat>>, i: nat)
    requires i < |docs| && GroupsOf(layer, docs, groups, i)
    ensures !EligibleFor(layer, docs[i]) ==> GroupsOf(layer, docs, groups, i + 1)
    ensures EligibleFor(layer, docs[i]) ==>
              var key := KeyOf(layer, docs[i]);
              GroupsOf(layer, docs, groups[key := (if key in groups then groups[key] else []) + [i]], i + 1)
  {
    forall key: GroupKey
      ensures Members(layer, docs, key, i + 1) ==
              Members(layer, docs, key, i) + if InGroup(layer, docs[i], key) then [i] else []
    {
      OneMoreDocument(layer, docs, key, i);
    }
  }

  method GroupDocument(layer: Layer, docs: seq<Document>, groups: map<GroupKey, seq<nat>>, i: nat)
    returns (more: map<GroupKey, seq<nat>>)
    requires i < |docs| && GroupsOf(layer, docs, groups, i)
    ensures GroupsOf(layer, docs, more, i + 1)
  {
    GroupsGrow(layer, docs, groups, i);
    if EligibleFor(layer, docs[i]) {
      var key := KeyOf(layer, docs[i]);
      more := groups[key := (if key in groups then groups[key] else []) + [i]];
    } else {
      more := groups;
    }
  }

  method GroupDocuments(layer: Layer, docs: seq<Document>) returns (groups: map<GroupKey, seq<nat>>)
    ensures GroupsOf(layer, docs, groups, |docs|)
  {
    groups := map[];
    for i := 0 to |docs|
      invariant GroupsOf(layer, docs, groups, i)
    {
      groups := GroupDocument(layer, docs, groups, i);
    }
  }

  ghost predicate IndicesOf(docs: seq<Document>, members: seq<nat>) {
    && (forall p | 0 <= p < |members| :: members[p] < |docs|)
    && (forall p, q | 0 <= p < q < |members| :: members[p] < members[q])
  }

  /** `members[p]` is the first of its owner. */
  ghost predicate FirstOfOwner(docs: seq<Document>, members: seq<nat>, p: nat)
    requires IndicesOf(docs, members) && p < |members|
  {
    forall q | 0 <= q < p :: docs[members[q]].owner != docs[members[p]].owner
  }

  ghost predicate OwnersOf(docs: seq<Document>, members: seq<nat>, owners: set<Owner>, n: nat)
    requires IndicesOf(docs, members) && n <= |members|
  {
    && (forall q | 0 <= q < n :: docs[members[q]].owner in owners)
    && (forall o | o in owners :: exists q :: 0 <= q < n && docs[members[q]].owner == o)
  }

  /** `reps` are the firsts of their owners among the first `n` members, in order. */
  ghost predicate RepresentativesOf(docs: seq<Document>, members: seq<nat>, reps: seq<nat>, n: nat)
    requires IndicesOf(docs, members) && n <= |members|
  {
    && IndicesOf(docs, reps)
    && (forall k | k in reps :: exists p :: 0 <= p < n && members[p] == k && FirstOfOwner(docs, members, p))
    && (forall p | 0 <= p < n && FirstOfOwner(docs, members, p) :: members[p] in reps)
  }

  lemma NextRepresentative(docs: seq<Document>, members: seq<nat>, reps: seq<nat>, n: nat)
    requires IndicesOf(docs, members) && n < |members| && RepresentativesOf(docs, members, reps, n)
    ensures FirstOfOwner(docs, members, n) ==> RepresentativesOf(docs, members, reps + [members[n]], n + 1)
    ensures !FirstOfOwner(docs, members, n) ==> RepresentativesOf(docs, members, reps, n + 1)
  {
    if FirstOfOwner(docs, members, n) {
      var reps' := reps + [members[n]];
      forall p | 0 <= p < |reps|
        ensures reps[p] < members[n]
      {
        assert reps[p] in reps;
      }
      assert IndicesOf(docs, reps');
      forall k | k in reps'
        ensures exists p :: 0 <= p < n + 1 && members[p] == k && FirstOfOwner(docs, members, p)
      {
        assert k in reps || k == members[n];
      }
      assert members[n] == reps'[|reps|];
      assert forall k | k in reps :: k in reps';
    }
  }

  method Representatives(docs: seq<Document>, members: seq<nat>) returns (reps: seq<nat>)
    requires IndicesOf(docs, members)
    ensures RepresentativesOf(docs, members, reps, |members|)
  {
    reps := [];
    var owners: set<Owner> := {};
    for i := 0 to |members|
      invariant RepresentativesOf(docs, members, reps, i) && OwnersOf(docs, members, owners, i)
    {
      var owner := docs[members[i]].owner;
      NextRepresentative(docs, members, reps, i);
      NextOwner(docs, members, owners, i);
      if owner !in owners {
        reps := reps + [members[i]];
      }
      owners := owners + {owner};
    }
  }

  lemma NextOwner(docs: seq<Document>, members: seq<nat>, owners: set<Owner>, n: nat)
    requires IndicesOf(docs, members) && n < |members| && OwnersOf(docs, members, owners, n)
    ensures FirstOfOwner(docs, members, n) <==> docs[members[n]].owner !in owners
    ensures OwnersOf(docs, members, owners + {docs[members[n]].owner}, n + 1)
  {
  }

  lemma FirstIsRepresentative(layer: Layer, docs: seq<Document>, key: GroupKey, p: nat)
    requires var m := Members(layer, docs, key, |docs|);
             IndicesOf(docs, m) && p < |m| && FirstOfOwner(docs, m, p)
    ensures var k := Members(layer, docs, key, |docs|)[p];
            InGroup(layer, docs[k], key) && Representative(layer, docs, k)
  {
    var m := Members(layer, docs, key, |docs|);
    MembersBelong(layer, docs, key, |docs|, p);
    forall e | 0 <= e < m[p] && SameGroup(layer, docs[e], docs[m[p]])
      ensures docs[e].owner != docs[m[p]].owner
    {
      var q := MembersAreAll(layer, docs, key, |docs|, e);
      assert q < p;
    }
  }

  lemma RepresentativeIsFirst(layer: Layer, docs: seq<Document>, key: GroupKey, p: nat)
    requires var m := Members(layer, docs, key, |docs|);
             IndicesOf(docs, m) && p < |m| && InGroup(layer, docs[m[p]], key) && Representative(layer, docs, m[p])
    ensures FirstOfOwner(docs, Members(layer, docs, key, |docs|), p)
  {
    var m := Members(layer, docs, key, |docs|);
    forall q | 0 <= q < p
      ensures docs[m[q]].owner != docs[m[p]].owner
    {
      MembersBelong(layer, docs, key, |docs|, q);
      assert SameGroup(layer, docs[m[q]], docs[m[p]]);
    }
  }

  /** The representatives of a group are what the specification calls so. */
  lemma RepresentativesMatch(layer: Layer, docs: seq<Document>, key: GroupKey, reps: seq<nat>, k: nat)
    requires var m := Members(layer, docs, key, |docs|);
             IndicesOf(docs, m) && RepresentativesOf(docs, m, reps, |m|)
    ensures k in reps <==> k < |docs| && InGroup(layer, docs[k], key) && Representative(layer, docs, k)
  {
    var m := Members(layer, docs, key, |docs|);
    if k in reps {
      var p :| 0 <= p < |m| && m[p] == k && FirstOfOwner(docs, m, p);
      FirstIsRepresentative(layer, docs, key, p);
    } else if k < |docs| && InGroup(layer, docs[k], key) && Representative(layer, docs, k) {
      var p := MembersAreAll(layer, docs, key, |docs|, k);
      RepresentativeIsFirst(layer, docs, key, p);
    }
  }

  lemma RepresentativesDiffer(docs: seq<Document>, members: seq<nat>, reps: seq<nat>, i: nat, j: nat)
    requires IndicesOf(docs, members) && RepresentativesOf(docs, members, reps, |members|)
    requires i in reps && j in reps && i < j
    ensures docs[i].owner != docs[j].owner
  {
    var p :| 0 <= p < |members| && members[p] == i && FirstOfOwner(docs, members, p);
    var q :| 0 <= q < |members| && members[q] == j && FirstOfOwner(docs, members, q);
    assert p < q;
  }

  lemma MembersAreIndices(layer: Layer, docs: seq<Document>, key: GroupKey)
    ensures IndicesOf(docs, Members(layer, docs, key, |docs|))
  {
    var m := Members(layer, docs, key, |docs|);
    forall p | 0 <= p < |m|
      ensures m[p] < |docs|
    {
      MembersBelong(layer, docs, key, |docs|, p);
    }
    forall p, q | 0 <= p < q < |m|
      ensures m[p] < m[q]
    {
      MembersAscend(layer, docs, key, |docs|, p, q);
    }
  }

  // ----- selecting pairs

  type Selection = map<(Id, Id), Candidate>

  /** `pairs` were offered with one signal: a pair whose key was free is selected, the others change nothing. */
  ghost predicate Offered(docs: seq<Document>, before: Selection, after: Selection, pairs: set<(nat, nat)>,
                          signal: Signal) {
    && (forall x | x in pairs :: x.0 < |docs| && x.1 < |docs|)
    && (forall k | k in before :: k in after && after[k] == before[k])
    && (forall x | x in pairs :: PairKey(docs[x.0], docs[x.1]) in after)
    && (forall k | k in after && k !in before ::
          exists x :: x in pairs && k == PairKey(docs[x.0], docs[x.1]) &&
            after[k] == MakeCandidate(docs[x.0], docs[x.1], signal))
  }

  lemma OfferMore(docs: seq<Document>, before: Selection, middle: Selection, after: Selection, p: set<(nat, nat)>,
                  q: set<(nat, nat)>, signal: Signal)
    requires Offered(docs, before, middle, p, signal) && Offered(docs, middle, after, q, signal)
    ensures Offered(docs, before, after, p + q, signal)
  {
    forall k | k in after && k !in before
      ensures exists x :: x in p + q && k == PairKey(docs[x.0], docs[x.1]) &&
                          after[k] == MakeCandidate(docs[x.0], docs[x.1], signal)
    {
      if k in middle {
        var x :| x in p && k == PairKey(docs[x.0], docs[x.1]) &&
          middle[k] == MakeCandidate(docs[x.0], docs[x.1], signal);
        assert x in p + q;
      } else {
        var x :| x in q && k == PairKey(docs[x.0], docs[x.1]) &&
          after[k] == MakeCandidate(docs[x.0], docs[x.1], signal);
        assert x in p + q;
      }
    }
  }

  method OfferPair(docs: seq<Document>, selected: Selection, i: nat, j: nat, signal: Signal) returns (more: Selection)
    requires i < |docs| && j < |docs|
    ensures Offered(docs, selected, more, {(i, j)}, signal)
  {
    more := selected;
    var key := PairKey(docs[i], docs[j]);
    if key !in more {
      more := more[key := MakeCandidate(docs[i], docs[j], signal)];
      assert (i, j) in {(i, j)};
    }
  }

  ghost function Row(reps: seq<nat>, p: nat, n: nat): set<(nat, nat)>
    requires p < |reps| && n <= |reps|
  {
    set q | p < q < n :: (reps[p], reps[q])
  }

  ghost function Rows(reps: seq<nat>, n: nat): set<(nat, nat)>
    requires n <= |reps|
  {
    set p, q | 0 <= p < n && p < q < |reps| :: (reps[p], reps[q])
  }

  lemma RowGrows(reps: seq<nat>, p: nat, q: nat)
    requires p < q < |reps|
    ensures Row(reps, p, q + 1) == Row(reps, p, q) + {(reps[p], reps[q])}
  {
  }

  lemma RowsGrow(reps: seq<nat>, p: nat)
    requires p < |reps|
    ensures Rows(reps, p + 1) == Rows(reps, p) + Row(reps, p, |reps|)
  {
  }

  method OfferRow(docs: seq<Document>, selected: Selection, reps: seq<nat>, p: nat, signal: Signal)
    returns (more: Selection)
    requires IndicesOf(docs, reps) && p < |reps|
    ensures Offered(docs, selected, more, Row(reps, p, |reps|), signal)
  {
    more := selected;
    for q := p + 1 to |reps|
      invariant Offered(docs, selected, more, Row(reps, p, q), signal)
    {
      ghost var middle := more;
      more := OfferPair(docs, more, reps[p], reps[q], signal);
      OfferMore(docs, selected, middle, more, Row(reps, p, q), {(reps[p], reps[q])}, signal);
      RowGrows(reps, p, q);
    }
  }

  /** All pairs of one group's representatives, in the order of `itertools.combinations`. */
  method OfferCombinations(docs: seq<Document>, selected: Selection, reps: seq<nat>, signal: Signal)
    returns (more: Selection)
    requires IndicesOf(docs, reps)
    ensures Offered(docs, selected, more, Rows(reps, |reps|), signal)
  {
    more := selected;
    for p := 0 to |reps|
      invariant Offered(docs, selected, more, Rows(reps, p), signal)
    {
      ghost var middle := more;
      more := OfferRow(docs, more, reps, p, signal);
      OfferMore(docs, selected, middle, more, Rows(reps, p), Row(reps, p, |reps|), signal);
      RowsGrow(reps, p);
    }
  }

  lemma RowsAreAllPairs(docs: seq<Document>, reps: seq<nat>, i: nat, j: nat)
    requires IndicesOf(docs, reps)
    ensures (i, j) in Rows(reps, |reps|) <==> i in reps && j in reps && i < j
  {
    if i in reps && j in reps && i < j {
      var p :| 0 <= p < |reps| && reps[p] == i;
      var q :| 0 <= q < |reps| && reps[q] == j;
      assert p < q;
    }
  }

  ghost function ExactPairs(layer: Layer, docs: seq<Document>): set<(nat, nat)> {
    set i, j | 0 <= i < |docs| && 0 <= j < |docs| && ExactPair(layer, docs, i, j) :: (i, j)
  }

  /** Every exact pair is offered to the selection, and no other pair. */
  method AddExactCandidates(docs: seq<Document>, selected: Selection, layer: Layer) returns (more: Selection)
    ensures Offered(docs, selected, more, ExactPairs(layer, docs), LayerSignal(layer))
  {
    more := selected;
    ghost var pairs: set<(nat, nat)> := {};
    var groups := GroupDocuments(layer, docs);
    var left := groups.Keys;
    while left != {}
      invariant left <= groups.Keys
      invariant Offered(docs, selected, more, pairs, LayerSignal(layer))
      invariant forall i: nat, j: nat :: (i, j) in pairs <==>
                  ExactPair(layer, docs, i, j) && KeyOf(layer, docs[i]) in groups && KeyOf(layer, docs[i]) !in left
      decreases left
    {
      var key :| key in left;
      left := left - {key};
      ghost var middle := more;
      ghost var added;
      more, added := AddGroup(docs, more, layer, key, groups[key]);
      OfferMore(docs, selected, middle, more, pairs, added, LayerSignal(layer));
      pairs := pairs + added;
    }
    forall i: nat, j: nat | ExactPair(layer, docs, i, j)
      ensures KeyOf(layer, docs[i]) in groups
    {
      var p := MembersAreAll(layer, docs, KeyOf(layer, docs[i]), |docs|, i);
    }
    assert pairs == ExactPairs(layer, docs);
  }

  method AddGroup(docs: seq<Document>, selected: Selection, layer: Layer, key: GroupKey, members: seq<nat>)
    returns (more: Selection, ghost pairs: set<(nat, nat)>)
    requires members == Members(layer, docs, key, |docs|)
    ensures Offered(docs, selected, more, pairs, LayerSignal(layer))
    ensures forall i: nat, j: nat :: (i, j) in pairs <==> ExactPair(layer, docs, i, j) && KeyOf(layer, docs[i]) == key
  {
    MembersAreIndices(layer, docs, key);
    var reps := Representatives(docs, members);
    more := OfferCombinations(docs, selected, reps, LayerSignal(layer));
    pairs := Rows(reps, |reps|);
    forall i: nat, j: nat
      ensures (i, j) in pairs <==> ExactPair(layer, docs, i, j) && KeyOf(layer, docs[i]) == key
    {
      RowsAreAllPairs(docs, reps, i, j);
      RepresentativesMatch(layer, docs, key, reps, i);
      RepresentativesMatch(layer, docs, key, reps, j);
      if i in reps && j in reps && i < j {
        RepresentativesDiffer(docs, members, reps, i, j);
      }
    }
  }
}
