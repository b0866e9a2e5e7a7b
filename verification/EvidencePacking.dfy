/** Packing the parts of all evidence items, in order, into as few prompts as the character budget allows. */
module EvidencePacking {
  import opened Common
  import opened EvidenceSplit
  import opened Text

  /** The characters of a prompt: `fixed` for everything but the evidence list and the chunk's index and count, and
      `chars(part)` for a part written as JSON. */
  datatype Prompt = Prompt(fixed: nat, chars: Evidence -> nat)

  const MIN_PART_CHARS: nat := 16000

  function PartLimit(chunkChars: nat): nat {
    if chunkChars / 2 > MIN_PART_CHARS then chunkChars / 2 else MIN_PART_CHARS
  }

  function Total(prompt: Prompt, parts: seq<Evidence>): nat {
    if parts == [] then 0 else prompt.chars(parts[0]) + Total(prompt, parts[1..])
  }

  /** A JSON list: brackets, elements, and a comma between neighbours. */
  function ListChars(prompt: Prompt, parts: seq<Evidence>): nat {
    2 + Total(prompt, parts) + if parts == [] then 0 else |parts| - 1
  }

  /** The index and the count are written in the payload, and once more, counting from one, in the instruction. */
  function PromptChars(prompt: Prompt, parts: seq<Evidence>, index: nat, count: nat): nat {
    prompt.fixed + |Decimal(index)| + |Decimal(count)| + |Decimal(index + 1)| + |Decimal(count)|
    + ListChars(prompt, parts)
  }

  /** What the packing loop measures: every candidate as if it were the second of two chunks. */
  function Measured(prompt: Prompt, parts: seq<Evidence>): nat {
    PromptChars(prompt, parts, 1, 2)
  }

  function Flatten(chunks: seq<seq<Evidence>>): seq<Evidence> {
    if chunks == [] then [] else Flatten(chunks[..|chunks| - 1]) + chunks[|chunks| - 1]
  }

  /** The rule of the loop: chunks of two or more parts are within the budget as measured. */
  ghost predicate Feasible(prompt: Prompt, budget: nat, chunk: seq<Evidence>) {
    chunk != [] && (|chunk| > 1 ==> Measured(prompt, chunk) <= budget)
  }

  ghost predicate IsPacking(prompt: Prompt, budget: nat, chunks: seq<seq<Evidence>>, parts: seq<Evidence>) {
    Flatten(chunks) == parts && forall k | 0 <= k < |chunks| :: Feasible(prompt, budget, chunks[k])
  }

  /** A packing in which no chunk could have taken the first part of the next one. */
  ghost predicate IsGreedy(prompt: Prompt, budget: nat, chunks: seq<seq<Evidence>>, parts: seq<Evidence>) {
    && IsPacking(prompt, budget, chunks, parts)
    && forall k | 0 <= k < |chunks| - 1 :: Measured(prompt, chunks[k] + chunks[k + 1][..1]) > budget
  }

  // ----- the program

  lemma FlattenStep(chunks: seq<seq<Evidence>>, c: seq<Evidence>)
    ensures Flatten(chunks + [c]) == Flatten(chunks) + c
  {
    assert (chunks + [c])[..|chunks|] == chunks;
  }

  lemma CloseChunk(prompt: Prompt, budget: nat, chunks: seq<seq<Evidence>>, current: seq<Evidence>,
                   parts: seq<Evidence>, part: Evidence)
    requires IsGreedy(prompt, budget, chunks + [current], parts)
    requires Measured(prompt, current + [part]) > budget
    ensures IsGreedy(prompt, budget, chunks + [current] + [[part]], parts + [part])
  {
    FlattenStep(chunks + [current], [part]);
    var before, after := chunks + [current], chunks + [current] + [[part]];
    forall k | 0 <= k < |after| - 1
      ensures Measured(prompt, after[k] + after[k + 1][..1]) > budget
    {
      if k < |chunks| {
        assert after[k] == before[k] && after[k + 1] == before[k + 1];
      } else {
        assert after[k] == current && after[k + 1][..1] == [part];
      }
    }
  }

  lemma LastChunkGrows(prompt: Prompt, budget: nat, chunks: seq<seq<Evidence>>, current: seq<Evidence>,
                       parts: seq<Evidence>, part: Evidence)
    requires IsPacking(prompt, budget, chunks + [current], parts)
    requires Measured(prompt, current + [part]) <= budget
    ensures current != [] && IsPacking(prompt, budget, chunks + [current + [part]], parts + [part])
  {
    FlattenStep(chunks, current);
    FlattenStep(chunks, current + [part]);
    assert Flatten(chunks) + (current + [part]) == parts + [part];
    var before, after := chunks + [current], chunks + [current + [part]];
    assert Feasible(prompt, budget, before[|chunks|]);
    forall k | 0 <= k < |after|
      ensures Feasible(prompt, budget, after[k])
    {
      if k < |chunks| {
        assert after[k] == before[k];
      }
    }
  }

  lemma ExtendChunk(prompt: Prompt, budget: nat, chunks: seq<seq<Evidence>>, current: seq<Evidence>,
                    parts: seq<Evidence>, part: Evidence)
    requires IsGreedy(prompt, budget, chunks + [current], parts)
    requires Measured(prompt, current + [part]) <= budget
    ensures IsGreedy(prompt, budget, chunks + [current + [part]], parts + [part])
  {
    LastChunkGrows(prompt, budget, chunks, current, parts, part);
    var before, after := chunks + [current], chunks + [current + [part]];
    forall k | 0 <= k < |after| - 1
      ensures Measured(prompt, after[k] + after[k + 1][..1]) > budget
    {
      assert after[k] == before[k];
      assert k + 1 < |chunks| ==> after[k + 1] == before[k + 1];
      assert (current + [part])[..1] == current[..1];
    }
  }

  ghost predicate Packed(prompt: Prompt, budget: nat, chunks: seq<seq<Evidence>>, current: seq<Evidence>,
                         parts: seq<Evidence>) {
    if parts == [] then chunks == [] && current == []
    else current != [] && IsGreedy(prompt, budget, chunks + [current], parts)
  }

  method PackPart(prompt: Prompt, budget: nat, chunks: seq<seq<Evidence>>, current: seq<Evidence>, part: Evidence,
                  ghost parts: seq<Evidence>) returns (chunks': seq<seq<Evidence>>, current': seq<Evidence>)
    requires Packed(prompt, budget, chunks, current, parts)
    ensures Packed(prompt, budget, chunks', current', parts + [part])
  {
    var candidate := current + [part];
    if current != [] && Measured(prompt, candidate) > budget {
      CloseChunk(prompt, budget, chunks, current, parts, part);
      chunks' := chunks + [current];
      current' := [part];
    } else {
      if current != [] {
        ExtendChunk(prompt, budget, chunks, current, parts, part);
      } else {
        FlattenStep([], [part]);
        assert candidate == [part] && parts + [part] == [part];
      }
      chunks', current' := chunks, candidate;
    }
  }

  /** `parts` are the parts of the items, item by item. */
  ghost predicate PartsOf(items: seq<Evidence>, limit: nat, parts: seq<Evidence>) {
    if items == [] then parts == []
    else exists n: nat ::
           n <= |parts| && PartsOf(items[..|items| - 1], limit, parts[..n]) &&
             SplitOf(items[|items| - 1], limit, parts[n..])
  }

  lemma PartsOfStep(items: seq<Evidence>, limit: nat, parts: seq<Evidence>, item: Evidence, more: seq<Evidence>)
    requires PartsOf(items, limit, parts) && SplitOf(item, limit, more)
    ensures PartsOf(items + [item], limit, parts + more)
  {
    assert (items + [item])[..|items|] == items;
    assert (parts + more)[..|parts|] == parts && (parts + more)[|parts|..] == more;
  }

  lemma TakeOneMore(s: seq<Evidence>, parts: seq<Evidence>, k: nat)
    requires k < |s|
    ensures parts + s[..k + 1] == parts + s[..k] + [s[k]]
  {
  }

  method PackParts(prompt: Prompt, budget: nat, chunks: seq<seq<Evidence>>, current: seq<Evidence>,
                   split: seq<Evidence>,
                   ghost parts: seq<Evidence>) returns (chunks': seq<seq<Evidence>>, current': seq<Evidence>)
    requires Packed(prompt, budget, chunks, current, parts)
    ensures Packed(prompt, budget, chunks', current', parts + split)
  {
    chunks', current' := chunks, current;
    assert parts + split[..0] == parts;
    for k := 0 to |split|
      invariant Packed(prompt, budget, chunks', current', parts + split[..k])
    {
      chunks', current' := PackPart(prompt, budget, chunks', current', split[k], parts + split[..k]);
      TakeOneMore(split, parts, k);
    }
    assert split[..|split|] == split;
  }

  lemma PackedAll(prompt: Prompt, budget: nat, chunks: seq<seq<Evidence>>, current: seq<Evidence>, parts: seq<Evidence>)
    requires Packed(prompt, budget, chunks, current, parts)
    ensures current != [] || chunks == []
    ensures if parts == [] then chunks + [current] == [[]] else IsGreedy(prompt, budget, chunks + [current], parts)
  {
  }

  method ComplianceChunks(prompt: Prompt, items: seq<Evidence>, chunkChars: nat)
    returns (chunks: seq<seq<Evidence>>)
    requires chunkChars > 0
    ensures PartsOf(items, Max(16000, chunkChars / 2), Flatten(chunks))
    ensures if Flatten(chunks) == [] then chunks == [[]] else IsGreedy(prompt, chunkChars, chunks, Flatten(chunks))
  {
    chunks := [];
    var current := [];
    ghost var parts: seq<Evidence> := [];
    for i := 0 to |items|
      invariant PartsOf(items[..i], PartLimit(chunkChars), parts)
      invariant Packed(prompt, chunkChars, chunks, current, parts)
    {
      var split := SplitEvidenceItem(items[i], PartLimit(chunkChars));
      chunks, current := PackParts(prompt, chunkChars, chunks, current, split, parts);
      PartsOfStep(items[..i], PartLimit(chunkChars), parts, items[i], split);
      TakeOneMore(items, [], i);
      assert [] + items[..i + 1] == items[..i + 1] && [] + items[..i] == items[..i];
      parts := parts + split;
    }
    assert items[..|items|] == items;
    PackedAll(prompt, chunkChars, chunks, current, parts);
    FlattenStep([], []);
    if current != [] || chunks == [] {
      chunks := chunks + [current];
    }
  }

  // ----- nothing is lost

  /** The texts of all items, joined. */
  function JoinedTexts(items: seq<Evidence>): string {
    if items == [] then "" else JoinedTexts(items[..|items| - 1]) + TextOf(items[|items| - 1])
  }

  lemma JoinedCoresStep(parts: seq<Evidence>, part: Evidence)
    ensures JoinedCores(parts + [part]) == JoinedCores(parts) + Core(part)
  {
    assert (parts + [part])[..|parts|] == parts;
  }

  lemma {:induction false} JoinedCoresAppend(a: seq<Evidence>, b: seq<Evidence>)
    ensures JoinedCores(a + b) == JoinedCores(a) + JoinedCores(b)
  {
    if b == [] {
      assert a + b == a;
    } else {
      var rest, last := b[..|b| - 1], b[|b| - 1];
      assert b == rest + [last] && a + b == a + rest + [last];
      JoinedCoresAppend(a, rest);
      JoinedCoresStep(rest, last);
      JoinedCoresStep(a + rest, last);
    }
  }

  function TextOf(item: Evidence): string {
    if item.text.Some? then item.text.value else ""
  }

  lemma SplitKeepsText(item: Evidence, limit: nat, parts: seq<Evidence>)
    requires limit > 0 && SplitOf(item, limit, parts) && item.slice.None?
    ensures JoinedCores(parts) == TextOf(item)
  {
    if item.text.Some? {
      SplitRoundTrip(item, limit, parts);
    } else {
      assert parts == [] + [item];
      JoinedCoresStep([], item);
    }
  }

  lemma JoinedCoresSplit(parts: seq<Evidence>, n: nat)
    requires n <= |parts|
    ensures JoinedCores(parts) == JoinedCores(parts[..n]) + JoinedCores(parts[n..])
  {
    assert parts == parts[..n] + parts[n..];
    JoinedCoresAppend(parts[..n], parts[n..]);
  }

  lemma LastSplit(items: seq<Evidence>, limit: nat, parts: seq<Evidence>) returns (n: nat)
    requires PartsOf(items, limit, parts) && items != []
    ensures n <= |parts| && PartsOf(items[..|items| - 1], limit, parts[..n]) &&
            SplitOf(items[|items| - 1], limit, parts[n..])
  {
    n :| n <= |parts| && PartsOf(items[..|items| - 1], limit, parts[..n]) &&
      SplitOf(items[|items| - 1], limit, parts[n..]);
  }

  lemma {:induction false} PartsKeepTexts(items: seq<Evidence>, limit: nat, parts: seq<Evidence>)
    requires limit > 0 && PartsOf(items, limit, parts) && forall k | 0 <= k < |items| :: items[k].slice.None?
    ensures JoinedCores(parts) == JoinedTexts(items)
  {
    if items != [] {
      var n := LastSplit(items, limit, parts);
      PartsKeepTexts(items[..|items| - 1], limit, parts[..n]);
      SplitKeepsText(items[|items| - 1], limit, parts[n..]);
      JoinedCoresSplit(parts, n);
    }
  }

  /** Whatever the budget, cutting the cores out of all chunks in order and joining them gives the texts of all items.
      */
  lemma ChunksKeepTexts(chunkChars: nat, items: seq<Evidence>, chunks: seq<seq<Evidence>>)
    requires chunkChars > 0 && PartsOf(items, PartLimit(chunkChars), Flatten(chunks))
    requires forall k | 0 <= k < |items| :: items[k].slice.None?
    ensures JoinedCores(Flatten(chunks)) == JoinedTexts(items)
  {
    PartsKeepTexts(items, PartLimit(chunkChars), Flatten(chunks));
  }

  /** No text in any chunk is longer than half the budget, or than the smallest part limit if that is more. */
  lemma {:induction false} PartsAreSmall(items: seq<Evidence>, limit: nat, parts: seq<Evidence>, k: nat)
    requires limit > 0 && PartsOf(items, limit, parts) && k < |parts|
    ensures |TextOf(parts[k])| <= limit
  {
    if items != [] {
      var n := LastSplit(items, limit, parts);
      if k < n {
        PartsAreSmall(items[..|items| - 1], limit, parts[..n], k);
      } else {
        SplitPartIsSmall(items[|items| - 1], limit, parts[n..], k - n);
      }
    }
  }

  lemma SplitPartIsSmall(item: Evidence, limit: nat, parts: seq<Evidence>, k: nat)
    requires limit > 0 && SplitOf(item, limit, parts) && k < |parts|
    ensures |TextOf(parts[k])| <= limit
  {
    if item.text.Some? {
      PartsFit(item, limit, parts, k);
    }
  }

  // ----- the measure is monotone

  lemma {:induction false} TotalAppend(prompt: Prompt, a: seq<Evidence>, b: seq<Evidence>)
    ensures Total(prompt, a + b) == Total(prompt, a) + Total(prompt, b)
  {
    if a == [] {
      assert a + b == b;
    } else {
      assert (a + b)[1..] == a[1..] + b;
      TotalAppend(prompt, a[1..], b);
    }
  }

  lemma MeasureIsMonotone(prompt: Prompt, parts: seq<Evidence>, a: nat, b: nat, c: nat, d: nat)
    requires a <= b < c <= d <= |parts|
    ensures Measured(prompt, parts[b..c]) <= Measured(prompt, parts[a..d])
  {
    assert parts[a..d] == parts[a..b] + (parts[b..c] + parts[c..d]);
    TotalAppend(prompt, parts[a..b], parts[b..c] + parts[c..d]);
    TotalAppend(prompt, parts[b..c], parts[c..d]);
  }

  // ----- no packing uses fewer chunks

  function End(chunks: seq<seq<Evidence>>, k: nat): nat
    requires k <= |chunks|
  {
    |Flatten(chunks[..k])|
  }

  lemma {:induction false} ChunkIsSlice(chunks: seq<seq<Evidence>>, n: nat, k: nat)
    requires k < n <= |chunks|
    ensures End(chunks, k + 1) == End(chunks, k) + |chunks[k]| && End(chunks, k + 1) <= End(chunks, n)
    ensures Flatten(chunks[..n])[End(chunks, k)..End(chunks, k + 1)] == chunks[k]
    decreases n
  {
    assert chunks[..n][..n - 1] == chunks[..n - 1];
    assert chunks[..k + 1][..k] == chunks[..k];
    if k < n - 1 {
      ChunkIsSlice(chunks, n - 1, k);
      var whole, part := Flatten(chunks[..n]), Flatten(chunks[..n - 1]);
      assert whole == part + chunks[n - 1];
      assert whole[End(chunks, k)..End(chunks, k + 1)] == part[End(chunks, k)..End(chunks, k + 1)];
    }
  }

  lemma ChunkOfPacking(prompt: Prompt, budget: nat, chunks: seq<seq<Evidence>>, parts: seq<Evidence>, k: nat)
    requires IsPacking(prompt, budget, chunks, parts) && k < |chunks|
    ensures End(chunks, k) < End(chunks, k + 1) <= |parts| && parts[End(chunks, k)..End(chunks, k + 1)] == chunks[k]
  {
    assert chunks[..|chunks|] == chunks;
    ChunkIsSlice(chunks, |chunks|, k);
    assert Feasible(prompt, budget, chunks[k]);
  }

  lemma OneMorePart(parts: seq<Evidence>, a: nat, b: nat, c: nat)
    requires a <= b < c <= |parts|
    ensures parts[a..b + 1] == parts[a..b] + parts[b..c][..1]
  {
    assert parts[b..c][..1] == [parts[b]];
  }

  /** The greedy chunk, with one more part, is over the budget. */
  lemma NextPartIsTooMuch(prompt: Prompt, budget: nat, chunks: seq<seq<Evidence>>, parts: seq<Evidence>, k: nat)
    requires IsGreedy(prompt, budget, chunks, parts) && k < |chunks| - 1
    ensures End(chunks, k) < End(chunks, k + 1) < |parts|
    ensures Measured(prompt, parts[End(chunks, k)..End(chunks, k + 1) + 1]) > budget
  {
    ChunkOfPacking(prompt, budget, chunks, parts, k);
    ChunkOfPacking(prompt, budget, chunks, parts, k + 1);
    OneMorePart(parts, End(chunks, k), End(chunks, k + 1), End(chunks, k + 2));
  }

  lemma {:induction false} GreedyStaysAhead(prompt: Prompt, budget: nat, greedy: seq<seq<Evidence>>,
                                            other: seq<seq<Evidence>>, parts: seq<Evidence>, k: nat)
    requires IsGreedy(prompt, budget, greedy, parts) && IsPacking(prompt, budget, other, parts)
    requires k <= |greedy| && k <= |other|
    ensures End(other, k) <= End(greedy, k)
  {
    if k > 0 {
      GreedyStaysAhead(prompt, budget, greedy, other, parts, k - 1);
      ChunkOfPacking(prompt, budget, greedy, parts, k - 1);
      ChunkOfPacking(prompt, budget, other, parts, k - 1);
      assert Feasible(prompt, budget, other[k - 1]);
      if End(greedy, k) < End(other, k) {
        NextPartIsTooMuch(prompt, budget, greedy, parts, k - 1);
        MeasureIsMonotone(prompt, parts, End(other, k - 1), End(greedy, k - 1), End(greedy, k) + 1, End(other, k));
      }
    }
  }

  /** No way of packing the same parts in order, with the same rule, uses fewer chunks. */
  lemma GreedyIsOptimal(prompt: Prompt, budget: nat, greedy: seq<seq<Evidence>>, other: seq<seq<Evidence>>,
                        parts: seq<Evidence>)
    requires IsGreedy(prompt, budget, greedy, parts) && IsPacking(prompt, budget, other, parts)
    ensures |greedy| <= |other|
  {
    assert other[..|other|] == other;
    if |other| < |greedy| {
      ChunkOfPacking(prompt, budget, greedy, parts, |other|);
      GreedyStaysAhead(prompt, budget, greedy, other, parts, |other|);
    }
  }

  /** There is only one greedy packing, so `IsGreedy` says exactly which chunks the program makes. */
  lemma GreedyIsUnique(prompt: Prompt, budget: nat, a: seq<seq<Evidence>>, b: seq<seq<Evidence>>, parts: seq<Evidence>)
    requires IsGreedy(prompt, budget, a, parts) && IsGreedy(prompt, budget, b, parts)
    ensures a == b
  {
    GreedyIsOptimal(prompt, budget, a, b, parts);
    GreedyIsOptimal(prompt, budget, b, a, parts);
    forall k | 0 <= k < |a|
      ensures a[k] == b[k]
    {
      GreedyStaysAhead(prompt, budget, a, b, parts, k);
      GreedyStaysAhead(prompt, budget, b, a, parts, k);
      GreedyStaysAhead(prompt, budget, a, b, parts, k + 1);
      GreedyStaysAhead(prompt, budget, b, a, parts, k + 1);
      ChunkOfPacking(prompt, budget, a, parts, k);
      ChunkOfPacking(prompt, budget, b, parts, k);
    }
  }

  // ----- the measure and the real prompt

  /** Along a packing by sizes: a chunk of several parts, with its brackets and commas and four digits for its numbers,
      is within the budget, and one more comma and the first part of the next chunk would take it beyond. */
  lemma ChunksBySize(prompt: Prompt, budget: nat, chunks: seq<seq<Evidence>>, parts: seq<Evidence>, k: nat)
    requires IsGreedy(prompt, budget, chunks, parts) && k < |chunks|
    ensures var chunk := chunks[k];
            && chunk != []
            && (|chunk| > 1 ==> prompt.fixed + 4 + 2 + Total(prompt, chunk) + (|chunk| - 1) <= budget)
            && (k + 1 < |chunks| ==>
                  && chunks[k + 1] != []
                  && prompt.fixed + 4 + 2 + Total(prompt, chunk) + |chunk| + prompt.chars(chunks[k + 1][0]) > budget)
  {
    DecimalDigits(1);
    DecimalDigits(2);
    assert Feasible(prompt, budget, chunks[k]);
    if k + 1 < |chunks| {
      assert Feasible(prompt, budget, chunks[k + 1]);
      var next := chunks[k + 1][0];
      assert chunks[k + 1][..1] == [next];
      TotalAppends(prompt, chunks[k], next);
    }
  }

  lemma {:induction false} TotalAppends(prompt: Prompt, parts: seq<Evidence>, part: Evidence)
    ensures Total(prompt, parts + [part]) == Total(prompt, parts) + prompt.chars(part)
  {
    if parts == [] {
      assert [] + [part] == [part] && [part][1..] == [];
    } else {
      assert (parts + [part])[1..] == parts[1..] + [part];
      TotalAppends(prompt, parts[1..], part);
    }
  }

  /** By how much the prompt of a chunk is longer than the packing loop measured. */
  function Excess(index: nat, count: nat): int {
    |Decimal(index)| + |Decimal(index + 1)| + 2 * |Decimal(count)| - 4
  }

  lemma PromptExceedsMeasure(prompt: Prompt, chunk: seq<Evidence>, index: nat, count: nat)
    requires index < count
    ensures PromptChars(prompt, chunk, index, count) == Measured(prompt, chunk) + Excess(index, count)
    ensures Excess(index, count) >= 0 && (Excess(index, count) == 0 <==> count < 10)
  {
    DecimalDigits(1);
    DecimalDigits(2);
    DecimalDigits(index);
    DecimalDigits(index + 1);
    DecimalDigits(count);
  }

  /** Every prompt that holds more than one part is within the budget. */
  ghost predicate PromptsFit(prompt: Prompt, budget: nat, chunks: seq<seq<Evidence>>) {
    forall k | 0 <= k < |chunks| :: |chunks[k]| > 1 ==> PromptChars(prompt, chunks[k], k, |chunks|) <= budget
  }

  lemma FewChunksFit(prompt: Prompt, budget: nat, chunks: seq<seq<Evidence>>, parts: seq<Evidence>)
    requires IsPacking(prompt, budget, chunks, parts) && |chunks| < 10
    ensures PromptsFit(prompt, budget, chunks)
  {
    forall k | 0 <= k < |chunks| && |chunks[k]| > 1
      ensures PromptChars(prompt, chunks[k], k, |chunks|) <= budget
    {
      assert Feasible(prompt, budget, chunks[k]);
      PromptExceedsMeasure(prompt, chunks[k], k, |chunks|);
    }
  }

  // ----- evidence whose prompts exceed the budget

  lemma MeasuredGrows(prompt: Prompt, parts: seq<Evidence>, part: Evidence)
    requires parts != []
    ensures Measured(prompt, parts + [part]) == Measured(prompt, parts) + prompt.chars(part) + 1
  {
    TotalAppend(prompt, parts, [part]);
  }

  lemma {:induction false} FlattenLength(prompt: Prompt, budget: nat, chunks: seq<seq<Evidence>>)
    requires forall k | 0 <= k < |chunks| :: Feasible(prompt, budget, chunks[k])
    ensures |chunks| <= |Flatten(chunks)|
    ensures |chunks| == |Flatten(chunks)| ==> forall k | 0 <= k < |chunks| :: |chunks[k]| == 1
  {
    if chunks != [] {
      FlattenLength(prompt, budget, chunks[..|chunks| - 1]);
      assert Feasible(prompt, budget, chunks[|chunks| - 1]);
      assert forall k | 0 <= k < |chunks| - 1 :: chunks[k] == chunks[..|chunks| - 1][k];
    }
  }

  /** The chunks of `n` pairs of one and the same part. */
  function Pairs(e: Evidence, n: nat): seq<seq<Evidence>> {
    seq(n, _ => [e, e])
  }

  /** Whatever the prompt and the part: with a budget that just holds two such parts, ten or more pairs of them are
      packed in pairs, and the first prompt exceeds the budget. If a written part is no shorter than its text, the parts
      are items that need no splitting, so they are an input of the program. */
  lemma PairsDoNotFit(prompt: Prompt, e: Evidence, n: nat)
    requires n >= 10
    ensures var budget := Measured(prompt, [e, e]);
            IsGreedy(prompt, budget, Pairs(e, n), Flatten(Pairs(e, n))) && !PromptsFit(prompt, budget, Pairs(e, n))
    ensures prompt.chars(e) >= |TextOf(e)| ==>
              PartsOf(Flatten(Pairs(e, n)), PartLimit(Measured(prompt, [e, e])), Flatten(Pairs(e, n)))
  {
    var budget := Measured(prompt, [e, e]);
    var chunks := Pairs(e, n);
    MeasuredGrows(prompt, [e, e], e);
    assert [e, e] + [e, e][..1] == [e, e] + [e];
    PromptExceedsMeasure(prompt, chunks[0], 0, n);
    if prompt.chars(e) >= |TextOf(e)| {
      PairIsWide(prompt, e);
      PairsFlatten(e, n);
      UnsplitItems(Flatten(chunks), PartLimit(budget));
    }
  }

  lemma PairIsWide(prompt: Prompt, e: Evidence)
    ensures Measured(prompt, [e, e]) >= 2 * prompt.chars(e)
  {
    TotalAppend(prompt, [e], [e]);
    assert [e] + [e] == [e, e];
  }

  lemma {:induction false} PairsFlatten(e: Evidence, n: nat)
    ensures forall p | p in Flatten(Pairs(e, n)) :: p == e
  {
    if n > 0 {
      assert Pairs(e, n)[..n - 1] == Pairs(e, n - 1);
      PairsFlatten(e, n - 1);
    }
  }

  lemma {:induction false} UnsplitItems(items: seq<Evidence>, limit: nat)
    requires forall p | p in items :: |TextOf(p)| <= limit
    ensures PartsOf(items, limit, items)
  {
    if items != [] {
      var rest, last := items[..|items| - 1], items[|items| - 1];
      assert items == rest + [last];
      assert last in items;
      UnsplitItems(rest, limit);
      PartsOfStep(rest, limit, rest, last, [last]);
    }
  }

  /** One pair, and then larger parts one by one: `m` parts in `m - 1` chunks. */
  function PairAndSingles(e: Evidence, f: Evidence, m: nat): seq<seq<Evidence>>
    requires m >= 2
  {
    [[e, e]] + seq(m - 2, _ => [f])
  }

  lemma {:induction false} PairAndSinglesFlatten(e: Evidence, f: Evidence, m: nat)
    requires m >= 2
    ensures |Flatten(PairAndSingles(e, f, m))| == m
  {
    var chunks := PairAndSingles(e, f, m);
    if m == 2 {
      assert chunks == [] + [[e, e]];
      FlattenStep([], [e, e]);
    } else {
      PairAndSinglesFlatten(e, f, m - 1);
      assert chunks == PairAndSingles(e, f, m - 1) + [[f]];
      FlattenStep(PairAndSingles(e, f, m - 1), [f]);
    }
  }

  lemma PairAndSinglesDoNotFit(prompt: Prompt, e: Evidence, f: Evidence, m: nat)
    requires m >= 11 && prompt.chars(f) > prompt.chars(e)
    ensures var (budget, chunks) := (Measured(prompt, [e, e]), PairAndSingles(e, f, m));
            |Flatten(chunks)| == m && IsGreedy(prompt, budget, chunks, Flatten(chunks)) &&
              !PromptsFit(prompt, budget, chunks)
  {
    var budget, chunks := Measured(prompt, [e, e]), PairAndSingles(e, f, m);
    PairAndSinglesFlatten(e, f, m);
    MeasuredGrows(prompt, [e, e], f);
    MeasuredGrows(prompt, [e], e);
    MeasuredGrows(prompt, [f], f);
    SingleMeasures(prompt, e, f);
    assert [e] + [e] == [e, e];
    assert [f][..1] == [f] && chunks[0] == [e, e] && forall k | 0 < k < |chunks| :: chunks[k] == [f];
    PromptExceedsMeasure(prompt, chunks[0], 0, |chunks|);
  }

  lemma SingleMeasures(prompt: Prompt, e: Evidence, f: Evidence)
    ensures Measured(prompt, [f]) - Measured(prompt, [e]) == prompt.chars(f) - prompt.chars(e)
  {
    assert [f][1..] == [] && [e][1..] == [];
    assert Total(prompt, [f]) == prompt.chars(f) && Total(prompt, [e]) == prompt.chars(e);
  }

  /** The budget holds for the prompts that are sent, and not only as measured, exactly for evidence of at most ten
      parts: for every larger number of parts some evidence makes a prompt that exceeds it. */
  lemma BudgetHoldsIffFewParts(m: nat)
    ensures m <= 10 <==> forall prompt, budget: nat, chunks, parts ::
                           IsGreedy(prompt, budget, chunks, parts) && |parts| == m ==>
                             PromptsFit(prompt, budget, chunks)
  {
    if m <= 10 {
      forall prompt, budget: nat, chunks, parts | IsGreedy(prompt, budget, chunks, parts) && |parts| == m
        ensures PromptsFit(prompt, budget, chunks)
      {
        FlattenLength(prompt, budget, chunks);
        if |chunks| < 10 {
          FewChunksFit(prompt, budget, chunks, parts);
        }
      }
    } else {
      var e := Evidence(map[], Some("a"), None);
      var f := Evidence(map[], Some("ab"), None);
      var prompt := Prompt(0, p => 2 + |TextOf(p)|);
      PairAndSinglesDoNotFit(prompt, e, f, m);
    }
  }
}
