/** Splitting one long text of evidence into overlapping parts, each of which says which core range it alone covers. */
module EvidenceSplit {
  import opened Common

  /** Where a part lies: the core is `coreChars` characters from `coreStart` of the part's own text. */
  datatype Slice = Slice(index: nat, count: nat, coreStart: nat, coreChars: nat, prefixChars: nat, suffixChars: nat)

  /** One item of evidence: its text, if it has one, the other fields, and its slice once it has been split. */
  datatype Evidence = Evidence(fields: map<string, string>, text: Option<string>, slice: Option<Slice>)

  datatype Range = Range(start: nat, end: nat)

  const MAX_CONTEXT: nat := 6000

  function ContextChars(limit: nat): nat {
    Min(MAX_CONTEXT, limit / 8)
  }

  function CoreChars(limit: nat): nat {
    if limit > 2 * ContextChars(limit) then limit - 2 * ContextChars(limit) else 1
  }

  // ----- searching for newlines

  predicate HasNewline(text: string, lo: nat, hi: nat)
    requires lo <= hi <= |text|
  {
    exists k :: lo <= k < hi && text[k] == '\n'
  }

  /** `rfind("\n", lo, hi)` */
  function LastNewline(text: string, lo: nat, hi: nat): (r: Option<nat>)
    requires lo <= hi <= |text|
    ensures r.None? <==> !HasNewline(text, lo, hi)
    ensures r.Some? ==> lo <= r.value < hi && text[r.value] == '\n' && !HasNewline(text, r.value + 1, hi)
    decreases hi
  {
    if lo == hi then None
    else if text[hi - 1] == '\n' then Some(hi - 1)
    else LastNewline(text, lo, hi - 1)
  }

  /** `find("\n", lo, hi)` */
  function FirstNewline(text: string, lo: nat, hi: nat): (r: Option<nat>)
    requires lo <= hi <= |text|
    ensures r.None? <==> !HasNewline(text, lo, hi)
    ensures r.Some? ==> lo <= r.value < hi && text[r.value] == '\n' && !HasNewline(text, lo, r.value)
    decreases hi - lo
  {
    if lo == hi then None
    else if text[lo] == '\n' then Some(lo)
    else FirstNewline(text, lo + 1, hi)
  }

  // ----- what a split is

  /** A core takes as many whole lines as fit into `core` characters, or `core` characters if there is no line end. */
  ghost predicate IsCore(text: string, core: nat, r: Range) {
    && r.start < r.end <= |text| && r.end <= r.start + core
    && if r.start + core >= |text| then r.end == |text|
       else if HasNewline(text, r.start, r.start + core) then
         text[r.end - 1] == '\n' && !HasNewline(text, r.end, r.start + core)
       else r.end == r.start + core
  }

  /** The ranges are cores that follow one another without gap or overlap and end at `upto`. */
  ghost predicate Cores(text: string, core: nat, ranges: seq<Range>, upto: nat) {
    && (forall k | 0 <= k < |ranges| :: IsCore(text, core, ranges[k]))
    && (forall k | 0 < k < |ranges| :: ranges[k].start == ranges[k - 1].end)
    && (if ranges == [] then upto == 0 else ranges[0].start == 0 && ranges[|ranges| - 1].end == upto)
  }

  /** The prefix goes back at most `context` characters and drops a first line that it would cut. */
  ghost predicate IsPrefix(text: string, context: nat, start: nat, p: nat)
    requires start <= |text|
  {
    && p <= start <= p + context
    && if start <= context then p == 0
       else if HasNewline(text, start - context, start) then
         p > start - context && text[p - 1] == '\n' && !HasNewline(text, start - context, p - 1)
       else p == start - context
  }

  /** The suffix goes on for at most `context` characters and drops a last line that it would cut. */
  ghost predicate IsSuffix(text: string, context: nat, end: nat, s: nat)
    requires end <= |text|
  {
    && end <= s <= |text| && s <= end + context
    && if end + context >= |text| then s == |text|
       else if HasNewline(text, end, end + context)
       then s > end && text[s - 1] == '\n' && !HasNewline(text, s, end + context)
       else s == end + context
  }

  /** The part with core `r` and context from `p` to `s`. */
  function Cut(item: Evidence, r: Range, p: nat, s: nat, index: nat, count: nat): Evidence
    requires item.text.Some? && p <= r.start <= r.end <= s <= |item.text.value|
  {
    Evidence(item.fields, Some(item.text.value[p..s]),
             Some(Slice(index, count, r.start - p, r.end - r.start, r.start - p, s - r.end)))
  }

  ghost predicate IsPart(item: Evidence, limit: nat, r: Range, index: nat, count: nat, part: Evidence)
    requires item.text.Some? && r.start <= r.end <= |item.text.value|
  {
    exists p: nat, s: nat ::
      && IsPrefix(item.text.value, ContextChars(limit), r.start, p)
      && IsSuffix(item.text.value, ContextChars(limit), r.end, s)
      && part == Cut(item, r, p, s, index, count)
  }

  ghost predicate Needed(item: Evidence, limit: nat) {
    item.text.Some? && |item.text.value| > limit
  }

  ghost predicate SplitAlong(item: Evidence, limit: nat, ranges: seq<Range>, parts: seq<Evidence>)
    requires Needed(item, limit)
  {
    && Cores(item.text.value, CoreChars(limit), ranges, |item.text.value|)
    && |parts| == |ranges|
    && forall k | 0 <= k < |ranges| :: IsPart(item, limit, ranges[k], k, |ranges|, parts[k])
  }

  ghost predicate SplitOf(item: Evidence, limit: nat, parts: seq<Evidence>) {
    if Needed(item, limit) then exists ranges: seq<Range> :: SplitAlong(item, limit, ranges, parts) else parts == [item]
  }

  // ----- the program

  method CoreRanges(text: string, core: nat) returns (ranges: seq<Range>)
    requires core > 0
    ensures Cores(text, core, ranges, |text|)
  {
    ranges := [];
    var start := 0;
    while start < |text|
      invariant start <= |text| && Cores(text, core, ranges, start)
    {
      var proposed := Min(|text|, start + core);
      var end := proposed;
      if proposed < |text| {
        var newline := LastNewline(text, start, proposed);
        if newline.Some? {
          end := newline.value + 1;
        }
      }
      if end <= start {
        end := proposed;
      }
      assert IsCore(text, core, Range(start, end));
      ranges := ranges + [Range(start, end)];
      start := end;
    }
  }

  method PrefixStart(text: string, context: nat, start: nat) returns (p: nat)
    requires start <= |text|
    ensures IsPrefix(text, context, start, p)
  {
    p := if start > context then start - context else 0;
    if p > 0 {
      var newline := FirstNewline(text, p, start);
      if newline.Some? {
        p := newline.value + 1;
      }
    }
  }

  method SuffixEnd(text: string, context: nat, end: nat) returns (s: nat)
    requires end <= |text|
    ensures IsSuffix(text, context, end, s)
  {
    s := Min(|text|, end + context);
    if s < |text| {
      var newline := LastNewline(text, end, s);
      if newline.Some? {
        s := newline.value + 1;
      }
    }
  }

  lemma JoinSlices(text: string, p: nat, a: nat, b: nat, s: nat)
    requires p <= a <= b <= s <= |text|
    ensures text[p..a] + text[a..b] + text[b..s] == text[p..s]
  {
  }

  method CutPart(item: Evidence, limit: nat, r: Range, index: nat, count: nat) returns (part: Evidence)
    requires item.text.Some? && r.start <= r.end <= |item.text.value|
    ensures IsPart(item, limit, r, index, count, part)
  {
    var text := item.text.value;
    var p := PrefixStart(text, ContextChars(limit), r.start);
    var s := SuffixEnd(text, ContextChars(limit), r.end);
    var prefix, core, suffix := text[p..r.start], text[r.start..r.end], text[r.end..s];
    JoinSlices(text, p, r.start, r.end, s);
    part := Evidence(item.fields, Some(prefix + core + suffix),
                     Some(Slice(index, count, |prefix|, |core|, |prefix|, |suffix|)));
    assert part == Cut(item, r, p, s, index, count);
  }

  method SplitEvidenceItem(item: Evidence, limit: nat) returns (parts: seq<Evidence>)
    requires limit > 0
    ensures SplitOf(item, limit, parts)
  {
    if item.text.None? || |item.text.value| <= limit {
      return [item];
    }
    var ranges := CoreRanges(item.text.value, CoreChars(limit));
    parts := [];
    for index := 0 to |ranges|
      invariant |parts| == index
      invariant forall k | 0 <= k < index :: IsPart(item, limit, ranges[k], k, |ranges|, parts[k])
    {
      var part := CutPart(item, limit, ranges[index], index, |ranges|);
      parts := parts + [part];
    }
    assert SplitAlong(item, limit, ranges, parts);
  }

  // ----- what a split keeps

  /** The characters only this part covers; all of the text of an item that was not split. */
  function Core(part: Evidence): string {
    match part.slice
    case Some(s) =>
      if part.text.Some? && s.coreStart + s.coreChars <= |part.text.value| then
        part.text.value[s.coreStart..s.coreStart + s.coreChars]
      else ""
    case None => if part.text.Some? then part.text.value else ""
  }

  function JoinedCores(parts: seq<Evidence>): string {
    if parts == [] then "" else JoinedCores(parts[..|parts| - 1]) + Core(parts[|parts| - 1])
  }

  lemma CoreOfCut(item: Evidence, r: Range, p: nat, s: nat, index: nat, count: nat)
    requires item.text.Some? && p <= r.start <= r.end <= s <= |item.text.value|
    ensures Core(Cut(item, r, p, s, index, count)) == item.text.value[r.start..r.end]
  {
    var text := item.text.value;
    assert text[p..s][r.start - p..r.end - p] == text[r.start..r.end];
  }

  lemma CoreOfPart(item: Evidence, limit: nat, r: Range, index: nat, count: nat, part: Evidence)
    requires item.text.Some? && r.start <= r.end <= |item.text.value| && IsPart(item, limit, r, index, count, part)
    ensures part.fields == item.fields && Core(part) == item.text.value[r.start..r.end]
    ensures part.text.Some? && |part.text.value| <= r.end - r.start + 2 * ContextChars(limit)
  {
    var p: nat, s: nat :|
      && IsPrefix(item.text.value, ContextChars(limit), r.start, p)
      && IsSuffix(item.text.value, ContextChars(limit), r.end, s)
      && part == Cut(item, r, p, s, index, count);
    CoreOfCut(item, r, p, s, index, count);
  }

  lemma JoinedStep(parts: seq<Evidence>, n: nat)
    requires 0 < n <= |parts|
    ensures JoinedCores(parts[..n]) == JoinedCores(parts[..n - 1]) + Core(parts[n - 1])
  {
    assert parts[..n][..n - 1] == parts[..n - 1];
  }

  lemma CoreAt(item: Evidence, limit: nat, ranges: seq<Range>, parts: seq<Evidence>, k: nat)
    requires Needed(item, limit) && SplitAlong(item, limit, ranges, parts) && k < |ranges|
    ensures ranges[k].start < ranges[k].end <= |item.text.value|
    ensures ranges[k].start == if k == 0 then 0 else ranges[k - 1].end
    ensures parts[k].fields == item.fields && Core(parts[k]) == item.text.value[ranges[k].start..ranges[k].end]
  {
    assert IsCore(item.text.value, CoreChars(limit), ranges[k]);
    CoreOfPart(item, limit, ranges[k], k, |ranges|, parts[k]);
  }

  ghost predicate CoreFollows(text: string, ranges: seq<Range>, parts: seq<Evidence>, k: nat) {
    && k < |ranges| == |parts|
    && ranges[k].start <= ranges[k].end <= |text| && Core(parts[k]) == text[ranges[k].start..ranges[k].end]
    && ranges[k].start == if k == 0 then 0 else ranges[k - 1].end
  }

  lemma AppendSlice(text: string, a: nat, b: nat)
    requires a <= b <= |text|
    ensures text[..a] + text[a..b] == text[..b]
  {
  }

  lemma {:induction false} JoinedUpTo(text: string, ranges: seq<Range>, parts: seq<Evidence>, n: nat)
    requires forall k: nat | k < |ranges| :: CoreFollows(text, ranges, parts, k)
    requires 0 < n <= |ranges| == |parts|
    ensures ranges[n - 1].end <= |text| && JoinedCores(parts[..n]) == text[..ranges[n - 1].end]
  {
    var r := ranges[n - 1];
    assert CoreFollows(text, ranges, parts, n - 1);
    JoinedStep(parts, n);
    AppendSlice(text, r.start, r.end);
    if n > 1 {
      JoinedUpTo(text, ranges, parts, n - 1);
    }
  }

  lemma JoinedAlong(item: Evidence, limit: nat, ranges: seq<Range>, parts: seq<Evidence>)
    requires Needed(item, limit) && SplitAlong(item, limit, ranges, parts)
    ensures JoinedCores(parts) == item.text.value
  {
    forall k: nat | k < |ranges|
      ensures CoreFollows(item.text.value, ranges, parts, k)
    {
      CoreAt(item, limit, ranges, parts, k);
    }
    JoinedUpTo(item.text.value, ranges, parts, |ranges|);
    assert parts[..|ranges|] == parts;
  }

  lemma FieldsAlong(item: Evidence, limit: nat, parts: seq<Evidence>, k: nat)
    requires SplitOf(item, limit, parts) && k < |parts|
    ensures parts[k].fields == item.fields
  {
    if Needed(item, limit) {
      var ranges: seq<Range> :| SplitAlong(item, limit, ranges, parts);
      CoreAt(item, limit, ranges, parts, k);
    }
  }

  /** Cutting each part's core range out of it and joining the cores gives back the text of the item; nothing is lost,
      repeated or reordered, and the other fields are carried along. */
  lemma SplitRoundTrip(item: Evidence, limit: nat, parts: seq<Evidence>)
    requires limit > 0 && SplitOf(item, limit, parts) && item.text.Some? && item.slice.None?
    ensures parts != [] && JoinedCores(parts) == item.text.value
    ensures forall k | 0 <= k < |parts| :: parts[k].fields == item.fields
  {
    forall k: nat | k < |parts|
      ensures parts[k].fields == item.fields
    {
      FieldsAlong(item, limit, parts, k);
    }
    if Needed(item, limit) {
      var ranges: seq<Range> :| SplitAlong(item, limit, ranges, parts);
      JoinedAlong(item, limit, ranges, parts);
    } else {
      assert JoinedCores(parts) == JoinedCores(parts[..0]) + item.text.value;
    }
  }

  /** No part is longer than the limit, whatever the limit. */
  lemma PartsFit(item: Evidence, limit: nat, parts: seq<Evidence>, k: nat)
    requires limit > 0 && SplitOf(item, limit, parts) && k < |parts| && item.text.Some?
    ensures parts[k].text.Some? && |parts[k].text.value| <= limit
  {
    if Needed(item, limit) {
      var ranges: seq<Range> :| SplitAlong(item, limit, ranges, parts);
      assert IsCore(item.text.value, CoreChars(limit), ranges[k]);
      CoreOfPart(item, limit, ranges[k], k, |ranges|, parts[k]);
    }
  }

  lemma CoreEndsAtLine(text: string, limit: nat, r: Range, core: string)
    requires IsCore(text, limit, r) && r.end < |text| && core == text[r.start..r.end]
    ensures core != "" && (core[|core| - 1] == '\n' || (|core| == limit && '\n' !in core))
  {
    assert core[|core| - 1] == text[r.end - 1];
    if '\n' in core {
      var i :| 0 <= i < |core| && core[i] == '\n';
      assert text[r.start + i] == '\n';
    }
  }

  /** Every core but the last ends with a line end, unless it is a full window without any. */
  lemma CoresEndAtLines(item: Evidence, limit: nat, parts: seq<Evidence>, k: nat)
    requires limit > 0 && Needed(item, limit) && SplitOf(item, limit, parts) && k + 1 < |parts|
    ensures var core := Core(parts[k]);
            core != "" && (core[|core| - 1] == '\n' || (|core| == CoreChars(limit) && '\n' !in core))
  {
    var ranges: seq<Range> :| SplitAlong(item, limit, ranges, parts);
    CoreAt(item, limit, ranges, parts, k);
    CoreAt(item, limit, ranges, parts, k + 1);
    CoreEndsAtLine(item.text.value, CoreChars(limit), ranges[k], Core(parts[k]));
  }

  lemma {:induction false} EvenRanges(text: string, core: nat, ranges: seq<Range>, k: nat)
    requires Cores(text, core, ranges, |text|) && k < |ranges| && '\n' !in text
    ensures k * core < |text| && ranges[k] == Range(k * core, Min(|text|, k * core + core))
  {
    if k > 0 {
      EvenRanges(text, core, ranges, k - 1);
      assert (k - 1) * core + core == k * core;
    }
    assert IsCore(text, core, ranges[k]);
  }

  lemma EvenCount(text: string, core: nat, ranges: seq<Range>)
    requires Cores(text, core, ranges, |text|) && text != "" && '\n' !in text
    ensures ranges != [] && (|ranges| - 1) * core < |text| <= |ranges| * core
  {
    var last := |ranges| - 1;
    EvenRanges(text, core, ranges, last);
    assert last * core + core == |ranges| * core;
  }

  /** Part `index` of `count` when cores are `core` characters each and have up to `context` characters on each side. */
  ghost predicate IsEvenPart(item: Evidence, context: nat, core: nat, index: nat, count: nat, part: Evidence)
    requires item.text.Some?
  {
    var text, start := item.text.value, index * core;
    var end := Min(|text|, start + core);
    && start < end
    && var before, behind := Min(start, context), Min(context, |text| - end);
       part == Evidence(item.fields, Some(text[start - before..end + behind]),
                        Some(Slice(index, count, before, end - start, before, behind)))
  }

  lemma EvenPart(item: Evidence, limit: nat, core: nat, index: nat, count: nat, part: Evidence)
    requires item.text.Some? && '\n' !in item.text.value && index * core < |item.text.value| && core > 0
    requires IsPart(item, limit, Range(index * core, Min(|item.text.value|, index * core + core)), index, count, part)
    ensures IsEvenPart(item, ContextChars(limit), core, index, count, part)
  {
  }

  lemma SplitIsEven(item: Evidence, limit: nat, ranges: seq<Range>, parts: seq<Evidence>, k: nat)
    requires Needed(item, limit) && SplitAlong(item, limit, ranges, parts) && k < |parts| && '\n' !in item.text.value
    ensures IsEvenPart(item, ContextChars(limit), CoreChars(limit), k, |parts|, parts[k])
    ensures (|parts| - 1) * CoreChars(limit) < |item.text.value| <= |parts| * CoreChars(limit)
  {
    EvenRanges(item.text.value, CoreChars(limit), ranges, k);
    EvenCount(item.text.value, CoreChars(limit), ranges);
    EvenPart(item, limit, CoreChars(limit), k, |ranges|, parts[k]);
  }

  lemma CharsSpelledOut(limit: nat)
    ensures ContextChars(limit) == Min(6000, limit / 8)
    ensures CoreChars(limit) == Max(1, limit - 2 * Min(6000, limit / 8))
  {
  }

  /** A text without line ends is cut evenly: into cores of the limit less an eighth of it, or less 6000 characters, on
      either side, and each part holds that much context where the text has it. */
  lemma TextWithoutLinesIsCutEvenly(item: Evidence, limit: nat, parts: seq<Evidence>, k: nat)
    requires SplitOf(item, limit, parts) && k < |parts|
    requires item.text.Some? && |item.text.value| > limit && '\n' !in item.text.value
    ensures var context: nat := Min(6000, limit / 8);
            var core: nat := Max(1, limit - 2 * context);
            && (|parts| - 1) * core < |item.text.value| <= |parts| * core
            && IsEvenPart(item, context, core, k, |parts|, parts[k])
  {
    var ranges: seq<Range> :| SplitAlong(item, limit, ranges, parts);
    SplitIsEven(item, limit, ranges, parts, k);
    CharsSpelledOut(limit);
  }

  lemma CoreNotShorter(text: string, core: nat, r: Range, q: Range)
    requires IsCore(text, core, r) && IsCore(text, core, q) && r.start == q.start
    ensures r.end <= q.end
  {
  }

  lemma {:induction false} CoresAreUnique(text: string, core: nat, a: seq<Range>, b: seq<Range>, n: nat)
    requires Cores(text, core, a, |text|) && Cores(text, core, b, |text|) && n <= |a| && n <= |b|
    ensures a[..n] == b[..n]
  {
    if n > 0 {
      CoresAreUnique(text, core, a, b, n - 1);
      if n > 1 {
        assert a[..n - 1][n - 2] == b[..n - 1][n - 2];
      }
      CoreNotShorter(text, core, a[n - 1], b[n - 1]);
      CoreNotShorter(text, core, b[n - 1], a[n - 1]);
      assert a[..n] == a[..n - 1] + [a[n - 1]] && b[..n] == b[..n - 1] + [b[n - 1]];
    }
  }

  lemma BeforeTheEnd(text: string, core: nat, a: seq<Range>, k: nat)
    requires Cores(text, core, a, |text|) && k < |a|
    ensures a[k].start < |text| && a[k].start == if k == 0 then 0 else a[k - 1].end
  {
    assert IsCore(text, core, a[k]);
  }

  lemma SameCoreCount(text: string, core: nat, a: seq<Range>, b: seq<Range>)
    requires Cores(text, core, a, |text|) && Cores(text, core, b, |text|)
    ensures |a| <= |b|
  {
    if |b| < |a| {
      BeforeTheEnd(text, core, a, |b|);
      CoresAreUnique(text, core, a, b, |b|);
    }
  }

  lemma ContextIsUnique(text: string, context: nat, r: Range, p: nat, q: nat, s: nat, t: nat)
    requires r.start <= r.end <= |text|
    requires IsPrefix(text, context, r.start, p) && IsPrefix(text, context, r.start, q)
    requires IsSuffix(text, context, r.end, s) && IsSuffix(text, context, r.end, t)
    ensures p == q && s == t
  {
    PrefixIsUnique(text, context, r.start, p, q);
    PrefixIsUnique(text, context, r.start, q, p);
    SuffixIsUnique(text, context, r.end, s, t);
    SuffixIsUnique(text, context, r.end, t, s);
  }

  lemma PrefixIsUnique(text: string, context: nat, start: nat, p: nat, q: nat)
    requires start <= |text| && IsPrefix(text, context, start, p) && IsPrefix(text, context, start, q)
    ensures p <= q
  {
  }

  lemma SuffixIsUnique(text: string, context: nat, end: nat, s: nat, t: nat)
    requires end <= |text| && IsSuffix(text, context, end, s) && IsSuffix(text, context, end, t)
    ensures s <= t
  {
  }

  lemma PartIsUnique(item: Evidence, limit: nat, r: Range, index: nat, count: nat, a: Evidence, b: Evidence)
    requires item.text.Some? && r.start <= r.end <= |item.text.value|
    requires IsPart(item, limit, r, index, count, a) && IsPart(item, limit, r, index, count, b)
    ensures a == b
  {
    var text, context := item.text.value, ContextChars(limit);
    var p: nat, s: nat :| IsPrefix(text, context, r.start, p) && IsSuffix(text, context, r.end, s)
                          && a == Cut(item, r, p, s, index, count);
    var q: nat, t: nat :| IsPrefix(text, context, r.start, q) && IsSuffix(text, context, r.end, t)
                          && b == Cut(item, r, q, t, index, count);
    ContextIsUnique(text, context, r, p, q, s, t);
  }

  lemma RangesAreUnique(text: string, core: nat, a: seq<Range>, b: seq<Range>)
    requires Cores(text, core, a, |text|) && Cores(text, core, b, |text|)
    ensures a == b
  {
    SameCoreCount(text, core, a, b);
    SameCoreCount(text, core, b, a);
    CoresAreUnique(text, core, a, b, |a|);
    assert a[..|a|] == a && b[..|b|] == b;
  }

  /** The conditions above leave no freedom: an item has one split for a given limit. */
  lemma SplitIsUnique(item: Evidence, limit: nat, a: seq<Evidence>, b: seq<Evidence>)
    requires limit > 0 && SplitOf(item, limit, a) && SplitOf(item, limit, b)
    ensures a == b
  {
    if Needed(item, limit) {
      var x: seq<Range> :| SplitAlong(item, limit, x, a);
      var y: seq<Range> :| SplitAlong(item, limit, y, b);
      RangesAreUnique(item.text.value, CoreChars(limit), x, y);
      forall k | 0 <= k < |a|
        ensures a[k] == b[k]
      {
        CoreAt(item, limit, x, a, k);
        PartIsUnique(item, limit, x[k], k, |x|, a[k], b[k]);
      }
    }
  }
}
