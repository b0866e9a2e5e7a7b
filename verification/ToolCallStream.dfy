/** Tool calls arrive in fragments: each delta carries the index of its call and pieces of its id, type, name and
    arguments. */
module ToolCallStream {
  import opened Common

  datatype Delta = Delta(index: int, id: Option<string>, kind: Option<string>, name: Option<string>,
                         arguments: Option<string>)

  datatype Partial = Partial(id: string, kind: Option<string>, name: string, arguments: string)

  datatype ToolCall = ToolCall(id: string, name: string, arguments: string)

  datatype StreamError =
    | TooLarge | Malformed | UnexpectedChoice | ConflictingFinish | BadIndex | OversizedId | ConflictingKinds
    | EndedBeforeDone | NoChoice | NoFinishReason | IndicesNotContiguous | IncompleteCall

  const MAX_ID_CHARS: nat := 64

  const FUNCTION: string := "function"

  const NOTHING_YET: Partial := Partial("", None, "", "")

  type Calls = map<int, Partial>

  function Text(fragment: Option<string>): string {
    if fragment.Some? then fragment.value else ""
  }

  // ----- one delta

  /** An id that begins with what is known replaces it, any other is appended. */
  function MergeId(current: string, raw: Option<string>): Result<string, StreamError> {
    if raw.None? || raw.value == current then Ok(current)
    else
      var merged := if current <= raw.value then raw.value else current + raw.value;
      if |merged| > MAX_ID_CHARS then Err(OversizedId) else Ok(merged)
  }

  function MergeKind(current: Option<string>, raw: Option<string>): Result<Option<string>, StreamError> {
    if raw.None? then Ok(current)
    else if current.Some? && current != raw then Err(ConflictingKinds)
    else Ok(raw)
  }

  function MergePartial(p: Partial, d: Delta): Result<Partial, StreamError> {
    var id := MergeId(p.id, d.id);
    var kind := MergeKind(p.kind, d.kind);
    if id.Err? then Err(id.error)
    else if kind.Err? then Err(kind.error)
    else Ok(Partial(id.value, kind.value, p.name + Text(d.name), p.arguments + Text(d.arguments)))
  }

  function Known(calls: Calls, index: int): Partial {
    if index in calls then calls[index] else NOTHING_YET
  }

  function Merge(calls: Calls, d: Delta): Result<Calls, StreamError> {
    if d.index < 0 then Err(BadIndex)
    else
      match MergePartial(Known(calls, d.index), d)
      case Ok(p) => Ok(calls[d.index := p])
      case Err(e) => Err(e)
  }

  // ----- all deltas, and the deltas of one call

  function MergeAll(calls: Calls, deltas: seq<Delta>): Result<Calls, StreamError> {
    if deltas == [] then Ok(calls)
    else
      match MergeAll(calls, deltas[..|deltas| - 1])
      case Ok(before) => Merge(before, deltas[|deltas| - 1])
      case Err(e) => Err(e)
  }

  function Of(index: int, deltas: seq<Delta>): seq<Delta> {
    if deltas == [] then []
    else
      var last := deltas[|deltas| - 1];
      Of(index, deltas[..|deltas| - 1]) + if last.index == index then [last] else []
  }

  function Fold(deltas: seq<Delta>): Result<Partial, StreamError> {
    if deltas == [] then Ok(NOTHING_YET)
    else
      match Fold(deltas[..|deltas| - 1])
      case Ok(before) => MergePartial(before, deltas[|deltas| - 1])
      case Err(e) => Err(e)
  }

  lemma FoldStep(deltas: seq<Delta>, d: Delta)
    ensures Fold(deltas + [d]) == if Fold(deltas).Ok? then MergePartial(Fold(deltas).value, d) else Fold(deltas)
  {
    assert (deltas + [d])[..|deltas|] == deltas;
  }

  lemma OfStep(index: int, deltas: seq<Delta>, d: Delta)
    ensures Of(index, deltas + [d]) == if d.index == index then Of(index, deltas) + [d] else Of(index, deltas)
  {
    assert (deltas + [d])[..|deltas|] == deltas;
  }

  lemma MergeStep(deltas: seq<Delta>, d: Delta)
    ensures MergeAll(map[], deltas + [d]) ==
            if MergeAll(map[], deltas).Ok? then Merge(MergeAll(map[], deltas).value, d) else MergeAll(map[], deltas)
  {
    assert (deltas + [d])[..|deltas|] == deltas;
  }

  ghost predicate FoldsTo(deltas: seq<Delta>, calls: Calls, index: int) {
    && (index in calls <==> Of(index, deltas) != [])
    && Fold(Of(index, deltas)) == Ok(Known(calls, index))
  }

  lemma MergeFoldsTo(deltas: seq<Delta>, d: Delta, before: Calls, index: int)
    requires FoldsTo(deltas, before, index)
    ensures Merge(before, d).Ok? ==> FoldsTo(deltas + [d], Merge(before, d).value, index)
    ensures d.index == index >= 0 ==> Merge(before, d).Ok? == Fold(Of(index, deltas + [d])).Ok?
  {
    OfStep(index, deltas, d);
    FoldStep(Of(index, deltas), d);
  }

  /** Each call is merged on its own: the table holds, for every index that occurs, the fold of its own deltas. */
  lemma {:induction false} MergeAllIsPointwise(deltas: seq<Delta>, calls: Calls, index: int)
    requires MergeAll(map[], deltas) == Ok(calls)
    ensures FoldsTo(deltas, calls, index)
  {
    if deltas != [] {
      var rest, last := deltas[..|deltas| - 1], deltas[|deltas| - 1];
      assert deltas == rest + [last];
      MergeStep(rest, last);
      MergeAllIsPointwise(rest, MergeAll(map[], rest).value, index);
      MergeFoldsTo(rest, last, MergeAll(map[], rest).value, index);
    }
  }

  ghost predicate AllFold(deltas: seq<Delta>) {
    (forall d | d in deltas :: d.index >= 0) && forall i: int :: Fold(Of(i, deltas)).Ok?
  }

  lemma AllFoldBefore(deltas: seq<Delta>, d: Delta)
    requires AllFold(deltas + [d])
    ensures AllFold(deltas) && d.index >= 0 && Fold(Of(d.index, deltas + [d])).Ok?
  {
    forall e | e in deltas
      ensures e.index >= 0
    {
      assert e in deltas + [d];
    }
    assert d in deltas + [d];
    forall i: int
      ensures Fold(Of(i, deltas)).Ok?
    {
      assert Fold(Of(i, deltas + [d])).Ok?;
      OfStep(i, deltas, d);
      FoldStep(Of(i, deltas), d);
    }
  }

  lemma MergedDeltasFold(deltas: seq<Delta>)
    requires MergeAll(map[], deltas).Ok?
    ensures forall i: int :: Fold(Of(i, deltas)).Ok?
  {
    forall i: int
      ensures Fold(Of(i, deltas)).Ok?
    {
      MergeAllIsPointwise(deltas, MergeAll(map[], deltas).value, i);
    }
  }

  /** Merging succeeds exactly when no index is negative and the deltas of each call alone can be merged. */
  lemma {:induction false} MergeSucceedsIff(deltas: seq<Delta>)
    ensures MergeAll(map[], deltas).Ok? <==> AllFold(deltas)
  {
    if deltas != [] {
      var rest, last := deltas[..|deltas| - 1], deltas[|deltas| - 1];
      assert deltas == rest + [last];
      MergeSucceedsIff(rest);
      MergeStep(rest, last);
      if MergeAll(map[], deltas).Ok? {
        MergedDeltasFold(deltas);
      }
      if AllFold(deltas) {
        AllFoldBefore(rest, last);
        MergeAllIsPointwise(rest, MergeAll(map[], rest).value, last.index);
        MergeFoldsTo(rest, last, MergeAll(map[], rest).value, last.index);
      }
    }
  }

  lemma {:induction false} OfHasIndex(index: int, deltas: seq<Delta>, d: Delta)
    ensures d in Of(index, deltas) <==> d in deltas && d.index == index
  {
    if deltas != [] {
      var rest, last := deltas[..|deltas| - 1], deltas[|deltas| - 1];
      OfHasIndex(index, rest, d);
      assert deltas == rest + [last];
    }
  }

  lemma SameSubsequencesSameFolds(a: seq<Delta>, b: seq<Delta>)
    requires forall i :: Of(i, a) == Of(i, b)
    ensures AllFold(a) ==> AllFold(b)
  {
    if AllFold(a) {
      forall d | d in b
        ensures d.index >= 0
      {
        OfHasIndex(d.index, a, d);
        OfHasIndex(d.index, b, d);
      }
      forall i: int
        ensures Fold(Of(i, b)).Ok?
      {
        assert Fold(Of(i, a)).Ok?;
      }
    }
  }

  lemma SameEntry(a: seq<Delta>, b: seq<Delta>, x: Calls, y: Calls, index: int)
    requires Of(index, a) == Of(index, b) && FoldsTo(a, x, index) && FoldsTo(b, y, index)
    ensures index in x <==> index in y
    ensures index in x ==> x[index] == y[index]
  {
  }

  lemma SameTable(a: seq<Delta>, b: seq<Delta>, x: Calls, y: Calls)
    requires forall i :: Of(i, a) == Of(i, b)
    requires forall i :: FoldsTo(a, x, i) && FoldsTo(b, y, i)
    ensures x == y
  {
    forall i: int
      ensures i in x <==> i in y
      ensures i in x ==> x[i] == y[i]
    {
      assert FoldsTo(a, x, i) && FoldsTo(b, y, i);
      SameEntry(a, b, x, y, i);
    }
    assert x.Keys == y.Keys;
  }

  /** Interleaving does not matter: if each call has the same deltas in the same order, both streams fail or both give
      the same table. */
  lemma OnlySubsequencesMatter(a: seq<Delta>, b: seq<Delta>)
    requires forall i :: Of(i, a) == Of(i, b)
    ensures MergeAll(map[], a).Ok? <==> MergeAll(map[], b).Ok?
    ensures MergeAll(map[], a).Ok? ==> MergeAll(map[], a) == MergeAll(map[], b)
  {
    MergeSucceedsIff(a);
    MergeSucceedsIff(b);
    SameSubsequencesSameFolds(a, b);
    SameSubsequencesSameFolds(b, a);
    if MergeAll(map[], a).Ok? {
      var x, y := MergeAll(map[], a).value, MergeAll(map[], b).value;
      forall i: int
        ensures FoldsTo(a, x, i) && FoldsTo(b, y, i)
      {
        MergeAllIsPointwise(a, x, i);
        MergeAllIsPointwise(b, y, i);
      }
      SameTable(a, b, x, y);
    }
  }

  // ----- the finished calls

  predicate Complete(p: Partial) {
    p.id != "" && p.kind == Some(FUNCTION) && p.name != ""
  }

  function Range(n: nat): (r: set<int>)
    ensures |r| == n && forall i :: i in r <==> 0 <= i < n
  {
    if n == 0 then {} else Range(n - 1) + {n - 1}
  }

  predicate Contiguous(calls: Calls) {
    calls.Keys == Range(|calls|)
  }

  function Finish(p: Partial): ToolCall {
    ToolCall(p.id, p.name, p.arguments)
  }

  /** What is made of the table once the stream has ended: all calls in index order, or nothing. */
  ghost predicate FinishedAs(calls: Calls, r: Result<seq<ToolCall>, StreamError>) {
    match r
    case Ok(list) =>
      Contiguous(calls) && |list| == |calls| &&
      forall i | 0 <= i < |list| :: i in calls && Complete(calls[i]) && list[i] == Finish(calls[i])
    case Err(e) =>
      if Contiguous(calls) then e == IncompleteCall && exists i :: i in calls && !Complete(calls[i])
      else e == IndicesNotContiguous
  }

  lemma FinishedIsUnique(calls: Calls, a: Result<seq<ToolCall>, StreamError>, b: Result<seq<ToolCall>, StreamError>)
    requires FinishedAs(calls, a) && FinishedAs(calls, b)
    ensures a == b
  {
    if a.Ok? && b.Ok? {
      assert a.value == b.value;
    }
  }

  // ----- fragmenting and reassembling

  function JoinNames(deltas: seq<Delta>): string {
    if deltas == [] then "" else JoinNames(deltas[..|deltas| - 1]) + Text(deltas[|deltas| - 1].name)
  }

  function JoinArguments(deltas: seq<Delta>): string {
    if deltas == [] then "" else JoinArguments(deltas[..|deltas| - 1]) + Text(deltas[|deltas| - 1].arguments)
  }

  predicate SomeId(deltas: seq<Delta>) {
    exists k :: 0 <= k < |deltas| && Text(deltas[k].id) != ""
  }

  predicate SomeKind(deltas: seq<Delta>) {
    exists k :: 0 <= k < |deltas| && deltas[k].kind.Some?
  }

  /** Ids come whole or not at all, the type is that of a function. */
  ghost predicate Consistent(deltas: seq<Delta>, id: string) {
    forall k | 0 <= k < |deltas| ::
      && (Text(deltas[k].id) == "" || deltas[k].id == Some(id))
      && (deltas[k].kind.None? || deltas[k].kind == Some(FUNCTION))
  }

  /** The deltas are pieces of `call`: name and arguments cut anywhere, the id and the type sent at least once. */
  ghost predicate FragmentsOf(deltas: seq<Delta>, call: ToolCall) {
    && 0 < |call.id| <= 64 && call.name != ""
    && Consistent(deltas, call.id) && SomeId(deltas) && SomeKind(deltas)
    && JoinNames(deltas) == call.name && JoinArguments(deltas) == call.arguments
  }

  lemma SomeStep(deltas: seq<Delta>)
    requires deltas != []
    ensures var rest, last := deltas[..|deltas| - 1], deltas[|deltas| - 1];
            && (SomeId(deltas) <==> SomeId(rest) || Text(last.id) != "")
            && (SomeKind(deltas) <==> SomeKind(rest) || last.kind.Some?)
  {
    var rest, last := deltas[..|deltas| - 1], deltas[|deltas| - 1];
    assert deltas == rest + [last];
    if SomeId(rest) {
      var k :| 0 <= k < |rest| && Text(rest[k].id) != "";
      assert Text(deltas[k].id) != "";
    }
    if SomeKind(rest) {
      var k :| 0 <= k < |rest| && rest[k].kind.Some?;
      assert deltas[k].kind.Some?;
    }
  }

  lemma WholeIdMerges(id: string, known: bool, raw: Option<string>)
    requires 0 < |id| <= MAX_ID_CHARS && (Text(raw) == "" || raw == Some(id))
    ensures MergeId(if known then id else "", raw) == Ok(if known || Text(raw) != "" then id else "")
  {
    assert id + "" == id;
  }

  lemma {:induction false} ConsistentFolds(deltas: seq<Delta>, id: string)
    requires Consistent(deltas, id) && 0 < |id| <= MAX_ID_CHARS
    ensures Fold(deltas) ==
            Ok(Partial(if SomeId(deltas) then id else "", if SomeKind(deltas) then Some(FUNCTION) else None,
                       JoinNames(deltas), JoinArguments(deltas)))
  {
    if deltas != [] {
      var rest, last := deltas[..|deltas| - 1], deltas[|deltas| - 1];
      ConsistentFolds(rest, id);
      SomeStep(deltas);
      WholeIdMerges(id, SomeId(rest), last.id);
    }
  }

  /** Deltas of any number of calls, interleaved in any way, each call in pieces. */
  ghost predicate Fragments(deltas: seq<Delta>, calls: seq<ToolCall>) {
    && (forall d | d in deltas :: 0 <= d.index < |calls|)
    && forall i | 0 <= i < |calls| :: FragmentsOf(Of(i, deltas), calls[i])
  }

  lemma FragmentsFold(deltas: seq<Delta>, calls: seq<ToolCall>, i: int)
    requires Fragments(deltas, calls)
    ensures if 0 <= i < |calls| then
              Of(i, deltas) != [] &&
              Fold(Of(i, deltas)) == Ok(Partial(calls[i].id, Some(FUNCTION), calls[i].name, calls[i].arguments))
            else Of(i, deltas) == []
  {
    if 0 <= i < |calls| {
      ConsistentFolds(Of(i, deltas), calls[i].id);
    } else if Of(i, deltas) != [] {
      OfHasIndex(i, deltas, Of(i, deltas)[0]);
    }
  }

  lemma FragmentsMerge(deltas: seq<Delta>, calls: seq<ToolCall>)
    requires Fragments(deltas, calls)
    ensures MergeAll(map[], deltas).Ok?
  {
    forall i: int
      ensures Fold(Of(i, deltas)).Ok?
    {
      FragmentsFold(deltas, calls, i);
    }
    MergeSucceedsIff(deltas);
  }

  lemma EntryIsCall(deltas: seq<Delta>, calls: seq<ToolCall>, table: Calls, i: int)
    requires Fragments(deltas, calls) && MergeAll(map[], deltas) == Ok(table)
    ensures i in table <==> 0 <= i < |calls|
    ensures i in table ==> Complete(table[i]) && Finish(table[i]) == calls[i]
  {
    FragmentsFold(deltas, calls, i);
    MergeAllIsPointwise(deltas, table, i);
    if 0 <= i < |calls| {
      assert FragmentsOf(Of(i, deltas), calls[i]);
    }
  }

  lemma EntriesFinish(calls: seq<ToolCall>, table: Calls)
    requires forall i: int :: i in table <==> 0 <= i < |calls|
    requires forall i | i in table :: Complete(table[i]) && Finish(table[i]) == calls[i]
    ensures FinishedAs(table, Ok(calls))
  {
    assert table.Keys == Range(|calls|);
    assert |table| == |table.Keys|;
  }

  /** However a list of calls is fragmented and interleaved, it is reassembled into exactly that list. */
  lemma ReassemblyRoundTrip(deltas: seq<Delta>, calls: seq<ToolCall>)
    requires Fragments(deltas, calls)
    ensures MergeAll(map[], deltas).Ok? && FinishedAs(MergeAll(map[], deltas).value, Ok(calls))
  {
    FragmentsMerge(deltas, calls);
    var table := MergeAll(map[], deltas).value;
    forall i: int
      ensures i in table <==> 0 <= i < |calls|
      ensures i in table ==> Complete(table[i]) && Finish(table[i]) == calls[i]
    {
      EntryIsCall(deltas, calls, table, i);
    }
    EntriesFinish(calls, table);
  }

  // ----- nothing is made up

  /** A call put together from its deltas: a type and an id that were sent, the names and the arguments joined. */
  ghost predicate MadeOf(deltas: seq<Delta>, p: Partial) {
    && p.name == JoinNames(deltas) && p.arguments == JoinArguments(deltas)
    && (p.kind.Some? ==> exists d :: d in deltas && d.kind == p.kind)
    && (p.kind.Some? ==> forall d | d in deltas :: d.kind.None? || d.kind == p.kind)
    && (p.kind.None? ==> forall d | d in deltas :: d.kind.None?)
    && (p.id != "" ==> exists d :: d in deltas && Text(d.id) != "")
    && |p.id| <= 64
  }

  lemma MadeOfMore(rest: seq<Delta>, last: Delta, p: Partial, q: Partial)
    requires MadeOf(rest, p) && MergePartial(p, last) == Ok(q)
    ensures MadeOf(rest + [last], q)
  {
    var deltas := rest + [last];
    assert deltas[..|deltas| - 1] == rest && last in deltas && forall d | d in rest :: d in deltas;
    if q.id != "" && Text(last.id) == "" {
      assert p.id + "" == p.id;
    }
  }

  lemma {:induction false} FoldIsMadeOf(deltas: seq<Delta>)
    requires Fold(deltas).Ok?
    ensures MadeOf(deltas, Fold(deltas).value)
  {
    if deltas != [] {
      var rest, last := deltas[..|deltas| - 1], deltas[|deltas| - 1];
      FoldIsMadeOf(rest);
      MadeOfMore(rest, last, Fold(rest).value, Fold(deltas).value);
      assert deltas == rest + [last];
    }
  }

  /** Whatever was streamed: the calls that come out were all sent, with a non-empty id, the type `function` and a
      non-empty name; names and arguments are the pieces of that call joined; and no delta belongs to another call. */
  lemma CallsWereSent(deltas: seq<Delta>, table: Calls, calls: seq<ToolCall>)
    requires MergeAll(map[], deltas) == Ok(table) && FinishedAs(table, Ok(calls))
    ensures forall d | d in deltas :: 0 <= d.index < |calls|
    ensures forall i | 0 <= i < |calls| ::
              && calls[i].name == JoinNames(Of(i, deltas)) != "" && calls[i].arguments == JoinArguments(Of(i, deltas))
              && 0 < |calls[i].id| <= 64 && (exists d :: d in Of(i, deltas) && Text(d.id) != "")
              && exists d :: d in Of(i, deltas) && d.kind == Some("function")
  {
    forall d | d in deltas
      ensures 0 <= d.index < |calls|
    {
      OfHasIndex(d.index, deltas, d);
      MergeAllIsPointwise(deltas, table, d.index);
      assert d.index in table.Keys;
    }
    forall i | 0 <= i < |calls|
      ensures calls[i].name == JoinNames(Of(i, deltas)) != "" && calls[i].arguments == JoinArguments(Of(i, deltas))
      ensures 0 < |calls[i].id| <= 64 && (exists d :: d in Of(i, deltas) && Text(d.id) != "")
      ensures exists d :: d in Of(i, deltas) && d.kind == Some("function")
    {
      CallWasSent(deltas, table, calls, i);
    }
  }

  lemma CallWasSent(deltas: seq<Delta>, table: Calls, calls: seq<ToolCall>, i: int)
    requires MergeAll(map[], deltas) == Ok(table) && FinishedAs(table, Ok(calls)) && 0 <= i < |calls|
    ensures calls[i].name == JoinNames(Of(i, deltas)) != "" && calls[i].arguments == JoinArguments(Of(i, deltas))
    ensures 0 < |calls[i].id| <= 64 && exists d :: d in Of(i, deltas) && Text(d.id) != ""
    ensures exists d :: d in Of(i, deltas) && d.kind == Some("function")
  {
    MergeAllIsPointwise(deltas, table, i);
    FoldIsMadeOf(Of(i, deltas));
    assert MadeOf(Of(i, deltas), table[i]);
  }

  // ----- ids sent in pieces

  function JoinIds(ids: seq<string>): string {
    if ids == [] then "" else JoinIds(ids[..|ids| - 1]) + ids[|ids| - 1]
  }

  function MergeIds(ids: seq<string>): Result<string, StreamError> {
    if ids == [] then Ok("")
    else
      match MergeIds(ids[..|ids| - 1])
      case Ok(before) => MergeId(before, Some(ids[|ids| - 1]))
      case Err(e) => Err(e)
  }

  /** A piece that begins with everything sent before it is taken for the whole id sent again. */
  predicate LooksRepeated(ids: seq<string>, k: nat)
    requires k < |ids|
  {
    ids[k] != "" && JoinIds(ids[..k]) != "" && JoinIds(ids[..k]) <= ids[k]
  }

  lemma {:induction false} MergedIdsAreNoLonger(ids: seq<string>)
    ensures MergeIds(ids).Ok? ==> |MergeIds(ids).value| <= MAX_ID_CHARS
    ensures MergeIds(ids).Ok? ==> MergeIds(ids).value == JoinIds(ids) || |MergeIds(ids).value| < |JoinIds(ids)|
  {
    if ids != [] {
      MergedIdsAreNoLonger(ids[..|ids| - 1]);
    }
  }

  lemma LooksRepeatedBefore(ids: seq<string>, k: nat)
    requires k < |ids| - 1
    ensures LooksRepeated(ids[..|ids| - 1], k) <==> LooksRepeated(ids, k)
  {
    assert ids[..|ids| - 1][..k] == ids[..k];
  }

  /** Sending an id in pieces works exactly when it is not too long and no piece looks like the whole id again. */
  lemma {:induction false} PiecesJoinIff(ids: seq<string>)
    ensures MergeIds(ids) == Ok(JoinIds(ids)) <==>
              |JoinIds(ids)| <= 64 && forall k: nat | k < |ids| :: !LooksRepeated(ids, k)
  {
    if ids != [] {
      var n := |ids| - 1;
      PiecesJoinIff(ids[..n]);
      forall k: nat | k < n
        ensures LooksRepeated(ids[..n], k) <==> LooksRepeated(ids, k)
      {
        LooksRepeatedBefore(ids, k);
      }
      LastPieceJoinsIff(ids);
    }
  }

  lemma PieceJoinsIff(joined: string, piece: string)
    requires |joined| <= MAX_ID_CHARS
    ensures MergeId(joined, Some(piece)) == Ok(joined + piece) <==>
              |joined + piece| <= MAX_ID_CHARS && !(piece != "" && joined != "" && joined <= piece)
  {
    assert "" + piece == piece && joined + "" == joined;
  }

  lemma LastPieceJoinsIff(ids: seq<string>)
    requires ids != []
    ensures MergeIds(ids) == Ok(JoinIds(ids)) <==>
              var rest := ids[..|ids| - 1];
              |JoinIds(ids)| <= MAX_ID_CHARS && MergeIds(rest) == Ok(JoinIds(rest)) && !LooksRepeated(ids, |ids| - 1)
  {
    var rest, piece := ids[..|ids| - 1], ids[|ids| - 1];
    MergedIdsAreNoLonger(rest);
    if MergeIds(rest) == Ok(JoinIds(rest)) {
      PieceJoinsIff(JoinIds(rest), piece);
    }
  }

  /** The pieces "a" and "ab" of the id "aab" are taken for "ab". */
  lemma RepeatedPieceIsLost()
    ensures MergeIds(["a", "ab"]) == Ok("ab") && JoinIds(["a", "ab"]) == "aab"
  {
    assert ["a", "ab"][..1] == ["a"] && ["a"][..0] == [];
    assert MergeIds(["a"]) == Ok("a") && JoinIds(["a"]) == "a";
  }
}
