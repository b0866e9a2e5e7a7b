/** The delta payload: the budget is shared among the files, and each file's share among its hunks or between its added
    and its removed text. */
module EvidenceDelta {
  import opened Common
  import opened EvidenceBudget
  import opened Text

  /** `fallback` is the one hunk made from the added and removed text of a file that lists no hunks. */
  datatype DeltaFile = DeltaFile(path: string, hunks: seq<string>, fallback: string, added: string, removed: string,
                                 priority: int)

  datatype Bounded = Bounded(text: string, truncated: bool, originalChars: nat, includedChars: nat)

  function HunksOf(file: DeltaFile): (hunks: seq<string>)
    ensures hunks != []
  {
    if file.hunks == [] then [file.fallback] else file.hunks
  }

  function BoundedText(value: string, maxChars: int): (b: Bounded)
    ensures b.text <= value && |b.text| == b.includedChars && b.originalChars == |value|
    ensures b.truncated <==> b.text != value
    ensures maxChars >= 1 ==> b.includedChars <= maxChars
  {
    var max := Max(1, maxChars);
    Bounded(value[..Min(|value|, max)], |value| > max, |value|, Min(|value|, max))
  }

  function Chars(hunks: seq<string>): nat {
    if hunks == [] then 0 else |hunks[0]| + Chars(hunks[1..])
  }

  /** Hunks are keyed by their index, written in decimal. */
  function HunkKey(index: nat): string {
    Decimal(index)
  }

  function HunkItem(index: nat, hunk: string): Item {
    Item(HunkKey(index), Max(|hunk|, 1), 1)
  }

  function HunkItems(hunks: seq<string>): seq<Item> {
    seq(|hunks|, k requires 0 <= k < |hunks| => HunkItem(k, hunks[k]))
  }

  function FileItem(file: DeltaFile): Item {
    Item(file.path, Max(Chars(HunksOf(file)), 1), file.priority)
  }

  function FileItems(files: seq<DeltaFile>): seq<Item> {
    seq(|files|, f requires 0 <= f < |files| => FileItem(files[f]))
  }

  ghost predicate HunksAlong(hunks: seq<string>, budgets: Budgets, texts: seq<Bounded>) {
    && |texts| == |hunks|
    && forall k | 0 <= k < |hunks| ::
         HunkKey(k) in budgets && texts[k] == BoundedText(hunks[k], budgets[HunkKey(k)])
  }

  /** The hunks of a file are cut along an allocation of the file's budget. */
  ghost predicate HunksBounded(hunks: seq<string>, budget: nat, budgets: Budgets, texts: seq<Bounded>) {
    Allocated(HunkItems(hunks), Max(1, budget), budgets) && HunksAlong(hunks, budgets, texts)
  }

  ghost predicate FilesBounded(files: seq<DeltaFile>, budgets: Budgets, hunkBudgets: seq<Budgets>,
                               payload: seq<seq<Bounded>>) {
    && |payload| == |hunkBudgets| == |files|
    && forall f | 0 <= f < |files| ::
         files[f].path in budgets && HunksBounded(HunksOf(files[f]), budgets[files[f].path], hunkBudgets[f], payload[f])
  }

  ghost predicate PayloadOf(files: seq<DeltaFile>, maxChars: nat, budgets: Budgets, hunkBudgets: seq<Budgets>,
                            payload: seq<seq<Bounded>>) {
    Allocated(FileItems(files), maxChars, budgets) && FilesBounded(files, budgets, hunkBudgets, payload)
  }

  // ----- the program

  lemma HunkItemsAreDistinct(hunks: seq<string>)
    ensures DistinctKeys(HunkItems(hunks))
  {
    var items := HunkItems(hunks);
    forall i, j | 0 <= i < j < |items|
      ensures items[i].key != items[j].key
    {
      if items[i].key == items[j].key {
        DecimalIsInjective(i, j);
      }
    }
  }

  ghost predicate KeysFit(hunks: seq<string>, budgets: Budgets) {
    forall k: nat | k < |hunks| :: HunkKey(k) in budgets && 1 <= budgets[HunkKey(k)] <= Max(|hunks[k]|, 1)
  }

  lemma AllocationFits(hunks: seq<string>, maxChars: nat, budgets: Budgets)
    requires Allocated(HunkItems(hunks), maxChars, budgets)
    ensures KeysFit(hunks, budgets)
  {
    HunkItemsAreDistinct(hunks);
    forall k: nat | k < |hunks|
      ensures HunkKey(k) in budgets && 1 <= budgets[HunkKey(k)] <= Max(|hunks[k]|, 1)
    {
      assert HunkItems(hunks)[k] == HunkItem(k, hunks[k]);
      BudgetsAreBounded(HunkItems(hunks), maxChars, budgets, HunkItem(k, hunks[k]));
    }
  }

  method CutHunks(hunks: seq<string>, budgets: Budgets) returns (texts: seq<Bounded>)
    requires KeysFit(hunks, budgets)
    ensures HunksAlong(hunks, budgets, texts)
  {
    texts := [];
    for k := 0 to |hunks|
      invariant |texts| == k
      invariant forall p: nat | p < k :: HunkKey(p) in budgets && texts[p] == BoundedText(hunks[p], budgets[HunkKey(p)])
    {
      texts := texts + [BoundedText(hunks[k], budgets[HunkKey(k)])];
    }
  }

  method BoundHunks(hunks: seq<string>, budget: nat) returns (texts: seq<Bounded>, ghost budgets: Budgets)
    ensures HunksBounded(hunks, budget, budgets, texts)
  {
    HunkItemsAreDistinct(hunks);
    var shares := AllocateBudgets(HunkItems(hunks), budget);
    budgets := shares;
    AllocationFits(hunks, Max(1, budget), budgets);
    texts := CutHunks(hunks, shares);
  }

  lemma FilesAreBudgeted(files: seq<DeltaFile>, maxChars: nat, budgets: Budgets)
    requires Allocated(FileItems(files), maxChars, budgets)
    ensures forall f | 0 <= f < |files| :: files[f].path in budgets
  {
    forall f | 0 <= f < |files|
      ensures files[f].path in budgets
    {
      assert FileItems(files)[f] == FileItem(files[f]);
      BudgetsAreBounded(FileItems(files), maxChars, budgets, FileItem(files[f]));
    }
  }

  method BoundFiles(files: seq<DeltaFile>, budgets: Budgets)
    returns (payload: seq<seq<Bounded>>, ghost hunkBudgets: seq<Budgets>)
    requires forall f | 0 <= f < |files| :: files[f].path in budgets
    ensures FilesBounded(files, budgets, hunkBudgets, payload)
  {
    payload, hunkBudgets := [], [];
    for f := 0 to |files|
      invariant |payload| == |hunkBudgets| == f
      invariant forall g | 0 <= g < f ::
                  HunksBounded(HunksOf(files[g]), budgets[files[g].path], hunkBudgets[g], payload[g])
    {
      var texts;
      ghost var shares;
      texts, shares := BoundHunks(HunksOf(files[f]), budgets[files[f].path]);
      payload, hunkBudgets := payload + [texts], hunkBudgets + [shares];
    }
  }

  method DeltaPayload(files: seq<DeltaFile>, maxChars: int) returns (payload: seq<seq<Bounded>>)
    requires DistinctKeys(FileItems(files))
    ensures exists budgets, hunkBudgets :: PayloadOf(files, Max(1, maxChars), budgets, hunkBudgets, payload)
  {
    var budgets := AllocateBudgets(FileItems(files), maxChars);
    FilesAreBudgeted(files, Max(1, maxChars), budgets);
    ghost var hunkBudgets;
    payload, hunkBudgets := BoundFiles(files, budgets);
    assert PayloadOf(files, Max(1, maxChars), budgets, hunkBudgets, payload);
  }

  // ----- the budgets of the files

  /** The characters of the hunks of all files, each file times its priority. */
  function WeightedChars(files: seq<DeltaFile>): nat {
    if files == [] then 0
    else Max(Chars(HunksOf(files[0])), 1) * Max(files[0].priority, 1) + WeightedChars(files[1..])
  }

  lemma {:induction false} FilesWeigh(files: seq<DeltaFile>)
    ensures Sum(FileItems(files), (k: Item) => Max(k.size, 1) * Max(k.priority, 1)) == WeightedChars(files)
  {
    if files != [] {
      assert FileItems(files)[1..] == FileItems(files[1..]);
      FilesWeigh(files[1..]);
    }
  }

  /** A file is given its hunks' characters, or at least its share of the budget by size and priority. */
  lemma FilesShareByPriority(files: seq<DeltaFile>, maxChars: nat, budgets: Budgets, f: nat)
    requires Allocated(FileItems(files), maxChars, budgets) && f < |files|
    ensures WeightedChars(files) > 0 && files[f].path in budgets
    ensures var size := Max(Chars(HunksOf(files[f])), 1);
            Min(size, Max(1, maxChars * (size * Max(files[f].priority, 1)) / WeightedChars(files)))
            <= budgets[files[f].path] <= size
  {
    assert FileItems(files)[f] == FileItem(files[f]);
    AllocationIsFair(FileItems(files), maxChars, budgets, FileItem(files[f]), FileItem(files[f]));
    FilesWeigh(files);
  }

  // ----- when nothing is truncated

  ghost predicate Whole(texts: seq<Bounded>) {
    forall k | 0 <= k < |texts| :: !texts[k].truncated
  }

  predicate NoEmptyHunk(hunks: seq<string>) {
    forall k | 0 <= k < |hunks| :: hunks[k] != ""
  }

  predicate TinyHunks(hunks: seq<string>) {
    forall k | 0 <= k < |hunks| :: |hunks[k]| <= 1
  }

  lemma {:induction false} SizesFrom(hunks: seq<string>, n: nat)
    requires n <= |hunks|
    ensures var rest := HunkItems(hunks)[n..];
            && Sum(rest, Size) >= Chars(hunks[n..]) && Sum(rest, Weight) == Sum(rest, Size)
            && (Sum(rest, Size) == Chars(hunks[n..]) <==> forall k | n <= k < |hunks| :: hunks[k] != "")
    decreases |hunks| - n
  {
    if n < |hunks| {
      SizesFrom(hunks, n + 1);
      assert HunkItems(hunks)[n..][1..] == HunkItems(hunks)[n + 1..] && hunks[n..][1..] == hunks[n + 1..];
    }
  }

  lemma SizesCoverChars(hunks: seq<string>)
    ensures Sum(HunkItems(hunks), Size) >= Chars(hunks)
    ensures Sum(HunkItems(hunks), Size) == Chars(hunks) <==> NoEmptyHunk(hunks)
    ensures Sum(HunkItems(hunks), Weight) == Sum(HunkItems(hunks), Size)
  {
    SizesFrom(hunks, 0);
    assert HunkItems(hunks)[0..] == HunkItems(hunks) && hunks[0..] == hunks;
  }

  lemma {:induction false} CharsCoverHunk(hunks: seq<string>, k: nat)
    requires k < |hunks|
    ensures |hunks[k]| <= Chars(hunks)
  {
    if k > 0 {
      CharsCoverHunk(hunks[1..], k - 1);
    }
  }

  ghost predicate AllGiven(items: seq<Item>, budgets: Budgets) {
    forall i | i in items :: i.key in budgets && budgets[i.key] == i.size
  }

  lemma WholeIffAllGiven(hunks: seq<string>, budgets: Budgets, texts: seq<Bounded>)
    requires KeysFit(hunks, budgets) && HunksAlong(hunks, budgets, texts)
    ensures Whole(texts) <==> AllGiven(HunkItems(hunks), budgets)
  {
    var items := HunkItems(hunks);
    forall k: nat | k < |hunks|
      ensures items[k].key == HunkKey(k) && (!texts[k].truncated <==> budgets[HunkKey(k)] == items[k].size)
    {
      assert items[k] == HunkItem(k, hunks[k]);
    }
    if Whole(texts) {
      forall i | i in items
        ensures i.key in budgets && budgets[i.key] == i.size
      {
        var k: nat :| k < |items| && items[k] == i;
      }
    }
    if AllGiven(items, budgets) {
      forall k: nat | k < |texts|
        ensures !texts[k].truncated
      {
        assert items[k] in items;
      }
    }
  }

  lemma MultiplyOrder(a: nat, b: nat, c: nat)
    requires a <= b
    ensures a * c <= b * c
  {
  }

  lemma FloorBelow(x: nat, size: nat, total: nat)
    requires total > 0 && x < size * total
    ensures x / total < size
  {
    var q := x / total;
    assert q * total <= x;
    if size <= q {
      MultiplyOrder(size, q, total);
    }
  }

  lemma StrictProduct(a: nat, b: nat, c: nat)
    requires a < b && c > 0
    ensures a * c < c * b
  {
    assert b * c == (b - a) * c + a * c;
  }

  lemma ShareIsBelow(total: nat, maxChars: nat, i: Item)
    requires maxChars < total && Weight(i) == i.size > 1
    ensures Share(total, maxChars)(i) < i.size
  {
    StrictProduct(maxChars, total, i.size);
    FloorBelow(maxChars * i.size, i.size, total);
  }

  lemma SomeShareIsBelow(items: seq<Item>, total: nat, maxChars: nat, i: Item)
    requires i in items && maxChars < total && Weight(i) == i.size > 1
    ensures Sum(items, Share(total, maxChars)) < Sum(items, Size)
  {
    SharesFit(items, total, maxChars);
    SumIsMonotone(items, Share(total, maxChars), Size);
    ShareIsBelow(total, maxChars, i);
  }

  /** A budget of all characters of the hunks is not enough if an empty hunk takes one of them. */
  lemma EmptyHunkCosts(hunks: seq<string>, h: nat)
    requires !NoEmptyHunk(hunks) && h < |hunks| && |hunks[h]| > 1
    ensures Sum(HunkItems(hunks), Weight) > 0
    ensures Sum(HunkItems(hunks), Size) > Chars(hunks)
    ensures Sum(HunkItems(hunks), Size) >
              Sum(HunkItems(hunks), Share(Sum(HunkItems(hunks), Weight), Chars(hunks)))
  {
    var items := HunkItems(hunks);
    WeightIsPositive(items);
    SizesCoverChars(hunks);
    HunkItemsAreDistinct(hunks);
    assert items[h] == HunkItem(h, hunks[h]);
    SomeShareIsBelow(items, Sum(items, Weight), Chars(hunks), items[h]);
  }

  lemma AllGivenIff(hunks: seq<string>, budget: nat, budgets: Budgets)
    requires hunks != [] && budget == Max(Chars(hunks), 1) && Allocated(HunkItems(hunks), budget, budgets)
    ensures AllGiven(HunkItems(hunks), budgets) <==> NoEmptyHunk(hunks) || TinyHunks(hunks)
  {
    HunkItemsAreDistinct(hunks);
    EverythingFitsIff(HunkItems(hunks), budget, budgets);
    if NoEmptyHunk(hunks) {
      SizesCoverChars(hunks);
    } else if TinyHunks(hunks) {
      AllocationFits(hunks, budget, budgets);
      TinyHunksAreGiven(hunks, budgets);
    } else {
      var h: nat :| h < |hunks| && |hunks[h]| > 1;
      CharsCoverHunk(hunks, h);
      EmptyHunkCosts(hunks, h);
    }
  }

  lemma TinyHunksAreGiven(hunks: seq<string>, budgets: Budgets)
    requires TinyHunks(hunks) && KeysFit(hunks, budgets)
    ensures AllGiven(HunkItems(hunks), budgets)
  {
    var items := HunkItems(hunks);
    forall i | i in items
      ensures i.key in budgets && budgets[i.key] == i.size
    {
      var k: nat :| k < |items| && items[k] == i;
      assert i == HunkItem(k, hunks[k]);
    }
  }

  /** A file that gets all the characters it has: nothing is cut exactly when no hunk is empty or all are tiny. An empty
      hunk is still given one character, which another hunk then lacks. */
  lemma FileIsWholeIff(hunks: seq<string>, budgets: Budgets, texts: seq<Bounded>)
    requires hunks != [] && HunksBounded(hunks, Max(Chars(hunks), 1), budgets, texts)
    ensures Whole(texts) <==> NoEmptyHunk(hunks) || TinyHunks(hunks)
  {
    var budget: nat := Max(Chars(hunks), 1);
    AllocationFits(hunks, budget, budgets);
    WholeIffAllGiven(hunks, budgets, texts);
    AllGivenIff(hunks, budget, budgets);
  }

  lemma FilesAreGiven(files: seq<DeltaFile>, maxChars: nat, budgets: Budgets)
    requires Allocated(FileItems(files), maxChars, budgets) && Sum(FileItems(files), Size) <= maxChars
    ensures forall f | 0 <= f < |files| :: files[f].path in budgets && budgets[files[f].path] == FileItem(files[f]).size
  {
    if files != [] {
      EverythingFitsIff(FileItems(files), maxChars, budgets);
      forall f | 0 <= f < |files|
        ensures files[f].path in budgets && budgets[files[f].path] == FileItem(files[f]).size
      {
        assert FileItems(files)[f] == FileItem(files[f]);
      }
    }
  }

  /** When all files fit, the whole payload is untruncated exactly when that holds of every file. */
  lemma PayloadIsWholeIff(files: seq<DeltaFile>, maxChars: nat, budgets: Budgets, hunkBudgets: seq<Budgets>,
                          payload: seq<seq<Bounded>>)
    requires PayloadOf(files, maxChars, budgets, hunkBudgets, payload) && Sum(FileItems(files), Size) <= maxChars
    ensures (forall f | 0 <= f < |payload| :: Whole(payload[f]))
       <==> forall f | 0 <= f < |files| :: NoEmptyHunk(HunksOf(files[f])) || TinyHunks(HunksOf(files[f]))
  {
    FilesAreGiven(files, maxChars, budgets);
    FilesAreWholeIff(files, budgets, hunkBudgets, payload);
  }

  lemma FilesAreWholeIff(files: seq<DeltaFile>, budgets: Budgets, hunkBudgets: seq<Budgets>, payload: seq<seq<Bounded>>)
    requires FilesBounded(files, budgets, hunkBudgets, payload)
    requires forall f | 0 <= f < |files| ::
               files[f].path in budgets && budgets[files[f].path] == FileItem(files[f]).size
    ensures (forall f | 0 <= f < |payload| :: Whole(payload[f]))
       <==> forall f | 0 <= f < |files| :: NoEmptyHunk(HunksOf(files[f])) || TinyHunks(HunksOf(files[f]))
  {
    forall f | 0 <= f < |files|
      ensures Whole(payload[f]) <==> NoEmptyHunk(HunksOf(files[f])) || TinyHunks(HunksOf(files[f]))
    {
      FileIsWholeIff(HunksOf(files[f]), hunkBudgets[f], payload[f]);
    }
  }

  lemma ListedOrAlone(file: DeltaFile)
    requires NoEmptyHunk(file.hunks)
    ensures NoEmptyHunk(HunksOf(file)) || TinyHunks(HunksOf(file))
  {
  }

  /** No delta that is built from two texts lists an empty hunk. Then a payload whose files fit is whole. */
  lemma PayloadWithoutEmptyHunksIsWhole(files: seq<DeltaFile>, maxChars: nat, budgets: Budgets,
                                        hunkBudgets: seq<Budgets>, payload: seq<seq<Bounded>>)
    requires PayloadOf(files, maxChars, budgets, hunkBudgets, payload) && Sum(FileItems(files), Size) <= maxChars
    requires forall f | 0 <= f < |files| :: NoEmptyHunk(files[f].hunks)
    ensures forall f | 0 <= f < |payload| :: Whole(payload[f])
  {
    forall f | 0 <= f < |files|
      ensures NoEmptyHunk(HunksOf(files[f])) || TinyHunks(HunksOf(files[f]))
    {
      ListedOrAlone(files[f]);
    }
    PayloadIsWholeIff(files, maxChars, budgets, hunkBudgets, payload);
  }

  /** A hand-made delta: four characters and an empty hunk in a file of four characters, one of which is cut off. */
  lemma EmptyHunkTruncates(budgets: Budgets, texts: seq<Bounded>)
    requires HunksBounded(["", "+a;\n"], 4, budgets, texts)
    ensures !Whole(texts)
  {
    var hunks := ["", "+a;\n"];
    assert hunks[1..] == ["+a;\n"] && hunks[1..][1..] == [];
    assert Chars(hunks) == 4;
    assert hunks[0] == "" && |hunks[1]| == 4;
    FileIsWholeIff(hunks, budgets, texts);
  }

  // ----- the payload without hunks

  /** The budgets of the added and of the removed text: half and half if there are both. */
  function TextBudgets(file: DeltaFile, budget: nat): (nat, nat) {
    if file.added != "" && file.removed != "" then
      var half: nat := Max(1, budget / 2);
      (half, Max(1, budget - half))
    else if file.added != "" then (budget, 1)
    else (1, budget)
  }

  datatype Texts = Texts(added: Bounded, removed: Bounded)

  ghost predicate TextsBounded(files: seq<DeltaFile>, budgets: Budgets, payload: seq<Texts>) {
    && |payload| == |files|
    && forall f | 0 <= f < |files| ::
         && files[f].path in budgets
         && var (added, removed) := TextBudgets(files[f], budgets[files[f].path]);
            payload[f] == Texts(BoundedText(files[f].added, added), BoundedText(files[f].removed, removed))
  }

  /** The texts of all files are cut along an allocation of the budget to the files. */
  ghost predicate TextPayloadOf(files: seq<DeltaFile>, maxChars: nat, budgets: Budgets, payload: seq<Texts>) {
    Allocated(FileItems(files), maxChars, budgets) && TextsBounded(files, budgets, payload)
  }

  method BoundTexts(files: seq<DeltaFile>, budgets: Budgets) returns (payload: seq<Texts>)
    requires forall f | 0 <= f < |files| :: files[f].path in budgets
    ensures TextsBounded(files, budgets, payload)
  {
    payload := [];
    for f := 0 to |files|
      invariant |payload| == f
      invariant forall g | 0 <= g < f ::
                  var (added, removed) := TextBudgets(files[g], budgets[files[g].path]);
                  payload[g] == Texts(BoundedText(files[g].added, added), BoundedText(files[g].removed, removed))
    {
      var budget := budgets[files[f].path];
      var added, removed: int := 1, budget;
      if files[f].added != "" && files[f].removed != "" {
        added := Max(1, budget / 2);
        removed := Max(1, budget - added);
      } else if files[f].added != "" {
        added, removed := budget, 1;
      }
      payload := payload + [Texts(BoundedText(files[f].added, added), BoundedText(files[f].removed, removed))];
    }
  }

  method DeltaTextPayload(files: seq<DeltaFile>, maxChars: int) returns (payload: seq<Texts>)
    requires DistinctKeys(FileItems(files))
    ensures exists budgets :: TextPayloadOf(files, Max(1, maxChars), budgets, payload)
  {
    var budgets := AllocateBudgets(FileItems(files), maxChars);
    FilesAreBudgeted(files, Max(1, maxChars), budgets);
    payload := BoundTexts(files, budgets);
    assert TextPayloadOf(files, Max(1, maxChars), budgets, payload);
  }

  predicate TextsWhole(t: Texts) {
    !t.added.truncated && !t.removed.truncated
  }

  /** Both texts fit into what the characters of the hunks leave them: half of them each, or all for the only text. */
  predicate TextsFit(file: DeltaFile) {
    var size := FileItem(file).size;
    if file.added == "" || file.removed == "" then |file.added| + |file.removed| <= size
    else |file.added| <= Max(1, size / 2) && |file.removed| <= Max(1, size - size / 2)
  }

  lemma TextsAreWholeIff(file: DeltaFile, texts: Texts)
    requires var (added, removed) := TextBudgets(file, FileItem(file).size);
             texts == Texts(BoundedText(file.added, added), BoundedText(file.removed, removed))
    ensures TextsWhole(texts) <==> TextsFit(file)
  {
  }

  /** When all files fit, no text is cut exactly when the texts of every file fit into their halves. */
  lemma TextPayloadIsWholeIff(files: seq<DeltaFile>, maxChars: nat, budgets: Budgets, payload: seq<Texts>)
    requires TextPayloadOf(files, maxChars, budgets, payload) && Sum(FileItems(files), Size) <= maxChars
    ensures (forall f | 0 <= f < |payload| :: TextsWhole(payload[f])) <==>
            forall f | 0 <= f < |files| :: TextsFit(files[f])
  {
    FilesAreGiven(files, maxChars, budgets);
    forall f | 0 <= f < |files|
      ensures TextsWhole(payload[f]) <==> TextsFit(files[f])
    {
      TextsAreWholeIff(files[f], payload[f]);
    }
  }

  /** No budget is enough for a file that adds and removes text, and adds more than half of what its hunks hold or
      removes more than the other half: the texts are cut although everything would fit. */
  lemma UnevenTextsAreAlwaysCut(files: seq<DeltaFile>, maxChars: nat, budgets: Budgets, payload: seq<Texts>, f: nat)
    requires TextPayloadOf(files, maxChars, budgets, payload) && f < |files|
    requires files[f].added != "" && files[f].removed != "" && !TextsFit(files[f])
    ensures !TextsWhole(payload[f])
  {
    assert FileItems(files)[f] == FileItem(files[f]);
    BudgetsAreBounded(FileItems(files), maxChars, budgets, FileItem(files[f]));
  }

  /** A line that replaces a shorter line is cut under every budget. */
  lemma LongerLineIsCut(maxChars: nat, budgets: Budgets, payload: seq<Texts>)
    requires var files := [DeltaFile("a.c", ["-b\n+aaaa\n"], "", "aaaa\n", "b\n", 0)];
             TextPayloadOf(files, maxChars, budgets, payload)
    ensures !TextsWhole(payload[0])
  {
    var file := DeltaFile("a.c", ["-b\n+aaaa\n"], "", "aaaa\n", "b\n", 0);
    assert HunksOf(file)[1..] == [] && Chars(HunksOf(file)) == 9;
    UnevenTextsAreAlwaysCut([file], maxChars, budgets, payload, 0);
  }
}
