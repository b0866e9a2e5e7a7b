/** Sharing a character budget: a proportional first share, then one character at a time in rounds. */
module EvidenceBudget {
  import opened Common
  import opened Text

  datatype Item = Item(key: string, size: nat, priority: int)

  type Budgets = map<string, nat>

  ghost predicate DistinctKeys(items: seq<Item>) {
    forall i, j | 0 <= i < j < |items| :: items[i].key != items[j].key
  }

  function KeysOf(items: seq<Item>): set<string> {
    set i | i in items :: i.key
  }

  function Size(i: Item): nat {
    i.size
  }

  function Weight(i: Item): nat {
    Max(i.size, 1) * Max(i.priority, 1)
  }

  function Sum(items: seq<Item>, f: Item -> nat): nat {
    if items == [] then 0 else f(items[0]) + Sum(items[1..], f)
  }

  /** The first share of an item: in proportion to its weight, at least one character, at most its size. */
  function Share(total: nat, maxChars: nat): Item -> nat
    requires total > 0
  {
    (i: Item) => Min(i.size, Max(1, maxChars * Weight(i) / total))
  }

  function BudgetOf(budgets: Budgets): Item -> nat {
    (i: Item) => if i.key in budgets then budgets[i.key] else 0
  }

  // ----- sums

  lemma {:induction false} SumAppend(a: seq<Item>, b: seq<Item>, f: Item -> nat)
    ensures Sum(a + b, f) == Sum(a, f) + Sum(b, f)
  {
    if a == [] {
      assert a + b == b;
    } else {
      assert (a + b)[1..] == a[1..] + b;
      SumAppend(a[1..], b, f);
    }
  }

  lemma SameMultisetSameElements(a: seq<Item>, b: seq<Item>)
    requires multiset(a) == multiset(b)
    ensures |a| == |b| && forall i :: i in a <==> i in b
  {
    assert |multiset(a)| == |a| && |multiset(b)| == |b|;
    assert forall i :: i in a <==> i in multiset(a);
    assert forall i :: i in b <==> i in multiset(b);
  }

  function Without(s: seq<Item>, j: nat): seq<Item>
    requires j < |s|
  {
    s[..j] + s[j + 1..]
  }

  lemma SumTakesOut(s: seq<Item>, j: nat, f: Item -> nat)
    requires j < |s|
    ensures Sum(s, f) == f(s[j]) + Sum(Without(s, j), f)
  {
    assert s == s[..j] + ([s[j]] + s[j + 1..]);
    SumAppend(s[..j], [s[j]] + s[j + 1..], f);
    SumAppend([s[j]], s[j + 1..], f);
    SumAppend(s[..j], s[j + 1..], f);
  }

  lemma MultisetTakesOut(s: seq<Item>, j: nat)
    requires j < |s|
    ensures multiset(Without(s, j)) == multiset(s) - multiset{s[j]}
  {
    assert s == s[..j] + ([s[j]] + s[j + 1..]);
  }

  lemma TakeSame(a: seq<Item>, b: seq<Item>) returns (j: nat)
    requires multiset(a) == multiset(b) && a != []
    ensures j < |b| && b[j] == a[0] && multiset(Without(a, 0)) == multiset(Without(b, j))
  {
    SameMultisetSameElements(a, b);
    assert a[0] in b;
    j :| 0 <= j < |b| && b[j] == a[0];
    MultisetTakesOut(a, 0);
    MultisetTakesOut(b, j);
  }

  lemma {:induction false} SumIgnoresOrder(a: seq<Item>, b: seq<Item>, f: Item -> nat)
    requires multiset(a) == multiset(b)
    ensures Sum(a, f) == Sum(b, f)
    decreases |a|
  {
    if a == [] {
      assert |multiset(b)| == |b|;
    } else {
      var j := TakeSame(a, b);
      SumTakesOut(a, 0, f);
      SumTakesOut(b, j, f);
      SumIgnoresOrder(Without(a, 0), Without(b, j), f);
    }
  }

  lemma {:induction false} SumIsMonotone(items: seq<Item>, f: Item -> nat, g: Item -> nat)
    requires forall i | i in items :: f(i) <= g(i)
    ensures Sum(items, f) <= Sum(items, g)
    ensures Sum(items, f) == Sum(items, g) ==> forall i | i in items :: f(i) == g(i)
  {
    if items != [] {
      SumIsMonotone(items[1..], f, g);
      assert items == [items[0]] + items[1..];
    }
  }

  lemma SameValuesSameSum(items: seq<Item>, f: Item -> nat, g: Item -> nat)
    requires forall i | i in items :: f(i) == g(i)
    ensures Sum(items, f) == Sum(items, g)
  {
    SumIsMonotone(items, f, g);
    SumIsMonotone(items, g, f);
  }

  lemma WeightIsPositive(items: seq<Item>)
    requires items != []
    ensures Sum(items, Weight) > 0
  {
    var i := items[0];
    assert Max(i.size, 1) * Max(i.priority, 1) >= 1;
  }

  lemma {:induction false} SumGrant(items: seq<Item>, budgets: Budgets, q: nat)
    requires DistinctKeys(items) && q < |items| && items[q].key in budgets
    ensures var key := items[q].key;
            Sum(items, BudgetOf(budgets[key := budgets[key] + 1])) == Sum(items, BudgetOf(budgets)) + 1
  {
    var key := items[q].key;
    var more := budgets[key := budgets[key] + 1];
    var rest := items[1..];
    if q == 0 {
      forall i | i in rest
        ensures BudgetOf(budgets)(i) == BudgetOf(more)(i)
      {
        var k :| 0 <= k < |rest| && rest[k] == i;
        assert i == items[k + 1];
      }
      SameValuesSameSum(rest, BudgetOf(budgets), BudgetOf(more));
    } else {
      SumGrant(rest, budgets, q - 1);
    }
  }

  // ----- the order of the rounds

  predicate Sooner(a: Item, b: Item) {
    a.priority > b.priority
    || (a.priority == b.priority && (a.size > b.size || (a.size == b.size && TextLess(a.key, b.key))))
  }

  lemma SoonerIsOrder(a: Item, b: Item, c: Item)
    ensures Sooner(a, b) ==> !Sooner(b, a)
    ensures a.key != b.key ==> Sooner(a, b) || Sooner(b, a)
    ensures Sooner(a, b) && Sooner(b, c) ==> Sooner(a, c)
  {
    TextOrder(a.key, b.key, c.key);
  }

  lemma InsertionKeepsOrder(ordered: seq<Item>, i: Item, k: nat)
    requires StrictlySorted(ordered, Sooner) && k <= |ordered|
    requires forall p | 0 <= p < |ordered| :: ordered[p].key != i.key
    requires k < |ordered| ==> Sooner(i, ordered[k])
    requires k > 0 ==> !Sooner(i, ordered[k - 1])
    ensures StrictlySorted(ordered[..k] + [i] + ordered[k..], Sooner)
  {
    var longer := ordered[..k] + [i] + ordered[k..];
    assert forall p | 0 <= p < |longer| ::
        longer[p] == if p < k then ordered[p] else if p == k then i else ordered[p - 1];
    forall p | 0 <= p < |ordered|
      ensures if p < k then Sooner(ordered[p], i) else Sooner(i, ordered[p])
    {
      if p < k {
        SoonerIsOrder(ordered[k - 1], i, i);
        SoonerIsOrder(ordered[p], ordered[k - 1], i);
      } else {
        SoonerIsOrder(i, ordered[k], ordered[p]);
      }
    }
  }

  method InsertItem(ordered: seq<Item>, i: Item) returns (longer: seq<Item>)
    requires StrictlySorted(ordered, Sooner) && forall p | 0 <= p < |ordered| :: ordered[p].key != i.key
    ensures StrictlySorted(longer, Sooner) && multiset(longer) == multiset(ordered) + multiset{i}
  {
    var k := |ordered|;
    while k > 0 && Sooner(i, ordered[k - 1])
      invariant 0 <= k <= |ordered| && (k < |ordered| ==> Sooner(i, ordered[k]))
    {
      k := k - 1;
    }
    longer := ordered[..k] + [i] + ordered[k..];
    InsertionKeepsOrder(ordered, i, k);
    assert ordered == ordered[..k] + ordered[k..];
  }

  method SortItems(items: seq<Item>) returns (ordered: seq<Item>)
    requires DistinctKeys(items)
    ensures StrictlySorted(ordered, Sooner) && multiset(ordered) == multiset(items)
  {
    ordered := [];
    for k := 0 to |items|
      invariant StrictlySorted(ordered, Sooner) && multiset(ordered) == multiset(items[..k])
    {
      SameMultisetSameElements(ordered, items[..k]);
      forall p | 0 <= p < |ordered|
        ensures ordered[p].key != items[k].key
      {
        assert ordered[p] in items[..k];
      }
      ordered := InsertItem(ordered, items[k]);
      assert items[..k + 1] == items[..k] + [items[k]];
    }
    assert items[..|items|] == items;
  }

  lemma OrderedKeysAreDistinct(items: seq<Item>, ordered: seq<Item>)
    requires DistinctKeys(items) && StrictlySorted(ordered, Sooner) && multiset(ordered) == multiset(items)
    ensures DistinctKeys(ordered)
  {
    SameMultisetSameElements(ordered, items);
    forall p, q | 0 <= p < q < |ordered|
      ensures ordered[p].key != ordered[q].key
    {
      SoonerIsOrder(ordered[p], ordered[q], ordered[q]);
      assert ordered[p] in items && ordered[q] in items;
    }
  }

  // ----- filling up in rounds

  /** Every first share is within the size, and nothing only for an item that wants nothing. */
  ghost predicate BaseFits(items: seq<Item>, base: Item -> nat) {
    forall i | i in items :: Min(1, i.size) <= base(i) <= i.size
  }

  /** After `level` whole rounds and the first `next` items of another one. */
  ghost predicate Filled(ordered: seq<Item>, base: Item -> nat, budgets: Budgets, level: nat, next: nat) {
    forall q | 0 <= q < |ordered| ::
      && ordered[q].key in budgets
      && budgets[ordered[q].key] == Min(ordered[q].size, base(ordered[q]) + level + if q < next then 1 else 0)
  }

  ghost predicate Saturated(items: seq<Item>, budgets: Budgets) {
    forall i | i in items :: i.key in budgets && budgets[i.key] >= i.size
  }

  lemma NextIsFilled(ordered: seq<Item>, base: Item -> nat, budgets: Budgets, level: nat, q: nat)
    requires DistinctKeys(ordered) && q < |ordered| && Filled(ordered, base, budgets, level, q)
    ensures var i := ordered[q];
            if budgets[i.key] >= i.size then Filled(ordered, base, budgets, level, q + 1)
            else Filled(ordered, base, budgets[i.key := budgets[i.key] + 1], level, q + 1)
  {
    var i := ordered[q];
    var more := if budgets[i.key] >= i.size then budgets else budgets[i.key := budgets[i.key] + 1];
    forall p | 0 <= p < |ordered|
      ensures ordered[p].key in more
      ensures more[ordered[p].key] == Min(ordered[p].size, base(ordered[p]) + level + if p < q + 1 then 1 else 0)
    {
      assert p < q ==> ordered[p].key != ordered[q].key;
      assert q < p ==> ordered[q].key != ordered[p].key;
    }
  }

  method Round(ordered: seq<Item>, ghost base: Item -> nat, budgets: Budgets, remaining: nat, ghost level: nat)
    returns (more: Budgets, left: nat, progressed: bool, ghost next: nat)
    requires DistinctKeys(ordered) && Filled(ordered, base, budgets, level, 0) && remaining > 0
    ensures next <= |ordered| && Filled(ordered, base, more, level, next) && more.Keys == budgets.Keys
    ensures Sum(ordered, BudgetOf(more)) + left == Sum(ordered, BudgetOf(budgets)) + remaining
    ensures left > 0 ==> next == |ordered|
    ensures if progressed then left < remaining else left == remaining && Saturated(ordered, more)
  {
    more, left, progressed, next := budgets, remaining, false, 0;
    for q := 0 to |ordered|
      invariant next == q && Filled(ordered, base, more, level, next) && more.Keys == budgets.Keys
      invariant Sum(ordered, BudgetOf(more)) + left == Sum(ordered, BudgetOf(budgets)) + remaining
      invariant left > 0
      invariant if progressed then left < remaining
                else left == remaining && forall p | 0 <= p < q :: more[ordered[p].key] >= ordered[p].size
    {
      var i := ordered[q];
      NextIsFilled(ordered, base, more, level, q);
      next := q + 1;
      if more[i.key] < i.size {
        SumGrant(ordered, more, q);
        more := more[i.key := more[i.key] + 1];
        left := left - 1;
        progressed := true;
        if left == 0 {
          break;
        }
      }
    }
  }

  method FillUp(ordered: seq<Item>, ghost base: Item -> nat, budgets: Budgets, remaining: int)
    returns (more: Budgets, ghost level: nat, ghost next: nat)
    requires DistinctKeys(ordered) && Filled(ordered, base, budgets, 0, 0)
    ensures next <= |ordered| && Filled(ordered, base, more, level, next) && more.Keys == budgets.Keys
    ensures remaining <= 0 ==> more == budgets
    ensures remaining > 0 ==>
              var given := Sum(ordered, BudgetOf(more)) - Sum(ordered, BudgetOf(budgets));
              given == remaining || (given < remaining && Saturated(ordered, more))
  {
    more, level, next := budgets, 0, 0;
    var left := remaining;
    while left > 0
      invariant Filled(ordered, base, more, level, next) && next <= |ordered| && more.Keys == budgets.Keys
      invariant remaining <= 0 ==> more == budgets
      invariant remaining > 0 ==>
                  0 <= left && Sum(ordered, BudgetOf(more)) + left == Sum(ordered, BudgetOf(budgets)) + remaining
      invariant left > 0 ==> next == 0
    {
      var progressed;
      more, left, progressed, next := Round(ordered, base, more, left, level);
      if !progressed {
        break;
      }
      if left > 0 {
        level, next := level + 1, 0;
      }
    }
  }

  // ----- the allocation

  method FirstShares(items: seq<Item>, total: nat, maxChars: nat) returns (budgets: Budgets)
    requires DistinctKeys(items) && total > 0
    ensures forall i | i in items :: i.key in budgets && budgets[i.key] == Share(total, maxChars)(i)
    ensures budgets.Keys == KeysOf(items)
  {
    budgets := map[];
    for k := 0 to |items|
      invariant forall p | 0 <= p < k ::
                  items[p].key in budgets && budgets[items[p].key] == Share(total, maxChars)(items[p])
      invariant budgets.Keys == set p | 0 <= p < k :: items[p].key
    {
      var i := items[k];
      budgets := budgets[i.key := Min(i.size, Max(1, maxChars * Weight(i) / total))];
    }
  }

  lemma SharesFit(items: seq<Item>, total: nat, maxChars: nat)
    requires total > 0
    ensures BaseFits(items, Share(total, maxChars))
  {
  }

  /** The water level the allocation reaches: `level` extra characters for everyone, one more for the first `next` in
      the order of the rounds, and never more than the size. */
  ghost predicate WaterFilled(items: seq<Item>, maxChars: nat, budgets: Budgets, ordered: seq<Item>, level: nat,
                              next: nat)
    requires items != [] && Sum(items, Weight) > 0
  {
    && budgets.Keys == KeysOf(items)
    && StrictlySorted(ordered, Sooner) && multiset(ordered) == multiset(items) && next <= |ordered|
    && Filled(ordered, Share(Sum(items, Weight), maxChars), budgets, level, next)
  }

  /** What is handed out: all of `maxChars` or everything that is wanted, unless the first shares already are more. */
  ghost predicate SumIsExact(items: seq<Item>, maxChars: nat, budgets: Budgets)
    requires Sum(items, Weight) > 0
  {
    Sum(items, BudgetOf(budgets))
    == Max(Sum(items, Share(Sum(items, Weight), maxChars)), Min(maxChars, Sum(items, Size)))
  }

  ghost predicate Allocated(items: seq<Item>, maxChars: nat, budgets: Budgets) {
    if items == [] then budgets == map[]
    else
      && Sum(items, Weight) > 0 && SumIsExact(items, maxChars, budgets)
      && exists ordered, level, next :: WaterFilled(items, maxChars, budgets, ordered, level, next)
  }

  method AllocateBudgets(items: seq<Item>, maxChars: int) returns (budgets: Budgets)
    requires DistinctKeys(items)
    ensures Allocated(items, Max(1, maxChars), budgets)
  {
    if items == [] {
      return map[];
    }
    var max := Max(1, maxChars);
    WeightIsPositive(items);
    var total := Sum(items, Weight);
    var first := FirstShares(items, total, max);
    var ordered := SortItems(items);
    SameMultisetSameElements(ordered, items);
    OrderedKeysAreDistinct(items, ordered);
    assert forall q | 0 <= q < |ordered| :: ordered[q] in items;
    SharesFit(items, total, max);
    ghost var level, next;
    budgets, level, next := FillUp(ordered, Share(total, max), first, max - Sum(items, BudgetOf(first)));
    SumIgnoresOrder(ordered, items, BudgetOf(first));
    SumIgnoresOrder(ordered, items, BudgetOf(budgets));
    SameValuesSameSum(items, BudgetOf(first), Share(total, max));
    SumFollows(items, max, first, budgets, ordered, level, next);
    assert WaterFilled(items, max, budgets, ordered, level, next);
  }

  lemma SumFollows(items: seq<Item>, max: nat, first: Budgets, budgets: Budgets, ordered: seq<Item>, level: nat,
                   next: nat)
    requires items != [] && Sum(items, Weight) > 0
    requires WaterFilled(items, max, budgets, ordered, level, next)
    requires Sum(items, BudgetOf(first)) == Sum(items, Share(Sum(items, Weight), max))
    requires Sum(items, BudgetOf(first)) >= max ==> budgets == first
    requires Sum(items, BudgetOf(first)) < max ==>
               Sum(items, BudgetOf(budgets)) == max ||
                 (Sum(items, BudgetOf(budgets)) < max && Saturated(ordered, budgets))
    ensures SumIsExact(items, max, budgets)
  {
    var share := Share(Sum(items, Weight), max);
    SameMultisetSameElements(ordered, items);
    forall i | i in items
      ensures share(i) <= Size(i) && BudgetOf(budgets)(i) <= Size(i)
      ensures Saturated(ordered, budgets) ==> BudgetOf(budgets)(i) == Size(i)
    {
      assert i in ordered;
    }
    SumIsMonotone(items, share, Size);
    SumIsMonotone(items, BudgetOf(budgets), Size);
    if Saturated(ordered, budgets) {
      SameValuesSameSum(items, BudgetOf(budgets), Size);
    }
  }

  // ----- what an allocation means

  /** Everyone gets at least the first share, which is nothing only for an item that wants nothing, and no more than the
      size. */
  lemma BudgetsAreBounded(items: seq<Item>, maxChars: nat, budgets: Budgets, i: Item)
    requires Allocated(items, maxChars, budgets) && i in items
    ensures i.key in budgets && Min(1, i.size) <= Share(Sum(items, Weight), maxChars)(i) <= budgets[i.key] <= i.size
  {
    var ordered, level, next :| WaterFilled(items, maxChars, budgets, ordered, level, next);
    SameMultisetSameElements(ordered, items);
    assert i in ordered;
  }

  lemma SoonerComesFirst(ordered: seq<Item>, p: nat, q: nat)
    requires StrictlySorted(ordered, Sooner) && p < |ordered| && q < |ordered|
    ensures Sooner(ordered[p], ordered[q]) ==> p < q
  {
    SoonerIsOrder(ordered[p], ordered[q], ordered[p]);
    SoonerIsOrder(ordered[q], ordered[p], ordered[q]);
  }

  /** Among items that want more, what is given beyond the first share differs by at most one. */
  lemma LeftoversAreEven(items: seq<Item>, maxChars: nat, budgets: Budgets, i: Item, j: Item)
    requires Allocated(items, maxChars, budgets) && i in items && j in items
    requires i.key in budgets && budgets[i.key] < i.size && j.key in budgets && budgets[j.key] < j.size
    ensures var share := Share(Sum(items, Weight), maxChars);
            var (x, y) := (budgets[i.key] - share(i), budgets[j.key] - share(j));
            -1 <= x - y <= 1 && (Sooner(i, j) ==> x >= y)
  {
    var ordered, level, next :| WaterFilled(items, maxChars, budgets, ordered, level, next);
    SameMultisetSameElements(ordered, items);
    assert i in ordered && j in ordered;
    var p :| 0 <= p < |ordered| && ordered[p] == i;
    var q :| 0 <= q < |ordered| && ordered[q] == j;
    SoonerComesFirst(ordered, p, q);
  }

  lemma WeightsAreProducts(items: seq<Item>, maxChars: nat)
    requires Sum(items, Weight) > 0
    ensures Sum(items, (k: Item) => Max(k.size, 1) * Max(k.priority, 1)) == Sum(items, Weight)
    ensures Sum(items, Share(Sum(items, Weight), maxChars)) ==
            Sum(items, (k: Item) =>
              Min(k.size, Max(1, maxChars * (Max(k.size, 1) * Max(k.priority, 1)) / Sum(items, Weight))))
  {
    SameValuesSameSum(items, (k: Item) => Max(k.size, 1) * Max(k.priority, 1), Weight);
    SameValuesSameSum(items, Share(Sum(items, Weight), maxChars), (k: Item) =>
      Min(k.size, Max(1, maxChars * (Max(k.size, 1) * Max(k.priority, 1)) / Sum(items, Weight))));
  }

  lemma NobodyIsAhead(items: seq<Item>, maxChars: nat, budgets: Budgets, i: Item, j: Item)
    requires Allocated(items, maxChars, budgets) && i in items && j in items
    requires j.key in budgets && budgets[j.key] < j.size && i.key in budgets
    ensures var share := Share(Sum(items, Weight), maxChars);
            var (x, y) := (budgets[i.key] - share(i), budgets[j.key] - share(j));
            x <= y + 1 && (x == y + 1 ==> Sooner(i, j))
  {
    var ordered, level, next :| WaterFilled(items, maxChars, budgets, ordered, level, next);
    SameMultisetSameElements(ordered, items);
    assert i in ordered && j in ordered;
    var p :| 0 <= p < |ordered| && ordered[p] == i;
    var q :| 0 <= q < |ordered| && ordered[q] == j;
  }

  /** An allocation by sizes and priorities alone: everyone gets a first share in proportion to the size times the
      priority, at least one character and at most the size; all of `maxChars` or of the sizes is given out; and nobody
      is more than one extra character ahead of an item that wants more, nor one ahead of an item of higher priority, of
      the same priority and larger, or of both the same and an earlier key. */
  lemma AllocationIsFair(items: seq<Item>, maxChars: nat, budgets: Budgets, i: Item, j: Item)
    requires Allocated(items, maxChars, budgets) && i in items && j in items
    ensures Sum(items, (k: Item) => Max(k.size, 1) * Max(k.priority, 1)) > 0
    ensures i.key in budgets && j.key in budgets
    ensures var total := Sum(items, (k: Item) => Max(k.size, 1) * Max(k.priority, 1));
            var first := (k: Item) => Min(k.size, Max(1, maxChars * (Max(k.size, 1) * Max(k.priority, 1)) / total));
            && Sum(items, BudgetOf(budgets)) == Max(Sum(items, first), Min(maxChars, Sum(items, Size)))
            && first(i) <= budgets[i.key] <= i.size
            && (budgets[j.key] < j.size ==>
                  var ahead := (budgets[i.key] - first(i)) - (budgets[j.key] - first(j));
                  && ahead <= 1
                  && (ahead == 1 ==>
                        || i.priority > j.priority || (i.priority == j.priority && i.size > j.size)
                        || (i.priority == j.priority && i.size == j.size && TextLess(i.key, j.key))))
  {
    WeightsAreProducts(items, maxChars);
    BudgetsAreBounded(items, maxChars, budgets, i);
    BudgetsAreBounded(items, maxChars, budgets, j);
    if budgets[j.key] < j.size {
      NobodyIsAhead(items, maxChars, budgets, i, j);
    }
  }

  lemma SumOfTwo(a: Item, b: Item, f: Item -> nat)
    ensures Sum([a, b], f) == f(a) + f(b)
  {
    var two, one := [a, b], [b];
    assert two[1..] == one && one[1..] == [];
    assert Sum(one, f) == f(b) + Sum(one[1..], f);
  }

  /** Two texts of a hundred characters, one of four times the priority, share fifty characters as forty and ten. */
  lemma PriorityCounts(a: Item, b: Item, budgets: Budgets)
    requires a.size == 100 && a.priority == 4 && b.size == 100 && b.priority == 1 && a.key != b.key
    requires Allocated([a, b], 50, budgets)
    ensures a.key in budgets && budgets[a.key] == 40 && b.key in budgets && budgets[b.key] == 10
  {
    assert Weight(a) == 400 && Weight(b) == 100;
    SumOfTwo(a, b, Weight);
    assert Share(500, 50)(a) == 40 && Share(500, 50)(b) == 10;
    SumOfTwo(a, b, Share(500, 50));
    SumOfTwo(a, b, Size);
    SumOfTwo(a, b, BudgetOf(budgets));
    BudgetsAreBounded([a, b], 50, budgets, a);
    BudgetsAreBounded([a, b], 50, budgets, b);
  }

  /** If everything fits, everyone gets everything, and only then. */
  lemma EverythingFitsIff(items: seq<Item>, maxChars: nat, budgets: Budgets)
    requires Allocated(items, maxChars, budgets) && items != []
    ensures (forall i | i in items :: i.key in budgets && budgets[i.key] == i.size)
       <==> Sum(items, Size) <= Max(maxChars, Sum(items, Share(Sum(items, Weight), maxChars)))
  {
    var share := Share(Sum(items, Weight), maxChars);
    forall i | i in items
      ensures i.key in budgets && share(i) <= Size(i) && BudgetOf(budgets)(i) <= Size(i)
    {
      BudgetsAreBounded(items, maxChars, budgets, i);
    }
    SumIsMonotone(items, share, Size);
    SumIsMonotone(items, BudgetOf(budgets), Size);
    if forall i | i in items :: i.key in budgets && budgets[i.key] == i.size {
      SameValuesSameSum(items, BudgetOf(budgets), Size);
    }
  }

  lemma FilledIsMonotone(ordered: seq<Item>, base: Item -> nat, a: Budgets, b: Budgets, level: nat, next: nat,
                         level': nat, next': nat)
    requires Filled(ordered, base, a, level, next) && Filled(ordered, base, b, level', next')
    requires level < level' || (level == level' && next <= next')
    ensures forall i | i in ordered :: BudgetOf(a)(i) <= BudgetOf(b)(i)
  {
    forall i | i in ordered
      ensures BudgetOf(a)(i) <= BudgetOf(b)(i)
    {
      var q :| 0 <= q < |ordered| && ordered[q] == i;
    }
  }

  lemma SameSumSameBudgets(ordered: seq<Item>, base: Item -> nat, a: Budgets, b: Budgets, level: nat, next: nat,
                           level': nat, next': nat)
    requires Filled(ordered, base, a, level, next) && Filled(ordered, base, b, level', next')
    requires Sum(ordered, BudgetOf(a)) == Sum(ordered, BudgetOf(b))
    ensures forall i | i in ordered :: BudgetOf(a)(i) == BudgetOf(b)(i)
  {
    if level < level' || (level == level' && next <= next') {
      FilledIsMonotone(ordered, base, a, b, level, next, level', next');
      SumIsMonotone(ordered, BudgetOf(a), BudgetOf(b));
    } else {
      FilledIsMonotone(ordered, base, b, a, level', next', level, next);
      SumIsMonotone(ordered, BudgetOf(b), BudgetOf(a));
    }
  }

  lemma SameOrder(items: seq<Item>, items': seq<Item>, a: seq<Item>, b: seq<Item>)
    requires multiset(items) == multiset(items') == multiset(a) == multiset(b)
    requires StrictlySorted(a, Sooner) && StrictlySorted(b, Sooner)
    ensures a == b
  {
    SameMultisetSameElements(a, b);
    forall x, y | x in a && y in a && Sooner(x, y)
      ensures !Sooner(y, x)
    {
      SoonerIsOrder(x, y, x);
    }
    StrictOrderIsUnique(a, b, Sooner);
  }

  lemma SameValuesSameBudgets(items: seq<Item>, a: Budgets, b: Budgets)
    requires a.Keys == b.Keys == KeysOf(items)
    requires forall i | i in items :: BudgetOf(a)(i) == BudgetOf(b)(i)
    ensures a == b
  {
    forall key | key in a
      ensures key in b && a[key] == b[key]
    {
      var i :| i in items && i.key == key;
      assert BudgetOf(a)(i) == BudgetOf(b)(i);
    }
  }

  lemma SameWaterSameBudgets(items: seq<Item>, items': seq<Item>, maxChars: nat, a: Budgets, b: Budgets, x: seq<Item>,
                             y: seq<Item>, level: nat, next: nat, level': nat, next': nat)
    requires items != [] && items' != [] && multiset(items) == multiset(items')
    requires Sum(items, Weight) > 0 && SumIsExact(items, maxChars, a) && WaterFilled(items, maxChars, a, x, level, next)
    requires Sum(items', Weight) > 0 && SumIsExact(items', maxChars, b) &&
             WaterFilled(items', maxChars, b, y, level', next')
    ensures forall i | i in items :: BudgetOf(a)(i) == BudgetOf(b)(i)
  {
    SameOrder(items, items', x, y);
    SumIgnoresOrder(items, items', Weight);
    SumsAgree(items, items', maxChars, a, b, x);
    SameSumSameBudgets(x, Share(Sum(items, Weight), maxChars), a, b, level, next, level', next');
    SameMultisetSameElements(x, items);
  }

  /** The sum and the water level leave no freedom, and the order in which the items come does not matter. */
  lemma AllocationIgnoresOrder(items: seq<Item>, items': seq<Item>, maxChars: nat, a: Budgets, b: Budgets)
    requires multiset(items) == multiset(items')
    requires Allocated(items, maxChars, a) && Allocated(items', maxChars, b)
    ensures a == b
  {
    SameMultisetSameElements(items, items');
    if items != [] {
      var x, level, next :| WaterFilled(items, maxChars, a, x, level, next);
      var y, level', next' :| WaterFilled(items', maxChars, b, y, level', next');
      SameWaterSameBudgets(items, items', maxChars, a, b, x, y, level, next, level', next');
      SameValuesSameBudgets(items, a, b);
    }
  }

  lemma SumsAgree(items: seq<Item>, items': seq<Item>, maxChars: nat, a: Budgets, b: Budgets, ordered: seq<Item>)
    requires multiset(items) == multiset(items') == multiset(ordered) && Sum(items, Weight) == Sum(items', Weight) > 0
    requires SumIsExact(items, maxChars, a) && SumIsExact(items', maxChars, b)
    ensures Sum(ordered, BudgetOf(a)) == Sum(ordered, BudgetOf(b))
  {
    SumIgnoresOrder(items, items', Size);
    SumIgnoresOrder(items, items', Share(Sum(items, Weight), maxChars));
    SumIgnoresOrder(items, ordered, BudgetOf(a));
    SumIgnoresOrder(items', ordered, BudgetOf(b));
  }

  // ----- how far the first shares may overrun the budget

  function Proportion(total: nat, maxChars: nat): Item -> nat
    requires total > 0
  {
    (i: Item) => maxChars * Weight(i) / total
  }

  lemma FloorFits(x: nat, total: nat)
    requires total > 0
    ensures x / total * total <= x
  {
  }

  lemma FloorAdds(q: nat, sum: nat, x: nat, y: nat, total: nat)
    requires q * total <= x && sum * total <= y
    ensures (q + sum) * total <= x + y
  {
    assert (q + sum) * total == q * total + sum * total;
  }

  lemma FactorOut(m: nat, a: nat, b: nat)
    ensures m * (a + b) == m * a + m * b
  {
  }

  lemma {:induction false} ProportionsFit(items: seq<Item>, total: nat, maxChars: nat)
    requires total > 0
    ensures Sum(items, Proportion(total, maxChars)) * total <= maxChars * Sum(items, Weight)
  {
    if items != [] {
      var rest, w := items[1..], Weight(items[0]);
      ProportionsFit(rest, total, maxChars);
      FloorFits(maxChars * w, total);
      FloorAdds(maxChars * w / total, Sum(rest, Proportion(total, maxChars)), maxChars * w,
                maxChars * Sum(rest, Weight), total);
      FactorOut(maxChars, w, Sum(rest, Weight));
    }
  }

  lemma LargerProduct(a: nat, b: nat, c: nat)
    requires a > b && c > 0
    ensures a * c > b * c
  {
  }

  lemma {:induction false} SharesNearProportions(items: seq<Item>, total: nat, maxChars: nat)
    requires total > 0
    ensures Sum(items, Share(total, maxChars)) <= Sum(items, Proportion(total, maxChars)) + |items|
    ensures (forall i | i in items :: maxChars * Weight(i) >= total) ==>
              Sum(items, Share(total, maxChars)) <= Sum(items, Proportion(total, maxChars))
  {
    if items != [] {
      SharesNearProportions(items[1..], total, maxChars);
      var x := maxChars * Weight(items[0]);
      assert items[0] in items;
      assert forall i | i in items[1..] :: i in items;
      assert x >= total ==> x / total >= 1;
    }
  }

  /** An allocation keeps `maxChars` exactly if the first shares do. When they do not, it exceeds `maxChars` by at most
      one character per item, and only if some proportional share is less than one character. */
  lemma OverrunIffSharesOverrun(items: seq<Item>, maxChars: nat, budgets: Budgets)
    requires items != [] && Sum(items, Weight) > 0 && SumIsExact(items, maxChars, budgets)
    ensures Sum(items, BudgetOf(budgets)) <= maxChars <==> Sum(items, Share(Sum(items, Weight), maxChars)) <= maxChars
    ensures Sum(items, BudgetOf(budgets)) <= maxChars + |items|
    ensures (forall i | i in items :: maxChars * Weight(i) >= Sum(items, Weight)) ==>
              Sum(items, BudgetOf(budgets)) <= maxChars
  {
    var total := Sum(items, Weight);
    ProportionsFit(items, total, maxChars);
    if Sum(items, Proportion(total, maxChars)) > maxChars {
      LargerProduct(Sum(items, Proportion(total, maxChars)), maxChars, total);
    }
    SharesNearProportions(items, total, maxChars);
  }

  lemma {:induction false} SumOfOnes(items: seq<Item>)
    requires forall i | i in items :: i.size == 1
    ensures Sum(items, Size) == |items|
  {
    if items != [] {
      assert items[0] in items && forall i | i in items[1..] :: i in items;
      SumOfOnes(items[1..]);
    }
  }

  /** Items of one character each are all given it, however small the budget: three of them get three characters out of
      one. */
  lemma OneCharacterEach(items: seq<Item>, maxChars: nat, budgets: Budgets)
    requires Allocated(items, maxChars, budgets) && forall i | i in items :: i.size == 1
    ensures Sum(items, BudgetOf(budgets)) == |items|
  {
    forall i | i in items
      ensures BudgetOf(budgets)(i) == Size(i)
    {
      BudgetsAreBounded(items, maxChars, budgets, i);
    }
    SameValuesSameSum(items, BudgetOf(budgets), Size);
    SumOfOnes(items);
  }
}
