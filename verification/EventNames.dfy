/** Event files are named by an eight-digit zero-padded number and found again by sorting the names as text. */
module EventNames {
  import opened RunLog
  import opened Text

  // Names are written with eight digits, so they sort by number below 10^8.
  const NAME_WIDTH: nat := 8
  const NAME_LIMIT: nat := 100_000_000

  /** `n` written with exactly `width` digits (its low ones). */
  function Padded(n: nat, width: nat): (s: string)
    ensures |s| == width && AllDigits(s)
  {
    if width == 0 then "" else Padded(n / 10, width - 1) + [Digit(n % 10)]
  }

  function StateName(s: State): string {
    match s
    case Queued => "queued"
    case Preparing => "preparing"
    case Running => "running"
    case Finalizing => "finalizing"
    case Completed => "completed"
    case Failed => "failed"
  }

  function Pow10(n: nat): nat {
    if n == 0 then 1 else 10 * Pow10(n - 1)
  }

  /** `n` with leading zeros up to `width` digits, and with as many digits as it needs beyond that. */
  function ZeroPadded(n: nat, width: nat): string {
    if n < Pow10(width) then Padded(n, width) else Decimal(n)
  }

  function Suffix(e: Event): string {
    "__" + StateName(e.state) + ".json"
  }

  function Name(e: Event, width: nat): string {
    ZeroPadded(e.number, width) + Suffix(e)
  }

  lemma {:induction false} FirstDifferenceDecides(p: string, a: string, b: string)
    requires a != "" && b != "" && a[0] < b[0]
    ensures TextLess(p + a, p + b) && !TextLess(p + b, p + a)
  {
    if p != "" {
      FirstDifferenceDecides(p[1..], a, b);
      assert (p + a)[1..] == p[1..] + a && (p + b)[1..] == p[1..] + b;
    } else {
      assert p + a == a && p + b == b;
    }
  }

  lemma PaddedStep(n: nat, width: nat, rest: string)
    requires width > 0
    ensures Padded(n, width) + rest == Padded(n / 10, width - 1) + ([Digit(n % 10)] + rest)
  {
  }

  lemma {:induction false} PaddedOrder(m: nat, n: nat, width: nat, a: string, b: string)
    requires m < n < Pow10(width)
    ensures TextLess(Padded(m, width) + a, Padded(n, width) + b)
  {
    var x, y := [Digit(m % 10)] + a, [Digit(n % 10)] + b;
    PaddedStep(m, width, a);
    PaddedStep(n, width, b);
    if m / 10 == n / 10 {
      FirstDifferenceDecides(Padded(m / 10, width - 1), x, y);
    } else {
      PaddedOrder(m / 10, n / 10, width - 1, x, y);
    }
  }

  lemma {:induction false} DecimalLength(n: nat, width: nat)
    requires n >= Pow10(width)
    ensures |Decimal(n)| > width
  {
    if width > 0 {
      DecimalLength(n / 10, width - 1);
    }
  }

  /** A number of more than `width` digits sorts before `width` nines followed by an underscore. */
  lemma {:induction false} LongerSortsBeforeNines(digits: string, width: nat, a: string, b: string)
    requires |digits| > width && AllDigits(digits)
    ensures !TextLess(Nines(width) + "_" + b, digits + a)
  {
    var left, right := Nines(width) + "_" + b, digits + a;
    assert right[0] == digits[0] && right[1..] == digits[1..] + a;
    if width > 0 {
      assert left[0] == '9' && left[1..] == Nines(width - 1) + "_" + b;
      LongerSortsBeforeNines(digits[1..], width - 1, a, b);
    }
  }

  function Nines(width: nat): (s: string)
    ensures |s| == width
  {
    if width == 0 then "" else ['9'] + Nines(width - 1)
  }

  lemma {:induction false} NinesArePadded(width: nat)
    ensures Pow10(width) >= 1 && Padded(Pow10(width) - 1, width) == Nines(width)
  {
    if width > 0 {
      NinesArePadded(width - 1);
      NinesExtend(width - 1);
      var n := Pow10(width) - 1;
      assert n / 10 == Pow10(width - 1) - 1 && n % 10 == 9;
    }
  }

  lemma {:induction false} NinesExtend(width: nat)
    ensures Nines(width) + ['9'] == ['9'] + Nines(width)
  {
    if width > 0 {
      NinesExtend(width - 1);
    }
  }

  ghost predicate LastNameSortsLast(log: seq<Event>, width: nat) {
    forall i | 0 <= i < |log| - 1 :: TextLess(Name(log[i], width), Name(log[|log| - 1], width))
  }

  lemma ShortNamesSortByNumber(a: Event, b: Event, width: nat)
    requires a.number < b.number < Pow10(width)
    ensures TextLess(Name(a, width), Name(b, width))
  {
    PaddedOrder(a.number, b.number, width, Suffix(a), Suffix(b));
  }

  lemma SuffixBegins(e: Event) returns (x: string)
    ensures Suffix(e) == "_" + x
  {
    x := "_" + StateName(e.state) + ".json";
  }

  lemma JoinNines(nines: string, x: string)
    ensures nines + "_" + x == nines + ("_" + x)
  {
  }

  lemma LongNamesSortBeforeNines(a: Event, b: Event, width: nat)
    requires a.number == Pow10(width) - 1 && b.number >= Pow10(width)
    ensures !TextLess(Name(a, width), Name(b, width))
  {
    NinesArePadded(width);
    DecimalLength(b.number, width);
    var x := SuffixBegins(a);
    LongerSortsBeforeNines(Decimal(b.number), width, Suffix(b), x);
    JoinNines(Nines(width), x);
  }

  lemma LegalNumbers(log: seq<Event>)
    requires LegalLog(log)
    ensures log != [] && forall i | 0 <= i < |log| :: log[i].number == i + 1
  {
  }

  lemma ShortLogsSort(log: seq<Event>, width: nat)
    requires log != [] && (forall i | 0 <= i < |log| :: log[i].number == i + 1) && |log| < Pow10(width)
    ensures LastNameSortsLast(log, width)
  {
    forall i | 0 <= i < |log| - 1
      ensures TextLess(Name(log[i], width), Name(log[|log| - 1], width))
    {
      ShortNamesSortByNumber(log[i], log[|log| - 1], width);
    }
  }

  lemma LongLogsDoNotSort(log: seq<Event>, width: nat)
    requires (forall i | 0 <= i < |log| :: log[i].number == i + 1) && |log| >= Pow10(width) && width > 0
    ensures !LastNameSortsLast(log, width)
  {
    NinesArePadded(width - 1);
    assert Pow10(width) >= 10;
    var k := Pow10(width) - 2;
    LongNamesSortBeforeNines(log[k], log[|log| - 1], width);
  }

  /** Reading the greatest name yields the newest event for every log whose numbers fit the padding, and for no
      longer one: there the event numbered all nines keeps sorting last. */
  lemma NewestByNameIffPaddingSuffices(log: seq<Event>, width: nat)
    requires LegalLog(log) && width > 0
    ensures LastNameSortsLast(log, width) <==> |log| < Pow10(width)
  {
    LegalNumbers(log);
    if |log| < Pow10(width) {
      ShortLogsSort(log, width);
    } else {
      LongLogsDoNotSort(log, width);
    }
  }

  lemma NewestByNameIffFewerThanLimit(log: seq<Event>)
    requires LegalLog(log)
    ensures LastNameSortsLast(log, NAME_WIDTH) <==> |log| < NAME_LIMIT
  {
    assert Pow10(4) == 10_000;
    assert Pow10(8) == 10_000 * Pow10(4);
    NewestByNameIffPaddingSuffices(log, NAME_WIDTH);
  }
}
