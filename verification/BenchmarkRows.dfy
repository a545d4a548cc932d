/**
 * Benchmark datasets of an exact size: rows rendered from bounded draws, a row count planned against a
 * byte budget, and a greedy choice of each row's length that must land on the target exactly.
 */
module BenchmarkRows {
  import opened Records
  import opened Texts

  datatype Profile = Core | Extended

  datatype Refusal = NotPositive | TooSmall | NoCount | NoLength | TooLarge

  datatype Result<T> = Ok(value: T) | Refused(reason: Refusal)

  const FILLER_INDEX_BASE := 20_000_000
  const FILLER_INDEX_STRIDE := 300_007
  const MAX_LENGTH_ATTEMPTS := 256
  const MAX_TRANSACTION_ORDINAL := 100_000_000

  /** The shortest and longest line, newline included, that exact sizing selects from. */
  function Selectable(profile: Profile): (int, int) {
    match profile
    case Core => (69, 71)
    case Extended => (119, 124)
  }

  // ----- planning ------------------------------------------------------------------------------

  /** `n` lines can be chosen to fill the budget. */
  predicate Fits(n: int, budget: int, profile: Profile) {
    var (smallest, largest) := Selectable(profile);
    n * smallest <= budget <= n * largest
  }

  /** The planned row count; `balanced` is the rounded average count, whatever rounding made of it. */
  function Plan(budget: int, profile: Profile, balanced: int): Result<nat> {
    var (smallest, largest) := Selectable(profile);
    if budget < smallest then Refused(TooSmall)
    else
      var fewest, most := (budget + largest - 1) / largest, budget / smallest;
      if fewest > most then Refused(NoCount)
      else
        var capped := if most < balanced then most else balanced;
        Ok(if fewest > capped then fewest else capped)
  }

  /** The counts that fit are those between the fewest and the most. */
  lemma FitsBetween(n: int, budget: int, profile: Profile)
    ensures var (smallest, largest) := Selectable(profile);
            Fits(n, budget, profile) <==> (budget + largest - 1) / largest <= n <= budget / smallest
  {
    match profile {
      case Core =>
        assert Fits(n, budget, Core) <==> n * 69 <= budget <= n * 71;
      case Extended =>
        assert Fits(n, budget, Extended) <==> n * 119 <= budget <= n * 124;
    }
  }

  /** A planned count fits, and the planner refuses only budgets no positive count fits. */
  lemma PlanIsExact(budget: int, profile: Profile, balanced: int)
    ensures Plan(budget, profile, balanced).Ok? ==>
      Plan(budget, profile, balanced).value >= 1 && Fits(Plan(budget, profile, balanced).value, budget, profile)
    ensures Plan(budget, profile, balanced).Refused? <==> forall n :: n >= 1 ==> !Fits(n, budget, profile)
  {
    forall n {
      FitsBetween(n, budget, profile);
    }
    if Plan(budget, profile, balanced).Ok? {
      FitsBetween(Plan(budget, profile, balanced).value, budget, profile);
    }
  }

  function Gap(a: int, b: int): nat {
    if a <= b then b - a else a - b
  }

  /** Of all the counts that fit it is the one nearest to the average, which it is when that fits. */
  lemma PlanIsNearest(budget: int, profile: Profile, balanced: int, other: int)
    requires Plan(budget, profile, balanced).Ok? && Fits(other, budget, profile)
    ensures Gap(Plan(budget, profile, balanced).value, balanced) <= Gap(other, balanced)
    ensures Fits(balanced, budget, profile) ==> Plan(budget, profile, balanced).value == balanced
  {
    FitsBetween(other, budget, profile);
    FitsBetween(balanced, budget, profile);
  }

  /** A budget below one shortest line is too small; any other that is refused has no count at all. */
  lemma RefusalsMean(budget: int, profile: Profile, balanced: int)
    ensures Plan(budget, profile, balanced) == Refused(TooSmall) <==>
      budget < (if profile.Core? then 69 else 119)
    ensures Plan(budget, profile, balanced).Refused? ==>
      Plan(budget, profile, balanced).reason in {TooSmall, NoCount}
  {
  }

  /** Past a multiple of the shortest line the ranges of successive counts overlap, and nothing is refused. */
  lemma LargeBudgetsArePlanned(budget: int, profile: Profile, balanced: int)
    requires var (smallest, largest) := Selectable(profile);
             budget >= smallest * ((smallest - 1 + largest - smallest - 1) / (largest - smallest))
    ensures Plan(budget, profile, balanced).Ok?
  {
    PlanIsExact(budget, profile, balanced);
    assert Fits(budget / Selectable(profile).0, budget, profile);
  }

  /** The thresholds, and the budgets just below them that are refused. */
  lemma ThresholdsAreSharp(balanced: int)
    ensures forall budget :: budget >= 2346 ==> Plan(budget, Core, balanced).Ok?
    ensures forall budget :: budget >= 2856 ==> Plan(budget, Extended, balanced).Ok?
    ensures Plan(2345, Core, balanced) == Refused(NoCount) && Plan(2855, Extended, balanced) == Refused(NoCount)
  {
    forall budget: int | budget >= 2346 ensures Plan(budget, Core, balanced).Ok? {
      LargeBudgetsArePlanned(budget, Core, balanced);
    }
    forall budget: int | budget >= 2856 ensures Plan(budget, Extended, balanced).Ok? {
      LargeBudgetsArePlanned(budget, Extended, balanced);
    }
  }

  // ----- choosing lines ------------------------------------------------------------------------

  /** The natural row first, then indices reserved above the natural ones. */
  function CandidateIndex(position: nat, attempt: nat): Result<nat> {
    if attempt == 0 then Ok(position)
    else
      var index := FILLER_INDEX_BASE + attempt * FILLER_INDEX_STRIDE + position;
      if index >= MAX_TRANSACTION_ORDINAL then Refused(TooLarge) else Ok(index)
  }

  /** Every index offered leaves the transaction ordinal eight digits, and none that would is held back. */
  lemma IndicesFitTheOrdinal(position: nat, attempt: nat)
    requires attempt > 0
    ensures CandidateIndex(position, attempt).Ok? <==> 20_000_000 + attempt * 300_007 + position < 100_000_000
    ensures CandidateIndex(position, attempt).Ok? ==>
      CandidateIndex(position, attempt).value == 20_000_000 + attempt * 300_007 + position
    ensures CandidateIndex(position, 0) == Ok(position)
  {
  }

  ghost predicate FillerMeetsNaturalRow(rows: nat) {
    exists position: nat, attempt: nat ::
      position < rows && 1 <= attempt < MAX_LENGTH_ATTEMPTS && CandidateIndex(position, attempt).Ok?
      && CandidateIndex(position, attempt).value < rows
  }

  /** A filler is never a natural row exactly while the document stays below the first reserved index. */
  lemma FillersAvoidNaturalRows(rows: nat)
    ensures FillerMeetsNaturalRow(rows) <==> rows > 20_300_007
  {
    if rows > FILLER_INDEX_BASE + FILLER_INDEX_STRIDE {
      assert CandidateIndex(0, 1) == Ok(FILLER_INDEX_BASE + FILLER_INDEX_STRIDE);
    }
  }

  predicate Misfits(
      lineAt: nat -> string, profile: Profile, position: nat, budget: int, remaining: nat, attempt: nat)
    requires CandidateIndex(position, attempt).Ok?
  {
    !Fits(remaining, budget - (|lineAt(CandidateIndex(position, attempt).value)| + 1), profile)
  }

  /** The line of the first attempt whose length leaves a budget the remaining lines can still fill. */
  ghost predicate FirstFit(
      lineAt: nat -> string, profile: Profile, position: nat, budget: int, remaining: nat, line: string)
  {
    exists attempt: nat :: FitsAt(lineAt, profile, position, budget, remaining, attempt, line)
  }

  ghost predicate FitsAt(
      lineAt: nat -> string, profile: Profile, position: nat, budget: int, remaining: nat, attempt: nat, line: string)
  {
    && attempt < 256 && AllMisfit(lineAt, profile, position, budget, remaining, attempt)
    && CandidateIndex(position, attempt).Ok? && line == lineAt(CandidateIndex(position, attempt).value)
    && Fits(remaining, budget - (|line| + 1), profile)
  }

  /** None of the first so many attempts will do. */
  ghost predicate AllMisfit(
      lineAt: nat -> string, profile: Profile, position: nat, budget: int, remaining: nat, attempts: nat)
  {
    forall a: nat :: a < attempts ==>
      CandidateIndex(position, a).Ok? && Misfits(lineAt, profile, position, budget, remaining, a)
  }

  ghost predicate OutOfIndices(
      lineAt: nat -> string, profile: Profile, position: nat, budget: int, remaining: nat, attempt: nat)
  {
    && attempt < 256 && AllMisfit(lineAt, profile, position, budget, remaining, attempt)
    && CandidateIndex(position, attempt).Refused?
  }

  /** The refusals: every attempt misfits, or all do up to one past the last ordinal. */
  ghost predicate Stuck(
      lineAt: nat -> string, profile: Profile, position: nat, budget: int, remaining: nat, reason: Refusal)
  {
    || (reason == NoLength && AllMisfit(lineAt, profile, position, budget, remaining, 256))
    || (reason == TooLarge && exists attempt: nat :: OutOfIndices(lineAt, profile, position, budget, remaining, attempt))
  }

  method Choose(lineAt: nat -> string, profile: Profile, position: nat, budget: int, remaining: nat)
    returns (line: Result<string>)
    ensures line.Ok? ==> FirstFit(lineAt, profile, position, budget, remaining, line.value)
    ensures line.Refused? ==> Stuck(lineAt, profile, position, budget, remaining, line.reason)
  {
    for attempt := 0 to MAX_LENGTH_ATTEMPTS
      invariant AllMisfit(lineAt, profile, position, budget, remaining, attempt)
    {
      var index := CandidateIndex(position, attempt);
      if index.Refused? {
        assert OutOfIndices(lineAt, profile, position, budget, remaining, attempt);
        return Refused(index.reason);
      }
      var text := lineAt(index.value);
      if Fits(remaining, budget - (|text| + 1), profile) {
        assert FitsAt(lineAt, profile, position, budget, remaining, attempt, text);
        return Ok(text);
      }
    }
    line := Refused(NoLength);
  }

  function Document(lines: seq<string>): string {
    if lines == [] then "" else Document(lines[..|lines| - 1]) + lines[|lines| - 1] + "\n"
  }

  lemma HeaderAlone(header: string)
    ensures |Document([header] + [])| == |header| + 1
  {
    assert [header] + [] == [header] && [header][..0] == [];
  }

  lemma OneLineMore(header: string, lines: seq<string>, line: string)
    ensures |Document([header] + (lines + [line]))| == |Document([header] + lines)| + |line| + 1
  {
    var all := [header] + (lines + [line]);
    assert all[..|all| - 1] == [header] + lines;
  }

  /** Each line is the first that fits what the lines before it left of the target, `count` lines in all. */
  ghost predicate AllChosen(
      lineAt: nat -> string, profile: Profile, header: string, target: int, count: nat, lines: seq<string>)
  {
    && |lines| <= count
    && forall position: nat :: position < |lines| ==> ChosenAt(lineAt, profile, header, target, count, lines, position)
  }

  ghost predicate ChosenAt(
      lineAt: nat -> string, profile: Profile, header: string, target: int, count: nat, lines: seq<string>,
      position: nat)
    requires position < |lines| <= count
  {
    FirstFit(
      lineAt, profile, position, target - |Document([header] + lines[..position])|, count - position - 1,
      lines[position])
  }

  lemma PrefixOfMore(lines: seq<string>, line: string, position: nat)
    requires position <= |lines|
    ensures (lines + [line])[..position] == lines[..position]
    ensures (lines + [line])[position] == if position < |lines| then lines[position] else line
    ensures lines[..|lines|] == lines
  {
  }

  lemma OneMoreChosen(
      lineAt: nat -> string, profile: Profile, header: string, target: int, count: nat, lines: seq<string>,
      line: string)
    requires AllChosen(lineAt, profile, header, target, count, lines) && |lines| < count
    requires FirstFit(
               lineAt, profile, |lines|, target - |Document([header] + lines)|, count - |lines| - 1, line)
    ensures AllChosen(lineAt, profile, header, target, count, lines + [line])
  {
    var more := lines + [line];
    forall position: nat | position < |more|
      ensures ChosenAt(lineAt, profile, header, target, count, more, position)
    {
      PrefixOfMore(lines, line, position);
      if position < |lines| {
        assert ChosenAt(lineAt, profile, header, target, count, lines, position);
      }
    }
  }

  /**
   * A document of exactly the target size, whatever the digests draw, or a refusal: of the plan, or at the
   * first position where no attempt fits.
   */
  method ExactDocument(
      lineAt: nat -> string, target: int, header: string, profile: Profile, rowsPerTransaction: int, balanced: int)
    returns (document: Result<string>, ghost lines: seq<string>)
    ensures document.Ok? ==>
      && |document.value| == target && document.value == Document([header] + lines)
      && Plan(target - (|header| + 1), profile, balanced) == Ok(|lines|)
      && AllChosen(lineAt, profile, header, target, |lines|, lines)
    ensures rowsPerTransaction <= 0 ==> document == Refused(NotPositive)
    ensures rowsPerTransaction > 0 && Plan(target - (|header| + 1), profile, balanced).Refused? ==>
      document == Refused(Plan(target - (|header| + 1), profile, balanced).reason)
    ensures rowsPerTransaction > 0 && Plan(target - (|header| + 1), profile, balanced).Ok? && document.Refused? ==>
      var count := Plan(target - (|header| + 1), profile, balanced).value;
      && |lines| < count && AllChosen(lineAt, profile, header, target, count, lines)
      && Stuck(lineAt, profile, |lines|, target - |Document([header] + lines)|, count - |lines| - 1, document.reason)
  {
    lines := [];
    if rowsPerTransaction <= 0 {
      return Refused(NotPositive), [];
    }
    var budget := target - (|header| + 1);
    var planned := Plan(budget, profile, balanced);
    if planned.Refused? {
      return Refused(planned.reason), [];
    }
    PlanIsExact(budget, profile, balanced);
    document, lines := Fill(lineAt, target, header, profile, planned.value);
  }

  /** Line by line, as many as were planned. */
  method Fill(lineAt: nat -> string, target: int, header: string, profile: Profile, rowCount: nat)
    returns (document: Result<string>, ghost lines: seq<string>)
    requires Fits(rowCount, target - (|header| + 1), profile)
    ensures AllChosen(lineAt, profile, header, target, rowCount, lines)
    ensures document.Ok? ==>
      |lines| == rowCount && |document.value| == target && document.value == Document([header] + lines)
    ensures document.Refused? ==>
      && |lines| < rowCount
      && Stuck(lineAt, profile, |lines|, target - |Document([header] + lines)|, rowCount - |lines| - 1, document.reason)
  {
    var budget := target - (|header| + 1);
    var chosen: seq<string> := [];
    HeaderAlone(header);
    for position := 0 to rowCount
      invariant |chosen| == position && |Document([header] + chosen)| == target - budget
      invariant Fits(rowCount - position, budget, profile)
      invariant AllChosen(lineAt, profile, header, target, rowCount, chosen)
    {
      var line := Choose(lineAt, profile, position, budget, rowCount - position - 1);
      if line.Refused? {
        return Refused(line.reason), chosen;
      }
      OneLineMore(header, chosen, line.value);
      OneMoreChosen(lineAt, profile, header, target, rowCount, chosen, line.value);
      FirstFitsFit(lineAt, profile, position, budget, rowCount - position - 1, line.value);
      chosen := chosen + [line.value];
      budget := budget - (|line.value| + 1);
    }
    document, lines := Ok(Document([header] + chosen)), chosen;
  }

  lemma FirstFitsFit(
      lineAt: nat -> string, profile: Profile, position: nat, budget: int, remaining: nat, line: string)
    requires FirstFit(lineAt, profile, position, budget, remaining, line)
    ensures Fits(remaining, budget - (|line| + 1), profile)
  {
  }

  // ----- rendering a row -----------------------------------------------------------------------

  /** A bounded integer per row and slot, whatever the digest, and the calendar text of a day of the span. */
  datatype Draws = Draws(draw: (nat, nat, nat) -> nat, day: nat -> string) {
    ghost predicate Bounded() {
      && (forall index, slot, bound :: bound > 0 ==> draw(index, slot, bound) < bound)
      && forall offset :: offset < 730 ==> |day(offset)| == 10
    }
  }

  function Zeros(n: nat): (zeros: string)
    ensures |zeros| == n
  {
    seq(n, _ => '0')
  }

  /** `f"{n:0{width}d}"`. */
  function Padded(n: nat, width: nat): string {
    var text := Decimal(n);
    if |text| >= width then text else Zeros(width - |text|) + text
  }

  lemma Powers()
    ensures Power(1) == 10 && Power(2) == 100 && Power(3) == 1000 && Power(4) == 10000 && Power(8) == 100000000
  {
    assert Power(5) == 100000 && Power(6) == 1000000 && Power(7) == 10000000;
  }

  /** A number below ten to the `width` takes at most `width` digits, and at least as many as it has. */
  lemma {:induction false} DigitsOf(n: nat, width: nat)
    requires width > 0 && n < Power(width)
    ensures |Decimal(n)| <= width
  {
    if n < 10 {
    } else {
      Powers();
      DigitsOf(n / 10, width - 1);
    }
  }

  lemma PaddedHasWidth(n: nat, width: nat)
    requires width > 0 && n < Power(width)
    ensures |Padded(n, width)| == width
  {
    DigitsOf(n, width);
  }

  function Money(minor: nat): string {
    Decimal(minor / 100) + "." + Padded(minor % 100, 2)
  }

  /** Up to 9999.99, an amount takes four to seven characters. */
  lemma MoneyWidth(minor: nat)
    requires minor < 1000000
    ensures 4 <= |Money(minor)| <= 7
  {
    Powers();
    DigitsOf(minor / 100, 4);
    PaddedHasWidth(minor % 100, 2);
  }

  function Units(d: Draws, index: nat): nat {
    d.draw(index, 0, 19) + 1
  }

  function RevenueMinor(d: Draws, index: nat): nat {
    (250 + d.draw(index, 1, 49750)) * Units(d, index)
  }

  /** A share of an amount, or nothing, by a draw against the rule's percentage. */
  function ShareWhen(d: Draws, index: nat, slot: nat, gate: nat, span: nat, amount: nat): nat {
    if d.draw(index, slot, 100) >= gate then 0 else amount * (d.draw(index, slot + 100, span) + 1) / 100
  }

  function CostMinor(d: Draws, index: nat, revenue: nat): nat {
    revenue * (45 + d.draw(index, 7, 35)) / 100
  }

  /** The amounts of one row, in minor units. */
  datatype Amounts = Amounts(revenue: nat, cost: nat, discount: nat, refund: nat)

  function AmountsOf(d: Draws, index: nat): Amounts {
    var revenue := RevenueMinor(d, index);
    Amounts(
      revenue, CostMinor(d, index, revenue), ShareWhen(d, index, 8, 30, 25, revenue),
      ShareWhen(d, index, 9, 5, 100, revenue))
  }

  function CoreFields(d: Draws, index: nat, rowsPerTransaction: nat, amounts: Amounts): seq<string>
    requires rowsPerTransaction > 0
  {
    [ "TXN-" + Padded(index / rowsPerTransaction, 8), d.day(d.draw(index, 2, 730)),
      "SKU-" + Padded(d.draw(index, 3, 500), 4), "CAT-" + Padded(d.draw(index, 4, 12), 2) ]
    + [ "STORE-" + Padded(d.draw(index, 5, 25), 3), "CHANNEL-" + Padded(d.draw(index, 6, 3), 1),
        Decimal(Units(d, index)), Money(amounts.revenue) ]
  }

  function ConditionalFields(index: nat, amounts: Amounts): seq<string> {
    [ Money(amounts.cost), Money(amounts.discount), Money(amounts.refund),
      "shopper." + Padded(index, 8) + "@example.invalid" ]
  }

  function Cells(d: Draws, index: nat, profile: Profile, rowsPerTransaction: nat, amounts: Amounts): seq<string>
    requires rowsPerTransaction > 0
  {
    match profile
    case Core => CoreFields(d, index, rowsPerTransaction, amounts)
    case Extended => CoreFields(d, index, rowsPerTransaction, amounts) + ConditionalFields(index, amounts)
  }

  function Fields(d: Draws, index: nat, profile: Profile, rowsPerTransaction: nat): seq<string>
    requires rowsPerTransaction > 0
  {
    Cells(d, index, profile, rowsPerTransaction, AmountsOf(d, index))
  }

  function Line(fields: seq<string>): string
    requires fields != []
  {
    if |fields| == 1 then fields[0] else fields[0] + "," + Line(fields[1..])
  }

  function Widths(fields: seq<string>): nat {
    if fields == [] then 0 else |fields[0]| + Widths(fields[1..])
  }

  lemma {:induction false} LineLength(fields: seq<string>)
    requires fields != []
    ensures |Line(fields)| == Widths(fields) + |fields| - 1
  {
    if |fields| == 1 {
      assert fields[1..] == [];
    } else {
      LineLength(fields[1..]);
    }
  }

  lemma {:induction false} WidthsConcat(a: seq<string>, b: seq<string>)
    ensures Widths(a + b) == Widths(a) + Widths(b)
  {
    if a == [] {
      assert a + b == b;
    } else {
      assert (a + b)[1..] == a[1..] + b;
      WidthsConcat(a[1..], b);
    }
  }

  lemma WidthsOfFour(a: string, b: string, c: string, d: string)
    ensures Widths([a, b, c, d]) == |a| + |b| + |c| + |d|
  {
    assert [d][1..] == [] && Widths([d]) == |d|;
    assert [c, d][1..] == [d] && Widths([c, d]) == |c| + |d|;
    assert [b, c, d][1..] == [c, d] && Widths([b, c, d]) == |b| + |c| + |d|;
    assert [a, b, c, d][1..] == [b, c, d];
  }

  lemma PriceTimesUnits(price: nat, units: nat)
    requires 250 <= price <= 49999 && 1 <= units <= 19
    ensures 250 <= price * units <= 949981
  {
    assert price * 1 <= price * units <= price * 19;
  }

  lemma RevenueFits(d: Draws, index: nat)
    requires d.Bounded()
    ensures 1 <= Units(d, index) <= 19 && 250 <= RevenueMinor(d, index) <= 949981
  {
    PriceTimesUnits(250 + d.draw(index, 1, 49750), Units(d, index));
  }

  lemma PercentageFits(amount: nat, percent: nat)
    requires amount < 1000000 && percent <= 100
    ensures amount * percent / 100 < 1000000
  {
    assert amount * percent <= amount * 100;
  }

  lemma IdentifierWidths(d: Draws, index: nat, rowsPerTransaction: nat)
    requires d.Bounded() && rowsPerTransaction > 0 && index < MAX_TRANSACTION_ORDINAL
    ensures |Padded(index / rowsPerTransaction, 8)| == 8 && |d.day(d.draw(index, 2, 730))| == 10
    ensures |Padded(d.draw(index, 3, 500), 4)| == 4 && |Padded(d.draw(index, 4, 12), 2)| == 2
    ensures |Padded(d.draw(index, 5, 25), 3)| == 3 && |Padded(d.draw(index, 6, 3), 1)| == 1
  {
    Powers();
    Divided(index, rowsPerTransaction);
    PaddedHasWidth(index / rowsPerTransaction, 8);
    PaddedHasWidth(d.draw(index, 3, 500), 4);
    PaddedHasWidth(d.draw(index, 4, 12), 2);
    PaddedHasWidth(d.draw(index, 5, 25), 3);
    PaddedHasWidth(d.draw(index, 6, 3), 1);
  }

  lemma Multiplied(q: nat, k: nat)
    requires k > 0
    ensures q <= q * k
  {
    assert q * k == q * (k - 1) + q;
  }

  lemma Recombined(n: nat, k: nat)
    requires k > 0
    ensures n == (n / k) * k + n % k && n / k >= 0 && n % k >= 0
  {
  }

  lemma Divided(n: nat, k: nat)
    requires k > 0
    ensures n / k <= n
  {
    Recombined(n, k);
    Multiplied(n / k, k);
  }

  lemma CoreWidths(d: Draws, index: nat, rowsPerTransaction: nat, amounts: Amounts)
    requires d.Bounded() && rowsPerTransaction > 0 && index < MAX_TRANSACTION_ORDINAL
    requires amounts.revenue < 1000000
    ensures 59 <= Widths(CoreFields(d, index, rowsPerTransaction, amounts)) <= 63
  {
    IdentifierWidths(d, index, rowsPerTransaction);
    Powers();
    DigitsOf(Units(d, index), 2);
    MoneyWidth(amounts.revenue);
    var fields := CoreFields(d, index, rowsPerTransaction, amounts);
    WidthsOfFour(fields[0], fields[1], fields[2], fields[3]);
    WidthsOfFour(fields[4], fields[5], fields[6], fields[7]);
    WidthsConcat([fields[0], fields[1], fields[2], fields[3]], [fields[4], fields[5], fields[6], fields[7]]);
  }

  /** Every amount of a row stays below ten thousand. */
  lemma AmountsFit(d: Draws, index: nat)
    requires d.Bounded()
    ensures var amounts := AmountsOf(d, index);
            amounts.revenue < 1000000 && amounts.cost < 1000000 && amounts.discount < 1000000 && amounts.refund < 1000000
  {
    var revenue := RevenueMinor(d, index);
    RevenueFits(d, index);
    PercentageFits(revenue, 45 + d.draw(index, 7, 35));
    ShareFits(d, index, 8, 30, 25, revenue);
    ShareFits(d, index, 9, 5, 100, revenue);
  }

  lemma ShareFits(d: Draws, index: nat, slot: nat, gate: nat, span: nat, amount: nat)
    requires d.Bounded() && 0 < span <= 100 && amount < 1000000
    ensures ShareWhen(d, index, slot, gate, span, amount) < 1000000
  {
    PercentageFits(amount, d.draw(index, slot + 100, span) + 1);
  }

  lemma ConditionalWidths(index: nat, amounts: Amounts)
    requires index < MAX_TRANSACTION_ORDINAL
    requires amounts.cost < 1000000 && amounts.discount < 1000000 && amounts.refund < 1000000
    ensures 44 <= Widths(ConditionalFields(index, amounts)) <= 53
  {
    var fields := ConditionalFields(index, amounts);
    MoneyWidth(amounts.cost);
    MoneyWidth(amounts.discount);
    MoneyWidth(amounts.refund);
    Powers();
    PaddedHasWidth(index, 8);
    WidthsOfFour(fields[0], fields[1], fields[2], fields[3]);
  }

  /** Whatever the digests draw, a rendered line and its newline stay within the profile's possible range. */
  lemma LinesStayInRange(d: Draws, index: nat, profile: Profile, rowsPerTransaction: nat)
    requires d.Bounded() && rowsPerTransaction > 0 && index < MAX_TRANSACTION_ORDINAL
    ensures var bytes := |Line(Fields(d, index, profile, rowsPerTransaction))| + 1;
            if profile.Core? then 67 <= bytes <= 71 else 115 <= bytes <= 128
  {
    AmountsFit(d, index);
    CellsStayInRange(d, index, profile, rowsPerTransaction, AmountsOf(d, index));
  }

  lemma CellsStayInRange(d: Draws, index: nat, profile: Profile, rowsPerTransaction: nat, amounts: Amounts)
    requires d.Bounded() && rowsPerTransaction > 0 && index < MAX_TRANSACTION_ORDINAL
    requires amounts.revenue < 1000000 && amounts.cost < 1000000
    requires amounts.discount < 1000000 && amounts.refund < 1000000
    ensures var bytes := |Line(Cells(d, index, profile, rowsPerTransaction, amounts))| + 1;
            if profile.Core? then 67 <= bytes <= 71 else 115 <= bytes <= 128
  {
    CoreWidths(d, index, rowsPerTransaction, amounts);
    LineLength(Cells(d, index, profile, rowsPerTransaction, amounts));
    if profile == Extended {
      ConditionalWidths(index, amounts);
      WidthsConcat(CoreFields(d, index, rowsPerTransaction, amounts), ConditionalFields(index, amounts));
    }
  }

  // ----- reading the bytes back ----------------------------------------------------------------

  lemma {:induction false} DocumentFirst(lines: seq<string>)
    requires lines != []
    ensures Document(lines) == lines[0] + ("\n" + Document(lines[1..]))
  {
    var n := |lines| - 1;
    if n == 0 {
      assert lines[..0] == [] && lines[1..] == [];
      assert "" + lines[0] + "\n" == lines[0] + ("\n" + "");
    } else {
      DocumentFirst(lines[..n]);
      assert lines[..n][1..] == lines[1..][..n - 1] && lines[1..][n - 1] == lines[n];
      var middle := Document(lines[1..][..n - 1]);
      assert lines[0] + ("\n" + middle) + lines[n] + "\n" == lines[0] + ("\n" + (middle + lines[n] + "\n"));
    }
  }

  /** A document is its lines, in order, each ended by a newline. */
  lemma {:induction false} DocumentReadsBack(lines: seq<string>)
    requires forall line :: line in lines ==> '\n' !in line
    ensures Split(Document(lines), '\n') == lines + [""]
  {
    if lines == [] {
    } else {
      DocumentFirst(lines);
      DocumentReadsBack(lines[1..]);
      SplitPiece(lines[0], Document(lines[1..]), '\n');
      assert lines == [lines[0]] + lines[1..];
    }
  }

  /** A line is its fields, in order, with commas between. */
  lemma {:induction false} LineReadsBack(fields: seq<string>)
    requires fields != [] && forall field :: field in fields ==> ',' !in field
    ensures Split(Line(fields), ',') == fields
  {
    if |fields| == 1 {
      SplitWhole(fields[0], ',');
      assert fields == [fields[0]];
    } else {
      LineReadsBack(fields[1..]);
      SplitPiece(fields[0], Line(fields[1..]), ',');
      assert fields[0] + "," + Line(fields[1..]) == fields[0] + ("," + Line(fields[1..]));
      assert fields == [fields[0]] + fields[1..];
    }
  }

  lemma {:induction false} LeadingZeros(n: nat, text: string)
    requires Numeral(text)
    ensures Numeral(Zeros(n) + text) && ValueOf(Zeros(n) + text) == ValueOf(text)
    decreases n + |text|
  {
    var all := Zeros(n) + text;
    if text != "" {
      LeadingZeros(n, text[..|text| - 1]);
      assert all[..|all| - 1] == Zeros(n) + text[..|text| - 1];
    } else if n > 0 {
      LeadingZeros(n - 1, "");
      assert all[..|all| - 1] == Zeros(n - 1) + "";
    } else {
      assert all == text;
    }
  }

  lemma PaddedReadsBack(n: nat, width: nat)
    ensures Reads(Padded(n, width), n)
  {
    DecimalReadsBack(n);
    if |Decimal(n)| < width {
      LeadingZeros(width - |Decimal(n)|, Decimal(n));
    }
  }

  /** An amount in minor units, written with exactly two digits after the point. */
  predicate SaysAmount(text: string, minor: int) {
    var n := |text| - 3;
    n > 0 && text[n] == '.' && Numeral(text[..n]) && Numeral(text[n + 1..])
    && 100 * ValueOf(text[..n]) + ValueOf(text[n + 1..]) == minor
  }

  lemma MoneyReadsBack(minor: nat)
    ensures SaysAmount(Money(minor), minor)
  {
    var text, whole, cents := Money(minor), Decimal(minor / 100), Padded(minor % 100, 2);
    Powers();
    PaddedHasWidth(minor % 100, 2);
    PaddedReadsBack(minor % 100, 2);
    DecimalReadsBack(minor / 100);
    assert text[..|text| - 3] == whole && text[|text| - 2..] == cents;
  }

  /** A code and a number after it. */
  predicate Coded(text: string, code: string, n: nat) {
    |code| <= |text| && text[..|code|] == code && Reads(text[|code|..], n)
  }

  predicate SaysAddress(text: string, n: nat) {
    && |text| > 24 && text[..8] == "shopper." && Reads(text[8..|text| - 16], n)
    && text[|text| - 16..] == "@example.invalid"
  }

  predicate NoCommas(fields: seq<string>) {
    forall field :: field in fields ==> ',' !in field
  }

  lemma NoCommaInNumeral(text: string)
    requires Numeral(text)
    ensures ',' !in text
  {
  }

  lemma CodeTells(code: string, n: nat, width: nat)
    requires ',' !in code
    ensures Coded(code + Padded(n, width), code, n) && ',' !in code + Padded(n, width)
  {
    PaddedReadsBack(n, width);
    NoCommaInNumeral(Padded(n, width));
    var text := code + Padded(n, width);
    assert text[|code|..] == Padded(n, width);
  }

  lemma AmountTells(minor: nat)
    ensures SaysAmount(Money(minor), minor) && ',' !in Money(minor)
  {
    MoneyReadsBack(minor);
    PaddedReadsBack(minor % 100, 2);
    NoCommaInNumeral(Padded(minor % 100, 2));
    NoCommaInNumeral(Decimal(minor / 100));
  }

  lemma UnitsTell(n: nat)
    ensures Reads(Decimal(n), n) && ',' !in Decimal(n)
  {
    DecimalReadsBack(n);
    NoCommaInNumeral(Decimal(n));
  }

  lemma AddressTells(index: nat)
    ensures var text := "shopper." + Padded(index, 8) + "@example.invalid"; SaysAddress(text, index) && ',' !in text
  {
    var text := "shopper." + Padded(index, 8) + "@example.invalid";
    PaddedReadsBack(index, 8);
    NoCommaInNumeral(Padded(index, 8));
    assert text[8..|text| - 16] == Padded(index, 8);
  }

  lemma NoCommasInFour(a: string, b: string, c: string, d: string)
    requires ',' !in a && ',' !in b && ',' !in c && ',' !in d
    ensures NoCommas([a, b, c, d])
  {
  }

  lemma NoCommasInBoth(a: seq<string>, b: seq<string>)
    requires NoCommas(a) && NoCommas(b)
    ensures NoCommas(a + b)
  {
  }

  lemma CoreHasNoCommas(d: Draws, index: nat, rowsPerTransaction: nat, amounts: Amounts)
    requires rowsPerTransaction > 0 && forall offset :: ',' !in d.day(offset)
    ensures var fields := CoreFields(d, index, rowsPerTransaction, amounts); NoCommas(fields) && |fields| == 8
  {
    var f := CoreFields(d, index, rowsPerTransaction, amounts);
    CodesHaveNoCommas(d, index, rowsPerTransaction);
    UnitsTell(Units(d, index));
    AmountTells(amounts.revenue);
    NoCommasInFour(f[0], f[1], f[2], f[3]);
    NoCommasInFour(f[4], f[5], f[6], f[7]);
    NoCommasInBoth([f[0], f[1], f[2], f[3]], [f[4], f[5], f[6], f[7]]);
  }

  lemma CodeHasNoComma(code: string, n: nat, width: nat)
    requires ',' !in code
    ensures ',' !in code + Padded(n, width)
  {
    CodeTells(code, n, width);
  }

  lemma CodesHaveNoCommas(d: Draws, index: nat, rowsPerTransaction: nat)
    requires rowsPerTransaction > 0
    ensures ',' !in "TXN-" + Padded(index / rowsPerTransaction, 8) && ',' !in "SKU-" + Padded(d.draw(index, 3, 500), 4)
    ensures ',' !in "CAT-" + Padded(d.draw(index, 4, 12), 2) && ',' !in "STORE-" + Padded(d.draw(index, 5, 25), 3)
    ensures ',' !in "CHANNEL-" + Padded(d.draw(index, 6, 3), 1)
  {
    CodeHasNoComma("TXN-", index / rowsPerTransaction, 8);
    CodeHasNoComma("SKU-", d.draw(index, 3, 500), 4);
    CodeHasNoComma("CAT-", d.draw(index, 4, 12), 2);
    CodeHasNoComma("STORE-", d.draw(index, 5, 25), 3);
    CodeHasNoComma("CHANNEL-", d.draw(index, 6, 3), 1);
  }

  lemma ConditionalHasNoCommas(index: nat, amounts: Amounts)
    ensures NoCommas(ConditionalFields(index, amounts)) && |ConditionalFields(index, amounts)| == 4
  {
    var f := ConditionalFields(index, amounts);
    AmountTells(amounts.cost);
    AmountTells(amounts.discount);
    AmountTells(amounts.refund);
    AddressTells(index);
    NoCommasInFour(f[0], f[1], f[2], f[3]);
  }

  /** A rendered row, split at its commas, is its cells: eight, or twelve. */
  lemma RowReadsBack(d: Draws, index: nat, profile: Profile, rowsPerTransaction: nat)
    requires rowsPerTransaction > 0 && forall offset :: ',' !in d.day(offset)
    ensures var cells := Fields(d, index, profile, rowsPerTransaction);
            |cells| == (if profile.Core? then 8 else 12) && Split(Line(cells), ',') == cells
  {
    CellsReadBack(d, index, profile, rowsPerTransaction, AmountsOf(d, index));
  }

  lemma CellsReadBack(d: Draws, index: nat, profile: Profile, rowsPerTransaction: nat, amounts: Amounts)
    requires rowsPerTransaction > 0 && forall offset :: ',' !in d.day(offset)
    ensures var cells := Cells(d, index, profile, rowsPerTransaction, amounts);
            |cells| == (if profile.Core? then 8 else 12) && Split(Line(cells), ',') == cells
  {
    CoreHasNoCommas(d, index, rowsPerTransaction, amounts);
    ConditionalHasNoCommas(index, amounts);
    NoCommasInBoth(CoreFields(d, index, rowsPerTransaction, amounts), ConditionalFields(index, amounts));
    LineReadsBack(Cells(d, index, profile, rowsPerTransaction, amounts));
  }

  /** The amounts of a row are what its draws say: price by units, a cost share, a discount and a refund. */
  lemma AmountsMean(d: Draws, index: nat, revenue: int)
    requires revenue == (250 + d.draw(index, 1, 49750)) * (d.draw(index, 0, 19) + 1)
    ensures AmountsOf(d, index).revenue == revenue
    ensures AmountsOf(d, index).cost == revenue * (45 + d.draw(index, 7, 35)) / 100
    ensures AmountsOf(d, index).discount ==
      if d.draw(index, 8, 100) < 30 then revenue * (d.draw(index, 108, 25) + 1) / 100 else 0
    ensures AmountsOf(d, index).refund ==
      if d.draw(index, 9, 100) < 5 then revenue * (d.draw(index, 109, 100) + 1) / 100 else 0
  {
  }

  /** The number behind each code: a transaction's, a product's, a category's, a store's and a channel's. */
  lemma CodedCellsTell(d: Draws, index: nat, profile: Profile, rowsPerTransaction: nat, amounts: Amounts)
    requires rowsPerTransaction > 0
    ensures var cells := Cells(d, index, profile, rowsPerTransaction, amounts);
            && cells[0] == "TXN-" + Padded(index / rowsPerTransaction, 8) && cells[1] == d.day(d.draw(index, 2, 730))
            && cells[2] == "SKU-" + Padded(d.draw(index, 3, 500), 4)
            && cells[3] == "CAT-" + Padded(d.draw(index, 4, 12), 2)
            && cells[4] == "STORE-" + Padded(d.draw(index, 5, 25), 3)
            && cells[5] == "CHANNEL-" + Padded(d.draw(index, 6, 3), 1)
            && cells[6] == Decimal(d.draw(index, 0, 19) + 1) && cells[7] == Money(amounts.revenue)
  {
  }

  lemma ConditionalCellsTell(d: Draws, index: nat, rowsPerTransaction: nat, amounts: Amounts)
    requires rowsPerTransaction > 0
    ensures var cells := Cells(d, index, Extended, rowsPerTransaction, amounts);
            && cells[8] == Money(amounts.cost) && cells[9] == Money(amounts.discount)
            && cells[10] == Money(amounts.refund) && cells[11] == "shopper." + Padded(index, 8) + "@example.invalid"
  {
  }

  /** The cells that carry a code, with the width of the number after it. */
  function CodeAt(i: nat): (string, nat)
    requires i in {0, 2, 3, 4, 5}
  {
    match i
    case 0 => ("TXN-", 8)
    case 2 => ("SKU-", 4)
    case 3 => ("CAT-", 2)
    case 4 => ("STORE-", 3)
    case _ => ("CHANNEL-", 1)
  }

  /** Read as numbers: the transaction, the product, the category, the store and the channel. */
  lemma CodesSay(d: Draws, index: nat, profile: Profile, rowsPerTransaction: nat, amounts: Amounts, i: nat, n: nat)
    requires rowsPerTransaction > 0 && i in {0, 2, 3, 4, 5}
    requires n == match i case 0 => index / rowsPerTransaction case 2 => d.draw(index, 3, 500)
                  case 3 => d.draw(index, 4, 12) case 4 => d.draw(index, 5, 25) case _ => d.draw(index, 6, 3)
    ensures Coded(
              Cells(d, index, profile, rowsPerTransaction, amounts)[i],
              match i case 0 => "TXN-" case 2 => "SKU-" case 3 => "CAT-" case 4 => "STORE-" case _ => "CHANNEL-", n)
  {
    var (code, width) := CodeAt(i);
    CodedCell(d, index, profile, rowsPerTransaction, amounts, i, n);
    CodeTells(code, n, width);
  }

  lemma CodedCell(d: Draws, index: nat, profile: Profile, rowsPerTransaction: nat, amounts: Amounts, i: nat, n: nat)
    requires rowsPerTransaction > 0 && i in {0, 2, 3, 4, 5}
    requires n == match i case 0 => index / rowsPerTransaction case 2 => d.draw(index, 3, 500)
                  case 3 => d.draw(index, 4, 12) case 4 => d.draw(index, 5, 25) case _ => d.draw(index, 6, 3)
    ensures Cells(d, index, profile, rowsPerTransaction, amounts)[i] == CodeAt(i).0 + Padded(n, CodeAt(i).1)
  {
    CodedCellsTell(d, index, profile, rowsPerTransaction, amounts);
  }

  lemma MeasuresSay(d: Draws, index: nat, profile: Profile, rowsPerTransaction: nat, amounts: Amounts)
    requires rowsPerTransaction > 0
    ensures var cells := Cells(d, index, profile, rowsPerTransaction, amounts);
            && Reads(cells[6], d.draw(index, 0, 19) + 1) && SaysAmount(cells[7], amounts.revenue)
            && (profile.Extended? ==>
                 && SaysAmount(cells[8], amounts.cost) && SaysAmount(cells[9], amounts.discount)
                 && SaysAmount(cells[10], amounts.refund) && SaysAddress(cells[11], index))
  {
    CodedCellsTell(d, index, profile, rowsPerTransaction, amounts);
    ConditionalCellsTell(d, index, rowsPerTransaction, amounts);
    UnitsTell(d.draw(index, 0, 19) + 1);
    AmountTells(amounts.revenue);
    AmountTells(amounts.cost);
    AmountTells(amounts.discount);
    AmountTells(amounts.refund);
    AddressTells(index);
  }
}
