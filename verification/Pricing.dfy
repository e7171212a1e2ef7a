/** Estimated cost of one request, in billionths of a dollar, at an embedded rate card. */
module Pricing {
  import opened Base

  type i64 = x: int | I64_MIN <= x <= I64_MAX

  const MIN_CACHEABLE_INPUT_TOKENS: i64 := 1_024
  const LONG_CONTEXT_INPUT_THRESHOLD: i64 := 272_000

  datatype Status = Complete | MissingCacheWrite | UnknownModel | MissingUsage | InvalidUsage {
    predicate IsPriced() { Complete? || MissingCacheWrite? }
  }

  datatype Estimate = Estimate(status: Status, lower: Option<i64>, upper: Option<i64>)

  datatype Usage = Usage(
    input: Option<i64>,
    output: Option<i64>,
    cached: Option<i64>,
    cacheWrite: Option<i64>,
    effectiveModel: Option<string>)

  /** Nano-dollars per token. */
  datatype Rates = Rates(input: i64, cached: i64, cacheWrite: i64, output: i64)

  const SOL := Rates(5_000, 500, 6_250, 30_000)
  const TERRA := Rates(2_500, 250, 3_125, 15_000)
  const LUNA := Rates(1_000, 100, 1_250, 6_000)

  function Unpriced(status: Status): Estimate { Estimate(status, None, None) }
  function Priced(status: Status, lower: i64, upper: i64): Estimate { Estimate(status, Some(lower), Some(upper)) }

  function RatesOf(model: string): Option<Rates> {
    if model == "gpt-5.6" || model == "gpt-5.6-sol" then Some(SOL)
    else if model == "gpt-5.6-terra" then Some(TERRA)
    else if model == "gpt-5.6-luna" then Some(LUNA)
    else None
  }

  // ---------------------------------------------------------------- checked arithmetic

  function Narrow(value: int): Option<i64> {
    if I64_MIN <= value <= I64_MAX then Some(value) else None
  }

  function CheckedAdd(a: Option<i64>, b: Option<i64>): Option<i64> {
    if a.None? || b.None? then None else Narrow(a.value + b.value)
  }

  /** The operands are never negative, so the truncating division is Dafny's. */
  function CategoryCost(tokens: i64, rate: i64, numerator: i64, denominator: i64): Option<i64>
    requires tokens >= 0 && rate >= 0 && numerator >= 0 && denominator > 0
  {
    Narrow(tokens * rate * numerator / denominator)
  }

  predicate Charges(r: Rates) { r.input >= 0 && r.cached >= 0 && r.cacheWrite >= 0 && r.output >= 0 }

  function CalculateCost(rates: Rates, uncached: i64, cached: i64, written: i64, output: i64, long: bool): Option<i64>
    requires Charges(rates) && uncached >= 0 && cached >= 0 && written >= 0 && output >= 0
  {
    var factor := if long then 2 else 1;
    var uncachedCost := CategoryCost(uncached, rates.input, factor, 1);
    var cachedCost := CategoryCost(cached, rates.cached, factor, 1);
    var writtenCost := CategoryCost(written, rates.cacheWrite, factor, 1);
    var outputCost := CategoryCost(output, rates.output, if long then 3 else 1, if long then 2 else 1);
    CheckedAdd(CheckedAdd(CheckedAdd(uncachedCost, cachedCost), writtenCost), outputCost)
  }

  // ---------------------------------------------------------------- the estimate

  function EstimateCost(model: Option<string>, usage: Usage): Estimate {
    if model.None? || RatesOf(model.value).None? then Unpriced(UnknownModel)
    else if usage.input.None? || usage.output.None? || usage.cached.None? then Unpriced(MissingUsage)
    else
      var rates := RatesOf(model.value).value;
      var input, output, cached := usage.input.value, usage.output.value, usage.cached.value;
      if input < 0 || output < 0 || cached < 0 || cached > input then Unpriced(InvalidUsage)
      else if input < MIN_CACHEABLE_INPUT_TOKENS
          && (cached != 0 || (usage.cacheWrite.Some? && usage.cacheWrite.value != 0)) then
        Unpriced(InvalidUsage)
      else
        var long := input > LONG_CONTEXT_INPUT_THRESHOLD;
        var cacheWrite := if input < MIN_CACHEABLE_INPUT_TOKENS then Some(0) else usage.cacheWrite;
        match cacheWrite
        case Some(written) =>
          if written < 0 || Narrow(cached + written).None? || cached + written > input then Unpriced(InvalidUsage)
          else
            (match CalculateCost(rates, input - cached - written, cached, written, output, long)
             case Some(cost) => Priced(Complete, cost, cost)
             case None => Unpriced(InvalidUsage))
        case None =>
          var room := input - cached;
          var lower := CalculateCost(rates, room, cached, 0, output, long);
          var upper := CalculateCost(rates, 0, cached, room, output, long);
          if lower.Some? && upper.Some? then Priced(MissingCacheWrite, lower.value, upper.value)
          else Unpriced(InvalidUsage)
  }

  // ---------------------------------------------------------------- the published prices

  /** Dollars per million tokens, as published. */
  datatype Price = Price(input: real, cached: real, cacheWrite: real, output: real)

  function PriceOf(model: string): Option<Price> {
    if model == "gpt-5.6" || model == "gpt-5.6-sol" then Some(Price(5.00, 0.50, 6.25, 30.00))
    else if model == "gpt-5.6-terra" then Some(Price(2.50, 0.25, 3.125, 15.00))
    else if model == "gpt-5.6-luna" then Some(Price(1.00, 0.10, 1.25, 6.00))
    else None
  }

  /** The exact price in dollars: twice the input price and one and a half times the output price on long contexts. */
  function Dollars(price: Price, input: int, cached: int, written: int, output: int): real {
    var long := input > LONG_CONTEXT_INPUT_THRESHOLD;
    var inputPart :=
      (input - cached - written) as real * price.input + cached as real * price.cached
          + written as real * price.cacheWrite;
    (inputPart * (if long then 2.0 else 1.0)
        + output as real * price.output * (if long then 1.5 else 1.0)) / 1_000_000.0
  }

  /** Which counters, with `written` cache-write tokens, describe a request that can be billed. */
  predicate Admissible(usage: Usage, written: int) {
    && usage.input.Some? && usage.output.Some? && usage.cached.Some?
    && 0 <= usage.output.value
    && 0 <= usage.cached.value
    && 0 <= written
    && usage.cached.value + written <= usage.input.value
    && (usage.input.value < MIN_CACHEABLE_INPUT_TOKENS ==> usage.cached.value == 0 && written == 0)
  }

  function ExactNano(model: string, usage: Usage, written: int): (cost: real)
    requires PriceOf(model).Some? && Admissible(usage, written)
  {
    Dollars(PriceOf(model).value, usage.input.value, usage.cached.value, written, usage.output.value) * 1_000_000_000.0
  }

  /** The products that `checked_category_cost` takes in 128 bits fit there, for every model and both uplifts. */
  lemma WideEnough(model: string, tokens: i64, factor: int)
    requires RatesOf(model).Some? && 0 <= factor <= 3
    ensures
      var r := RatesOf(model).value;
      var limit := 0x8000_0000_0000_0000 * 0x1_0000_0000_0000_0000;
      && -limit <= tokens * r.input * factor < limit && -limit <= tokens * r.cached * factor < limit
      && -limit <= tokens * r.cacheWrite * factor < limit && -limit <= tokens * r.output * factor < limit
  {}

  lemma CheckedSum(a: nat, b: nat, c: nat, d: nat)
    ensures CheckedAdd(CheckedAdd(CheckedAdd(Narrow(a), Narrow(b)), Narrow(c)), Narrow(d)) == Narrow(a + b + c + d)
  {}

  /** The four products of `CalculateCost`, unchecked. */
  function Total(r: Rates, uncached: nat, cached: nat, written: nat, output: nat, long: bool): int {
    var factor := if long then 2 else 1;
    uncached * r.input * factor + cached * r.cached * factor + written * r.cacheWrite * factor
    + output * r.output * (if long then 3 else 1) / (if long then 2 else 1)
  }

  lemma NotNegative(tokens: nat, rate: nat, factor: nat)
    ensures tokens * rate * factor >= 0
  {}

  lemma CostIsTotal(r: Rates, uncached: i64, cached: i64, written: i64, output: i64, long: bool)
    requires Charges(r) && uncached >= 0 && cached >= 0 && written >= 0 && output >= 0
    ensures CalculateCost(r, uncached, cached, written, output, long)
        == Narrow(Total(r, uncached, cached, written, output, long))
  {
    hide Narrow, CheckedAdd;
    var factor, num, den := if long then 2 else 1, if long then 3 else 1, if long then 2 else 1;
    NotNegative(uncached, r.input, factor);
    NotNegative(cached, r.cached, factor);
    NotNegative(written, r.cacheWrite, factor);
    NotNegative(output, r.output, num);
    CheckedSum(uncached * r.input * factor, cached * r.cached * factor, written * r.cacheWrite * factor,
        output * r.output * num / den);
  }

  lemma TotalIsExact(model: string, uncached: nat, cached: nat, written: nat, output: nat, long: bool)
    requires PriceOf(model).Some?
    ensures
      var p := PriceOf(model).value;
      Total(RatesOf(model).value, uncached, cached, written, output, long) as real
      == ((uncached as real * p.input + cached as real * p.cached
          + written as real * p.cacheWrite) * (if long then 2.0 else 1.0)
         + output as real * p.output * (if long then 1.5 else 1.0)) * 1_000.0
  {
    var r := RatesOf(model).value;
    if r == SOL {
    } else if r == TERRA {
    } else {
    }
  }

  /**
    Checked category by category and sum by sum, the cost is the exact one, or absent exactly when that
    does not fit.
   */
  lemma CostIsExact(model: string, usage: Usage, written: i64)
    requires PriceOf(model).Some? && Admissible(usage, written)
    ensures
      var input, cached := usage.input.value, usage.cached.value;
      var cost := CalculateCost(RatesOf(model).value, input - cached - written, cached, written, usage.output.value,
          input > LONG_CONTEXT_INPUT_THRESHOLD);
      && (cost.Some? <==> ExactNano(model, usage, written) <= I64_MAX as real)
      && (cost.Some? ==> cost.value as real == ExactNano(model, usage, written))
  {
    hide CalculateCost, Total;
    var input, cached := usage.input.value, usage.cached.value;
    var long := input > LONG_CONTEXT_INPUT_THRESHOLD;
    CostIsTotal(RatesOf(model).value, input - cached - written, cached, written, usage.output.value, long);
    TotalIsExact(model, input - cached - written, cached, written, usage.output.value, long);
  }

  // ---------------------------------------------------------------- main results

  /** The cache-write count a request is priced at: the reported one, or zero where nothing could be cached. */
  function WriteCount(usage: Usage): Option<int> {
    if usage.cacheWrite.Some? then Some(usage.cacheWrite.value)
    else if usage.input.Some? && usage.input.value < MIN_CACHEABLE_INPUT_TOKENS then Some(0)
    else None
  }

  predicate Known(model: Option<string>) { model.Some? && PriceOf(model.value).Some? }

  predicate Counted(usage: Usage) { usage.input.Some? && usage.output.Some? && usage.cached.Some? }

  /** All the input that was not read from the cache. */
  function Room(usage: Usage): int
    requires Counted(usage)
  { usage.input.value - usage.cached.value }

  /** The request can be billed with `written` cache writes, at a cost that fits. */
  predicate Affordable(model: Option<string>, usage: Usage, written: int) {
    Known(model) && Admissible(usage, written) && ExactNano(model.value, usage, written) <= I64_MAX as real
  }

  /** Exactly which requests are priced in full, and that the price is the exact one: overflow never wraps. */
  lemma CompleteExactly(model: Option<string>, usage: Usage)
    ensures
      var e := EstimateCost(model, usage);
      && (e.status.Complete? <==> WriteCount(usage).Some? && Affordable(model, usage, WriteCount(usage).value))
      && (e.status.Complete? ==>
            && e.lower == e.upper
            && e.lower.Some?
            && e.lower.value as real == ExactNano(model.value, usage, WriteCount(usage).value))
  {
    hide CalculateCost, ExactNano;
    var count := WriteCount(usage);
    if count.Some? && Known(model) && Admissible(usage, count.value) {
      CostIsExact(model.value, usage, count.value);
    }
  }

  /** Exactly which requests get a range: the count is missing and the dearest count still fits. */
  lemma RangeExactly(model: Option<string>, usage: Usage)
    ensures
      var e := EstimateCost(model, usage);
      && (e.status.MissingCacheWrite?
          <==> Counted(usage) && WriteCount(usage).None? && Affordable(model, usage, Room(usage)))
      && (e.status.MissingCacheWrite? ==>
            && e.lower.Some? && e.upper.Some?
            && e.lower.value as real == ExactNano(model.value, usage, 0)
            && e.upper.value as real == ExactNano(model.value, usage, Room(usage)))
  {
    hide CalculateCost, ExactNano;
    if Counted(usage) && WriteCount(usage).None? && Known(model) && Admissible(usage, Room(usage)) {
      MoreWritesCostMore(model.value, usage, 0, Room(usage));
      CostIsExact(model.value, usage, 0);
      CostIsExact(model.value, usage, Room(usage));
    }
  }

  lemma MoreWritesCostMore(model: string, usage: Usage, few: int, many: int)
    requires PriceOf(model).Some? && Admissible(usage, few) && Admissible(usage, many) && few <= many
    ensures 0.0 <= ExactNano(model, usage, few) <= ExactNano(model, usage, many)
  {
  }

  /** The other three outcomes. */
  lemma UnpricedExactly(model: Option<string>, usage: Usage)
    ensures
      var e := EstimateCost(model, usage);
      && (e.status.UnknownModel? <==> !Known(model))
      && (e.status.MissingUsage? <==> Known(model) && !Counted(usage))
      && (!e.status.IsPriced() <==> e.lower.None? && e.upper.None?)
      && (e.lower.None? <==> e.upper.None?)
  {
    hide CalculateCost;
  }

  function WithWrite(usage: Usage, written: i64): Usage { usage.(cacheWrite := Some(written)) }

  /** A range bounds the cost at every count the request could have had, and both of its ends are such a cost. */
  lemma RangeSoundAndTight(model: Option<string>, usage: Usage)
    requires EstimateCost(model, usage).status.MissingCacheWrite?
    ensures
      var e := EstimateCost(model, usage);
      && e.lower.Some? && e.upper.Some? && Counted(usage)
      && (forall w: i64 | Admissible(usage, w) ::
            var at := EstimateCost(model, WithWrite(usage, w));
            at.status.Complete? && at.lower == at.upper && at.lower.Some?
                && e.lower.value <= at.lower.value <= e.upper.value)
      && Admissible(usage, 0)
          && EstimateCost(model, WithWrite(usage, 0)) == Priced(Complete, e.lower.value, e.lower.value)
      && Admissible(usage, Room(usage))
          && EstimateCost(model, WithWrite(usage, Room(usage))) == Priced(Complete, e.upper.value, e.upper.value)
  {
    hide EstimateCost, ExactNano;
    RangeExactly(model, usage);
    forall w: i64 | Admissible(usage, w)
      ensures
        var at := EstimateCost(model, WithWrite(usage, w));
        && at.status.Complete? && at.lower == at.upper && at.lower.Some?
        && at.lower.value as real == ExactNano(model.value, usage, w)
        && ExactNano(model.value, usage, 0) <= ExactNano(model.value, usage, w)
        && ExactNano(model.value, usage, w) <= ExactNano(model.value, usage, Room(usage))
    {
      SameCost(model.value, usage, w);
      CompleteExactly(model, WithWrite(usage, w));
      MoreWritesCostMore(model.value, usage, 0, w);
      MoreWritesCostMore(model.value, usage, w, Room(usage));
    }
  }

  lemma SameCost(model: string, usage: Usage, written: i64)
    requires PriceOf(model).Some? && Admissible(usage, written)
    ensures Admissible(WithWrite(usage, written), written)
    ensures ExactNano(model, WithWrite(usage, written), written) == ExactNano(model, usage, written)
  {}

  /** A missing count is priced exactly when every count it could stand for is; one overflow refuses the whole range. */
  lemma RangePricedExactly(model: Option<string>, usage: Usage)
    requires Counted(usage) && Admissible(usage, 0) && WriteCount(usage).None?
    ensures EstimateCost(model, usage).status.MissingCacheWrite? <==>
            forall w: i64 | Admissible(usage, w) :: EstimateCost(model, WithWrite(usage, w)).status.Complete?
  {
    if EstimateCost(model, usage).status.MissingCacheWrite? {
      RangeSoundAndTight(model, usage);
    } else {
      hide EstimateCost, ExactNano;
      var w := Room(usage);
      assert Admissible(usage, w);
      RangeExactly(model, usage);
      CompleteExactly(model, WithWrite(usage, w));
      if Known(model) {
        SameCost(model.value, usage, w);
      }
      assert !EstimateCost(model, WithWrite(usage, w)).status.Complete?;
    }
  }

  /** A priced estimate is a range of costs, never an empty or negative one. */
  lemma RangeOrdered(model: Option<string>, usage: Usage)
    ensures
      var e := EstimateCost(model, usage);
      e.status.IsPriced() ==> e.lower.Some? && e.upper.Some? && 0 <= e.lower.value <= e.upper.value
  {
    hide EstimateCost, ExactNano;
    CompleteExactly(model, usage);
    RangeExactly(model, usage);
    if EstimateCost(model, usage).status.Complete? {
      MoreWritesCostMore(model.value, usage, WriteCount(usage).value, WriteCount(usage).value);
    } else if EstimateCost(model, usage).status.MissingCacheWrite? {
      MoreWritesCostMore(model.value, usage, 0, Room(usage));
    }
  }
}
