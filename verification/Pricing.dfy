// Token pricing in integer microdollars, every part rounded up.
module Pricing {
  const TOKENS_PER_MILLION := 1_000_000

  datatype Date = Date(year: nat, month: nat, day: nat)

  predicate DateLeq(a: Date, b: Date) {
    || a.year < b.year
    || (a.year == b.year && (a.month < b.month || (a.month == b.month && a.day <= b.day)))
  }

  datatype PricingPolicy = PricingPolicy(
    provider: string, model: string, effectiveFrom: Date, effectiveUntil: Date, openEnded: bool,
    inputRate: nat, outputRate: nat, cachedRate: nat)
  {
    predicate IsEffective(on: Date) {
      DateLeq(effectiveFrom, on) && (openEnded || !DateLeq(effectiveUntil, on))
    }
  }

  function CeilRate(tokens: nat, rate: nat): nat {
    (tokens * rate + TOKENS_PER_MILLION - 1) / TOKENS_PER_MILLION
  }

  // Cached input tokens are part of the input tokens.
  function Quote(policy: PricingPolicy, input: nat, output: nat, cached: nat): nat
    requires cached <= input
  {
    CeilRate(input - cached, policy.inputRate) + CeilRate(cached, policy.cachedRate) + CeilRate(output, policy.outputRate)
  }

  // CeilRate is the least whole number of microdollars covering the exact price.
  lemma CeilRateIsLeast(tokens: nat, rate: nat)
    ensures CeilRate(tokens, rate) * TOKENS_PER_MILLION >= tokens * rate
    ensures forall c: nat :: c * TOKENS_PER_MILLION >= tokens * rate ==> CeilRate(tokens, rate) <= c
  {
  }

  // A quote covers the exact price of all tokens, each at its own rate in microdollars a million,
  // and exceeds it by less than three microdollars, one for each rounding.
  lemma QuoteExact(policy: PricingPolicy, input: nat, output: nat, cached: nat)
    requires cached <= input
    ensures
      var exact := (input - cached) * policy.inputRate + cached * policy.cachedRate + output * policy.outputRate;
      exact <= Quote(policy, input, output, cached) * 1_000_000 < exact + 3_000_000
  {
    CeilRateWithinOne(input - cached, policy.inputRate);
    CeilRateWithinOne(cached, policy.cachedRate);
    CeilRateWithinOne(output, policy.outputRate);
    hide CeilRate;
  }

  lemma CeilRateWithinOne(tokens: nat, rate: nat)
    ensures tokens * rate <= CeilRate(tokens, rate) * 1_000_000 < tokens * rate + 1_000_000
  {
    var exact := tokens * rate;
    assert CeilRate(tokens, rate) == (exact + 999_999) / 1_000_000;
  }

  lemma CeilRateMonotone(a: nat, b: nat, rate: nat)
    requires a <= b
    ensures CeilRate(a, rate) <= CeilRate(b, rate)
  {
    assert a * rate <= b * rate;
  }

  lemma SplitCostsAtMostOneMore(a: nat, b: nat, rate: nat)
    ensures CeilRate(a, rate) + CeilRate(b, rate) <= CeilRate(a + b, rate) + 1
  {
    assert (a + b) * rate == a * rate + b * rate;
    CeilRateIsLeast(a + b, rate);
  }

  // Usage within the reserved maxima never costs more than one microdollar above the reserve,
  // and costs more only when some input was cached.
  lemma OverrunAtMostOne(policy: PricingPolicy, maxInput: nat, maxOutput: nat, input: nat, output: nat, cached: nat)
    requires policy.cachedRate <= policy.inputRate
    requires cached <= input <= maxInput && output <= maxOutput
    ensures Quote(policy, input, output, cached) <= Quote(policy, maxInput, maxOutput, 0) + (if cached == 0 then 0 else 1)
  {
    hide CeilRate;
    CeilRateMonotone(output, maxOutput, policy.outputRate);
    CeilRateMonotone(input, maxInput, policy.inputRate);
    CeilRateMonotoneInRate(cached, policy.cachedRate, policy.inputRate);
    SplitCostsAtMostOneMore(input - cached, cached, policy.inputRate);
    NothingIsFree(policy.cachedRate);
    if cached == 0 {
      CeilRateMonotone(input - cached, input, policy.inputRate);
    }
  }

  lemma CeilRateMonotoneInRate(tokens: nat, low: nat, high: nat)
    requires low <= high
    ensures CeilRate(tokens, low) <= CeilRate(tokens, high)
  {
    assert tokens * low <= tokens * high;
  }

  lemma NothingIsFree(rate: nat)
    ensures CeilRate(0, rate) == 0
  {
  }

  // The bound is attained: two input tokens, one of them cached, at half a microdollar a token.
  lemma OverrunOfOneHappens(policy: PricingPolicy)
    requires policy.inputRate == policy.cachedRate == 500_000
    ensures Quote(policy, 2, 0, 1) == Quote(policy, 2, 0, 0) + 1
  {
    assert 1 * 500_000 == 500_000 && 2 * 500_000 == 1_000_000;
    assert CeilRate(1, 500_000) == 1;
    assert CeilRate(2, 500_000) == 1;
    NothingIsFree(500_000);
    NothingIsFree(policy.outputRate);
    hide CeilRate;
  }

  // With a cached rate above the input rate the overrun exceeds every bound.
  lemma DearCacheOverrunsWithoutBound(policy: PricingPolicy, bound: nat)
    requires policy.cachedRate > policy.inputRate
    ensures
      var tokens := (bound + 1) * TOKENS_PER_MILLION;
      Quote(policy, tokens, 0, tokens) > Quote(policy, tokens, 0, 0) + bound
  {
    var millions := bound + 1;
    WholeMillions(millions, policy.inputRate);
    WholeMillions(millions, policy.cachedRate);
    NothingIsFree(policy.inputRate);
    NothingIsFree(policy.cachedRate);
    hide CeilRate;
    assert millions * policy.cachedRate >= millions * (policy.inputRate + 1) == millions * policy.inputRate + millions;
  }

  lemma WholeMillions(millions: nat, rate: nat)
    ensures CeilRate(millions * TOKENS_PER_MILLION, rate) == millions * rate
  {
    assert millions * TOKENS_PER_MILLION * rate == millions * rate * TOKENS_PER_MILLION;
  }

  // No usage within any maxima costs more than the bound above the reserve of those maxima.
  ghost predicate OverrunBounded(policy: PricingPolicy, bound: nat) {
    forall maxInput: nat, maxOutput: nat, input: nat, output: nat, cached: nat ::
      cached <= input <= maxInput && output <= maxOutput ==>
        Quote(policy, input, output, cached) <= Quote(policy, maxInput, maxOutput, 0) + bound
  }

  // The overrun is bounded at all exactly when it is at most one microdollar, and that is exactly
  // when cached tokens are no dearer than others.
  lemma OverrunBoundedExactly(policy: PricingPolicy)
    ensures OverrunBounded(policy, 1) <==> policy.cachedRate <= policy.inputRate
    ensures (exists bound: nat :: OverrunBounded(policy, bound)) <==> policy.cachedRate <= policy.inputRate
  {
    hide CeilRate, Quote;
    if policy.cachedRate <= policy.inputRate {
      forall maxInput: nat, maxOutput: nat, input: nat, output: nat, cached: nat
        | cached <= input <= maxInput && output <= maxOutput
        ensures Quote(policy, input, output, cached) <= Quote(policy, maxInput, maxOutput, 0) + 1
      {
        OverrunAtMostOne(policy, maxInput, maxOutput, input, output, cached);
      }
      assert OverrunBounded(policy, 1);
    } else {
      forall bound: nat
        ensures !OverrunBounded(policy, bound)
      {
        DearCacheOverrunsWithoutBound(policy, bound);
      }
    }
  }
}
