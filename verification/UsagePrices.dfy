/** What a call costs: which price applies, and that a model's price is a rate per million tokens of each kind. */
module UsagePrices {
  import opened Wrappers
  import opened Usage

  /** A call worth pricing: it did not fail before it used anything. */
  predicate Used(r: Record) { r.failure.None? || r.inputTokens > 0 || r.outputTokens > 0 }

  /** A price per call takes precedence over every price per token. */
  predicate UnitPriced(kind: Kind, pricing: Pricing) { kind.Judgment? && pricing.jevUnitPrice.Some? }

  predicate Configured(pricing: Pricing, model: string) {
    pricing.modelPrices.Some? && model in pricing.modelPrices.value.prices
  }

  /** The table of a kind of call: the one given, else the one that ships. */
  function TableOf(kind: Kind, pricing: Pricing): PriceTable {
    match kind
    case Judgment => (match pricing.jevTable case Some(t) => t case None => JEV_PRICE_TABLE)
    case Generation => (match pricing.generationTable case Some(t) => t case None => GENERATION_PRICE_TABLE)
  }

  /** The rate of a model: the configured one; else, unless the model is the fake one, that of the kind's table. */
  ghost predicate HasRate(kind: Kind, pricing: Pricing, model: string, p: ModelPrice) {
    if Configured(pricing, model) then p == pricing.modelPrices.value.prices[model]
    else model != "fake" && model in TableOf(kind, pricing).models && p == TableOf(kind, pricing).models[model]
  }

  /** The cost of some tokens at a rate per million. */
  ghost predicate AtRate(usd: Option<real>, p: ModelPrice, input: nat, output: nat) {
    usd.Some? && usd.value * 1000000.0 == input as real * p.inputUsdPerMtok + output as real * p.outputUsdPerMtok
  }

  /** A reported cost wins; a call that failed without usage has none; then the unit price of a judgment. */
  lemma FirstPrices(kind: Kind, r: Record, pricing: Pricing)
    ensures var price := PriceCall(kind, r, pricing);
            && (r.usd.Some? ==> price.usd == r.usd && (r.source.Some? ==> price.source == r.source.value))
            && (r.usd.None? && !Used(r) ==> price.usd.None?)
            && (r.usd.None? && Used(r) && UnitPriced(kind, pricing) ==>
                price.usd == Some(pricing.jevUnitPrice.value.usd) && price.source == pricing.jevUnitPrice.value.source)
            && (r.usd.None? && Used(r) && !UnitPriced(kind, pricing) && r.model.None? ==> price.usd.None?)
  {
  }

  /** Then the model's rate, configured before tabled; the fake model is free unless configured; else no price. */
  lemma ModelPrices(kind: Kind, r: Record, pricing: Pricing, model: string)
    requires r.usd.None? && Used(r) && !UnitPriced(kind, pricing) && r.model == Some(model)
    ensures var price := PriceCall(kind, r, pricing);
            && (forall p :: HasRate(kind, pricing, model, p) ==> AtRate(price.usd, p, r.inputTokens, r.outputTokens))
            && (Configured(pricing, model) ==> price.source == pricing.modelPrices.value.source)
            && (!Configured(pricing, model) && model == "fake" ==> price.usd == Some(0.0))
            && (!Configured(pricing, model) && model != "fake" && model !in TableOf(kind, pricing).models ==>
                price.usd.None?)
  {
  }

  /** A call of `model` that used these tokens. */
  function TokenCall(model: string, input: nat, output: nat): Record {
    Record(input, output, None, None, Some(model), None, None)
  }

  /** What it costs. */
  function CostOf(kind: Kind, pricing: Pricing, model: string, input: nat, output: nat): Option<real> {
    PriceCall(kind, TokenCall(model, input, output), pricing).usd
  }

  function Worth(p: ModelPrice, input: nat, output: nat): real {
    (input as real * p.inputUsdPerMtok + output as real * p.outputUsdPerMtok) / 1000000.0
  }

  lemma ModelCosts(kind: Kind, pricing: Pricing, model: string, p: ModelPrice, input: nat, output: nat)
    requires HasRate(kind, pricing, model, p) && !UnitPriced(kind, pricing)
    ensures CostOf(kind, pricing, model, input, output) == Some(Worth(p, input, output))
  {
    ModelPrices(kind, TokenCall(model, input, output), pricing, model);
  }

  lemma WorthAdds(p: ModelPrice, a: nat, b: nat, c: nat, d: nat)
    ensures Worth(p, a + b, c + d) == Worth(p, a, c) + Worth(p, b, d)
  {
    Additive(p, a, b, c, d);
  }

  lemma WorthScales(p: ModelPrice, a: nat, c: nat, k: nat)
    ensures Worth(p, k * a, k * c) == k as real * Worth(p, a, c)
  {
    Homogeneous(p, a, c, k);
    Quotient(k as real, a as real * p.inputUsdPerMtok + c as real * p.outputUsdPerMtok);
  }

  lemma Quotient(k: real, e: real)
    ensures k * e / 1000000.0 == k * (e / 1000000.0)
  {
  }

  /** A million tokens read cost the input rate, a million written the output rate. */
  lemma CostOfAMillion(kind: Kind, pricing: Pricing, model: string, p: ModelPrice)
    requires HasRate(kind, pricing, model, p) && !UnitPriced(kind, pricing)
    ensures CostOf(kind, pricing, model, 1000000, 0) == Some(p.inputUsdPerMtok)
    ensures CostOf(kind, pricing, model, 0, 1000000) == Some(p.outputUsdPerMtok)
  {
    ModelCosts(kind, pricing, model, p, 1000000, 0);
    ModelCosts(kind, pricing, model, p, 0, 1000000);
  }

  /** Costs add up over tokens. */
  lemma CostsAddUp(kind: Kind, pricing: Pricing, model: string, p: ModelPrice, a: nat, b: nat, c: nat, d: nat)
    requires HasRate(kind, pricing, model, p) && !UnitPriced(kind, pricing)
    ensures var (x, y) := (CostOf(kind, pricing, model, a, c), CostOf(kind, pricing, model, b, d));
            x.Some? && y.Some? && CostOf(kind, pricing, model, a + b, c + d) == Some(x.value + y.value)
  {
    ModelCosts(kind, pricing, model, p, a, c);
    ModelCosts(kind, pricing, model, p, b, d);
    ModelCosts(kind, pricing, model, p, a + b, c + d);
    WorthAdds(p, a, b, c, d);
  }

  /** Costs scale with the tokens. */
  lemma CostsScale(kind: Kind, pricing: Pricing, model: string, p: ModelPrice, a: nat, c: nat, k: nat, x: real)
    requires HasRate(kind, pricing, model, p) && !UnitPriced(kind, pricing)
    requires CostOf(kind, pricing, model, a, c) == Some(x)
    ensures CostOf(kind, pricing, model, k * a, k * c) == Some(k as real * x)
  {
    ModelCosts(kind, pricing, model, p, a, c);
    var (ka, kc) := (k * a, k * c);
    ModelCosts(kind, pricing, model, p, ka, kc);
    WorthScales(p, a, c, k);
    assert x == Worth(p, a, c);
    assert Worth(p, ka, kc) == k as real * x;
    assert CostOf(kind, pricing, model, ka, kc) == Some(Worth(p, ka, kc));
  }

  lemma Additive(p: ModelPrice, a: nat, b: nat, c: nat, d: nat)
    ensures (a + b) as real * p.inputUsdPerMtok + (c + d) as real * p.outputUsdPerMtok
         == (a as real * p.inputUsdPerMtok + c as real * p.outputUsdPerMtok)
          + (b as real * p.inputUsdPerMtok + d as real * p.outputUsdPerMtok)
  {
  }

  lemma Scaled(n: nat, k: nat, rate: real)
    ensures (k * n) as real * rate == k as real * (n as real * rate)
  {
    ProductAsReal(k, n);
    assert (k as real * n as real) * rate == k as real * (n as real * rate);
  }

  lemma {:induction false} ProductAsReal(k: nat, n: nat)
    ensures (k * n) as real == k as real * n as real
  {
    if k > 0 {
      ProductAsReal(k - 1, n);
      assert k * n == (k - 1) * n + n;
      assert k as real * n as real == (k - 1) as real * n as real + n as real;
    }
  }

  lemma Homogeneous(p: ModelPrice, a: nat, c: nat, k: nat)
    ensures (k * a) as real * p.inputUsdPerMtok + (k * c) as real * p.outputUsdPerMtok
         == k as real * (a as real * p.inputUsdPerMtok + c as real * p.outputUsdPerMtok)
  {
    Scaled(a, k, p.inputUsdPerMtok);
    Scaled(c, k, p.outputUsdPerMtok);
  }

  /** With nothing configured: what a million tokens of the models in the tables that ship cost. */
  lemma ShippedRates()
    ensures var none := Pricing(None, None, None, None);
            && CostOf(Generation, none, "openai/gpt-4o-mini", 1000000, 0) == Some(0.15)
            && CostOf(Generation, none, "openai/gpt-4o-mini", 0, 1000000) == Some(0.6)
            && CostOf(Judgment, none, "jev-latest", 1000000, 0) == Some(0.042)
            && CostOf(Judgment, none, "jev-latest", 0, 1000000) == Some(0.0)
            && CostOf(Judgment, none, "openai/gpt-4o-mini", 1000000, 0) == None
            && CostOf(Generation, none, "fake", 1000000, 1000000) == Some(0.0)
  {
    var none := Pricing(None, None, None, None);
    var mini, jev := ModelPrice(0.15, 0.6), ModelPrice(0.042, 0.0);
    assert HasRate(Generation, none, "openai/gpt-4o-mini", mini) && HasRate(Judgment, none, "jev-latest", jev);
    CostOfAMillion(Generation, none, "openai/gpt-4o-mini", mini);
    CostOfAMillion(Judgment, none, "jev-latest", jev);
  }
}
