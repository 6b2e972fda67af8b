/** src/App.jsx: `handleAnalyze` counts the text's tokens once and builds,
    for every catalog entry in catalog order, the entry's token count and its
    cost at the catalog's per-1K prices.  The tokenizer is a parameter: a
    function from the text to its base token count, or `None` where
    `encode` throws. */
module App {
  import opened Wrappers
  import opened JsObject
  import opened JsString
  import opened Models
  import TokenAnalyzer
  import Constants

  /** What the page shows for one model. */
  datatype ModelResult = ModelResult(
    name: string, description: string, tokenCount: nat,
    inputCost: real, outputCost: real, totalCost: real)

  /** The count for model `modelId`: corrected upwards by 15% when the id
      names "claude", the base count otherwise. */
  function TokenCount(modelId: string, n: nat): (r: nat)
    ensures r >= n
    ensures r == n <==> n == 0 || !Contains(modelId, "claude")
  {
    if Contains(modelId, "claude") then TokenAnalyzer.ClaudeTokens(n) else n
  }

  /** One model's result: the catalog's name and description, the count,
      and the costs of that same count at the catalog's prices per 1K tokens. */
  function ResultFor(config: ModelConfig, tokenCount: nat): (r: ModelResult)
    ensures r.name == config.name && r.description == config.description
    ensures r.tokenCount == tokenCount
    ensures 1000.0 * r.inputCost == r.tokenCount as real * config.inputCost
    ensures 1000.0 * r.outputCost == r.tokenCount as real * config.outputCost
    ensures r.totalCost == r.inputCost + r.outputCost
  {
    var inputCost := tokenCount as real * config.inputCost / 1000.0;
    var outputCost := tokenCount as real * config.outputCost / 1000.0;
    ModelResult(config.name, config.description, tokenCount, inputCost, outputCost, inputCost + outputCost)
  }

  /** The result object: one entry per catalog entry, under the same id and
      in the same order. */
  function CatalogResults(catalog: seq<Entry<ModelConfig>>, n: nat): (results: seq<Entry<ModelResult>>)
    ensures Keys(results) == Keys(catalog)
  {
    seq(|catalog|, i requires 0 <= i < |catalog| =>
      Entry(catalog[i].key, ResultFor(catalog[i].value, TokenCount(catalog[i].key, n))))
  }

  /** Storing the next catalog entry's result extends the result object by one entry. */
  lemma CatalogResultsStep(catalog: seq<Entry<ModelConfig>>, n: nat, i: int)
    requires DistinctKeys(catalog) && 0 <= i < |catalog|
    ensures Put(CatalogResults(catalog[..i], n), catalog[i].key,
                ResultFor(catalog[i].value, TokenCount(catalog[i].key, n)))
            == CatalogResults(catalog[..i + 1], n)
  {
    assert catalog[..i + 1] == catalog[..i] + [catalog[i]];
    var acc := CatalogResults(catalog[..i], n);
    assert catalog[i].key !in Keys(acc) by {
      forall k | 0 <= k < i ensures acc[k].key != catalog[i].key {
        assert catalog[k].key != catalog[i].key;
      }
    }
  }

  /** The `reduce` of `handleAnalyze`: visits the catalog entries in order
      and stores each one's result under its id in the accumulator. */
  method ComputeModelResults(catalog: seq<Entry<ModelConfig>>, n: nat) returns (acc: seq<Entry<ModelResult>>)
    requires DistinctKeys(catalog)
    ensures acc == CatalogResults(catalog, n)
  {
    acc := [];
    var i := 0;
    while i < |catalog|
      invariant 0 <= i <= |catalog|
      invariant acc == CatalogResults(catalog[..i], n)
    {
      var modelId, config := catalog[i].key, catalog[i].value;
      var tokenCount := TokenCount(modelId, n);
      CatalogResultsStep(catalog, n, i);
      acc := Put(acc, modelId, ResultFor(config, tokenCount));
      i := i + 1;
    }
    assert catalog[..i] == catalog;
  }

  /** The component's state. */
  class App {
    var text: string
    var results: Option<seq<Entry<ModelResult>>>

    constructor()
      ensures text == "" && results == None
    {
      text := "";
      results := None;
    }

    /** `handleAnalyze`: the catalog's results for the current text.  The
        handler has no catch block: where `encode` throws, the exception
        leaves the handler before `setResults` and the results stay. */
    method HandleAnalyze(tokenize: string -> Option<nat>)
      modifies this
      ensures text == old(text)
      ensures tokenize(text).Some? ==> results == Some(CatalogResults(MODEL_CONFIGS, tokenize(text).value))
      ensures tokenize(text).None? ==> results == old(results)
    {
      var count := tokenize(text);
      if count.None? {
        return;
      }
      CatalogShape();
      var modelResults := ComputeModelResults(MODEL_CONFIGS, count.value);
      results := Some(modelResults);
    }
  }

  /** An empty text shows zero tokens and zero cost for every model. */
  lemma NoTokensNoCost(catalog: seq<Entry<ModelConfig>>)
    ensures forall i :: 0 <= i < |catalog| ==>
              var r := CatalogResults(catalog, 0)[i].value;
              r.tokenCount == 0 && r.inputCost == 0.0 && r.outputCost == 0.0 && r.totalCost == 0.0
  {
  }

  /** Every model is shown at least the base count, and costs are never
      negative at the catalog's positive prices. */
  lemma ResultsAreBounded(n: nat)
    ensures forall i :: 0 <= i < |MODEL_CONFIGS| ==>
              var r := CatalogResults(MODEL_CONFIGS, n)[i].value;
              r.tokenCount >= n && r.inputCost >= 0.0 && r.outputCost >= 0.0 && r.totalCost >= 0.0
  {
    CatalogShape();
    forall i | 0 <= i < |MODEL_CONFIGS|
      ensures var r := CatalogResults(MODEL_CONFIGS, n)[i].value;
              r.inputCost >= 0.0 && r.outputCost >= 0.0
    {
      var r := CatalogResults(MODEL_CONFIGS, n)[i].value;
      var c := r.tokenCount as real;
      assert c >= 0.0;
      assert c * MODEL_CONFIGS[i].value.inputCost >= 0.0;
      assert c * MODEL_CONFIGS[i].value.outputCost >= 0.0;
    }
  }

  /** The correction applies to exactly the two Claude models of the catalog. */
  lemma ClaudeModelsAreCorrected(n: nat)
    ensures forall i :: 0 <= i < |MODEL_CONFIGS| ==>
              CatalogResults(MODEL_CONFIGS, n)[i].value.tokenCount
              == if i >= 2 then TokenAnalyzer.ClaudeTokens(n) else n
  {
    ClaudeIdsAreTheLastTwo();
  }

  /** App.jsx and tokenAnalyser.jsx count the same tokens for the same
      models, in the same order. */
  lemma CountsAgreeWithTokenAnalyzer(n: nat)
    ensures Keys(CatalogResults(MODEL_CONFIGS, n)) == Keys(TokenAnalyzer.CountTokens(n))
    ensures forall i :: 0 <= i < |MODEL_CONFIGS| ==>
              CatalogResults(MODEL_CONFIGS, n)[i].value.tokenCount == TokenAnalyzer.CountTokens(n)[i].value
  {
    CatalogPricesMatchCostTable();
    TokenAnalyzer.SameCostTables();
    var counts := TokenAnalyzer.CountTokens(n);
    forall i | 0 <= i < |MODEL_CONFIGS|
      ensures CatalogResults(MODEL_CONFIGS, n)[i].value.tokenCount == counts[i].value
    {
      assert counts[i].key == Keys(counts)[i] == Keys(MODEL_CONFIGS)[i] == MODEL_CONFIGS[i].key;
    }
  }

  /** At the same price, a count costs a thousand times more divided by
      1000 than divided by 1,000,000. */
  lemma ResultIsAThousandTimesCost(config: ModelConfig, price: Constants.Price, count: nat)
    requires config.inputCost == price.input && config.outputCost == price.output
    ensures ResultFor(config, count).inputCost == 1000.0 * TokenAnalyzer.CostOf(count, price).input
    ensures ResultFor(config, count).outputCost == 1000.0 * TokenAnalyzer.CostOf(count, price).output
  {
    var x, y := count as real * price.input, count as real * price.output;
    assert x / 1000.0 == 1000.0 * (x / 1000000.0);
    assert y / 1000.0 == 1000.0 * (y / 1000000.0);
  }

  /** Model `i`'s costs in the two components, for the same text. */
  lemma CostsDifferByAThousandAt(n: nat, i: int)
    requires 0 <= i < |MODEL_CONFIGS|
    ensures |TokenAnalyzer.Analyze(n).costs| == |MODEL_CONFIGS|
    ensures CatalogResults(MODEL_CONFIGS, n)[i].value.inputCost
            == 1000.0 * TokenAnalyzer.Analyze(n).costs[i].value.input
    ensures CatalogResults(MODEL_CONFIGS, n)[i].value.outputCost
            == 1000.0 * TokenAnalyzer.Analyze(n).costs[i].value.output
  {
    CountsAgreeWithTokenAnalyzer(n);
    CatalogPricesMatchCostTable();
    TokenAnalyzer.SameCostTables();
    TokenAnalyzer.CostEntry(n, i);
    var config := MODEL_CONFIGS[i].value;
    var price := TokenAnalyzer.MODEL_COSTS[i].value;
    var count := TokenCount(MODEL_CONFIGS[i].key, n);
    assert CatalogResults(MODEL_CONFIGS, n)[i].value == ResultFor(config, count);
    assert TokenAnalyzer.Analyze(n).costs[i].value == TokenAnalyzer.CostOf(count, price);
    ResultIsAThousandTimesCost(config, price, count);
  }

  /** For the same text, App.jsx reports a thousand times the cost
      tokenAnalyser.jsx reports: the former divides the per-1K prices by
      1000, the latter by 1,000,000. */
  lemma CostsDifferByAThousand(n: nat)
    ensures forall i :: 0 <= i < |MODEL_CONFIGS| ==>
              && CatalogResults(MODEL_CONFIGS, n)[i].value.inputCost
                 == 1000.0 * TokenAnalyzer.Analyze(n).costs[i].value.input
              && CatalogResults(MODEL_CONFIGS, n)[i].value.outputCost
                 == 1000.0 * TokenAnalyzer.Analyze(n).costs[i].value.output
  {
    forall i | 0 <= i < |MODEL_CONFIGS|
      ensures CatalogResults(MODEL_CONFIGS, n)[i].value.inputCost
              == 1000.0 * TokenAnalyzer.Analyze(n).costs[i].value.input
      ensures CatalogResults(MODEL_CONFIGS, n)[i].value.outputCost
              == 1000.0 * TokenAnalyzer.Analyze(n).costs[i].value.output
    {
      CostsDifferByAThousandAt(n, i);
    }
  }
}
