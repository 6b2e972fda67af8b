/** The model catalog of src/constants/models.js. */
module Models {
  import opened JsObject
  import opened JsString
  import Constants

  /** One catalog entry; prices are documented as dollars per 1K tokens. */
  datatype ModelConfig = ModelConfig(name: string, inputCost: real, outputCost: real, description: string)

  /** `MODEL_CONFIGS`, keys in declaration order. */
  const MODEL_CONFIGS: seq<Entry<ModelConfig>> := [
    Entry("gpt-4", ModelConfig("GPT-4", 0.03, 0.06, "Most powerful GPT model")),
    Entry("gpt-3.5-turbo", ModelConfig("GPT-3.5 Turbo", 0.001, 0.002, "Fast and efficient GPT model")),
    Entry("claude-3-opus", ModelConfig("Claude 3 Opus", 0.015, 0.075, "Most capable Claude model")),
    Entry("claude-3-sonnet", ModelConfig("Claude 3 Sonnet", 0.003, 0.015, "Efficient Claude model"))
  ]

  /** Four entries in the order gpt-4, gpt-3.5-turbo, claude-3-opus,
      claude-3-sonnet, each priced positively. */
  lemma CatalogShape()
    ensures Keys(MODEL_CONFIGS) == ["gpt-4", "gpt-3.5-turbo", "claude-3-opus", "claude-3-sonnet"]
    ensures DistinctKeys(MODEL_CONFIGS)
    ensures forall i :: 0 <= i < |MODEL_CONFIGS| ==>
              MODEL_CONFIGS[i].value.inputCost > 0.0 && MODEL_CONFIGS[i].value.outputCost > 0.0
  {
  }

  /** An id starting with "claude" includes it. */
  lemma ClaudePrefixed(id: string)
    requires |id| >= 6 && id[..6] == "claude"
    ensures Contains(id, "claude")
  {
    ContainsAt(id, "claude", 0);
  }

  /** An id without the letter 'c' does not include "claude". */
  lemma NoLetterC(id: string)
    requires 'c' !in id
    ensures !Contains(id, "claude")
  {
    if Contains(id, "claude") {
      ContainsFirstChar(id, "claude");
    }
  }

  /** Exactly the two Claude entries have an id that includes "claude". */
  lemma ClaudeIdsAreTheLastTwo()
    ensures forall i :: 0 <= i < |MODEL_CONFIGS| ==> (Contains(MODEL_CONFIGS[i].key, "claude") <==> i >= 2)
  {
    forall i | 0 <= i < |MODEL_CONFIGS|
      ensures Contains(MODEL_CONFIGS[i].key, "claude") <==> i >= 2
    {
      var id := MODEL_CONFIGS[i].key;
      if i < 2 {
        assert 'c' !in id;
        NoLetterC(id);
      } else {
        assert id[..6] == "claude";
        ClaudePrefixed(id);
      }
    }
  }

  /** The catalog's prices are those of `MODEL_COSTS`, id by id and in the same order. */
  lemma CatalogPricesMatchCostTable()
    ensures Keys(MODEL_CONFIGS) == Keys(Constants.MODEL_COSTS)
    ensures forall i :: 0 <= i < |MODEL_CONFIGS| ==>
              MODEL_CONFIGS[i].value.inputCost == Constants.MODEL_COSTS[i].value.input &&
              MODEL_CONFIGS[i].value.outputCost == Constants.MODEL_COSTS[i].value.output
  {
  }
}
