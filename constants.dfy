/** The static tables of src/components/TokenAnalyzer/constants.js. */
module Constants {
  import opened JsObject

  /** A model's price per token kind, as written in the table. */
  datatype Price = Price(input: real, output: real)

  /** `MODEL_COSTS`, keys in declaration order. */
  const MODEL_COSTS: seq<Entry<Price>> := [
    Entry("gpt-4", Price(0.03, 0.06)),
    Entry("gpt-3.5-turbo", Price(0.001, 0.002)),
    Entry("claude-3-opus", Price(0.015, 0.075)),
    Entry("claude-3-sonnet", Price(0.003, 0.015))
  ]

  datatype FileConfigs = FileConfigs(maxFileSize: nat, supportedTypes: seq<string>, supportedExtensions: seq<string>)

  /** `FILE_CONFIGS`. */
  const FILE_CONFIGS: FileConfigs := FileConfigs(
    10 * 1024 * 1024,
    [ "text/plain",
      "application/pdf",
      "application/vnd.openxmlformats-officedocument.wordprocessingml.document",
      "application/msword" ],
    [".txt", ".pdf", ".doc", ".docx"])

  predicate PositivePrices(table: seq<Entry<Price>>)
  {
    forall i :: 0 <= i < |table| ==> table[i].value.input > 0.0 && table[i].value.output > 0.0
  }

  /** The cost table prices exactly the four models, each once, all prices positive. */
  lemma ModelCostsShape()
    ensures Keys(MODEL_COSTS) == ["gpt-4", "gpt-3.5-turbo", "claude-3-opus", "claude-3-sonnet"]
    ensures DistinctKeys(MODEL_COSTS)
    ensures PositivePrices(MODEL_COSTS)
  {
  }

  /** The size limit is 10 MiB and the four supported media types are distinct. */
  lemma FileConfigsShape()
    ensures FILE_CONFIGS.maxFileSize == 10485760
    ensures |FILE_CONFIGS.supportedTypes| == 4
    ensures forall i, j :: 0 <= i < j < 4 ==> FILE_CONFIGS.supportedTypes[i] != FILE_CONFIGS.supportedTypes[j]
  {
  }
}
