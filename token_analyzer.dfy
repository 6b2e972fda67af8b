/** src/components/TokenAnalyzer/tokenAnalyser.jsx: per-model token counts,
    their cost at the component's own price table, the media-type dispatch
    that turns uploaded files into text, and the two handlers that update
    the component's state.  The tokenizer is a parameter: a function from
    the text to its base token count, or `None` where `encode` throws. */
module TokenAnalyzer {
  import opened Wrappers
  import opened JsObject
  import opened JsString
  import opened WebFile
  import Constants
  import Models

  /** The component's own copy of the price table. */
  const MODEL_COSTS: seq<Entry<Constants.Price>> := [
    Entry("gpt-4", Constants.Price(0.03, 0.06)),
    Entry("gpt-3.5-turbo", Constants.Price(0.001, 0.002)),
    Entry("claude-3-opus", Constants.Price(0.015, 0.075)),
    Entry("claude-3-sonnet", Constants.Price(0.003, 0.015))
  ]

  /** The copy agrees with constants.js entry for entry. */
  lemma SameCostTables()
    ensures MODEL_COSTS == Constants.MODEL_COSTS
  {
  }

  // ---------------------------------------------------------------------
  // countTokens

  /** `Math.ceil(n * 1.15)` for a token count `n`: the least whole number of
      tokens that is at least 115% of `n`. */
  function ClaudeTokens(n: nat): (r: nat)
    ensures 100 * r >= 115 * n
    ensures r == 0 || 100 * (r - 1) < 115 * n
    ensures r >= n
    ensures r == n <==> n == 0
  {
    (115 * n + 99) / 100
  }

  /** `countTokens` for a text of `n` base tokens: one count per priced
      model, in table order; a model whose id names "claude" gets the
      corrected count, the others the base count. */
  function CountTokens(n: nat): (counts: seq<Entry<nat>>)
    ensures Keys(counts) == Keys(MODEL_COSTS)
    ensures forall i :: 0 <= i < |counts| ==>
              counts[i].value == if Contains(counts[i].key, "claude") then ClaudeTokens(n) else n
  {
    Models.ClaudeIdsAreTheLastTwo();
    Models.CatalogPricesMatchCostTable();
    var claudeTokens := ClaudeTokens(n);
    [ Entry("gpt-4", n),
      Entry("gpt-3.5-turbo", n),
      Entry("claude-3-opus", claudeTokens),
      Entry("claude-3-sonnet", claudeTokens) ]
  }

  // ---------------------------------------------------------------------
  // calculateCosts

  /** The estimated cost of one model's tokens. */
  datatype Cost = Cost(input: real, output: real)

  /** The cost of `count` tokens at `price`, divided by one million. */
  function CostOf(count: nat, price: Constants.Price): (c: Cost)
    ensures 1000000.0 * c.input == count as real * price.input
    ensures 1000000.0 * c.output == count as real * price.output
  {
    Cost(count as real * price.input / 1000000.0, count as real * price.output / 1000000.0)
  }

  predicate AllPriced(counts: seq<Entry<nat>>)
  {
    forall i :: 0 <= i < |counts| ==> counts[i].key in Keys(MODEL_COSTS)
  }

  /** The cost table for counts whose models are all priced: the same keys
      in the same order, each with the cost of its count at its model's price. */
  function PricedCosts(counts: seq<Entry<nat>>): (costs: seq<Entry<Cost>>)
    requires AllPriced(counts)
    ensures Keys(costs) == Keys(counts)
  {
    seq(|counts|, i requires 0 <= i < |counts| =>
      Entry(counts[i].key, CostOf(counts[i].value, Get(MODEL_COSTS, counts[i].key).value)))
  }

  /** Storing the next priced model's cost extends the cost table by one entry. */
  lemma PricedCostsStep(counts: seq<Entry<nat>>, i: int)
    requires DistinctKeys(counts) && 0 <= i < |counts|
    requires AllPriced(counts[..i]) && counts[i].key in Keys(MODEL_COSTS)
    ensures AllPriced(counts[..i + 1])
    ensures Put(PricedCosts(counts[..i]), counts[i].key,
                CostOf(counts[i].value, Get(MODEL_COSTS, counts[i].key).value))
            == PricedCosts(counts[..i + 1])
  {
    var before := counts[..i];
    assert counts[..i + 1] == before + [counts[i]];
    var costs := PricedCosts(before);
    assert counts[i].key !in Keys(costs) by {
      forall k | 0 <= k < i ensures costs[k].key != counts[i].key {
        assert counts[k].key != counts[i].key;
      }
    }
  }

  /** What reading `.input` of `MODEL_COSTS[model]` throws for an unpriced model. */
  const MISSING_PRICE_ERROR: string := "TypeError: Cannot read properties of undefined (reading 'input')"

  /** `calculateCosts`: walks the counts in order and stores each model's
      cost under its id; stops with the `TypeError` at the first model that
      has no price. */
  method CalculateCosts(counts: seq<Entry<nat>>) returns (r: Result<seq<Entry<Cost>>, string>)
    requires DistinctKeys(counts)
    ensures r.Success? <==> AllPriced(counts)
    ensures r.Success? ==> r.value == PricedCosts(counts)
    ensures r.Failure? ==> r.error == MISSING_PRICE_ERROR
  {
    var costs: seq<Entry<Cost>> := [];
    var i := 0;
    while i < |counts|
      invariant 0 <= i <= |counts|
      invariant AllPriced(counts[..i])
      invariant costs == PricedCosts(counts[..i])
    {
      var model, count := counts[i].key, counts[i].value;
      var price := Get(MODEL_COSTS, model);
      if price.None? {
        return Failure(MISSING_PRICE_ERROR);
      }
      PricedCostsStep(counts, i);
      costs := Put(costs, model, CostOf(count, price.value));
      i := i + 1;
    }
    assert counts[..i] == counts;
    return Success(costs);
  }

  /** Every model `countTokens` counts for has a price, so `calculateCosts`
      never throws on its output. */
  lemma CountedModelsArePriced(n: nat)
    ensures DistinctKeys(CountTokens(n)) && AllPriced(CountTokens(n))
  {
    var counts := CountTokens(n);
    Constants.ModelCostsShape();
    assert Keys(counts) == Keys(MODEL_COSTS);
    forall i | 0 <= i < |counts| ensures counts[i].key in Keys(MODEL_COSTS) {
      assert counts[i].key == Keys(MODEL_COSTS)[i];
    }
  }

  /** The analysis of a text of `n` base tokens: its counts and their costs. */
  datatype Analysis = Analysis(tokens: seq<Entry<nat>>, costs: seq<Entry<Cost>>)

  function Analyze(n: nat): (a: Analysis)
    ensures Keys(a.tokens) == Keys(a.costs) == Keys(MODEL_COSTS)
  {
    CountedModelsArePriced(n);
    Analysis(CountTokens(n), PricedCosts(CountTokens(n)))
  }

  /** Model `i`'s cost is its count times its table price per million tokens. */
  lemma CostEntry(n: nat, i: int)
    requires 0 <= i < |MODEL_COSTS|
    ensures |Analyze(n).costs| == |Analyze(n).tokens| == |MODEL_COSTS|
    ensures Analyze(n).costs[i].value == CostOf(Analyze(n).tokens[i].value, MODEL_COSTS[i].value)
  {
    var a := Analyze(n);
    assert a.tokens[i].key == MODEL_COSTS[i].key;
    Constants.ModelCostsShape();
    SameCostTables();
    GetAt(MODEL_COSTS, i);
  }

  /** At a positive price, a cost is never negative and is zero exactly
      when no tokens are counted. */
  lemma CostOfSign(count: nat, price: Constants.Price)
    requires price.input > 0.0 && price.output > 0.0
    ensures CostOf(count, price).input >= 0.0 && CostOf(count, price).output >= 0.0
    ensures CostOf(count, price).input == 0.0 <==> count == 0
    ensures CostOf(count, price).output == 0.0 <==> count == 0
  {
    var c := count as real;
    assert c >= 0.0;
    if count > 0 {
      assert c * price.input > 0.0;
      assert c * price.output > 0.0;
    }
  }

  /** Each cost is the model's count times its table price per million
      tokens; costs are never negative, and they are zero exactly when the
      text has no tokens. */
  lemma CostsAreProportional(n: nat)
    ensures var a := Analyze(n);
            forall i :: 0 <= i < |a.costs| ==>
              && a.costs[i].value.input == a.tokens[i].value as real * MODEL_COSTS[i].value.input / 1000000.0
              && a.costs[i].value.output == a.tokens[i].value as real * MODEL_COSTS[i].value.output / 1000000.0
              && a.costs[i].value.input >= 0.0 && a.costs[i].value.output >= 0.0
              && (a.costs[i].value.input == 0.0 <==> n == 0)
              && (a.costs[i].value.output == 0.0 <==> n == 0)
  {
    var a := Analyze(n);
    Constants.ModelCostsShape();
    SameCostTables();
    forall i | 0 <= i < |a.costs|
      ensures a.costs[i].value == CostOf(a.tokens[i].value, MODEL_COSTS[i].value)
      ensures a.tokens[i].value == 0 <==> n == 0
      ensures CostOf(a.tokens[i].value, MODEL_COSTS[i].value).input == 0.0 <==> n == 0
      ensures CostOf(a.tokens[i].value, MODEL_COSTS[i].value).output == 0.0 <==> n == 0
      ensures CostOf(a.tokens[i].value, MODEL_COSTS[i].value).input >= 0.0
      ensures CostOf(a.tokens[i].value, MODEL_COSTS[i].value).output >= 0.0
    {
      CostEntry(n, i);
      assert MODEL_COSTS[i].value.input > 0.0 && MODEL_COSTS[i].value.output > 0.0;
      CostOfSign(a.tokens[i].value, MODEL_COSTS[i].value);
    }
  }

  // ---------------------------------------------------------------------
  // readFileAsText

  const UNSUPPORTED_FILE_ERROR: string := "Unsupported file type"

  /** `readFileAsText`: plain text gives its contents, a PDF or any media
      type naming "word" a placeholder naming the file, anything else the
      "Unsupported file type" rejection.  Types are tested in that order. */
  function ReadFileAsText(file: InputFile): (r: Result<string, string>)
    ensures r.Failure? <==>
              file.mediaType != "text/plain" && file.mediaType != "application/pdf" && !Contains(file.mediaType, "word")
    ensures r.Failure? ==> r.error == UNSUPPORTED_FILE_ERROR
    ensures file.mediaType == "text/plain" ==> r == Success(file.contents)
    ensures file.mediaType == "application/pdf" ==> r == Success("[PDF content from " + file.name + "]")
    ensures file.mediaType != "text/plain" && file.mediaType != "application/pdf" && Contains(file.mediaType, "word") ==>
              r == Success("[Document content from " + file.name + "]")
    ensures r.Success? && file.mediaType != "text/plain" ==> Contains(r.value, file.name)
  {
    if file.mediaType == "text/plain" then Success(file.contents)
    else if file.mediaType == "application/pdf" then
      var placeholder := "[PDF content from " + file.name + "]";
      assert placeholder[18..18 + |file.name|] == file.name;
      ContainsAt(placeholder, file.name, 18);
      Success(placeholder)
    else if Contains(file.mediaType, "word") then
      var placeholder := "[Document content from " + file.name + "]";
      assert placeholder[23..23 + |file.name|] == file.name;
      ContainsAt(placeholder, file.name, 23);
      Success(placeholder)
    else Failure(UNSUPPORTED_FILE_ERROR)
  }

  /** A media type that mentions "word" somewhere is read as a document. */
  lemma MentionsWord(mediaType: string, i: nat)
    requires i + 4 <= |mediaType|
    requires mediaType[i] == 'w' && mediaType[i + 1] == 'o' && mediaType[i + 2] == 'r' && mediaType[i + 3] == 'd'
    ensures Contains(mediaType, "word")
  {
    assert mediaType[i..i + 4] == "word";
    ContainsAt(mediaType, "word", i);
  }

  /** Every media type `FILE_CONFIGS` lists is read without rejection. */
  lemma SupportedTypesAreRead(file: InputFile)
    requires file.mediaType in Constants.FILE_CONFIGS.supportedTypes
    ensures ReadFileAsText(file).Success?
  {
    var t := file.mediaType;
    if t == "application/vnd.openxmlformats-officedocument.wordprocessingml.document" {
      MentionsWord(t, 46);
    } else if t == "application/msword" {
      MentionsWord(t, 14);
    }
  }

  /** The dispatch is looser than the validators: any media type outside
      `FILE_CONFIGS` that mentions "word" is read as a document. */
  lemma WordTypesBeyondTheList(file: InputFile)
    requires file.mediaType !in Constants.FILE_CONFIGS.supportedTypes && Contains(file.mediaType, "word")
    ensures ReadFileAsText(file) == Success("[Document content from " + file.name + "]")
  {
  }

  /** Such media types exist: the macro-enabled Word type is unlisted and is
      read as a document. */
  lemma MacroEnabledWordTypeIsRead(file: InputFile)
    requires file.mediaType == "application/vnd.ms-word.document.macroEnabled.12"
    ensures file.mediaType !in Constants.FILE_CONFIGS.supportedTypes
    ensures ReadFileAsText(file) == Success("[Document content from " + file.name + "]")
  {
    var t := file.mediaType;
    UnlistedLength(t);
    MentionsWord(t, 19);
  }

  /** No listed media type is 48 characters long. */
  lemma UnlistedLength(t: string)
    requires |t| == 48
    ensures t !in Constants.FILE_CONFIGS.supportedTypes
  {
    forall k | 0 <= k < 4 ensures |Constants.FILE_CONFIGS.supportedTypes[k]| != 48 {
    }
  }

  /** `Promise.all(files.map(readFileAsText))`: every file's text in upload
      order, or a rejection as soon as one file is rejected. */
  function ReadAll(files: seq<InputFile>): (r: Result<seq<string>, string>)
    ensures r.Success? <==> forall i :: 0 <= i < |files| ==> ReadFileAsText(files[i]).Success?
    ensures r.Success? ==> |r.value| == |files|
    ensures r.Success? ==> forall i :: 0 <= i < |files| ==> r.value[i] == ReadFileAsText(files[i]).value
    ensures r.Failure? ==> r.error == UNSUPPORTED_FILE_ERROR
  {
    if files == [] then Success([])
    else
      match ReadFileAsText(files[0])
      case Failure(e) => Failure(e)
      case Success(t) =>
        match ReadAll(files[1..])
        case Failure(e) =>
          assert exists i :: 1 <= i < |files| && ReadFileAsText(files[i]).Failure? by {
            var j :| 0 <= j < |files[1..]| && ReadFileAsText(files[1..][j]).Failure?;
            assert files[1..][j] == files[j + 1];
          }
          Failure(e)
        case Success(ts) =>
          assert forall i :: 1 <= i < |files| ==> files[i] == files[1..][i - 1];
          Success([t] + ts)
  }

  // ---------------------------------------------------------------------
  // The component's state

  class TokenAnalyzer {
    var text: string
    var files: seq<InputFile>
    var results: Option<Analysis>
    var isProcessing: bool

    constructor()
      ensures text == "" && files == [] && results == None && !isProcessing
    {
      text := "";
      files := [];
      results := None;
      isProcessing := false;
    }

    /** Counts and prices the text.  `tokenize` is `None` where `encode`
        throws: the catch block only logs, so the previous analysis stays.
        `calculateCosts` cannot throw on the counts `countTokens` returns. */
    method Analyse(tokenize: string -> Option<nat>, s: string)
      modifies this
      ensures tokenize(s).Some? ==> results == Some(Analyze(tokenize(s).value))
      ensures tokenize(s).None? ==> results == old(results)
      ensures text == old(text) && files == old(files) && isProcessing == old(isProcessing)
    {
      match tokenize(s) {
        case None =>
        case Some(n) =>
          var tokens := CountTokens(n);
          CountedModelsArePriced(n);
          var costs := CalculateCosts(tokens);
          match costs {
            case Success(c) =>
              results := Some(Analysis(tokens, c));
            case Failure(_) =>
              assert false;
          }
      }
    }

    /** `handleTextAnalysis`: a blank text changes nothing; otherwise the
        text is analysed and processing ends. */
    method HandleTextAnalysis(tokenize: string -> Option<nat>)
      modifies this
      ensures text == old(text) && files == old(files)
      ensures Trim(text) == "" ==> results == old(results) && isProcessing == old(isProcessing)
      ensures Trim(text) != "" ==> !isProcessing
      ensures Trim(text) != "" && tokenize(text).Some? ==> results == Some(Analyze(tokenize(text).value))
      ensures Trim(text) != "" && tokenize(text).None? ==> results == old(results)
    {
      if Trim(text) == "" {
        return;
      }
      isProcessing := true;
      Analyse(tokenize, text);
      isProcessing := false;
    }

    /** `handleFileUpload`: records the uploaded files; if every file can
        be read, their texts joined with "\n" become the text and are
        analysed (a throwing tokenizer keeps the previous analysis, as the
        catch block only logs), otherwise text and results stay as they
        were.  Processing ends either way. */
    method HandleFileUpload(uploaded: seq<InputFile>, tokenize: string -> Option<nat>)
      modifies this
      ensures files == uploaded && !isProcessing
      ensures ReadAll(uploaded).Success? ==> text == Join(ReadAll(uploaded).value, "\n")
      ensures ReadAll(uploaded).Success? && tokenize(text).Some? ==> results == Some(Analyze(tokenize(text).value))
      ensures ReadAll(uploaded).Success? && tokenize(text).None? ==> results == old(results)
      ensures ReadAll(uploaded).Failure? ==> text == old(text) && results == old(results)
    {
      isProcessing := true;
      files := uploaded;
      var contents := ReadAll(uploaded);
      if contents.Success? {
        var combined := Join(contents.value, "\n");
        text := combined;
        Analyse(tokenize, combined);
      }
      isProcessing := false;
    }
  }

  /** A text of white space only trims to nothing, so `handleTextAnalysis`
      returns at once on it. */
  lemma BlankTextTrimsToEmpty(s: string)
    requires AllWhiteSpace(s)
    ensures Trim(s) == ""
  {
    TrimEmptyIffBlank(s);
  }

  /** Uploading one plain text file analyses exactly its contents. */
  lemma SingleTextUpload(file: InputFile)
    requires file.mediaType == "text/plain"
    ensures ReadAll([file]) == Success([file.contents])
    ensures Join(ReadAll([file]).value, "\n") == file.contents
  {
    assert [file][1..] == [];
    assert ReadAll([file][1..]) == Success([]);
    assert [file.contents] == [file.contents] + [];
  }
}
