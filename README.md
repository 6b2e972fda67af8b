# token-counter, modelled in Dafny

token-counter is a small React application. It estimates how many tokens a
text costs at four language models (GPT-4, GPT-3.5 Turbo, Claude 3 Opus and
Claude 3 Sonnet) and what those tokens cost. The text is typed in or comes
from uploaded files. This project models the application's logic without its
user interface:

- the two copies of the file validator;
- the reconstruction of a PDF's text, with the PDF library replaced by the
  fragments it would report. This covers the reading-order sort of a page's
  fragments and the loop that reads the pages in batches of five;
- the progress protocol of `DocumentParser.parseFile`;
- the token correction for Claude models and the two cost estimates;
- the media-type dispatch and the file-combination logic of the
  `TokenAnalyzer` component;
- the price and model tables.

Modules follow the source files:

| module | file |
|---|---|
| `Constants` | `constants.dfy` |
| `Models` | `models.dfy` |
| `DocumentParser` | `document_parser.dfy` |
| `Utils` | `utils.dfy` |
| `TokenAnalyzer` | `token_analyzer.dfy` |
| `App` | `app.dfy` |

Four support modules model the JavaScript built-ins the code uses:

- `JsString` covers `join`, `includes` and `trim`;
- `JsObject` covers a plain object used as an ordered dictionary, with
  `obj[key] = value`;
- `WebFile` covers the browser's `File`;
- `Wrappers` holds the `Option` and `Result` types.

Modelling choices:

- A JavaScript object is a sequence of key/value entries in insertion order.
  For the keys the code uses (model ids, none of them an array index and
  none the name of an `Object.prototype` property) that is the order
  `Object.entries` lists them in, and a lookup finds only what was stored.
- `Math.ceil(n * 1.15)` is the exact integer `(115 * n + 99) / 100`.
- Prices and costs are Dafny `real`s.
- The tokenizer is a parameter, a function from the text to its base count,
  or to `None` where `encode` throws.
- A PDF is the sequence of its pages. A page is the sequence of its text
  fragments, each with an already-rounded position.

## Model

| member | source | states |
|---|---|---|
| Constants.ModelCostsShape | src/components/TokenAnalyzer/constants.js:1-18 | the cost table has exactly the keys gpt-4, gpt-3.5-turbo, claude-3-opus, claude-3-sonnet, each once, and every input and output price is positive |
| Constants.FileConfigsShape | src/components/TokenAnalyzer/constants.js:20-29 | the size limit is 10,485,760 bytes and the four supported media types are distinct |
| Models.CatalogShape | src/constants/models.js:1-26 | the catalog has four entries in the order gpt-4, gpt-3.5-turbo, claude-3-opus, claude-3-sonnet, distinct, all prices positive |
| Models.ClaudeIdsAreTheLastTwo | src/constants/models.js:14-20 | an entry's id includes "claude" if and only if it is one of the two Claude entries |
| Models.CatalogPricesMatchCostTable | src/constants/models.js:1-26 | the catalog's ids and input/output prices are those of `MODEL_COSTS`, id by id and in the same order |
| DocumentParser.Violations | src/components/TokenAnalyzer/DocumentParser.jsx:100-113 | no violation exactly when size ≤ limit and the type is listed; the size violation iff size > limit, the type violation iff the type is unlisted; at most two, size first |
| DocumentParser.ValidateFile | src/components/TokenAnalyzer/DocumentParser.jsx:97-116 | returns the empty list iff size ≤ 10 MiB and the type is one of the four; otherwise one message per violation, in the violations' order |
| DocumentParser.SizeMessageMentionsLimit | src/components/TokenAnalyzer/DocumentParser.jsx:101 | the limit divided by 1024 twice is 10, so the size message reads "File size exceeds 10MB limit" |
| DocumentParser.ExactLimitPasses | src/components/TokenAnalyzer/DocumentParser.jsx:100 | a file of exactly 10,485,760 bytes is not too large, because the comparison is strict |
| DocumentParser.Compare | src/components/TokenAnalyzer/DocumentParser.jsx:86 | negative exactly when a lies higher, or on the same line and further left; zero exactly at the same position |
| DocumentParser.CompareIsConsistent | src/components/TokenAnalyzer/DocumentParser.jsx:86 | the comparator is antisymmetric and ties exactly the fragments at the same position |
| DocumentParser.SortFragments | src/components/TokenAnalyzer/DocumentParser.jsx:86 | the stable sort by the comparator; SortSortsAndPermutes, SortIsStable and SortIsReadingOrder state what it returns |
| DocumentParser.SortSortsAndPermutes | src/components/TokenAnalyzer/DocumentParser.jsx:86 | the sorted fragments are in comparator order (higher first, then further left) and are a permutation of the input |
| DocumentParser.InsertSorted | src/components/TokenAnalyzer/DocumentParser.jsx:86 | inserting a fragment into a sorted sequence keeps it sorted |
| DocumentParser.InsertPermutes | src/components/TokenAnalyzer/DocumentParser.jsx:86 | inserting adds exactly the one fragment |
| DocumentParser.SortIsStable | src/components/TokenAnalyzer/DocumentParser.jsx:86 | fragments at the same position keep their input order (the sort is stable) |
| DocumentParser.SortIsReadingOrder | src/components/TokenAnalyzer/DocumentParser.jsx:80-87 | the sort's output is a reading order: a sorted, tie-preserving permutation |
| DocumentParser.ReadingOrdersAgree | src/components/TokenAnalyzer/DocumentParser.jsx:80-87 | two reading orders of the same fragments are equal, so the order is determined |
| DocumentParser.ExtractPageText | src/components/TokenAnalyzer/DocumentParser.jsx:75-89 | the page's fragment strings in sorted order, joined by " "; PageTextFollowsReadingOrder, PageTextUsesEveryFragment and ShortPageText state what it returns |
| DocumentParser.PageTextFollowsReadingOrder | src/components/TokenAnalyzer/DocumentParser.jsx:80-88 | the page text is the space-join of any reading order of the page's fragments |
| DocumentParser.PageTextUsesEveryFragment | src/components/TokenAnalyzer/DocumentParser.jsx:80-88 | the strings joined are a permutation of the fragments' strings |
| DocumentParser.ShortPageText | src/components/TokenAnalyzer/DocumentParser.jsx:87-88 | a page without fragments gives "" and a one-fragment page gives that fragment's string |
| DocumentParser.BatchesFrom | src/components/TokenAnalyzer/DocumentParser.jsx:60-66 | the page batches the outer loop requests from page i on; BatchesCoverEveryPage and BatchLayout state their layout |
| DocumentParser.BatchesCoverEveryPage | src/components/TokenAnalyzer/DocumentParser.jsx:60-66 | the batches, concatenated, are the pages 1..numPages, each once and in ascending order |
| DocumentParser.BatchLayout | src/components/TokenAnalyzer/DocumentParser.jsx:60-62 | there are ⌈numPages/5⌉ batches; batch b holds pages 5b+1 .. min(5b+5, numPages) |
| DocumentParser.BatchedText | src/components/TokenAnalyzer/DocumentParser.jsx:60-70 | the text the loop accumulates from page i on; ReadPageBatches computes it, SmallDocumentText and BatchSeamGluesPages state what it is |
| DocumentParser.ExtractBatch | src/components/TokenAnalyzer/DocumentParser.jsx:61-68 | requests pages first..last in ascending order and returns their texts in page order |
| DocumentParser.ReadPageBatches | src/components/TokenAnalyzer/DocumentParser.jsx:56-70 | the requested batches are exactly the batch layout, and the accumulated text is each batch's pages joined by "\n", batches glued with no separator |
| DocumentParser.ParsePdfFile | src/components/TokenAnalyzer/DocumentParser.jsx:53-73 | the result is the trim of the batched text, and the batches requested are the batch layout |
| DocumentParser.SmallDocumentText | src/components/TokenAnalyzer/DocumentParser.jsx:60-72 | up to five pages give the "\n"-join of all pages; no pages give "" after trimming |
| DocumentParser.IntendedPdfTextJoinsAllPages | src/components/TokenAnalyzer/DocumentParser.jsx:69 | with the batch separator restored, the text is the trimmed "\n"-join of all pages; up to five pages it agrees with the code as written |
| DocumentParser.BatchSeamGluesPages | src/components/TokenAnalyzer/DocumentParser.jsx:69 | six one-word pages "a".."f" give "a\nb\nc\nd\nef" as written, where "a\nb\nc\nd\ne\nf" was intended |
| DocumentParser.ParseFile | src/components/TokenAnalyzer/DocumentParser.jsx:18-28 | emits 0 first, then the inner parser's progress, then 100 on success or 0 on failure; the inner outcome is returned or rethrown unchanged |
| Utils.TooLargeMessage | src/components/TokenAnalyzer/utils.js:5 | the size message names the file |
| Utils.UnsupportedTypeMessage | src/components/TokenAnalyzer/utils.js:9 | the type message names the file |
| Utils.ValidateFile | src/components/TokenAnalyzer/utils.js:1-13 | returns the empty list iff size ≤ `FILE_CONFIGS.maxFileSize` and the type is listed; at most two messages, size first, each naming the file |
| Utils.FileConfigsMatchParser | src/components/TokenAnalyzer/constants.js:21-27 | `FILE_CONFIGS` has the parser's size limit and its list of media types |
| Utils.ValidatorsRejectTheSameFiles | src/components/TokenAnalyzer/utils.js:4-10 | both validators find the same violations in the same order for every file |
| Utils.ValidatorsAgree | src/components/TokenAnalyzer/utils.js:1-13 | the two validators accept the same files and report the same number of problems |
| Utils.ExactLimitPasses | src/components/TokenAnalyzer/utils.js:4 | a file of exactly 10,485,760 bytes is not too large |
| TokenAnalyzer.SameCostTables | src/components/TokenAnalyzer/tokenAnalyser.jsx:7-24 | the component's price table equals the one in constants.js |
| TokenAnalyzer.ClaudeTokens | src/components/TokenAnalyzer/tokenAnalyser.jsx:38 | the result is the least integer ≥ 1.15·n; it is ≥ n, and equals n only for n = 0 |
| TokenAnalyzer.CountTokens | src/components/TokenAnalyzer/tokenAnalyser.jsx:32-46 | one count per priced model in table order; a model whose id includes "claude" gets the corrected count, the others the base count |
| TokenAnalyzer.CostOf | src/components/TokenAnalyzer/tokenAnalyser.jsx:52-55 | one million times each cost is the count times the price |
| TokenAnalyzer.PricedCosts | src/components/TokenAnalyzer/tokenAnalyser.jsx:51-56 | the cost object has the counts' keys in the counts' order; CostsAreProportional states each value |
| TokenAnalyzer.CalculateCosts | src/components/TokenAnalyzer/tokenAnalyser.jsx:48-59 | succeeds iff every model counted has a price; then the costs have the counts' keys in order, each count × price / 1,000,000; otherwise the `TypeError` |
| TokenAnalyzer.PricedCostsStep | src/components/TokenAnalyzer/tokenAnalyser.jsx:51-55 | storing the next model's cost appends it to the cost object |
| TokenAnalyzer.CountedModelsArePriced | src/components/TokenAnalyzer/tokenAnalyser.jsx:40-53 | every model `countTokens` counts has a price, so `calculateCosts` never throws on its output |
| TokenAnalyzer.Analyze | src/components/TokenAnalyzer/tokenAnalyser.jsx:85-87 | the counts and the costs have exactly the keys of the price table |
| TokenAnalyzer.CostsAreProportional | src/components/TokenAnalyzer/tokenAnalyser.jsx:53-54 | each cost is the model's count × its price / 1,000,000; costs are never negative and are zero exactly when the text has no tokens |
| TokenAnalyzer.ReadFileAsText | src/components/TokenAnalyzer/tokenAnalyser.jsx:61-78 | rejected with "Unsupported file type" iff the type is not text/plain, not application/pdf and does not include "word"; plain text reads as its contents; a PDF reads as "[PDF content from <name>]" and a type including "word" as "[Document content from <name>]"; each placeholder names the file |
| TokenAnalyzer.SupportedTypesAreRead | src/components/TokenAnalyzer/tokenAnalyser.jsx:61-78 | every media type in `FILE_CONFIGS` is read without rejection |
| TokenAnalyzer.WordTypesBeyondTheList | src/components/TokenAnalyzer/tokenAnalyser.jsx:71-73 | every media type outside `FILE_CONFIGS` that includes "word" is still read as a document |
| TokenAnalyzer.MacroEnabledWordTypeIsRead | src/components/TokenAnalyzer/tokenAnalyser.jsx:71-73 | such types exist: "application/vnd.ms-word.document.macroEnabled.12" is unlisted and is read as a document |
| TokenAnalyzer.ReadAll | src/components/TokenAnalyzer/tokenAnalyser.jsx:101-103 | succeeds iff every file is read; then one text per file in upload order |
| TokenAnalyzer.TokenAnalyzer.constructor | src/components/TokenAnalyzer/tokenAnalyser.jsx:27-30 | empty text, no files, no results, not processing |
| TokenAnalyzer.TokenAnalyzer.Analyse | src/components/TokenAnalyzer/tokenAnalyser.jsx:84-89 | stores the counts of the text with their costs; if the tokenizer throws, the results stay; nothing else changes |
| TokenAnalyzer.TokenAnalyzer.HandleTextAnalysis | src/components/TokenAnalyzer/tokenAnalyser.jsx:80-93 | a blank text (empty after trimming) changes nothing; otherwise the text's analysis is stored (the old one stays if the tokenizer throws) and processing ends |
| TokenAnalyzer.TokenAnalyzer.HandleFileUpload | src/components/TokenAnalyzer/tokenAnalyser.jsx:95-116 | records the files; if all are read, their texts joined by "\n" become the text and are analysed (the old analysis stays if the tokenizer throws), otherwise text and results are unchanged; processing ends |
| TokenAnalyzer.BlankTextTrimsToEmpty | src/components/TokenAnalyzer/tokenAnalyser.jsx:81 | a text of white space only trims to "" |
| TokenAnalyzer.SingleTextUpload | src/components/TokenAnalyzer/tokenAnalyser.jsx:101-106 | one plain text upload is analysed as exactly its contents |
| App.TokenCount | src/App.jsx:17-19 | at least the base count; equal to it iff the count is 0 or the id does not include "claude" |
| App.ResultFor | src/App.jsx:21-31 | name and description copied; the stored count is the one priced; 1000 × cost = count × per-1K price; total = input + output |
| App.CatalogResults | src/App.jsx:14-36 | one result per catalog entry, under the same id and in catalog order |
| App.ComputeModelResults | src/App.jsx:14-36 | the accumulator ends as the catalog's results |
| App.App.constructor | src/App.jsx:6-7 | empty text, no results |
| App.App.HandleAnalyze | src/App.jsx:9-39 | stores the catalog's results for the text; if the tokenizer throws, the results stay; the text is unchanged |
| App.NoTokensNoCost | src/App.jsx:11-22 | with no tokens every count, cost and total is zero |
| App.ResultsAreBounded | src/App.jsx:17-22 | every count is ≥ the base count and every cost is non-negative |
| App.ClaudeModelsAreCorrected | src/App.jsx:17-19 | the two Claude entries get the corrected count and the two GPT entries the base count |
| App.CountsAgreeWithTokenAnalyzer | src/App.jsx:17-19 | App.jsx and tokenAnalyser.jsx count the same tokens for the same models in the same order |
| App.CostsDifferByAThousand | src/App.jsx:21-22 | for the same text, App.jsx's costs are 1000 × tokenAnalyser.jsx's costs |
| JsString.Contains | src/App.jsx:17 | `includes`; ContainsIffOccurs states what it means |
| JsString.ContainsIffOccurs | src/App.jsx:17 | `includes` holds iff the substring occurs at some position |
| JsString.Join | src/components/TokenAnalyzer/DocumentParser.jsx:69 | `join`; JoinConcat states how it splits |
| JsString.JoinConcat | src/components/TokenAnalyzer/DocumentParser.jsx:69 | joining two non-empty runs is joining each and putting one separator between them |
| JsString.Trim | src/components/TokenAnalyzer/DocumentParser.jsx:72 | `trim`; TrimIsInfix and TrimEmptyIffBlank state what it keeps |
| JsString.TrimIsInfix | src/components/TokenAnalyzer/DocumentParser.jsx:72 | `trim` removes white space from both ends only: the result is an infix, with white space outside it and no white space at its ends |
| JsString.TrimEmptyIffBlank | src/components/TokenAnalyzer/tokenAnalyser.jsx:81 | `trim` gives "" iff the string is white space only |
| JsObject.Get | src/components/TokenAnalyzer/tokenAnalyser.jsx:53 | a key is found iff it is one of the object's keys, and the value found is stored under it |
| JsObject.Put | src/App.jsx:24 | a new key is appended; an existing key keeps its place and gets the new value; other entries are unchanged |

## Left out

- The tokenizer (`encode` from gpt-tokenizer) is a foreign BPE library. The base token count is a parameter, `None` where `encode` throws.
- Utils.ValidateFile: utils.js:1-13 reads `FILE_CONFIGS` at lines 4 and 8 but does not import it, so as an ES module it throws a `ReferenceError` on every call. The model assumes the import of `FILE_CONFIGS` from constants.js:20-29.
- JsObject.Get: a lookup of an `Object.prototype` property name (such as "toString") finds the inherited property, and array-index keys are listed first by `Object.entries`. Neither happens with the model ids the code stores, so neither is modelled.
- The PDF library (`getDocument`, `getPage`, `getTextContent`, the worker set-up) is foreign. A document is given as its pages' fragments, so a malformed PDF is not modelled.
- `Math.round` of the floating-point fragment positions is floating point. Positions are given as integers.
- `parseWordFile` (mammoth) is a foreign library with no logic of its own.
- `parseTxtFile` and the `FileReader` branch of `readFileAsText` are stream and file I/O. A file's contents are given as a string, so a reader error is not modelled.
- `_parseFile` is not defined in the source. `ParseFile` takes the inner parser's progress reports and outcome as a parameter.
- `Promise.all` concurrency is left out because the results come back in index order. The loops are sequential, and `ReadAll` reports the first rejected file.
- Floating-point effects are left out: the binary value of 1.15, and rounding in the cost divisions. Counts are exact integers and costs exact reals.
- `toFixed`, `toLocaleString` and the `Intl.NumberFormat` formatters `formatNumber` and `formatCurrency` only format output.
- React rendering, tabs, buttons, disabled flags and `console.error` logging are user interface.
- The `ParserError` class is never used.
- `FILE_CONFIGS.supportedExtensions` is never read by the code modelled. It is kept only as data.
- The optional `onProgress` callback may be absent; the model always records the progress values. A callback that throws is not modelled.
- Progress inside `parsePdfFile` is not modelled: `parsePdfFile` (DocumentParser.jsx:53) takes no progress callback and reports none.
- The price tables hold prices per 1K tokens (tokenAnalyser.jsx:9-10, models.js:4), and `calculateCosts` divides them by 1,000,000 all the same; the model keeps that division (see Findings).

## Findings

| source | as written | input that shows it | evidently intended | confidence | as-written member | corrected member |
|---|---|---|---|---|---|---|
| src/components/TokenAnalyzer/DocumentParser.jsx:69 | `fullText += texts.join("\n")` appends each batch of five pages with no separator, so the last page of a batch and the first page of the next run together | six pages whose only words are "a" .. "f": the text is "a\nb\nc\nd\nef" | pages on separate lines across batches too: "a\nb\nc\nd\ne\nf", the "\n"-join of all pages | high, not executed | DocumentParser.BatchSeamGluesPages | DocumentParser.IntendedPdfTextJoinsAllPages |
| src/components/TokenAnalyzer/tokenAnalyser.jsx:53-54 | the cost divides count × price by 1,000,000, while the prices are per 1K tokens (tokenAnalyser.jsx:9-10, models.js:4) | 1000 tokens at gpt-4's input price 0.03: 0.00003 is reported, where 0.03 is meant | count × per-1K price / 1000, as App.jsx:21-22 computes | medium, not executed | App.CostsDifferByAThousand | App.ResultFor |
