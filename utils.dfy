/** src/components/TokenAnalyzer/utils.js: the second copy of
    `validateFile`, which reads its limits from `FILE_CONFIGS` and names the
    file in each message.  The number formatters are not modelled. */
module Utils {
  import opened JsString
  import opened WebFile
  import opened Constants
  import DocumentParser

  /** The message for a file above the size limit; it names the file. */
  function TooLargeMessage(name: string): (m: string)
    ensures Contains(m, name)
  {
    var m := "File " + name + " is too large. Maximum size is 10MB";
    assert m[5..5 + |name|] == name;
    ContainsAt(m, name, 5);
    m
  }

  /** The message for a file of an unsupported media type; it names the file. */
  function UnsupportedTypeMessage(name: string): (m: string)
    ensures Contains(m, name)
  {
    var m := "File " + name + " has unsupported type. Supported types are: txt, pdf, doc, docx";
    assert m[5..5 + |name|] == name;
    ContainsAt(m, name, 5);
    m
  }

  function Message(name: string, v: DocumentParser.Violation): string
  {
    match v
    case TooLarge => TooLargeMessage(name)
    case UnsupportedType => UnsupportedTypeMessage(name)
  }

  /** `validateFile` of utils.js: one message per violation of the
      `FILE_CONFIGS` limits, in order, each naming the file; no message
      exactly when the file is accepted. */
  method ValidateFile(file: InputFile) returns (errors: seq<string>)
    ensures errors == [] <==> file.size <= FILE_CONFIGS.maxFileSize && file.mediaType in FILE_CONFIGS.supportedTypes
    ensures |errors| == |DocumentParser.Violations(file, FILE_CONFIGS.maxFileSize, FILE_CONFIGS.supportedTypes)|
    ensures forall i :: 0 <= i < |errors| ==>
              errors[i] == Message(file.name, DocumentParser.Violations(file, FILE_CONFIGS.maxFileSize, FILE_CONFIGS.supportedTypes)[i])
    ensures forall i :: 0 <= i < |errors| ==> Contains(errors[i], file.name)
  {
    errors := [];
    if file.size > FILE_CONFIGS.maxFileSize {
      errors := errors + [TooLargeMessage(file.name)];
    }
    if file.mediaType !in FILE_CONFIGS.supportedTypes {
      errors := errors + [UnsupportedTypeMessage(file.name)];
    }
  }

  /** `FILE_CONFIGS` holds the limit and the type list of `DocumentParser`. */
  lemma FileConfigsMatchParser()
    ensures FILE_CONFIGS.maxFileSize == DocumentParser.FILE_SIZE_LIMIT
    ensures FILE_CONFIGS.supportedTypes == DocumentParser.SUPPORTED_TYPES
  {
  }

  /** Both copies reject exactly the same files for exactly the same
      reasons; only the wording of the messages differs. */
  lemma ValidatorsRejectTheSameFiles(file: InputFile)
    ensures DocumentParser.Violations(file, FILE_CONFIGS.maxFileSize, FILE_CONFIGS.supportedTypes)
         == DocumentParser.Violations(file, DocumentParser.FILE_SIZE_LIMIT, DocumentParser.SUPPORTED_TYPES)
  {
    FileConfigsMatchParser();
  }

  /** Runs both validators on one file: they report the same number of
      problems, and accept the same files. */
  method ValidatorsAgree(file: InputFile) returns (fromUtils: seq<string>, fromParser: seq<string>)
    ensures |fromUtils| == |fromParser| <= 2
    ensures fromUtils == [] <==> fromParser == []
  {
    fromUtils := ValidateFile(file);
    fromParser := DocumentParser.ValidateFile(file);
    ValidatorsRejectTheSameFiles(file);
  }

  /** The size comparison is strict: a file of exactly 10 MiB passes it. */
  lemma ExactLimitPasses(file: InputFile)
    requires file.size == 10485760
    ensures DocumentParser.TooLarge !in DocumentParser.Violations(file, FILE_CONFIGS.maxFileSize, FILE_CONFIGS.supportedTypes)
  {
  }
}
