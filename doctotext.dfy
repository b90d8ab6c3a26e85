/** `main` of src/doctotext.cpp: the argument-count guard, the scan of the
    options, the configuration of the extractor and the choice of what to
    print. The extractor itself is not modelled: what it answers is an
    input (`Engine`), and what `main` asks of it is recorded as a trace of
    calls. */
module DocToText {
  import opened Strings
  import opened Options
  import opened Report

  datatype ExitStatus = ExitSuccess | ExitFailure

  /** The calls `main` makes on its `PlainTextExtractor`, in order. */
  datatype Call =
    | Construct(parser: ParserType)
    | SetVerboseLogging
    | SetLogStream(path: string)
    | SetXmlParseMode(mode: XmlParseMode)
    | SetFormattingStyle(tableStyle: TableStyle, urlStyle: UrlStyle, listPrefix: string)
    | ExtractMetadata(file: string)
    | ProcessFile(file: string)
    | GetParsedLinks
    | GetAttachments

  /** What the extractor answers: `None` where `extractMetadata` or
      `processFile` returns false. */
  datatype Engine = Engine(
    metadata: Option<Metadata>,
    text: Option<string>,
    links: seq<Link>,
    attachments: seq<Attachment>)

  /** One run of the program: its exit status, the calls it made and what it
      wrote. */
  datatype Outcome = Outcome(status: ExitStatus, calls: seq<Call>, out: seq<OutLine>)

  /** `setVerboseLogging(true)`, only when verbose logging was asked for. */
  function VerboseCalls(cfg: Config): (r: seq<Call>)
    ensures forall c :: c in r <==> cfg.verbose && c == SetVerboseLogging
  {
    if cfg.verbose then [SetVerboseLogging] else []
  }

  /** `setLogStream`, only when a log file was named. */
  function LogCalls(cfg: Config): (r: seq<Call>)
    ensures forall c :: c in r <==> cfg.logFile.Some? && c == SetLogStream(cfg.logFile.value)
  {
    match cfg.logFile
    case Some(p) => [SetLogStream(p)]
    case None => []
  }

  /** `setXmlParseMode`, only when the mode is not `PARSE_XML`. */
  function ModeCalls(cfg: Config): (r: seq<Call>)
    ensures forall c :: c in r <==> cfg.mode != ParseXml && c == SetXmlParseMode(cfg.mode)
  {
    if cfg.mode != ParseXml then [SetXmlParseMode(cfg.mode)] else []
  }

  /** The extractor is built with the chosen parser type, then configured:
      verbose logging only when asked for, the log stream only when a log
      file was named, the XML mode only when it is not the default, and the
      formatting style always, last. */
  function SetupCalls(cfg: Config): (r: seq<Call>)
    ensures 2 <= |r| <= 5
    ensures r[0] == Construct(cfg.parser)
    ensures r[|r| - 1] == SetFormattingStyle(cfg.tableStyle, cfg.urlStyle, cfg.listPrefix)
  {
    [Construct(cfg.parser)] + ConfigureCalls(cfg) + [SetFormattingStyle(cfg.tableStyle, cfg.urlStyle, cfg.listPrefix)]
  }

  /** The optional calls between construction and the formatting style. */
  function ConfigureCalls(cfg: Config): (r: seq<Call>)
    ensures |r| <= 3
  {
    VerboseCalls(cfg) + LogCalls(cfg) + ModeCalls(cfg)
  }

  /** Each configuration call is made exactly when the configuration asks
      for it, and none of them extracts anything. */
  lemma SetupCallsFollowConfig(cfg: Config)
    ensures SetVerboseLogging in SetupCalls(cfg) <==> cfg.verbose
    ensures forall p :: SetLogStream(p) in SetupCalls(cfg) <==> cfg.logFile == Some(p)
    ensures forall m :: SetXmlParseMode(m) in SetupCalls(cfg) <==> m == cfg.mode && m != ParseXml
    ensures forall c :: c in SetupCalls(cfg) ==> !c.ExtractMetadata? && !c.ProcessFile?
  {
    SetupMembers(cfg, SetVerboseLogging);
    forall p ensures SetLogStream(p) in SetupCalls(cfg) <==> cfg.logFile == Some(p) {
      SetupMembers(cfg, SetLogStream(p));
    }
    forall m ensures SetXmlParseMode(m) in SetupCalls(cfg) <==> m == cfg.mode && m != ParseXml {
      SetupMembers(cfg, SetXmlParseMode(m));
    }
    forall c | c in SetupCalls(cfg) ensures !c.ExtractMetadata? && !c.ProcessFile? {
      SetupMembers(cfg, c);
    }
  }

  /** The calls of the setup: the construction, the optional calls and the
      formatting style. */
  lemma SetupMembers(cfg: Config, c: Call)
    ensures c in SetupCalls(cfg) <==>
              c == Construct(cfg.parser) || c in VerboseCalls(cfg) || c in LogCalls(cfg) ||
              c in ModeCalls(cfg) || c == SetFormattingStyle(cfg.tableStyle, cfg.urlStyle, cfg.listPrefix)
  {
    var middle := ConfigureCalls(cfg);
    assert SetupCalls(cfg) == [Construct(cfg.parser)] + middle + [SetFormattingStyle(cfg.tableStyle, cfg.urlStyle, cfg.listPrefix)];
    assert c in middle <==> c in VerboseCalls(cfg) || c in LogCalls(cfg) || c in ModeCalls(cfg);
  }

  /** The extractor is constructed once, before every configuration call. */
  lemma SetupConstructsOnce(cfg: Config)
    ensures var r := SetupCalls(cfg);
            forall i :: 0 < i < |r| ==> !r[i].Construct?
  {
    var r := SetupCalls(cfg);
    var middle := ConfigureCalls(cfg);
    assert r == [Construct(cfg.parser)] + middle + [SetFormattingStyle(cfg.tableStyle, cfg.urlStyle, cfg.listPrefix)];
    assert forall c :: c in middle ==> c in VerboseCalls(cfg) || c in LogCalls(cfg) || c in ModeCalls(cfg);
    forall i | 0 < i < |r| - 1 ensures !r[i].Construct? {
      assert r[i] == middle[i - 1];
      assert r[i] in middle;
    }
  }

  /** `log_stream != NULL ? *log_stream : cerr`: the stream of the last
      `log-file=` argument, if any. */
  function ErrorSink(cfg: Config): Sink {
    match cfg.logFile
    case Some(p) => LogFile(p)
    case None => StdErr
  }

  /** What follows the configuration of the extractor: one extraction call
      on `file`, then either the error message or the report. */
  function Extraction(cfg: Config, file: string, engine: Engine): (r: Outcome)
    ensures |r.calls| >= 1
    ensures r.calls[0] == if cfg.extractMetadata then ExtractMetadata(file) else ProcessFile(file)
    ensures forall i :: 0 < i < |r.calls| ==> r.calls[i] in {GetParsedLinks, GetAttachments}
    ensures r.status == ExitFailure <==>
              if cfg.extractMetadata then engine.metadata.None? else engine.text.None?
    ensures r.status == ExitFailure ==> r.out == [ErrorProcessing(file, ErrorSink(cfg))]
  {
    if cfg.extractMetadata then
      match engine.metadata
      case None => Outcome(ExitFailure, [ExtractMetadata(file)], [ErrorProcessing(file, ErrorSink(cfg))])
      case Some(m) => Outcome(ExitSuccess, [ExtractMetadata(file)], MetadataLines(m))
    else
      match engine.text
      case None => Outcome(ExitFailure, [ProcessFile(file)], [ErrorProcessing(file, ErrorSink(cfg))])
      case Some(text) =>
        Outcome(ExitSuccess, [ProcessFile(file), GetParsedLinks, GetAttachments],
                [Body(CStr(text))] + LinksReport(engine.links) + AttachmentsReport(engine.attachments))
  }

  /** The whole program as a function of its arguments and of what the
      extractor answers. */
  function Program(argv: seq<CArg>, engine: Engine): Outcome {
    if |argv| < 2 then Outcome(ExitFailure, [], [HelpText])
    else
      var cfg := ConfigAfter(Scanned(argv));
      var rest := Extraction(cfg, argv[|argv| - 1], engine);
      Outcome(rest.status, SetupCalls(cfg) + rest.calls, rest.out)
  }

  /** `main`, statement by statement. */
  method Run(argv: seq<CArg>, engine: Engine) returns (status: ExitStatus, calls: seq<Call>, out: seq<OutLine>)
    ensures Outcome(status, calls, out) == Program(argv, engine)
  {
    if |argv| < 2 {
      return ExitFailure, [], [HelpText];
    }
    var cfg := ScanArguments(argv);
    calls := Configure(cfg);
    var rest: seq<Call>;
    status, rest, out := Extract(cfg, argv[|argv| - 1], engine);
    calls := calls + rest;
  }

  /** Building and configuring the extractor. */
  method Configure(cfg: Config) returns (calls: seq<Call>)
    ensures calls == SetupCalls(cfg)
  {
    calls := [Construct(cfg.parser)];
    if cfg.verbose {
      calls := calls + [SetVerboseLogging];
    }
    if cfg.logFile.Some? {
      calls := calls + [SetLogStream(cfg.logFile.value)];
    }
    if cfg.mode != ParseXml {
      calls := calls + [SetXmlParseMode(cfg.mode)];
    }
    calls := calls + [SetFormattingStyle(cfg.tableStyle, cfg.urlStyle, cfg.listPrefix)];
  }

  /** The metadata branch or the text branch of `main`. */
  method Extract(cfg: Config, file: string, engine: Engine) returns (status: ExitStatus, calls: seq<Call>, out: seq<OutLine>)
    ensures Outcome(status, calls, out) == Extraction(cfg, file, engine)
  {
    var sink := if cfg.logFile.Some? then LogFile(cfg.logFile.value) else StdErr;
    if cfg.extractMetadata {
      calls := [ExtractMetadata(file)];
      if engine.metadata.None? {
        return ExitFailure, calls, [ErrorProcessing(file, sink)];
      }
      out := MetadataLines(engine.metadata.value);
    } else {
      calls := [ProcessFile(file)];
      if engine.text.None? {
        return ExitFailure, calls, [ErrorProcessing(file, sink)];
      }
      out := [Body(CStr(engine.text.value))];
      calls := calls + [GetParsedLinks];
      var linkLines := ReportLinks(engine.links);
      out := out + linkLines;
      calls := calls + [GetAttachments];
      var attachmentLines := ReportAttachments(engine.attachments);
      out := out + attachmentLines;
    }
    status := ExitSuccess;
  }

  // ---------------------------------------------------------------------
  // Properties of a run
  // ---------------------------------------------------------------------

  /** Without a file argument the help text is printed, the program fails,
      and no extractor is ever built. */
  lemma HelpWithoutFile(argv: seq<CArg>, engine: Engine)
    requires |argv| < 2
    ensures Program(argv, engine).status == ExitFailure
    ensures Program(argv, engine).out == [HelpText]
    ensures forall c :: c in Program(argv, engine).calls ==> !c.Construct?
  {
  }

  /** An extractor is built exactly when there is a file argument, and then
      it is built first, once, with the parser type the options chose. */
  lemma ExtractorBuiltOnceFirst(argv: seq<CArg>, engine: Engine)
    ensures Program(argv, engine).calls != [] <==> |argv| >= 2
    ensures |argv| >= 2 ==>
              Program(argv, engine).calls[0] == Construct(ConfigAfter(Scanned(argv)).parser)
    ensures var calls := Program(argv, engine).calls;
            forall i :: 0 < i < |calls| ==> !calls[i].Construct?
  {
    if |argv| >= 2 {
      var cfg := ConfigAfter(Scanned(argv));
      var setup := SetupCalls(cfg);
      var rest := Extraction(cfg, argv[|argv| - 1], engine).calls;
      var calls := Program(argv, engine).calls;
      assert calls == setup + rest;
      SetupConstructsOnce(cfg);
      forall i | 0 < i < |calls| ensures !calls[i].Construct? {
        if i < |setup| {
          assert calls[i] == setup[i];
        } else {
          assert calls[i] == rest[i - |setup|];
        }
      }
    }
  }

  /** The configuration calls follow the configuration, and the file
      argument is the only file any extraction call is made on, once. */
  lemma ExtractionOfTheLastArgument(argv: seq<CArg>, engine: Engine)
    requires |argv| >= 2
    ensures var cfg := ConfigAfter(Scanned(argv));
            var calls := Program(argv, engine).calls;
            var n := |SetupCalls(cfg)|;
            n < |calls| && calls[..n] == SetupCalls(cfg) &&
            calls[n] == (if cfg.extractMetadata then ExtractMetadata(argv[|argv| - 1])
                         else ProcessFile(argv[|argv| - 1]))
    ensures var calls := Program(argv, engine).calls;
            forall i :: 0 <= i < |calls| && (calls[i].ExtractMetadata? || calls[i].ProcessFile?) ==>
              i == |SetupCalls(ConfigAfter(Scanned(argv)))| && calls[i].file == argv[|argv| - 1]
  {
    var cfg := ConfigAfter(Scanned(argv));
    var setup := SetupCalls(cfg);
    var rest := Extraction(cfg, argv[|argv| - 1], engine).calls;
    var calls := Program(argv, engine).calls;
    assert calls == setup + rest;
    assert calls[..|setup|] == setup;
    SetupCallsFollowConfig(cfg);
    forall i | 0 <= i < |calls| && (calls[i].ExtractMetadata? || calls[i].ProcessFile?)
      ensures i == |setup| && calls[i].file == argv[|argv| - 1]
    {
      if i >= |setup| {
        assert calls[i] == rest[i - |setup|];
      }
    }
  }

  /** Two runs that differ only in the file argument configure the extractor
      identically, whatever the extractor answers for each file; when it
      answers the same for both, they also end with the same status. */
  lemma FileArgumentDoesNotConfigure(options: seq<CArg>, f1: CArg, f2: CArg, engine1: Engine, engine2: Engine)
    requires |options| >= 1
    ensures var r1 := Program(options + [f1], engine1);
            var r2 := Program(options + [f2], engine2);
            var n := |SetupCalls(ConfigAfter(options))|;
            n <= |r1.calls| && n <= |r2.calls| && r1.calls[..n] == r2.calls[..n]
    ensures engine1 == engine2 ==>
              Program(options + [f1], engine1).status == Program(options + [f2], engine2).status &&
              |Program(options + [f1], engine1).calls| == |Program(options + [f2], engine2).calls|
  {
    FileArgumentNotScanned(options, f1);
    FileArgumentNotScanned(options, f2);
    var cfg := ConfigAfter(options);
    var setup := SetupCalls(cfg);
    var e1 := Extraction(cfg, f1, engine1);
    var e2 := Extraction(cfg, f2, engine2);
    assert Scanned(options + [f1]) == options && Scanned(options + [f2]) == options;
    assert Program(options + [f1], engine1) == Outcome(e1.status, setup + e1.calls, e1.out);
    assert Program(options + [f2], engine2) == Outcome(e2.status, setup + e2.calls, e2.out);
    assert engine1 == engine2 ==> e1.status == e2.status && |e1.calls| == |e2.calls|;
    assert (setup + e1.calls)[..|setup|] == setup;
    assert (setup + e2.calls)[..|setup|] == setup;
  }

  /** A run fails exactly when there is no file argument or the extractor
      reports an error, and the error message names the file and is written
      to the log stream when a log file was named, else to standard error. */
  lemma FailureIffExtractorFails(argv: seq<CArg>, engine: Engine)
    ensures var cfg := ConfigAfter(Scanned(argv));
            Program(argv, engine).status == ExitFailure <==>
              |argv| < 2 || (cfg.extractMetadata && engine.metadata.None?) ||
              (!cfg.extractMetadata && engine.text.None?)
    ensures |argv| >= 2 && Program(argv, engine).status == ExitFailure ==>
              var cfg := ConfigAfter(Scanned(argv));
              Program(argv, engine).out == [ErrorProcessing(argv[|argv| - 1], ErrorSink(cfg))] &&
              (ErrorSink(cfg) == StdErr <==> cfg.logFile.None?)
  {
  }

  /** In metadata mode the block is printed and a value is marked
      " (estimated)" exactly when its tag says so; the text is not extracted. */
  lemma MetadataModeOutput(argv: seq<CArg>, engine: Engine, m: Metadata)
    requires |argv| >= 2 && ConfigAfter(Scanned(argv)).extractMetadata && engine.metadata == Some(m)
    ensures Program(argv, engine).status == ExitSuccess
    ensures Program(argv, engine).out == MetadataLines(m)
    ensures forall i :: 0 <= i < 6 ==>
              (Program(argv, engine).out[i].estimated <==> Tags(m)[i] == Estimated)
    ensures forall c :: c in Program(argv, engine).calls ==> !c.ProcessFile?
  {
    ExtractionOfTheLastArgument(argv, engine);
  }

  /** In text mode the text comes first, the "parsed links:" header appears
      exactly when there is a link, and the "parsed attachments:" header
      exactly when there is an attachment. */
  lemma TextModeOutput(argv: seq<CArg>, engine: Engine, text: string)
    requires |argv| >= 2 && !ConfigAfter(Scanned(argv)).extractMetadata && engine.text == Some(text)
    ensures Program(argv, engine).status == ExitSuccess
    ensures Program(argv, engine).out[0] == Body(CStr(text))
    ensures LinksHeader in Program(argv, engine).out <==> |engine.links| > 0
    ensures AttachmentsHeader in Program(argv, engine).out <==> |engine.attachments| > 0
  {
    var links := LinksReport(engine.links);
    var atts := AttachmentsReport(engine.attachments);
    var out := Program(argv, engine).out;
    assert out == [Body(CStr(text))] + links + atts;
    assert LinksHeader in out <==> LinksHeader in links by {
      assert LinksHeader !in atts;
    }
    assert AttachmentsHeader in out <==> AttachmentsHeader in atts by {
      assert AttachmentsHeader !in links;
    }
  }

  /** `setLogStream` is called exactly when some scanned argument mentions
      `log-file=`, whatever follows the key. */
  lemma LogStreamIffMentioned(argv: seq<CArg>, engine: Engine)
    requires |argv| >= 2
    ensures (exists p :: SetLogStream(p) in Program(argv, engine).calls) <==>
              exists k :: 0 <= k < |Scanned(argv)| && Contains(Scanned(argv)[k], "log-file=")
  {
    var cfg := ConfigAfter(Scanned(argv));
    var rest := Extraction(cfg, argv[|argv| - 1], engine);
    SetupCallsFollowConfig(cfg);
    LogFileIffMentioned(Scanned(argv));
    forall p ensures SetLogStream(p) in Program(argv, engine).calls <==> cfg.logFile == Some(p) {
      assert SetLogStream(p) !in rest.calls;
    }
  }

  /** In text mode the field lines printed are exactly the lines of the map
      entries, of any attachment, whose key is not `Content-ID`. */
  lemma TextModeAttachmentFields(argv: seq<CArg>, engine: Engine, text: string, l: OutLine)
    requires |argv| >= 2 && !ConfigAfter(Scanned(argv)).extractMetadata && engine.text == Some(text)
    requires l.FieldLine?
    ensures l in Program(argv, engine).out <==>
              exists i :: 0 <= i < |engine.attachments| && PrintsField(engine.attachments[i], l)
  {
    var links := LinksReport(engine.links);
    var atts := AttachmentsReport(engine.attachments);
    assert Program(argv, engine).out == [Body(CStr(text))] + links + atts;
    assert l !in links;
    assert l in atts <==> l in AttachmentBlocks(engine.attachments);
    AttachmentFieldsPrinted(engine.attachments, l);
  }
}
