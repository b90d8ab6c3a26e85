/** The option scan at the top of `main` in src/doctotext.cpp: a configuration
    record folded over the command-line arguments, one fixed chain of
    substring tests per argument. */
module Options {
  import opened Strings

  /** `PlainTextExtractor::ParserType`: the format the extractor tries first. */
  datatype ParserType =
    | Auto | Rtf | OdfXml | OdfOoxml | Ppt | Doc | Xls | Xlsb | IWork | Html | Pdf | Eml

  /** `XmlParseMode`: `PARSE_XML`, `FIX_XML`, `STRIP_XML`. */
  datatype XmlParseMode = ParseXml | FixXml | StripXml

  /** `TABLE_STYLE_TABLE_LOOK`, `TABLE_STYLE_ONE_ROW`, `TABLE_STYLE_ONE_COL`. */
  datatype TableStyle = TableLook | OneRow | OneCol

  /** `URL_STYLE_UNDERSCORED`, `URL_STYLE_TEXT_ONLY`, `URL_STYLE_EXTENDED`. */
  datatype UrlStyle = Underscored | TextOnly | Extended

  /** The locals `main` updates while it scans the arguments, together with
      the process-wide unzip command (`None`: never set, the built-in
      decompressor is used) and the path of the last log file opened. */
  datatype Config = Config(
    extractMetadata: bool,
    parser: ParserType,
    mode: XmlParseMode,
    tableStyle: TableStyle,
    urlStyle: UrlStyle,
    listPrefix: string,
    unzipCommand: Option<string>,
    verbose: bool,
    logFile: Option<string>)

  /** The values `main` gives the locals before the loop. */
  const Default := Config(false, Auto, ParseXml, TableLook, Underscored, " * ", None, false, None)

  // ---------------------------------------------------------------------
  // One argument, in the order of the checks in `main`.
  // ---------------------------------------------------------------------

  /** The eleven parser-type checks, applied one after the other. */
  function StepParser(p: ParserType, arg: string): ParserType {
    var p1 := if Contains(arg, "--rtf") then Rtf else p;
    var p2 := if Contains(arg, "--odfxml") then OdfXml else p1;
    var p3 := if Contains(arg, "--odf") || Contains(arg, "ooxml") then OdfOoxml else p2;
    var p4 := if Contains(arg, "--ppt") then Ppt else p3;
    var p5 := if Contains(arg, "--doc") then Doc else p4;
    var p6 := if Contains(arg, "--xls") then Xls else p5;
    var p7 := if Contains(arg, "--xlsb") then Xlsb else p6;
    var p8 := if Contains(arg, "--iwork") then IWork else p7;
    var p9 := if Contains(arg, "--html") then Html else p8;
    var p10 := if Contains(arg, "--pdf") then Pdf else p9;
    if Contains(arg, "--eml") then Eml else p10
  }

  /** The `table-style=` check: each sub-value is searched from 11 past the
      first `table-style=`. */
  function StepTableStyle(t: TableStyle, arg: string): TableStyle {
    match Find(arg, "table-style=", 0)
    case None => t
    case Some(k) =>
      var t1 := if Find(arg, "one-row", k + 11).Some? then OneRow else t;
      var t2 := if Find(arg, "one-col", k + 11).Some? then OneCol else t1;
      if Find(arg, "table-look", k + 11).Some? then TableLook else t2
  }

  /** The `url-style=` check: each sub-value is searched from 10 past the
      first `url-style=`. */
  function StepUrlStyle(u: UrlStyle, arg: string): UrlStyle {
    match Find(arg, "url-style=", 0)
    case None => u
    case Some(k) =>
      var u1 := if Find(arg, "text-only", k + 10).Some? then TextOnly else u;
      var u2 := if Find(arg, "extended", k + 10).Some? then Extended else u1;
      if Find(arg, "underscored", k + 10).Some? then Underscored else u2
  }

  /** The `fix-xml` check followed by the `strip-xml` check. */
  function StepMode(m: XmlParseMode, arg: string): XmlParseMode {
    var m1 := if Contains(arg, "fix-xml") then FixXml else m;
    if Contains(arg, "strip-xml") then StripXml else m1
  }

  /** `arg.substr(arg.find(key, 0) + n)` when `key` occurs, where `n` is the
      offset the source adds. */
  function StepSuffix(prev: string, arg: string, key: string, n: nat): string
    requires n == |key|
  {
    match Find(arg, key, 0)
    case None => prev
    case Some(k) => FindInRange(arg, key, 0); arg[k + n..]
  }

  /** One pass of the loop body over `arg`. */
  function StepArg(cfg: Config, arg: string): Config {
    Config(
      extractMetadata := cfg.extractMetadata || Contains(arg, "--meta"),
      parser := StepParser(cfg.parser, arg),
      mode := StepMode(cfg.mode, arg),
      tableStyle := StepTableStyle(cfg.tableStyle, arg),
      urlStyle := StepUrlStyle(cfg.urlStyle, arg),
      listPrefix := StepSuffix(cfg.listPrefix, arg, "list-style-prefix=", 18),
      unzipCommand :=
        if Contains(arg, "unzip-cmd=") then Some(StepSuffix("", arg, "unzip-cmd=", 10))
        else cfg.unzipCommand,
      verbose := cfg.verbose || Contains(arg, "verbose"),
      logFile :=
        if Contains(arg, "log-file=") then Some(StepSuffix("", arg, "log-file=", 9))
        else cfg.logFile)
  }

  /** The configuration after the loop has scanned `args`, left to right. */
  function ConfigAfter(args: seq<string>): Config {
    if args == [] then Default
    else StepArg(ConfigAfter(args[..|args| - 1]), args[|args| - 1])
  }

  /** The arguments the loop reads: `argv[i-1]` for `1 <= i < argc`, that is
      every argument but the last (the file), the program name included. */
  function Scanned(argv: seq<CArg>): seq<string> {
    if argv == [] then [] else argv[..|argv| - 1]
  }

  // ---------------------------------------------------------------------
  // The loop itself.
  // ---------------------------------------------------------------------

  /** The `for` loop of `main` over `argv` (`argc == |argv|`): it reads
      `argv[i-1]` for `i` from 1 while `i < argc`. */
  method ScanArguments(argv: seq<CArg>) returns (cfg: Config)
    ensures cfg == ConfigAfter(Scanned(argv))
    ensures |argv| > 0 ==> cfg == ConfigAfter(argv[..|argv| - 1])
  {
    cfg := Default;
    var i := 1;
    while i < |argv|
      invariant 1 <= i <= if argv == [] then 1 else |argv|
      invariant cfg == ConfigAfter(argv[..i - 1])
    {
      var arg: string := CStr(argv[i - 1]);
      CStrOfCArg(argv[i - 1]);
      ConfigAfterOneMore(argv, i);
      cfg := ScanArgument(cfg, arg);
      i := i + 1;
    }
    assert argv != [] ==> i == |argv| && Scanned(argv) == argv[..i - 1];
  }

  /** The body of the `for` loop of `main`, statement by statement: the
      locals it updates come in as `cfg` and go out as `next`. */
  method ScanArgument(cfg: Config, arg: string) returns (next: Config)
    ensures next == StepArg(cfg, arg)
  {
    var extractMetadata := cfg.extractMetadata;
    var parserType := cfg.parser;
    var mode := cfg.mode;
    var tableStyle := cfg.tableStyle;
    var listPrefix := cfg.listPrefix;
    var urlStyle := cfg.urlStyle;
    var unzipCommand := cfg.unzipCommand;
    var verbose := cfg.verbose;
    var logFile := cfg.logFile;
    if Contains(arg, "--meta") { extractMetadata := true; }
    parserType := ScanParserChecks(parserType, arg);
    tableStyle := ScanTableStyle(tableStyle, arg);
    urlStyle := ScanUrlStyle(urlStyle, arg);
    listPrefix := ScanSuffix(listPrefix, arg, "list-style-prefix=", 18);
    mode := ScanMode(mode, arg);
    if Contains(arg, "unzip-cmd=") {
      var command := ScanSuffix("", arg, "unzip-cmd=", 10);
      unzipCommand := Some(command);
    }
    if Contains(arg, "verbose") { verbose := true; }
    if Contains(arg, "log-file=") {
      var path := ScanSuffix("", arg, "log-file=", 9);
      logFile := Some(path);
    }
    next := Config(extractMetadata, parserType, mode, tableStyle, urlStyle, listPrefix,
                   unzipCommand, verbose, logFile);
  }

  /** `arg.substr(arg.find(key, 0) + n)` when `key` occurs, else `prev`. */
  method ScanSuffix(prev: string, arg: string, key: string, n: nat) returns (value: string)
    requires n == |key|
    ensures value == StepSuffix(prev, arg, key, n)
  {
    value := prev;
    var k := Find(arg, key, 0);
    FindInRange(arg, key, 0);
    if k.Some? { value := arg[k.value + n..]; }
  }

  /** The `fix-xml` and `strip-xml` checks of the loop body, in order. */
  method ScanMode(m: XmlParseMode, arg: string) returns (mode: XmlParseMode)
    ensures mode == StepMode(m, arg)
  {
    mode := m;
    if Contains(arg, "fix-xml") { mode := FixXml; }
    if Contains(arg, "strip-xml") { mode := StripXml; }
  }

  /** The parser-type checks of the loop body, in order. */
  method ScanParserChecks(p: ParserType, arg: string) returns (parserType: ParserType)
    ensures parserType == StepParser(p, arg)
  {
    parserType := p;
    if Contains(arg, "--rtf") { parserType := Rtf; }
    if Contains(arg, "--odfxml") { parserType := OdfXml; }
    if Contains(arg, "--odf") || Contains(arg, "ooxml") { parserType := OdfOoxml; }
    if Contains(arg, "--ppt") { parserType := Ppt; }
    if Contains(arg, "--doc") { parserType := Doc; }
    if Contains(arg, "--xls") { parserType := Xls; }
    if Contains(arg, "--xlsb") { parserType := Xlsb; }
    if Contains(arg, "--iwork") { parserType := IWork; }
    if Contains(arg, "--html") { parserType := Html; }
    if Contains(arg, "--pdf") { parserType := Pdf; }
    if Contains(arg, "--eml") { parserType := Eml; }
  }

  /** The `table-style=` block of the loop body. */
  method ScanTableStyle(t: TableStyle, arg: string) returns (tableStyle: TableStyle)
    ensures tableStyle == StepTableStyle(t, arg)
  {
    tableStyle := t;
    if Find(arg, "table-style=", 0).Some? {
      if Find(arg, "one-row", Find(arg, "table-style=", 0).value + 11).Some? { tableStyle := OneRow; }
      if Find(arg, "one-col", Find(arg, "table-style=", 0).value + 11).Some? { tableStyle := OneCol; }
      if Find(arg, "table-look", Find(arg, "table-style=", 0).value + 11).Some? { tableStyle := TableLook; }
    }
  }

  /** The `url-style=` block of the loop body. */
  method ScanUrlStyle(u: UrlStyle, arg: string) returns (urlStyle: UrlStyle)
    ensures urlStyle == StepUrlStyle(u, arg)
  {
    urlStyle := u;
    if Find(arg, "url-style=", 0).Some? {
      if Find(arg, "text-only", Find(arg, "url-style=", 0).value + 10).Some? { urlStyle := TextOnly; }
      if Find(arg, "extended", Find(arg, "url-style=", 0).value + 10).Some? { urlStyle := Extended; }
      if Find(arg, "underscored", Find(arg, "url-style=", 0).value + 10).Some? { urlStyle := Underscored; }
    }
  }

  /** Scanning one more argument is one more step. */
  lemma ConfigAfterOneMore(argv: seq<string>, i: nat)
    requires 1 <= i <= |argv|
    ensures ConfigAfter(argv[..i]) == StepArg(ConfigAfter(argv[..i - 1]), argv[i - 1])
  {
    assert argv[..i][..i - 1] == argv[..i - 1];
  }

  // ---------------------------------------------------------------------
  // Reference definitions: what the last matching check of a field picks.
  // ---------------------------------------------------------------------

  /** The parser type of the last parser check `arg` passes, if any. */
  function ParserChoice(arg: string): Option<ParserType> {
    if Contains(arg, "--eml") then Some(Eml)
    else if Contains(arg, "--pdf") then Some(Pdf)
    else if Contains(arg, "--html") then Some(Html)
    else if Contains(arg, "--iwork") then Some(IWork)
    else if Contains(arg, "--xlsb") then Some(Xlsb)
    else if Contains(arg, "--xls") then Some(Xls)
    else if Contains(arg, "--doc") then Some(Doc)
    else if Contains(arg, "--ppt") then Some(Ppt)
    else if Contains(arg, "--odf") || Contains(arg, "ooxml") then Some(OdfOoxml)
    else if Contains(arg, "--odfxml") then Some(OdfXml)
    else if Contains(arg, "--rtf") then Some(Rtf)
    else None
  }

  /** The table style `arg` selects, if any. */
  function TableChoice(arg: string): Option<TableStyle> {
    match Find(arg, "table-style=", 0)
    case None => None
    case Some(k) =>
      if Find(arg, "table-look", k + 11).Some? then Some(TableLook)
      else if Find(arg, "one-col", k + 11).Some? then Some(OneCol)
      else if Find(arg, "one-row", k + 11).Some? then Some(OneRow)
      else None
  }

  /** The URL style `arg` selects, if any. */
  function UrlChoice(arg: string): Option<UrlStyle> {
    match Find(arg, "url-style=", 0)
    case None => None
    case Some(k) =>
      if Find(arg, "underscored", k + 10).Some? then Some(Underscored)
      else if Find(arg, "extended", k + 10).Some? then Some(Extended)
      else if Find(arg, "text-only", k + 10).Some? then Some(TextOnly)
      else None
  }

  /** The XML parse mode `arg` selects, if any. */
  function ModeChoice(arg: string): Option<XmlParseMode> {
    if Contains(arg, "strip-xml") then Some(StripXml)
    else if Contains(arg, "fix-xml") then Some(FixXml)
    else None
  }

  /** `Some(true)` when `arg` contains `--meta`: the flag is only ever set. */
  function MetadataChoice(arg: string): Option<bool> {
    if Contains(arg, "--meta") then Some(true) else None
  }

  /** `Some(true)` when `arg` contains `verbose`: the flag is only ever set. */
  function VerboseChoice(arg: string): Option<bool> {
    if Contains(arg, "verbose") then Some(true) else None
  }

  /** The text after the first occurrence of `key` in `arg`, if any. */
  function ValueAfter(arg: string, key: string): Option<string>
  {
    match Find(arg, key, 0)
    case None => None
    case Some(k) => FindInRange(arg, key, 0); Some(arg[k + |key|..])
  }

  /** `ValueAfter` is the text after the first occurrence of the key, and
      `None` exactly when the key does not occur. */
  lemma ValueAfterIsRestAfterKey(arg: string, key: string)
    ensures ValueAfter(arg, key).None? <==> !OccursFrom(arg, key, 0)
    ensures ValueAfter(arg, key).Some? ==>
              exists k: nat :: FirstAt(arg, key, k) && arg == arg[..k] + key + ValueAfter(arg, key).value
  {
    FindIsFirstOccurrence(arg, key, 0);
    if Find(arg, key, 0).Some? {
      var k := Find(arg, key, 0).value;
      assert arg == arg[..k] + arg[k..k + |key|] + arg[k + |key|..];
      assert FirstAt(arg, key, k);
    }
  }

  /** The list prefix `arg` sets, if any. */
  function PrefixChoice(arg: string): Option<string> {
    ValueAfter(arg, "list-style-prefix=")
  }

  /** The unzip command `arg` sets, if any. */
  function UnzipChoice(arg: string): Option<Option<string>> {
    match ValueAfter(arg, "unzip-cmd=") case Some(v) => Some(Some(v)) case None => None
  }

  /** The log-file path `arg` sets, if any. */
  function LogChoice(arg: string): Option<Option<string>> {
    match ValueAfter(arg, "log-file=") case Some(v) => Some(Some(v)) case None => None
  }

  /** The value the last argument with a choice chooses, `d` if none does. */
  function LastChoice<T>(args: seq<string>, choice: string -> Option<T>, d: T): T {
    if args == [] then d
    else choice(args[|args| - 1]).GetOr(LastChoice(args[..|args| - 1], choice, d))
  }

  /** Within one argument the last matching parser check decides. */
  lemma StepParserIsLastCheck(p: ParserType, arg: string)
    ensures StepParser(p, arg) == ParserChoice(arg).GetOr(p)
  {
  }

  /** Within one argument the last table-style check that matches decides. */
  lemma StepTableIsLastCheck(t: TableStyle, arg: string)
    ensures StepTableStyle(t, arg) == TableChoice(arg).GetOr(t)
  {
  }

  /** Within one argument the last URL-style check that matches decides. */
  lemma StepUrlIsLastCheck(u: UrlStyle, arg: string)
    ensures StepUrlStyle(u, arg) == UrlChoice(arg).GetOr(u)
  {
  }

  /** Within one argument `strip-xml` is checked after `fix-xml`. */
  lemma StepModeIsLastCheck(m: XmlParseMode, arg: string)
    ensures StepMode(m, arg) == ModeChoice(arg).GetOr(m)
  {
  }

  /** The suffix steps take what follows the first key. */
  lemma StepSuffixIsValueAfter(cfg: Config, arg: string)
    ensures StepArg(cfg, arg).listPrefix == PrefixChoice(arg).GetOr(cfg.listPrefix)
    ensures StepArg(cfg, arg).unzipCommand == UnzipChoice(arg).GetOr(cfg.unzipCommand)
    ensures StepArg(cfg, arg).logFile == LogChoice(arg).GetOr(cfg.logFile)
  {
  }

  /** Within one argument the chain of `if`s agrees with the reference
      choice of every field. */
  lemma StepArgIsLastCheck(cfg: Config, arg: string)
    ensures StepArg(cfg, arg).parser == ParserChoice(arg).GetOr(cfg.parser)
    ensures StepArg(cfg, arg).tableStyle == TableChoice(arg).GetOr(cfg.tableStyle)
    ensures StepArg(cfg, arg).urlStyle == UrlChoice(arg).GetOr(cfg.urlStyle)
    ensures StepArg(cfg, arg).mode == ModeChoice(arg).GetOr(cfg.mode)
    ensures StepArg(cfg, arg).extractMetadata == MetadataChoice(arg).GetOr(cfg.extractMetadata)
    ensures StepArg(cfg, arg).verbose == VerboseChoice(arg).GetOr(cfg.verbose)
    ensures StepArg(cfg, arg).listPrefix == PrefixChoice(arg).GetOr(cfg.listPrefix)
    ensures StepArg(cfg, arg).unzipCommand == UnzipChoice(arg).GetOr(cfg.unzipCommand)
    ensures StepArg(cfg, arg).logFile == LogChoice(arg).GetOr(cfg.logFile)
  {
    StepParserIsLastCheck(cfg.parser, arg);
    StepTableIsLastCheck(cfg.tableStyle, arg);
    StepUrlIsLastCheck(cfg.urlStyle, arg);
    StepModeIsLastCheck(cfg.mode, arg);
    StepSuffixIsValueAfter(cfg, arg);
  }

  // ---------------------------------------------------------------------
  // Across arguments: the fold keeps the last choice of every field.
  // ---------------------------------------------------------------------

  /** Every field of the configuration after the scan is the choice of the
      last argument that makes one for that field, or the default. */
  lemma {:induction false} ConfigAfterIsLastChoice(args: seq<string>)
    ensures ConfigAfter(args).parser == LastChoice(args, ParserChoice, Auto)
    ensures ConfigAfter(args).tableStyle == LastChoice(args, TableChoice, TableLook)
    ensures ConfigAfter(args).urlStyle == LastChoice(args, UrlChoice, Underscored)
    ensures ConfigAfter(args).mode == LastChoice(args, ModeChoice, ParseXml)
    ensures ConfigAfter(args).extractMetadata == LastChoice(args, MetadataChoice, false)
    ensures ConfigAfter(args).verbose == LastChoice(args, VerboseChoice, false)
    ensures ConfigAfter(args).listPrefix == LastChoice(args, PrefixChoice, " * ")
    ensures ConfigAfter(args).unzipCommand == LastChoice(args, UnzipChoice, None)
    ensures ConfigAfter(args).logFile == LastChoice(args, LogChoice, None)
  {
    if args != [] {
      var init := args[..|args| - 1];
      ConfigAfterIsLastChoice(init);
      StepArgIsLastCheck(ConfigAfter(init), args[|args| - 1]);
    }
  }

  /** The last argument that makes a choice wins over every earlier one. */
  lemma {:induction false} LastChoiceWins<T>(args: seq<string>, choice: string -> Option<T>, d: T, j: nat)
    requires j < |args| && choice(args[j]).Some?
    requires forall k :: j < k < |args| ==> choice(args[k]).None?
    ensures LastChoice(args, choice, d) == choice(args[j]).value
  {
    if j < |args| - 1 {
      var init := args[..|args| - 1];
      assert init[j] == args[j];
      assert forall k :: j < k < |init| ==> init[k] == args[k];
      LastChoiceWins(init, choice, d, j);
    }
  }

  /** When no argument makes a choice the default stands. */
  lemma {:induction false} LastChoiceDefault<T>(args: seq<string>, choice: string -> Option<T>, d: T)
    requires forall k :: 0 <= k < |args| ==> choice(args[k]).None?
    ensures LastChoice(args, choice, d) == d
  {
    if args != [] {
      var init := args[..|args| - 1];
      assert forall k :: 0 <= k < |init| ==> init[k] == args[k];
      LastChoiceDefault(init, choice, d);
    }
  }

  /** When no choice ever picks the default, the default stands exactly
      when no argument makes a choice: once chosen away, it never returns. */
  lemma {:induction false} LastChoiceStaysDefaultIff<T>(args: seq<string>, choice: string -> Option<T>, d: T)
    requires forall a :: choice(a) != Some(d)
    ensures LastChoice(args, choice, d) == d <==> forall k :: 0 <= k < |args| ==> choice(args[k]).None?
  {
    if args != [] {
      var init := args[..|args| - 1];
      assert forall k :: 0 <= k < |init| ==> init[k] == args[k];
      LastChoiceStaysDefaultIff(init, choice, d);
      if choice(args[|args| - 1]).Some? {
        assert choice(args[|args| - 1]) != Some(d);
      }
    }
  }

  // ---------------------------------------------------------------------
  // The properties the front end promises.
  // ---------------------------------------------------------------------

  /** No key of any option occurs in `arg`. */
  predicate MentionsNoOption(arg: string) {
    !Contains(arg, "--meta") && !Contains(arg, "--rtf") && !Contains(arg, "--odfxml")
    && !Contains(arg, "--odf") && !Contains(arg, "ooxml") && !Contains(arg, "--ppt")
    && !Contains(arg, "--doc") && !Contains(arg, "--xls") && !Contains(arg, "--xlsb")
    && !Contains(arg, "--iwork") && !Contains(arg, "--html") && !Contains(arg, "--pdf")
    && !Contains(arg, "--eml") && !Contains(arg, "table-style=") && !Contains(arg, "url-style=")
    && !Contains(arg, "list-style-prefix=") && !Contains(arg, "fix-xml")
    && !Contains(arg, "strip-xml") && !Contains(arg, "unzip-cmd=") && !Contains(arg, "verbose")
    && !Contains(arg, "log-file=")
  }

  /** When no scanned argument mentions an option, every default holds. */
  lemma {:induction false} DefaultsWhenNothingMatches(args: seq<string>)
    requires forall k :: 0 <= k < |args| ==> MentionsNoOption(args[k])
    ensures ConfigAfter(args) == Default
  {
    if args != [] {
      var init := args[..|args| - 1];
      assert forall k :: 0 <= k < |init| ==> init[k] == args[k];
      DefaultsWhenNothingMatches(init);
    }
  }

  /** The parser type is the one chosen by the last argument that passes a
      parser check. */
  lemma ParserFromLastSelectingArgument(args: seq<string>, j: nat)
    requires j < |args| && ParserChoice(args[j]).Some?
    requires forall k :: j < k < |args| ==> ParserChoice(args[k]).None?
    ensures ConfigAfter(args).parser == ParserChoice(args[j]).value
  {
    ConfigAfterIsLastChoice(args);
    LastChoiceWins(args, ParserChoice, Auto, j);
  }

  /** When no scanned argument passes a parser check the parser type stays
      `PARSER_AUTO`. */
  lemma ParserStaysAutoWithoutChoice(args: seq<string>)
    requires forall k :: 0 <= k < |args| ==> ParserChoice(args[k]).None?
    ensures ConfigAfter(args).parser == Auto
  {
    ConfigAfterIsLastChoice(args);
    LastChoiceDefault(args, ParserChoice, Auto);
  }

  /** An argument containing `--xlsb` passes the `--xls` check too, and the
      later `--xlsb` check wins unless a later key occurs as well. */
  lemma XlsbBeatsXls(p: ParserType, arg: string)
    requires Contains(arg, "--xlsb")
    requires !Contains(arg, "--iwork") && !Contains(arg, "--html")
    requires !Contains(arg, "--pdf") && !Contains(arg, "--eml")
    ensures Contains(arg, "--xls")
    ensures StepParser(p, arg) == Xlsb
  {
    assert "--xlsb" == "--xls" + "b";
    ContainsPrefixOf(arg, "--xls", "b");
  }

  /** An argument containing `--odfxml` passes the `--odf` check that follows,
      so it selects `PARSER_ODF_OOXML` unless a later key occurs as well. */
  lemma OdfXmlGivesOdfOoxml(p: ParserType, arg: string)
    requires Contains(arg, "--odfxml")
    requires !Contains(arg, "--ppt") && !Contains(arg, "--doc") && !Contains(arg, "--xls")
    requires !Contains(arg, "--iwork") && !Contains(arg, "--html")
    requires !Contains(arg, "--pdf") && !Contains(arg, "--eml")
    ensures StepParser(p, arg) == OdfOoxml
  {
    assert "--odfxml" == "--odf" + "xml";
    ContainsPrefixOf(arg, "--odf", "xml");
    XlsbNeedsXls(arg);
  }

  /** No argument chooses `PARSER_ODFXML`. */
  lemma NoArgumentChoosesOdfXml(arg: string)
    ensures ParserChoice(arg) != Some(OdfXml)
  {
    if Contains(arg, "--odfxml") {
      assert "--odfxml" == "--odf" + "xml";
      ContainsPrefixOf(arg, "--odf", "xml");
    }
  }

  /** Whatever the arguments, the scan never ends with `PARSER_ODFXML`. */
  lemma {:induction false} OdfXmlNeverSelected(args: seq<string>)
    ensures ConfigAfter(args).parser != OdfXml
  {
    if args != [] {
      var init := args[..|args| - 1];
      var last := args[|args| - 1];
      OdfXmlNeverSelected(init);
      StepArgIsLastCheck(ConfigAfter(init), last);
      NoArgumentChoosesOdfXml(last);
    }
  }

  /** `ooxml` is tested without the `--` prefix: any argument containing it
      selects `PARSER_ODF_OOXML` unless a later key occurs as well. */
  lemma OoxmlWithoutDashes(p: ParserType, arg: string)
    requires Contains(arg, "ooxml")
    requires !Contains(arg, "--ppt") && !Contains(arg, "--doc") && !Contains(arg, "--xls")
    requires !Contains(arg, "--iwork") && !Contains(arg, "--html")
    requires !Contains(arg, "--pdf") && !Contains(arg, "--eml")
    ensures StepParser(p, arg) == OdfOoxml
  {
    XlsbNeedsXls(arg);
  }

  /** Without `--xls` there is no `--xlsb` either. */
  lemma XlsbNeedsXls(arg: string)
    ensures Contains(arg, "--xlsb") ==> Contains(arg, "--xls")
  {
    if Contains(arg, "--xlsb") {
      assert "--xlsb" == "--xls" + "b";
      ContainsPrefixOf(arg, "--xls", "b");
    }
  }

  /** The table style: sub-values count only at or after 11 past the first
      `table-style=`; table-look beats one-col beats one-row; anything else
      leaves the style as it was. */
  lemma TableStyleRule(t: TableStyle, arg: string, k: nat)
    requires FirstAt(arg, "table-style=", k)
    ensures StepTableStyle(t, arg)
         == if OccursFrom(arg, "table-look", k + 11) then TableLook
            else if OccursFrom(arg, "one-col", k + 11) then OneCol
            else if OccursFrom(arg, "one-row", k + 11) then OneRow
            else t
  {
    FindIsFirstOccurrence(arg, "table-style=", 0);
    assert Find(arg, "table-style=", 0) == Some(k);
    FindIsFirstOccurrence(arg, "table-look", k + 11);
    FindIsFirstOccurrence(arg, "one-col", k + 11);
    FindIsFirstOccurrence(arg, "one-row", k + 11);
  }

  /** Without `table-style=` the table style is untouched. */
  lemma TableStyleUntouched(t: TableStyle, arg: string)
    requires !OccursFrom(arg, "table-style=", 0)
    ensures StepTableStyle(t, arg) == t
  {
    FindIsFirstOccurrence(arg, "table-style=", 0);
  }

  /** The offset 11 is one short of the length of `table-style=`: the search
      starts on its `=`, which no sub-value begins with, so it finds the
      same occurrences as a search from just past the key. */
  lemma {:induction false} TableStyleOffsetHarmless(arg: string, k: nat, v: string)
    requires OccursAt(arg, "table-style=", k)
    requires v in ["one-row", "one-col", "table-look"]
    ensures OccursFrom(arg, v, k + 11) <==> OccursFrom(arg, v, k + 12)
  {
    assert arg[k + 11] == arg[k..k + 12][11] == '=';
    if OccursFrom(arg, v, k + 11) {
      var j: nat :| k + 11 <= j && OccursAt(arg, v, j);
      assert arg[j] == arg[j..j + |v|][0] == v[0];
      assert j != k + 11;
    }
  }

  /** The URL style: sub-values count only at or after the end of the first
      `url-style=`; underscored beats extended beats text-only; anything
      else leaves the style as it was. */
  lemma UrlStyleRule(u: UrlStyle, arg: string, k: nat)
    requires FirstAt(arg, "url-style=", k)
    ensures StepUrlStyle(u, arg)
         == if OccursFrom(arg, "underscored", k + 10) then Underscored
            else if OccursFrom(arg, "extended", k + 10) then Extended
            else if OccursFrom(arg, "text-only", k + 10) then TextOnly
            else u
  {
    FindIsFirstOccurrence(arg, "url-style=", 0);
    assert Find(arg, "url-style=", 0) == Some(k);
    FindIsFirstOccurrence(arg, "underscored", k + 10);
    FindIsFirstOccurrence(arg, "extended", k + 10);
    FindIsFirstOccurrence(arg, "text-only", k + 10);
  }

  /** Without `url-style=` the URL style is untouched. */
  lemma UrlStyleUntouched(u: UrlStyle, arg: string)
    requires !OccursFrom(arg, "url-style=", 0)
    ensures StepUrlStyle(u, arg) == u
  {
    FindIsFirstOccurrence(arg, "url-style=", 0);
  }

  /** The list prefix, unzip command and log-file path an argument sets are
      what follows the first occurrence of their key; without the key they
      are untouched. */
  lemma SuffixAfterFirstKey(cfg: Config, arg: string)
    ensures !OccursFrom(arg, "list-style-prefix=", 0) ==> StepArg(cfg, arg).listPrefix == cfg.listPrefix
    ensures OccursFrom(arg, "list-style-prefix=", 0) ==>
              exists k: nat :: FirstAt(arg, "list-style-prefix=", k) &&
                arg == arg[..k] + "list-style-prefix=" + StepArg(cfg, arg).listPrefix
    ensures !OccursFrom(arg, "unzip-cmd=", 0) ==> StepArg(cfg, arg).unzipCommand == cfg.unzipCommand
    ensures OccursFrom(arg, "unzip-cmd=", 0) ==>
              StepArg(cfg, arg).unzipCommand.Some? &&
              exists k: nat :: FirstAt(arg, "unzip-cmd=", k) &&
                arg == arg[..k] + "unzip-cmd=" + StepArg(cfg, arg).unzipCommand.value
    ensures !OccursFrom(arg, "log-file=", 0) ==> StepArg(cfg, arg).logFile == cfg.logFile
    ensures OccursFrom(arg, "log-file=", 0) ==>
              StepArg(cfg, arg).logFile.Some? &&
              exists k: nat :: FirstAt(arg, "log-file=", k) &&
                arg == arg[..k] + "log-file=" + StepArg(cfg, arg).logFile.value
  {
    StepSuffixIsValueAfter(cfg, arg);
    ValueAfterIsRestAfterKey(arg, "list-style-prefix=");
    ValueAfterIsRestAfterKey(arg, "unzip-cmd=");
    ValueAfterIsRestAfterKey(arg, "log-file=");
  }

  /** An argument with both `fix-xml` and `strip-xml` selects `STRIP_XML`. */
  lemma FixAndStripGivesStrip(m: XmlParseMode, arg: string)
    requires Contains(arg, "fix-xml") && Contains(arg, "strip-xml")
    ensures StepMode(m, arg) == StripXml
  {
  }

  /** The XML mode stays `PARSE_XML` exactly when no scanned argument
      mentions `fix-xml` or `strip-xml`: no argument ever resets it. */
  lemma XmlModeUntouchedIff(args: seq<string>)
    ensures ConfigAfter(args).mode == ParseXml
        <==> forall k :: 0 <= k < |args| ==> !Contains(args[k], "fix-xml") && !Contains(args[k], "strip-xml")
  {
    ConfigAfterIsLastChoice(args);
    assert forall a :: ModeChoice(a) != Some(ParseXml);
    LastChoiceStaysDefaultIff(args, ModeChoice, ParseXml);
    assert forall k :: 0 <= k < |args| ==>
             (ModeChoice(args[k]).None? <==> !Contains(args[k], "fix-xml") && !Contains(args[k], "strip-xml"));
  }

  /** Verbose logging is on exactly when some scanned argument contains
      `verbose`. */
  lemma VerboseIffMentioned(args: seq<string>)
    ensures ConfigAfter(args).verbose <==> exists k :: 0 <= k < |args| && Contains(args[k], "verbose")
  {
    ConfigAfterIsLastChoice(args);
    LastChoiceStaysDefaultIff(args, VerboseChoice, false);
  }

  /** Metadata mode is on exactly when some scanned argument contains
      `--meta`. */
  lemma MetadataIffMentioned(args: seq<string>)
    ensures ConfigAfter(args).extractMetadata <==> exists k :: 0 <= k < |args| && Contains(args[k], "--meta")
  {
    ConfigAfterIsLastChoice(args);
    LastChoiceStaysDefaultIff(args, MetadataChoice, false);
  }

  /** A log file is named exactly when some scanned argument contains
      `log-file=`: a later argument without the key never clears it. */
  lemma LogFileIffMentioned(args: seq<string>)
    ensures ConfigAfter(args).logFile.Some? <==> exists k :: 0 <= k < |args| && Contains(args[k], "log-file=")
  {
    forall a ensures LogChoice(a) != Some(None) && (LogChoice(a).None? <==> !Contains(a, "log-file=")) {
      LogChoiceShape(a);
    }
    ConfigAfterIsLastChoice(args);
    LastChoiceStaysDefaultIff(args, LogChoice, None);
  }

  /** An argument chooses a log file exactly when it contains `log-file=`,
      and never chooses "no log file". */
  lemma LogChoiceShape(arg: string)
    ensures LogChoice(arg) != Some(None)
    ensures LogChoice(arg).None? <==> !Contains(arg, "log-file=")
  {
  }

  /** The file argument never reaches the scan: two command lines that agree
      on everything but their last argument yield the same configuration,
      and the program name is scanned like any option. */
  lemma FileArgumentNotScanned(argv: seq<CArg>, file: CArg)
    ensures ConfigAfter(Scanned(argv + [file])) == ConfigAfter(argv)
    ensures |argv| > 0 && Contains(argv[0], "verbose") ==> ConfigAfter(Scanned(argv + [file])).verbose
    ensures Contains(file, "verbose") && ConfigAfter(argv) == Default
        ==> !ConfigAfter(Scanned(argv + [file])).verbose
  {
    assert (argv + [file])[..|argv|] == argv;
    VerboseIffMentioned(argv);
  }
}
