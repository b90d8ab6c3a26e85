# doctotext command-line front end, modelled in Dafny

This project models `main` in `src/doctotext.cpp`, the command-line front
end of doctotext. The front end takes options and one file name, configures
a `PlainTextExtractor`, and prints what the extractor returns. That is either
the document's metadata or its plain text followed by the parsed links and
attachments.

The model has four modules:

- `Strings` (`strings.dfy`): `std::string::find` as `Find`, with `None` in
  the part of `npos`. `Find` is proved to return the first occurrence at or
  after its start position, and `None` exactly when there is none.
  `Contains` is the `find(…) != npos` test. `CStr` is what `printf("%s")`
  and `strlen` see of a string: everything before the first NUL. `CArg` is
  an argv entry, a C string with no NUL.
- `Options` (`options.dfy`): the configuration record and its defaults.
  `StepArg` is one pass of the loop body, with its checks in source order.
  `ConfigAfter` is the left fold of `StepArg` over the scanned arguments.
  `ScanArguments` is the imperative loop itself. A second, independent
  description says that each field is "the choice of the last argument that
  makes one, or the default" (`LastChoice` with one `…Choice` function per
  field, written as an if-else chain from the last check back). The two
  descriptions are proved to agree, and the precedence rules and quirks are
  proved from that.
- `Report` (`report.dfy`): the metadata block, the links section and the
  attachments section, as abstract output records. The metadata block is a
  single output statement in `main`, so it is a specification function only.
  The links and attachments sections each have a specification function and
  the loop that `main` runs, proved equal to it. The attachments section is
  also proved to hold exactly the attachments' names and exactly the map
  entries whose key is not `Content-ID`.
- `DocToText` (`doctotext.dfy`): the whole program. `Program` is a function
  of the argument vector and of what the extractor answers. `Run` is `main`,
  statement by statement, proved equal to `Program`. The extractor is
  abstract: its answers are the `Engine` input, and the calls `main` makes
  on it are recorded as a trace of `Call`s.

Quirks of the source that the model reproduces, and proves:

- The loop reads `argv[i-1]` for `1 <= i < argc`. It therefore scans the
  program name `argv[0]` and never the file argument `argv[argc-1]`.
- `--odfxml` also passes the later `--odf` test, so `PARSER_ODFXML` is never
  the outcome of a scan.
- `--xlsb` also passes the `--xls` test; the later `--xlsb` test wins.
- `ooxml` is tested without the `--` prefix.
- The `table-style=` sub-values are searched from 11 characters past the
  start of the key, which is on its `=` (the key is 12 characters long). No sub-value
  starts with `=`, so this finds the same matches as a search from just
  past the key.
- Every `log-file=` argument opens a new stream. The one used is the last
  one's, so the log path is the last argument's suffix. `setLogStream` is
  called exactly when some scanned argument contains `log-file=`
  (`DocToText.LogStreamIffMentioned`).

## Model

| member | source | states |
|---|---|---|
| Strings.Search | src/doctotext.cpp:125 | the character-by-character search of `find`: the candidate position advances by one on a mismatch, and the answer is `npos` once the rest is shorter than the needle (its properties are in `SearchIsFirstOccurrence`) |
| Strings.Find | src/doctotext.cpp:125-260 | `arg.find(key, pos)` as every check and suffix uses it (its properties are in `FindIsFirstOccurrence` and `FindInRange`) |
| Strings.Contains | src/doctotext.cpp:125-258 | the `find(key, 0) != -1` / `!= npos` test of every check |
| Strings.FindIsFirstOccurrence | src/doctotext.cpp:125 | `find(needle, from)` answers with the least index at or after `from` where `needle` occurs, and with `npos` exactly when it occurs nowhere at or after `from` |
| Strings.SearchIsFirstOccurrence | src/doctotext.cpp:125 | the character-by-character search behind `find` returns the first occurrence from its candidate, and none exactly when there is none |
| Strings.FindInRange | src/doctotext.cpp:231 | a position `find` returns leaves room for the key, so taking the suffix past the key is in range |
| Strings.ContainsPrefixOf | src/doctotext.cpp:137-171 | an argument that contains `a + b` also contains `a` (why `--xlsb` passes `--xls` and `--odfxml` passes `--odf`) |
| Strings.CStr | src/doctotext.cpp:324 | the C view of a string is its prefix before the first NUL, and contains no NUL |
| Strings.CStrOfCArg | src/doctotext.cpp:123 | an argv entry has no NUL, so converting it to `std::string` keeps it whole |
| Options.StepParser | src/doctotext.cpp:132-195 | the parser type after the eleven parser checks of one argument, in source order |
| Options.StepTableStyle | src/doctotext.cpp:197-211 | the table style after the table-style block of one argument |
| Options.StepUrlStyle | src/doctotext.cpp:213-227 | the URL style after the URL-style block of one argument |
| Options.StepSuffix | src/doctotext.cpp:229-232 | the value after a key's first occurrence, or the previous value (also lines 246-249 and 258-261) |
| Options.StepMode | src/doctotext.cpp:234-243 | the XML mode after the `fix-xml` and `strip-xml` checks of one argument |
| Options.StepArg | src/doctotext.cpp:123-261 | the configuration after one pass of the loop body |
| Options.ConfigAfter | src/doctotext.cpp:121-262 | the configuration after the loop: the defaults, then one step per scanned argument, in order |
| Options.Scanned | src/doctotext.cpp:121-123 | the arguments the loop reads: `argv[0]` to `argv[argc-2]` |
| Options.ScanArguments | src/doctotext.cpp:121-123 | the loop leaves the configuration equal to the fold of the loop body over `argv[0]` … `argv[argc-2]`, starting from the defaults |
| Options.ScanArgument | src/doctotext.cpp:123-261 | one pass of the loop body updates the configuration as `StepArg` says |
| Options.ScanParserChecks | src/doctotext.cpp:132-195 | the parser-type checks, in source order |
| Options.ScanTableStyle | src/doctotext.cpp:197-211 | the table-style block: sub-values searched from 11 past the first `table-style=` |
| Options.ScanUrlStyle | src/doctotext.cpp:213-227 | the URL-style block: sub-values searched from 10 past the first `url-style=` |
| Options.ScanSuffix | src/doctotext.cpp:229-232 | `arg.substr(arg.find(key, 0) + n)` when the key occurs, the previous value otherwise |
| Options.ScanMode | src/doctotext.cpp:234-243 | the `fix-xml` check, then the `strip-xml` check |
| Options.ConfigAfterOneMore | src/doctotext.cpp:121-123 | scanning one more argument is one more step of the fold |
| Options.StepArgIsLastCheck | src/doctotext.cpp:125-261 | within one argument, every field ends up as the value of the last check that matches, else unchanged |
| Options.ConfigAfterIsLastChoice | src/doctotext.cpp:121-262 | after the scan, every field is the choice of the last argument that makes one for it, or its default |
| Options.LastChoiceWins | src/doctotext.cpp:121-262 | a later argument's choice overrides every earlier one |
| Options.LastChoiceStaysDefaultIff | src/doctotext.cpp:121-262 | a field that no argument can set back to its default keeps the default exactly when no argument makes a choice for it |
| Options.DefaultsWhenNothingMatches | src/doctotext.cpp:104-119 | with no option key in any scanned argument: `PARSER_AUTO`, `PARSE_XML`, `TABLE_STYLE_TABLE_LOOK`, `URL_STYLE_UNDERSCORED`, prefix `" * "`, no unzip command, metadata off, verbose off, no log file |
| Options.ParserFromLastSelectingArgument | src/doctotext.cpp:132-195 | the parser type is the one chosen by the last argument that passes a parser check |
| Options.ParserStaysAutoWithoutChoice | src/doctotext.cpp:107 | when no argument passes a parser check, the parser type stays `PARSER_AUTO` |
| Options.XlsbBeatsXls | src/doctotext.cpp:161-171 | an argument with `--xlsb` passes the `--xls` check and ends on XLSB unless a later key occurs too |
| Options.OdfXmlGivesOdfOoxml | src/doctotext.cpp:137-147 | an argument with `--odfxml` ends on `PARSER_ODF_OOXML` unless a later key occurs too |
| Options.NoArgumentChoosesOdfXml | src/doctotext.cpp:137-147 | no single argument chooses `PARSER_ODFXML` |
| Options.OdfXmlNeverSelected | src/doctotext.cpp:137-147 | no command line ends the scan on `PARSER_ODFXML` |
| Options.OoxmlWithoutDashes | src/doctotext.cpp:143-147 | an argument containing `ooxml`, with no dashes, ends on `PARSER_ODF_OOXML` unless a later key occurs too |
| Options.XlsbNeedsXls | src/doctotext.cpp:161-171 | an argument containing `--xlsb` contains `--xls` |
| Options.TableStyleRule | src/doctotext.cpp:197-211 | after the first `table-style=` at k, table-look beats one-col beats one-row, each searched from k+11; no sub-value leaves the style unchanged |
| Options.TableStyleUntouched | src/doctotext.cpp:197 | without `table-style=` the table style is unchanged |
| Options.TableStyleOffsetHarmless | src/doctotext.cpp:199-207 | searching the sub-values from k+11 finds the same as from k+12, just past the key |
| Options.UrlStyleRule | src/doctotext.cpp:213-227 | after the first `url-style=` at k, underscored beats extended beats text-only, each searched from k+10; no sub-value leaves the style unchanged |
| Options.UrlStyleUntouched | src/doctotext.cpp:213 | without `url-style=` the URL style is unchanged |
| Options.ValueAfterIsRestAfterKey | src/doctotext.cpp:229-261 | the value after a key is the rest of the argument after the key's first occurrence |
| Options.SuffixAfterFirstKey | src/doctotext.cpp:229-261 | the list prefix, unzip command and log path an argument sets are exactly what follows the first `list-style-prefix=`, `unzip-cmd=`, `log-file=`; without the key the value is unchanged |
| Options.FixAndStripGivesStrip | src/doctotext.cpp:234-243 | an argument with both `fix-xml` and `strip-xml` gives `STRIP_XML` |
| Options.XmlModeUntouchedIff | src/doctotext.cpp:234-243 | the XML mode is `PARSE_XML` after the scan exactly when no scanned argument mentions `fix-xml` or `strip-xml` |
| Options.VerboseIffMentioned | src/doctotext.cpp:252-255 | verbose logging is on exactly when some scanned argument contains `verbose`; it is never reset |
| Options.MetadataIffMentioned | src/doctotext.cpp:125-129 | metadata mode is on exactly when some scanned argument contains `--meta`; it is never reset |
| Options.LogFileIffMentioned | src/doctotext.cpp:258-261 | a log file is named exactly when some scanned argument contains `log-file=` |
| Options.LogChoiceShape | src/doctotext.cpp:258-261 | an argument chooses a log path exactly when it contains `log-file=`, and the choice is always a path |
| Options.FileArgumentNotScanned | src/doctotext.cpp:121-123 | the file argument never affects the configuration, while the program name is scanned |
| Report.Tags | src/doctotext.cpp:297-302 | the six `...Type()` tags in the order they are printed |
| Report.Values | src/doctotext.cpp:297-302 | the six values in the order they are printed |
| Report.MetadataLines | src/doctotext.cpp:297-303 | six lines under the fixed labels with the six values in order, each marked " (estimated)" exactly when its tag is `ESTIMATED` |
| Report.LinkLines | src/doctotext.cpp:344-347 | one `LinkLineOf` line per link, in order |
| Report.LinksReport | src/doctotext.cpp:339-348 | the "parsed links:" header appears exactly when there is a link, followed by one line per link in order |
| Report.ReportLinks | src/doctotext.cpp:341-348 | the links loop produces `LinksReport` |
| Report.LinkLineOf | src/doctotext.cpp:346 | one link's line: its URL, its position and the `strlen` of its text |
| Report.PrintedFields | src/doctotext.cpp:360-369 | an entry is printed exactly when it is in the map and its key is not `Content-ID` |
| Report.PrintedFieldsInKeyOrder | src/doctotext.cpp:359-369 | the printed entries keep the map's key order |
| Report.FieldLineOf | src/doctotext.cpp:367 | one entry's line: its key and its value as C strings |
| Report.FieldLines | src/doctotext.cpp:360-369 | one `FieldLineOf` line per entry, in order (membership in `InFieldLines`) |
| Report.AttachmentBlock | src/doctotext.cpp:358-369 | one attachment: its name line, then the lines of its printed entries in key order |
| Report.AttachmentBlocks | src/doctotext.cpp:356-370 | one name line per attachment, followed only by field lines |
| Report.AttachmentBlocksAppendOne | src/doctotext.cpp:356-370 | one more attachment adds its own block after the blocks of the earlier ones |
| Report.AttachmentBlocksOfOne | src/doctotext.cpp:358-369 | a single attachment prints its name, then its printed entries |
| Report.InFieldLines | src/doctotext.cpp:360-369 | a field line is printed exactly when it is the line of one of the entries |
| Report.BlockFieldLines | src/doctotext.cpp:360-369 | the field lines of one attachment are exactly the lines of its entries whose key is not `Content-ID` |
| Report.AttachmentFieldsPrinted | src/doctotext.cpp:356-370 | the field lines of the section are exactly the lines of the entries, of any attachment, whose key is not `Content-ID` |
| Report.BlockNameLines | src/doctotext.cpp:358 | the only name line of one attachment's block is its own name |
| Report.AttachmentNamesPrinted | src/doctotext.cpp:356-358 | the name lines of the section are exactly the attachments' file names |
| Report.AttachmentsReport | src/doctotext.cpp:351-371 | the "parsed attachments:" header appears exactly when there is an attachment |
| Report.ReportAttachments | src/doctotext.cpp:353-371 | the attachments loop produces `AttachmentsReport` |
| Report.ReportFields | src/doctotext.cpp:359-369 | the iterator loop over one attachment's fields prints the entries of `PrintedFields`, in order |
| DocToText.VerboseCalls | src/doctotext.cpp:268-271 | `setVerboseLogging(true)` exactly when verbose logging was asked for |
| DocToText.LogCalls | src/doctotext.cpp:274-277 | `setLogStream` with the named log file, exactly when one was named |
| DocToText.ModeCalls | src/doctotext.cpp:280-283 | `setXmlParseMode` with the chosen mode, exactly when it is not `PARSE_XML` |
| DocToText.ConfigureCalls | src/doctotext.cpp:268-283 | the optional calls in order: verbose logging, log stream, XML mode, at most three |
| DocToText.SetupCalls | src/doctotext.cpp:264-286 | the extractor is constructed first with the chosen parser type, and the formatting style is set last |
| DocToText.SetupCallsFollowConfig | src/doctotext.cpp:267-283 | `setVerboseLogging` is called exactly when verbose is on, `setLogStream` exactly when a log file was named, `setXmlParseMode` exactly when the mode is not `PARSE_XML`, and none of them extracts |
| DocToText.SetupConstructsOnce | src/doctotext.cpp:264-286 | the extractor is constructed once, before all configuration calls |
| DocToText.ErrorSink | src/doctotext.cpp:294 | error messages go to the log stream when a log file was named, else to `cerr` |
| DocToText.Configure | src/doctotext.cpp:264-286 | the configuration statements make the calls of `SetupCalls` |
| DocToText.Extraction | src/doctotext.cpp:288-372 | one extraction call on the file; failure exactly when the extractor reports it, and then the error message on the error sink |
| DocToText.Extract | src/doctotext.cpp:288-372 | the metadata or text branch of `main` produces `Extraction` |
| DocToText.Program | src/doctotext.cpp:88-378 | the outcome of `main`: help when there is no file argument, else the setup calls followed by the extraction |
| DocToText.Run | src/doctotext.cpp:88-378 | `main` produces the outcome of `Program` |
| DocToText.HelpWithoutFile | src/doctotext.cpp:95-99 | with `argc < 2`: help, `EXIT_FAILURE`, and no extractor constructed |
| DocToText.ExtractorBuiltOnceFirst | src/doctotext.cpp:95-99 | an extractor is built exactly when there is a file argument, first and once, with the chosen parser type (the construction is at line 265) |
| DocToText.ExtractionOfTheLastArgument | src/doctotext.cpp:288-317 | the configuration calls come first, then one extraction call, on `argv[argc-1]` and on nothing else |
| DocToText.FileArgumentDoesNotConfigure | src/doctotext.cpp:121-123 | two runs that differ only in the file argument configure the extractor the same way, whatever the extractor answers for each file; when it answers the same for both, they also end with the same status |
| DocToText.FailureIffExtractorFails | src/doctotext.cpp:292-320 | `EXIT_FAILURE` exactly when there is no file or the extractor fails; the message names the file and is written to the log stream if a log file was named, else to standard error |
| DocToText.MetadataModeOutput | src/doctotext.cpp:288-303 | metadata mode prints the metadata block with the " (estimated)" marks from the tags, and never processes the file's text |
| DocToText.TextModeOutput | src/doctotext.cpp:316-371 | text mode prints the text first; the links header appears exactly when there are links, the attachments header exactly when there are attachments |
| DocToText.TextModeAttachmentFields | src/doctotext.cpp:351-371 | in text mode the field lines printed are exactly the lines of the entries, of any attachment, whose key is not `Content-ID` |
| DocToText.LogStreamIffMentioned | src/doctotext.cpp:258-277 | `setLogStream` is called exactly when some scanned argument contains `log-file=` |

## Left out

- `help()` and `version()`: fixed text. Help is the single record `HelpText`.
- The extraction engine (`PlainTextExtractor`, `Metadata`, `Link`, `Attachment`, `Variant`, `DocToTextUnzip`) is not part of this model. Its answers are the `Engine` input: success, text, links, attachment field maps, and metadata values with their tags. Its behaviour does not depend on the configuration in this model, nor on the file name: a run's answers for its file are the one `Engine` given, so two runs on different files with the same `Engine` get the same answers.
- `DocToTextUnzip::setUnzipCommand`: a process-wide setter, called during the scan. The model keeps only the last value it is given, as `Config.unzipCommand`.
- Report.MetadataLines: the metadata values are printed with `cout <<`, not `%s`, so the block keeps them as given, with no NUL truncation; the return types of the `Metadata` accessors are not part of this model.
- Output formatting: `printf`/`cout`/`cerr` and `%d`/`%s` formatting. Output is a sequence of `OutLine` records. NUL truncation by `%s` and `strlen` is modelled (`CStr`); `int` formatting of link positions and lengths is not.
- Log streams: each `log-file=` argument creates (and truncates) a file through a new `ofstream`. The earlier streams are leaked, and the stream is deleted only on success: on the two failure paths it is never flushed or closed, so the error message written to it may never reach the file. The model records only which stream the message is written to. The model keeps only the last path, which is the one used.
- `date_to_string`: not part of this model. Dates appear in `MetaLine` as the date record itself.
- The `#ifdef DEBUG` tracing initialisation and the `#warning` directives.
- `ScanArguments` takes the argument vector as `seq<CArg>`: argv entries are C strings and hold no NUL. The conversion `arg = argv[i-1]` is written as `CStr` and is proved to be the identity (`CStrOfCArg`).
