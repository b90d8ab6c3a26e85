/** What `main` in src/doctotext.cpp prints once the extractor has run: the
    metadata block, or the text followed by the parsed links and the parsed
    attachments. Lines are abstract records, not formatted bytes. */
module Report {
  import opened Strings

  /** `Metadata::ESTIMATED` marks a value the extractor guessed. */
  datatype Confidence = Precise | Estimated

  /** A `tm` date as the extractor fills it; `date_to_string` is not part of
      this model, so the line carries the date itself. */
  datatype DateTime = DateTime(year: int, month: int, day: int, hour: int, minute: int, second: int)

  /** The six values the front end prints, each with its tag. */
  datatype Metadata = Metadata(
    author: string, authorType: Confidence,
    creationDate: DateTime, creationDateType: Confidence,
    lastModifiedBy: string, lastModifiedByType: Confidence,
    lastModificationDate: DateTime, lastModificationDateType: Confidence,
    pageCount: int, pageCountType: Confidence,
    wordCount: int, wordCountType: Confidence)

  datatype MetaValue = Text(text: string) | Date(date: DateTime) | Count(count: int)

  /** A parsed link: its URL, its display text and where that text starts in
      the extracted text. */
  datatype Link = Link(url: string, text: string, position: int)

  /** One entry of an attachment's field map, its value as `getString` gives it. */
  datatype Field = Field(name: string, value: string)

  /** `std::string` ordering: lexicographic on characters. */
  predicate StrLess(a: string, b: string) {
    if a == [] then b != []
    else b != [] && (a[0] < b[0] || (a[0] == b[0] && StrLess(a[1..], b[1..])))
  }

  /** The keys strictly increase: the order a `std::map` iterates in. */
  ghost predicate KeysIncreasing(fs: seq<Field>) {
    forall i, j :: 0 <= i < j < |fs| ==> StrLess(fs[i].name, fs[j].name)
  }

  /** A `std::map<std::string, Variant>` as the sequence its iterator visits. */
  type FieldMap = fs: seq<Field> | KeysIncreasing(fs) witness []

  datatype Attachment = Attachment(filename: string, fields: FieldMap)

  /** Where an error message goes: the log stream when one was opened, else `cerr`. */
  datatype Sink = StdErr | LogFile(path: string)

  /** The records the front end writes. */
  datatype OutLine =
    | HelpText
    | ErrorProcessing(file: string, sink: Sink)
    | MetaLine(title: string, shown: MetaValue, estimated: bool)
    | Body(text: string)
    | LinksHeader
    | LinkLine(url: string, position: int, length: nat)
    | AttachmentsHeader
    | AttachmentName(filename: string)
    | FieldLine(name: string, value: string)

  // ---------------------------------------------------------------------
  // Metadata
  // ---------------------------------------------------------------------

  const MetadataLabels: seq<string> :=
    ["Author", "Creation time", "Last modified by", "Last modification time", "Page count", "Word count"]

  /** The six tags in the order they are printed. */
  function Tags(m: Metadata): seq<Confidence> {
    [m.authorType, m.creationDateType, m.lastModifiedByType,
     m.lastModificationDateType, m.pageCountType, m.wordCountType]
  }

  /** The six values in the order they are printed. */
  function Values(m: Metadata): seq<MetaValue> {
    [Text(m.author), Date(m.creationDate), Text(m.lastModifiedBy),
     Date(m.lastModificationDate), Count(m.pageCount), Count(m.wordCount)]
  }

  /** The metadata block: one line per value under its fixed label, each
      marked " (estimated)" exactly when its tag is `ESTIMATED`. */
  function MetadataLines(m: Metadata): (r: seq<OutLine>)
    ensures |r| == 6
    ensures forall i :: 0 <= i < 6 ==>
              r[i].MetaLine? && r[i].title == MetadataLabels[i] && r[i].shown == Values(m)[i]
    ensures forall i :: 0 <= i < 6 ==> (r[i].estimated <==> Tags(m)[i] == Estimated)
  {
    [MetaLine("Author", Text(m.author), m.authorType == Estimated),
     MetaLine("Creation time", Date(m.creationDate), m.creationDateType == Estimated),
     MetaLine("Last modified by", Text(m.lastModifiedBy), m.lastModifiedByType == Estimated),
     MetaLine("Last modification time", Date(m.lastModificationDate), m.lastModificationDateType == Estimated),
     MetaLine("Page count", Count(m.pageCount), m.pageCountType == Estimated),
     MetaLine("Word count", Count(m.wordCount), m.wordCountType == Estimated)]
  }

  // ---------------------------------------------------------------------
  // Links
  // ---------------------------------------------------------------------

  /** `printf("%s @ index = %d length = %d\n", url, position, strlen(text))`:
      `%s` and `strlen` stop at the first NUL. */
  function LinkLineOf(l: Link): OutLine {
    LinkLine(CStr(l.url), l.position, |CStr(l.text)|)
  }

  function LinkLines(links: seq<Link>): seq<OutLine> {
    seq(|links|, i requires 0 <= i < |links| => LinkLineOf(links[i]))
  }

  /** The links section: the header only when there is a link, then one
      line per link in order. */
  function LinksReport(links: seq<Link>): (r: seq<OutLine>)
    ensures LinksHeader in r <==> |links| > 0
    ensures links == [] ==> r == []
    ensures links != [] ==> |r| == |links| + 1 && r[0] == LinksHeader
    ensures forall i :: 0 <= i < |links| ==> r[i + 1] == LinkLineOf(links[i])
    ensures forall l :: l in r ==> l.LinksHeader? || l.LinkLine?
  {
    if links == [] then [] else [LinksHeader] + LinkLines(links)
  }

  /** The links loop of `main`. */
  method ReportLinks(links: seq<Link>) returns (out: seq<OutLine>)
    ensures out == LinksReport(links)
  {
    out := [];
    if |links| > 0 {
      out := [LinksHeader];
      for i := 0 to |links|
        invariant out == [LinksHeader] + LinkLines(links[..i])
      {
        out := out + [LinkLine(CStr(links[i].url), links[i].position, |CStr(links[i].text)|)];
      }
      assert links[..|links|] == links;
    }
  }

  // ---------------------------------------------------------------------
  // Attachments
  // ---------------------------------------------------------------------

  /** The fields printed for an attachment: every entry but `Content-ID`. */
  function PrintedFields(fs: seq<Field>): (r: seq<Field>)
    ensures forall f :: f in r <==> f in fs && f.name != "Content-ID"
    ensures |r| <= |fs|
  {
    if fs == [] then []
    else
      var last := fs[|fs| - 1];
      PrintedFields(fs[..|fs| - 1]) + (if last.name != "Content-ID" then [last] else [])
  }

  /** Dropping `Content-ID` keeps the map's key order. */
  lemma {:induction false} PrintedFieldsInKeyOrder(fs: seq<Field>)
    requires KeysIncreasing(fs)
    ensures KeysIncreasing(PrintedFields(fs))
  {
    if fs != [] {
      var init := fs[..|fs| - 1];
      var last := fs[|fs| - 1];
      assert KeysIncreasing(init) by {
        forall i, j | 0 <= i < j < |init| ensures StrLess(init[i].name, init[j].name) {
          assert init[i] == fs[i] && init[j] == fs[j];
        }
      }
      PrintedFieldsInKeyOrder(init);
      var p := PrintedFields(init);
      forall i | 0 <= i < |p| ensures StrLess(p[i].name, last.name) {
        assert p[i] in init;
        var k :| 0 <= k < |init| && init[k] == p[i];
        assert fs[k] == p[i];
      }
    }
  }

  /** `printf("field: %s, value: %s\n", ...)`. */
  function FieldLineOf(f: Field): OutLine {
    FieldLine(CStr(f.name), CStr(f.value))
  }

  function FieldLines(fs: seq<Field>): seq<OutLine> {
    seq(|fs|, i requires 0 <= i < |fs| => FieldLineOf(fs[i]))
  }

  /** One attachment: its name, then its printed fields in key order. */
  function AttachmentBlock(a: Attachment): seq<OutLine> {
    [AttachmentName(CStr(a.filename))] + FieldLines(PrintedFields(a.fields))
  }

  /** The attachments one after the other; one name line per attachment. */
  function AttachmentBlocks(atts: seq<Attachment>): (r: seq<OutLine>)
    ensures forall l :: l in r ==> l.AttachmentName? || l.FieldLine?
    ensures |set i | 0 <= i < |r| && r[i].AttachmentName?| == |atts|
  {
    if atts == [] then []
    else
      var init := AttachmentBlocks(atts[..|atts| - 1]);
      var block := AttachmentBlock(atts[|atts| - 1]);
      assert (set i | 0 <= i < |init + block| && (init + block)[i].AttachmentName?)
          == (set i | 0 <= i < |init| && init[i].AttachmentName?) + {|init|};
      init + block
  }

  /** The attachments section: the header only when there is an attachment. */
  function AttachmentsReport(atts: seq<Attachment>): (r: seq<OutLine>)
    ensures AttachmentsHeader in r <==> |atts| > 0
    ensures atts != [] ==> r[0] == AttachmentsHeader
    ensures forall l :: l in r ==> l.AttachmentsHeader? || l.AttachmentName? || l.FieldLine?
  {
    if atts == [] then [] else [AttachmentsHeader] + AttachmentBlocks(atts)
  }

  /** The attachments loop of `main`. */
  method ReportAttachments(atts: seq<Attachment>) returns (out: seq<OutLine>)
    ensures out == AttachmentsReport(atts)
  {
    out := [];
    if |atts| > 0 {
      out := [AttachmentsHeader];
      for i := 0 to |atts|
        invariant out == [AttachmentsHeader] + AttachmentBlocks(atts[..i])
      {
        AttachmentBlocksSnoc(atts, i);
        var lines := ReportFields(atts[i].fields);
        out := out + [AttachmentName(CStr(atts[i].filename))] + lines;
      }
      assert atts[..|atts|] == atts;
    }
  }

  /** The iterator loop over one attachment's fields, skipping `Content-ID`. */
  method ReportFields(fields: FieldMap) returns (out: seq<OutLine>)
    ensures out == FieldLines(PrintedFields(fields))
  {
    out := [];
    var j := 0;
    while j < |fields|
      invariant j <= |fields|
      invariant out == FieldLines(PrintedFields(fields[..j]))
    {
      assert fields[..j + 1][..j] == fields[..j];
      FieldLinesSnoc(PrintedFields(fields[..j]), fields[j]);
      if fields[j].name != "Content-ID" {
        out := out + [FieldLine(CStr(fields[j].name), CStr(fields[j].value))];
      }
      j := j + 1;
    }
    assert fields[..|fields|] == fields;
  }

  lemma AttachmentBlocksSnoc(atts: seq<Attachment>, i: nat)
    requires i < |atts|
    ensures AttachmentBlocks(atts[..i + 1]) == AttachmentBlocks(atts[..i]) + AttachmentBlock(atts[i])
  {
    assert atts[..i + 1][..i] == atts[..i];
  }

  /** Appending an attachment appends its block. */
  lemma AttachmentBlocksAppendOne(atts: seq<Attachment>, a: Attachment)
    ensures AttachmentBlocks(atts + [a]) == AttachmentBlocks(atts) + AttachmentBlock(a)
  {
    assert (atts + [a])[..|atts|] == atts;
  }

  /** A single attachment is printed as its block: its name, then its
      printed fields. */
  lemma AttachmentBlocksOfOne(a: Attachment)
    ensures AttachmentBlocks([a]) == [AttachmentName(CStr(a.filename))] + FieldLines(PrintedFields(a.fields))
  {
    assert [a][..0] == [];
  }

  /** The field lines of a list of fields are the lines of its members. */
  lemma InFieldLines(fs: seq<Field>, l: OutLine)
    ensures l in FieldLines(fs) <==> exists f :: f in fs && l == FieldLineOf(f)
  {
    if l in FieldLines(fs) {
      var i :| 0 <= i < |FieldLines(fs)| && FieldLines(fs)[i] == l;
      assert fs[i] in fs;
    }
    if exists f :: f in fs && l == FieldLineOf(f) {
      var f :| f in fs && l == FieldLineOf(f);
      var i :| 0 <= i < |fs| && fs[i] == f;
      assert FieldLines(fs)[i] == l;
    }
  }

  /** `l` is the line of one of `a`'s entries whose key is not `Content-ID`. */
  predicate PrintsField(a: Attachment, l: OutLine) {
    exists f :: f in a.fields && f.name != "Content-ID" && l == FieldLineOf(f)
  }

  /** The field lines of one block are the lines of its printed entries. */
  lemma BlockFieldLines(a: Attachment, l: OutLine)
    requires l.FieldLine?
    ensures l in AttachmentBlock(a) <==> PrintsField(a, l)
  {
    InFieldLines(PrintedFields(a.fields), l);
    assert l in AttachmentBlock(a) <==> l in FieldLines(PrintedFields(a.fields));
  }

  /** The field lines of the attachments section are exactly the lines of
      the map entries, of any attachment, whose key is not `Content-ID`. */
  lemma {:induction false} AttachmentFieldsPrinted(atts: seq<Attachment>, l: OutLine)
    requires l.FieldLine?
    ensures l in AttachmentBlocks(atts) <==> exists i :: 0 <= i < |atts| && PrintsField(atts[i], l)
  {
    if atts != [] {
      var init := atts[..|atts| - 1];
      var a := atts[|atts| - 1];
      AttachmentFieldsPrinted(init, l);
      BlockFieldLines(a, l);
      assert atts == init + [a];
      AttachmentBlocksAppendOne(init, a);
      assert l in AttachmentBlocks(atts) <==> l in AttachmentBlocks(init) || l in AttachmentBlock(a);
      assert forall i :: 0 <= i < |init| ==> init[i] == atts[i];
    }
  }

  /** The name lines of one block: only the attachment's own name. */
  lemma BlockNameLines(a: Attachment, name: string)
    ensures AttachmentName(name) in AttachmentBlock(a) <==> name == CStr(a.filename)
  {
    InFieldLines(PrintedFields(a.fields), AttachmentName(name));
    assert AttachmentName(name) in AttachmentBlock(a) <==>
             name == CStr(a.filename) || AttachmentName(name) in FieldLines(PrintedFields(a.fields));
  }

  /** The name lines of the attachments section are exactly the attachments'
      file names. */
  lemma {:induction false} AttachmentNamesPrinted(atts: seq<Attachment>, name: string)
    ensures AttachmentName(name) in AttachmentBlocks(atts) <==>
              exists i :: 0 <= i < |atts| && name == CStr(atts[i].filename)
  {
    if atts != [] {
      var init := atts[..|atts| - 1];
      var a := atts[|atts| - 1];
      AttachmentNamesPrinted(init, name);
      BlockNameLines(a, name);
      assert atts == init + [a];
      AttachmentBlocksAppendOne(init, a);
      assert AttachmentName(name) in AttachmentBlocks(atts) <==>
               AttachmentName(name) in AttachmentBlocks(init) || AttachmentName(name) in AttachmentBlock(a);
      assert forall i :: 0 <= i < |init| ==> init[i] == atts[i];
    }
  }

  lemma FieldLinesSnoc(fs: seq<Field>, f: Field)
    ensures FieldLines(fs + [f]) == FieldLines(fs) + [FieldLineOf(f)]
  {
  }
}
