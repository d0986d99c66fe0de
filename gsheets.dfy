/** The Google Sheets connector's `processSource`: it reads the sheet
    selection from `connection.yaml`, and for every configured
    `name → spreadsheet id` entry downloads the first page of that
    spreadsheet as tab-separated text and yields one output holding the
    page's rows, one `string` column per header value, and two keys built
    from the logical name. Authentication, the spreadsheet metadata request,
    the header-row request and the download are the remote service's; the
    model receives their results as values. */
module GSheets {
  import opened Strings
  import opened DbCommons

  const CONNECTION_FILE := "connection.yaml"
  /** The line break of the downloaded TSV text. */
  const LINE_BREAK := "\r\n"
  /** The field separator of the downloaded TSV text. */
  const TAB := "\t"

  // ---------------------------------------------------------------------
  // Inputs
  // ---------------------------------------------------------------------

  /** One `name: id` pair of the `sheets` mapping, in `Object.entries` order. */
  datatype SheetEntry = SheetEntry(name: string, id: string)

  /** What the parsed `sheets` key holds. `NullValue` is an empty YAML value
      (`sheets:`), for which `typeof` says `"object"`; `Scalar` is a string,
      number or boolean. */
  datatype SheetsValue =
    | Absent
    | ArrayValue
    | NullValue
    | Scalar
    | Mapping(entries: seq<SheetEntry>)

  /** The parsed `connection.yaml` document. `NonObjectDocument` is a null or
      scalar document, on which the `in` operator throws; an array document
      has no `sheets` key and is `Document(Absent)`. */
  datatype Connection = NonObjectDocument | Document(sheets: SheetsValue)

  /** The TSV download of one page: the chunks delivered by its `data`
      events, then either `end` or, when `failed`, `error`. */
  datatype PageStream = PageStream(chunks: seq<string>, failed: bool)

  /** One page (worksheet) as the spreadsheet library describes it. */
  datatype Page = Page(index: nat, title: string, headerValues: seq<string>, tsv: PageStream)

  /** A loaded spreadsheet: its pages in `sheetsByIndex` order. */
  datatype Spreadsheet = Spreadsheet(sheetsByIndex: seq<Page>)

  /** The spreadsheets whose `loadInfo` succeeds, by id. */
  type Remote = map<string, Spreadsheet>

  /** The spreadsheet service numbers pages by their position. */
  predicate WellIndexed(book: Spreadsheet)
  {
    forall i :: 0 <= i < |book.sheetsByIndex| ==> book.sheetsByIndex[i].index == i
  }

  // ---------------------------------------------------------------------
  // Outputs
  // ---------------------------------------------------------------------

  /** The exceptions `processSource` can end with. */
  datatype Error =
    | ConnectionYamlMissing        // thrown explicitly
    | InOperatorOnNonObject        // TypeError of `"sheets" in conn`
    | EntriesOfNull                // TypeError of `Object.entries(null)`
    | LoadInfoFailed(id: string)   // rejection of `loadInfo`
    | NoFirstPage(id: string)      // TypeError: `sheetsByIndex[0]` is undefined
    | StreamError(id: string)      // the download stream's `error` event

  /** One line of a chunk, split into fields. */
  type Line = seq<string>
  /** The lines of one chunk: what one `data` event pushes onto `sheetData`. */
  type Batch = seq<Line>

  /** What is yielded per sheet entry. */
  datatype SheetOutput = SheetOutput(
    rows: seq<Batch>,
    columnTypes: seq<ColumnDefinition>,
    name: string,
    content: string)

  /** How the generator finished: `return null`, or an exception. */
  datatype End = Returned | Threw(error: Error)

  /** Everything the consumer of the generator observes. */
  datatype Run = Run(yielded: seq<SheetOutput>, end: End)

  datatype SheetResult = Ok(output: SheetOutput) | Err(error: Error)

  // ---------------------------------------------------------------------
  // Column descriptors, chunk parsing, output keys
  // ---------------------------------------------------------------------

  /** `headerValues.map(v => ({ evidenceType: "string", typeFidelity:
      "inferred", name: v }))`. */
  function HeaderColumns(headers: seq<string>): (cols: seq<ColumnDefinition>)
    ensures |cols| == |headers|
    ensures forall i :: 0 <= i < |headers| ==>
      cols[i].name == headers[i] && cols[i].evidenceType == String && cols[i].typeFidelity == Inferred
  {
    seq(|headers|, i requires 0 <= i < |headers| => ColumnDefinition(headers[i], String, Inferred))
  }

  /** `d.toString().split("\r\n").map(line => line.split("\t"))`. */
  function ParseChunk(chunk: string): Batch
  {
    var lines := Split(chunk, LINE_BREAK);
    seq(|lines|, i requires 0 <= i < |lines| => Split(lines[i], TAB))
  }

  /** The text a batch stands for: fields joined by tabs, lines by CRLF. */
  function JoinBatch(batch: Batch): string
  {
    Join(seq(|batch|, i requires 0 <= i < |batch| => Join(batch[i], TAB)), LINE_BREAK)
  }

  /** Parsing a chunk loses nothing: re-joining its fields with tabs and its
      lines with CRLF gives back the chunk. */
  lemma ChunkRoundTrip(chunk: string)
    ensures JoinBatch(ParseChunk(chunk)) == chunk
  {
    var lines := Split(chunk, LINE_BREAK);
    var batch := ParseChunk(chunk);
    forall i | 0 <= i < |lines|
      ensures Join(batch[i], TAB) == lines[i]
    {
      JoinSplit(lines[i], TAB);
    }
    assert seq(|batch|, i requires 0 <= i < |batch| => Join(batch[i], TAB)) == lines;
    JoinSplit(chunk, LINE_BREAK);
  }

  /** A chunk has one line more than it has CRLF sequences, and no field
      holds a tab or a CRLF. */
  lemma ChunkShape(chunk: string)
    ensures |ParseChunk(chunk)| == Occurrences(chunk, LINE_BREAK) + 1
    ensures forall line, field :: line in ParseChunk(chunk) && field in line ==>
      '\t' !in field && FreeOf(field, LINE_BREAK)
  {
    var lines := Split(chunk, LINE_BREAK);
    SplitCount(chunk, LINE_BREAK);
    SplitPiecesFree(chunk, LINE_BREAK);
    forall line, field | line in ParseChunk(chunk) && field in line
      ensures '\t' !in field && FreeOf(field, LINE_BREAK)
    {
      var i :| 0 <= i < |lines| && line == Split(lines[i], TAB);
      SplitPiecesFree(lines[i], TAB);
      FreeOfChar(field, TAB);
      assert lines[i] in lines;
      FieldFree(lines[i], field);
    }
  }

  /** A field of a line free of CRLF is free of CRLF. */
  lemma FieldFree(line: string, field: string)
    requires FreeOf(line, LINE_BREAK)
    requires field in Split(line, TAB)
    ensures FreeOf(field, LINE_BREAK)
  {
    var k := SplitPieceOffset(line, TAB, field);
    FreeOfSlice(line, LINE_BREAK, k, k + |field|);
  }

  /** Rows are not re-joined across chunk boundaries: a line that arrives in
      two chunks becomes two lines. */
  lemma ChunkBoundaryNotRejoined()
    ensures ParseChunk("a\tb") == [["a", "b"]]
    ensures [ParseChunk("a\t"), ParseChunk("b")] == [[["a", ""]], [["b"]]]
  {
    assert Split("b", TAB) == ["b"] by { SplitWhole("b", TAB); }
    assert Split("a\tb", TAB) == ["a", "b"] by { SplitJoin(["a", "b"], TAB); }
    assert Split("a\t", TAB) == ["a", ""] by {
      assert ["a", ""][1..] == [""];
      assert Join(["a", ""], TAB) == "a\t";
      SplitJoin(["a", ""], TAB);
    }
    SplitWhole("a\tb", LINE_BREAK);
    SplitWhole("a\t", LINE_BREAK);
    SplitWhole("b", LINE_BREAK);
    var whole, first, second := ParseChunk("a\tb"), ParseChunk("a\t"), ParseChunk("b");
    assert |whole| == 1 && whole[0] == Split("a\tb", TAB);
    assert |first| == 1 && first[0] == Split("a\t", TAB);
    assert |second| == 1 && second[0] == Split("b", TAB);
    assert first == [["a", ""]];
    assert second == [["b"]];
  }

  /** Lines are never re-joined across chunk boundaries: two chunks without
      a CRLF whose concatenation has none either (no `\r` at the end of the
      first meeting a `\n` at the start of the second) are two batches of
      one line each, while the same text in one chunk is a single line. */
  lemma ChunkBoundarySplitsLine(a: string, b: string)
    requires FreeOf(a, LINE_BREAK) && FreeOf(b, LINE_BREAK) && FreeOf(a + b, LINE_BREAK)
    ensures ParsedChunks([a, b]) == [[Split(a, TAB)], [Split(b, TAB)]]
    ensures ParseChunk(a + b) == [Split(a + b, TAB)]
  {
    SplitFree(a, LINE_BREAK);
    SplitFree(b, LINE_BREAK);
    SplitFree(a + b, LINE_BREAK);
    var parsed := ParsedChunks([a, b]);
    assert parsed[0] == ParseChunk(a) == [Split(a, TAB)];
    assert parsed[1] == ParseChunk(b) == [Split(b, TAB)];
  }

  /** The part of the output name after `name + "_"`: spaces become
      underscores, then the title is lower-cased. */
  function NormalizeTitle(title: string): string
  {
    Lower(ReplaceAll(title, ' ', '_'))
  }

  /** `name + "_" + page.title.replaceAll(" ", "_").toLowerCase()`. */
  function OutputName(name: string, title: string): string
  {
    name + "_" + NormalizeTitle(title)
  }

  /** `name + "_" + page.index`. */
  function OutputContent(name: string, index: nat): string
  {
    name + "_" + Decimal(index)
  }

  /** The output name keeps the logical name as it is (not lower-cased),
      then an underscore, then a suffix as long as the title that holds no
      space and no upper-case letter. */
  lemma OutputNameShape(name: string, title: string)
    ensures var r := OutputName(name, title);
      && |r| == |name| + 1 + |title|
      && r[..|name|] == name
      && r[|name|] == '_'
      && forall k :: |name| < k < |r| ==> r[k] != ' ' && !IsUpper(r[k])
  {
  }

  /** Normalizing a title twice changes nothing. */
  lemma NormalizeTitleIdempotent(title: string)
    ensures NormalizeTitle(NormalizeTitle(title)) == NormalizeTitle(title)
  {
  }

  /** Every page title gives the same output name as its normalized form,
      and the two can differ, so distinct titles collide; nothing
      disambiguates them. */
  lemma OutputNamesCollide(name: string, title: string)
    ensures OutputName(name, NormalizeTitle(title)) == OutputName(name, title)
    ensures OutputName(name, "Q1 Sales") == OutputName(name, "q1_sales")
  {
    NormalizeTitleIdempotent(title);
    assert NormalizeTitle("Q1 Sales") == "q1_sales";
    assert NormalizeTitle("q1_sales") == "q1_sales";
  }

  /** The page index can be read back from the output content. */
  lemma OutputContentIndex(name: string, index: nat)
    ensures var c := OutputContent(name, index);
      && c[..|name| + 1] == name + "_"
      && (forall ch :: ch in c[|name| + 1..] ==> IsDigit(ch))
      && DigitsValue(c[|name| + 1..]) == index
  {
    var c := OutputContent(name, index);
    assert c[|name| + 1..] == Decimal(index);
    DecimalRoundTrip(index);
  }

  // ---------------------------------------------------------------------
  // processSource
  // ---------------------------------------------------------------------

  /** The outcome of the checks made before the sheet loop. */
  datatype Gate = Stop(end: End) | Proceed(entries: seq<SheetEntry>)

  /** The checks on `files` and the parsed connection before the loop. */
  function ConfigGate(files: map<string, Connection>): (g: Gate)
    ensures CONNECTION_FILE !in files ==> g == Stop(Threw(ConnectionYamlMissing))
    ensures g == Stop(Returned) <==>
      && CONNECTION_FILE in files
      && files[CONNECTION_FILE].Document?
      && (files[CONNECTION_FILE].sheets.Absent?
          || files[CONNECTION_FILE].sheets.ArrayValue?
          || files[CONNECTION_FILE].sheets.Scalar?)
    ensures g.Proceed? <==>
      && CONNECTION_FILE in files
      && files[CONNECTION_FILE].Document?
      && files[CONNECTION_FILE].sheets.Mapping?
    ensures g.Proceed? ==> g.entries == files[CONNECTION_FILE].sheets.entries
    ensures CONNECTION_FILE in files && files[CONNECTION_FILE].NonObjectDocument? ==>
      g == Stop(Threw(InOperatorOnNonObject))
    ensures CONNECTION_FILE in files && files[CONNECTION_FILE] == Document(NullValue) ==>
      g == Stop(Threw(EntriesOfNull))
  {
    if CONNECTION_FILE !in files then Stop(Threw(ConnectionYamlMissing))
    else match files[CONNECTION_FILE]
      case NonObjectDocument => Stop(Threw(InOperatorOnNonObject))
      case Document(sheets) =>
        match sheets
        case Absent => Stop(Returned)
        case ArrayValue => Stop(Returned)
        case Scalar => Stop(Returned)
        case NullValue => Stop(Threw(EntriesOfNull))
        case Mapping(entries) => Proceed(entries)
  }

  /** The lines of every chunk, one batch per chunk, in arrival order. */
  function ParsedChunks(chunks: seq<string>): seq<Batch>
  {
    seq(|chunks|, i requires 0 <= i < |chunks| => ParseChunk(chunks[i]))
  }

  /** One iteration of the sheet loop: load the spreadsheet, take page 0,
      read its download to the end, build the output. */
  function SheetOutputFor(entry: SheetEntry, remote: Remote): SheetResult
  {
    if entry.id !in remote then Err(LoadInfoFailed(entry.id))
    else
      var book := remote[entry.id];
      if |book.sheetsByIndex| == 0 then Err(NoFirstPage(entry.id))
      else
        var page := book.sheetsByIndex[0];
        if page.tsv.failed then Err(StreamError(entry.id))
        else Ok(SheetOutput(
          ParsedChunks(page.tsv.chunks),
          HeaderColumns(page.headerValues),
          OutputName(entry.name, page.title),
          OutputContent(entry.name, page.index)))
  }

  /** `run` is what the sheet loop produces over `entries`: the outputs of a
      prefix of the entries, in order, then either the normal return after
      the last entry or the exception of the first entry that failed. */
  predicate Produced(run: Run, entries: seq<SheetEntry>, remote: Remote)
  {
    && |run.yielded| <= |entries|
    && (forall i :: 0 <= i < |run.yielded| ==> SheetOutputFor(entries[i], remote) == Ok(run.yielded[i]))
    && (run.end == Returned <==> |run.yielded| == |entries|)
    && (run.end.Threw? ==> SheetOutputFor(entries[|run.yielded|], remote) == Err(run.end.error))
  }

  /** `Produced` leaves no freedom: at most one run satisfies it. */
  lemma ProducedIsDeterministic(r1: Run, r2: Run, entries: seq<SheetEntry>, remote: Remote)
    requires Produced(r1, entries, remote) && Produced(r2, entries, remote)
    ensures r1 == r2
  {
    if r1.end.Threw? {
      assert SheetOutputFor(entries[|r1.yielded|], remote).Err?;
    }
    if r2.end.Threw? {
      assert SheetOutputFor(entries[|r2.yielded|], remote).Err?;
    }
    assert |r1.yielded| == |r2.yielded|;
    assert r1.yielded == r2.yielded;
  }

  /** When every entry's spreadsheet loads, has a page and downloads without
      error, exactly one output is yielded per entry, in entry order, each
      taken from that spreadsheet's page 0; its content ends in `_0` when
      the pages are numbered by position. */
  lemma OneOutputPerEntry(run: Run, entries: seq<SheetEntry>, remote: Remote)
    requires Produced(run, entries, remote)
    requires forall e :: e in entries ==>
      e.id in remote && |remote[e.id].sheetsByIndex| > 0 && !remote[e.id].sheetsByIndex[0].tsv.failed
    ensures run.end == Returned && |run.yielded| == |entries|
    ensures forall i :: 0 <= i < |entries| ==>
      var page := remote[entries[i].id].sheetsByIndex[0];
      && run.yielded[i].name == OutputName(entries[i].name, page.title)
      && run.yielded[i].columnTypes == HeaderColumns(page.headerValues)
      && run.yielded[i].rows == ParsedChunks(page.tsv.chunks)
      && (WellIndexed(remote[entries[i].id]) ==> run.yielded[i].content == entries[i].name + "_0")
  {
    forall i | 0 <= i < |entries|
      ensures SheetOutputFor(entries[i], remote).Ok?
      ensures WellIndexed(remote[entries[i].id]) ==> remote[entries[i].id].sheetsByIndex[0].index == 0
    {
      assert entries[i] in entries;
    }
  }

  /** The `data` handler: each chunk is parsed and pushed onto `sheetData`,
      one batch per event, in arrival order. */
  method CollectChunks(chunks: seq<string>) returns (sheetData: seq<Batch>)
    ensures |sheetData| == |chunks|
    ensures forall i :: 0 <= i < |chunks| ==> sheetData[i] == ParseChunk(chunks[i])
  {
    sheetData := [];
    var i := 0;
    while i < |chunks|
      invariant 0 <= i <= |chunks|
      invariant |sheetData| == i
      invariant forall j :: 0 <= j < i ==> sheetData[j] == ParseChunk(chunks[j])
    {
      var batch := ParseChunk(chunks[i]);
      sheetData := sheetData + [batch];
      i := i + 1;
    }
  }

  /** `processSource`, run to completion by its consumer. */
  method ProcessSource(files: map<string, Connection>, remote: Remote) returns (run: Run)
    ensures ConfigGate(files).Stop? ==> run == Run([], ConfigGate(files).end)
    ensures ConfigGate(files).Proceed? ==> Produced(run, ConfigGate(files).entries, remote)
  {
    var gate := ConfigGate(files);
    if gate.Stop? {
      return Run([], gate.end);
    }
    var entries := gate.entries;
    var yielded: seq<SheetOutput> := [];
    var i := 0;
    while i < |entries|
      invariant 0 <= i <= |entries|
      invariant |yielded| == i
      invariant forall j :: 0 <= j < i ==> SheetOutputFor(entries[j], remote) == Ok(yielded[j])
    {
      var entry := entries[i];
      if entry.id !in remote {
        return Run(yielded, Threw(LoadInfoFailed(entry.id)));
      }
      var book := remote[entry.id];
      if |book.sheetsByIndex| == 0 {
        return Run(yielded, Threw(NoFirstPage(entry.id)));
      }
      var page := book.sheetsByIndex[0];
      var cols := HeaderColumns(page.headerValues);
      var sheetData := CollectChunks(page.tsv.chunks);
      if page.tsv.failed {
        return Run(yielded, Threw(StreamError(entry.id)));
      }
      assert sheetData == ParsedChunks(page.tsv.chunks);
      var output := SheetOutput(sheetData, cols, OutputName(entry.name, page.title),
                                OutputContent(entry.name, page.index));
      yielded := yielded + [output];
      i := i + 1;
    }
    return Run(yielded, Returned);
  }
}
