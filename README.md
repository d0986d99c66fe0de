# Evidence connectors: Google Sheets `processSource` and the InfluxDB runner

This project models, in Dafny, the data-shaping code of two Evidence data
source connectors and proves properties of it.

- **Google Sheets** (`gsheets.dfy`, module `GSheets`). `processSource` checks
  the parsed `connection.yaml`. It then walks the configured
  `name → spreadsheet id` entries. For each one it takes page 0 of the
  spreadsheet, downloads the page as tab-separated text and parses every
  chunk of the download into lines of fields. It yields one output per
  entry with:
  - the parsed chunks;
  - one `string`/`inferred` column descriptor per header value;
  - the keys `name + "_" + normalized title` and `name + "_" + index`.
- **InfluxDB** (`influxdb.dfy`, module `InfluxDb`). The runner returns
  `null` for paths that do not end in `.flux`. Otherwise it reads the first
  row and builds `PRECISE` column descriptors from that row's table
  metadata through the total `EvidenceTypeMap`. It hands out every row,
  cleaned by `cleanRow`, through a batching generator. The buffer starts
  with the first row and is flushed once it holds at least `batchSize`
  rows. One last, possibly empty, flush follows the loop.
- **Shared** (`db_commons.dfy`, module `DbCommons`): the column descriptor
  type that both connectors return.
- **Strings** (`strings.dfy`, module `Strings`): the JavaScript string
  built-ins the connectors use, stated over `seq<char>`:
  - `split` and `join`;
  - `endsWith`;
  - one-character `replaceAll`;
  - `toLowerCase`;
  - the decimal text of a page index.

Where the code runs step by step, so does the model:
- the loop over sheet entries (`GSheets.ProcessSource`);
- the `data` handler's pushes (`GSheets.CollectChunks`);
- `cleanRow`'s field overwrites (`InfluxDb.CleanRow`);
- the generator's buffer (`InfluxDb.DrainRows`).

Each of these methods is proved against a specification function, and the
properties are proved about those functions.

The model follows the code:
- every Google Sheets column is `string`/`inferred`;
- only page 0 of each spreadsheet is read;
- the rows are the downloaded TSV text, split on CRLF and then on tab;
- a malformed `sheets` value gives an empty run. An empty YAML value
  (`sheets:` is `null`) is the exception: it passes the `typeof` check and
  then makes `Object.entries` throw.

## Model

| member | source | states |
|---|---|---|
| GSheets.ConfigGate | gsheets/index.mjs:19-37 | a missing `connection.yaml` throws before anything else; a `sheets` key that is absent, an array or a non-object scalar ends the run normally with no output; a mapping proceeds with its entries; a null `sheets` and a non-object document throw a TypeError |
| GSheets.ProcessSource | gsheets/index.mjs:19-73 | a stopping gate gives an empty run with the gate's ending; otherwise the run is exactly `Produced`: outputs of a prefix of the entries in entry order, then either the normal return after the last entry or the error of the first entry that failed (load, missing page 0, stream error) |
| GSheets.ProducedIsDeterministic | gsheets/index.mjs:40-73 | at most one run satisfies `Produced` for given entries and remote data, so the loop's result is fully determined |
| GSheets.OneOutputPerEntry | gsheets/index.mjs:40-71 | when every spreadsheet loads, has a page and downloads cleanly, the run returns normally with exactly one output per entry, in order, each built from page 0 (name, column types, rows), with content `name + "_0"` when pages are numbered by position |
| GSheets.HeaderColumns | gsheets/index.mjs:49-53 | one descriptor per header value, in header order, named by the header, always `string` and `inferred` |
| GSheets.CollectChunks | gsheets/index.mjs:55-64 | `sheetData` receives exactly one batch per chunk, in arrival order, each the parse of that chunk |
| GSheets.ChunkRoundTrip | gsheets/index.mjs:58 | re-joining a parsed chunk's fields with tab and its lines with CRLF gives back the chunk |
| GSheets.ChunkShape | gsheets/index.mjs:58 | a parsed chunk has one line more than the chunk has CRLF sequences, and no field contains a tab or a CRLF |
| GSheets.ChunkBoundaryNotRejoined | gsheets/index.mjs:56-60 | a line delivered across two chunks is parsed as two separate lines (`"a\tb"` is one line of two fields, but `"a\t"` then `"b"` are two lines) |
| GSheets.ChunkBoundarySplitsLine | gsheets/index.mjs:56-60 | for any two chunks with no CRLF, even across their boundary, each chunk is parsed as its own line, while the same text in one chunk is a single line: the parse depends on where the stream cut the text |
| GSheets.OutputNameShape | gsheets/index.mjs:69 | the output name is the logical name unchanged, then `_`, then a suffix as long as the title with no space and no upper-case letter |
| GSheets.NormalizeTitleIdempotent | gsheets/index.mjs:69 | normalizing a title a second time changes nothing |
| GSheets.OutputNamesCollide | gsheets/index.mjs:69 | every title gives the same output name as its normalized form, so distinct titles can collide (for instance `"Q1 Sales"` and `"q1_sales"`) |
| GSheets.OutputContentIndex | gsheets/index.mjs:70 | the content is `name + "_"` followed by digits whose value is the page index |
| Strings.Decimal | gsheets/index.mjs:70 | the text of a number is non-empty, all digits, and starts with `0` only for zero |
| Strings.DecimalRoundTrip | gsheets/index.mjs:70 | reading the decimal text back gives the number |
| Strings.JoinSplit | gsheets/index.mjs:58 | `split` then `join` with the same separator gives back the string |
| Strings.SplitJoin | gsheets/index.mjs:58 | for a one-character separator, `join` then `split` gives back pieces that do not contain the separator |
| Strings.SplitCount | gsheets/index.mjs:58 | the number of pieces is the number of separator occurrences plus one (one-character separators and CRLF) |
| Strings.SplitPiecesFree | gsheets/index.mjs:58 | no piece contains the separator |
| Strings.SplitHeadPrefix | gsheets/index.mjs:58 | the first piece is a prefix of the string |
| Strings.SplitPieceOffset | gsheets/index.mjs:58 | every piece is a slice of the split string |
| Strings.SplitFree | gsheets/index.mjs:58 | a string with no occurrence of the separator splits into itself alone |
| Strings.SplitWhole | gsheets/index.mjs:58 | a string without the separator's first character is a single piece |
| Strings.FreeOfChar | gsheets/index.mjs:58 | for a one-character separator, containing no occurrence is not containing the character |
| Strings.EndsWithIff | influxdb/index.mjs:62 | `endsWith(suffix)` holds exactly when the string is some string followed by the suffix |
| InfluxDb.EvidenceTypeOf | influxdb/index.mjs:25-34 | `boolean` maps to BOOLEAN, `unsignedLong`/`long`/`double` to NUMBER, `string`/`base64Binary`/`duration` to STRING, `dateTime:RFC3339` to DATE, each in both directions |
| InfluxDb.ColumnsOf | influxdb/index.mjs:72-76 | one descriptor per column of the first row's metadata, in order, named by the label, typed by the type map, fidelity PRECISE |
| InfluxDb.CleanRow | influxdb/index.mjs:41-48 | the cleaned object has the original properties plus one per date-column label, and each property reads as its original value (or `undefined`) passed through `new Date` once per date column of that label |
| InfluxDb.CleanedWithKeys | influxdb/index.mjs:42-45 | rewriting date columns adds exactly the date labels to the object's properties |
| InfluxDb.LookupCleanedWith | influxdb/index.mjs:42-45 | after rewriting, a property reads as its original value passed through `new Date` once per date column with that label |
| InfluxDb.DateCountZero | influxdb/index.mjs:43 | a label is counted by no date column exactly when it is not the label of a date column |
| InfluxDb.CleanedKeepsOtherFields | influxdb/index.mjs:41-48 | a property that no date column names is kept exactly as `toObject` produced it, and none is added |
| InfluxDb.DateCountDistinct | influxdb/index.mjs:43-44 | with distinct labels, every date column's label is rewritten exactly once |
| InfluxDb.CleanedConvertsDatesOnce | influxdb/index.mjs:43-44 | with distinct labels, a date column's property becomes `new Date` of its `toObject` value |
| InfluxDb.DateDescriptorsMatchCleaning | influxdb/index.mjs:72-76 | the properties `cleanRow` rewrites are exactly the names of the descriptors typed DATE |
| InfluxDb.PushKeep | influxdb/index.mjs:81-83 | pushing a row into a buffer that stays below `batchSize` keeps the batching invariant |
| InfluxDb.PushYield | influxdb/index.mjs:81-86 | pushing a row that fills the buffer, yielding and resetting the buffer keeps the batching invariant |
| InfluxDb.FinalYield | influxdb/index.mjs:88 | the flush after the loop completes the shape of the yielded batches |
| InfluxDb.FlattenLength | influxdb/index.mjs:83-86 | batches of `size` rows each hold `count × size` rows together |
| InfluxDb.DrainRows | influxdb/index.mjs:70-89 | the concatenated batches are the cleaned first row followed by every later row cleaned, in order, none dropped or duplicated. Every batch but the last has at least `batchSize` rows. For `batchSize ≥ 2` those batches have exactly `batchSize` rows and the last has fewer. For `batchSize ≤ 1` the first flush holds 2 rows, the others 1 and the last is empty. With no later rows the single batch is the first row |
| InfluxDb.Runner | influxdb/index.mjs:61-92 | a path not ending in `.flux` gives `null` (and only such a path does); no rows gives the TypeError outcome; otherwise the result carries the first row's descriptors, `expectedRowCount` 0 and batches that concatenate to every row cleaned, in order, with the shape above; a single row is yielded as exactly one batch holding that row cleaned |

## Left out

- Authentication (`JWT`, `SCOPES`), `testConnection`, the `options` objects and the throwing Google Sheets `getRunner` are not modelled. They are calls into authentication libraries or static declarations with no data-shaping behaviour.
- The `console.log` diagnostics on the three early returns of `processSource` (gsheets/index.mjs:25, 31, 35) are not modelled. They are console output only; the model keeps which return is taken.
- JavaScript strings are sequences of UTF-16 code units, while a Dafny `string` holds Unicode scalar values. Lengths in the model, such as the suffix in `GSheets.OutputNameShape` being as long as the title, count code points, and strings with lone surrogates cannot be represented.
- YAML parsing is not modelled. The parsed document is an input: not an object, or an object whose `sheets` value is absent, an array, null, a scalar or a mapping. The mapping's entries arrive in `Object.entries` order, with string ids.
- `loadInfo`, `downloadAsTSV` and `_ensureHeaderRowLoaded` are remote calls. Their results are inputs: a spreadsheet per id whose load succeeds, and a page's title, index, header values and download. A failure of the download request itself or of the header request is not modelled, and neither is a page without a header row.
- The download stream's event wiring and the Promise around it are not modelled. They become a sequence of chunk strings and a flag for a final `error` event. Chunks are taken as already decoded UTF-8 text.
- Async-generator suspension is not modelled. The generators are run to completion, so a consumer that stops early or interleaves with other work is not captured. The InfluxDB generator is assumed to be drained once.
- `toLowerCase` is modelled on ASCII letters only. Other Unicode case mappings are not captured.
- `new Date(...)` is kept symbolic as `DateOf(v)`. Parsing RFC 3339 text, and what `toObject` makes of the raw values, are the libraries' business.
- InfluxDB client construction, `getQueryApi` and `iterateRows` are network calls. The rows of the query are a finite input sequence, `queryContent` is not modelled, and query errors are not modelled.
- The Influx column types are the eight of the client's `ColumnType`. Any other type string, for which `EvidenceTypeMap` gives `undefined`, is not modelled.
- A `batchSize` that is not a number is not modelled. For example, `undefined` makes `>=` always false.
