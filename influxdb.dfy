/** The InfluxDB connector's query runner: for a `.flux` query it reads the
    first row to learn the columns, maps each Flux column type to an
    Evidence type, rewrites the RFC 3339 date fields of every row, and hands
    the rows out in batches. The client library's query call is the
    source of rows; the model receives them as a finite sequence. */
module InfluxDb {
  import opened Strings
  import DbCommons

  const FLUX_SUFFIX := ".flux"

  // ---------------------------------------------------------------------
  // Column types
  // ---------------------------------------------------------------------

  /** The client's column types: `boolean`, `unsignedLong`, `long`,
      `double`, `string`, `base64Binary`, `dateTime:RFC3339`, `duration`. */
  datatype ColumnType =
    | Boolean | UnsignedLong | Long | Double | String | Base64Binary | DateTimeRFC3339 | Duration

  /** `EvidenceTypeMap[t]`: a total map of the eight column types. */
  function EvidenceTypeOf(t: ColumnType): (e: DbCommons.EvidenceType)
    ensures e == DbCommons.Boolean <==> t == Boolean
    ensures e == DbCommons.Number <==> t == UnsignedLong || t == Long || t == Double
    ensures e == DbCommons.String <==> t == String || t == Base64Binary || t == Duration
    ensures e == DbCommons.Date <==> t == DateTimeRFC3339
  {
    match t
    case Boolean => DbCommons.Boolean
    case UnsignedLong => DbCommons.Number
    case Long => DbCommons.Number
    case Double => DbCommons.Number
    case String => DbCommons.String
    case Base64Binary => DbCommons.String
    case DateTimeRFC3339 => DbCommons.Date
    case Duration => DbCommons.String
  }

  /** One entry of `tableMeta.columns`; `name` is the column's `label`. */
  datatype ColumnMeta = ColumnMeta(name: string, dataType: ColumnType)

  predicate IsDate(c: ColumnMeta)
  {
    c.dataType == DateTimeRFC3339
  }

  /** `columns.map(c => ({ name: c.label, evidenceType:
      EvidenceTypeMap[c.dataType], typeFidelity: PRECISE }))`. */
  function ColumnsOf(metas: seq<ColumnMeta>): (cols: seq<DbCommons.ColumnDefinition>)
    ensures |cols| == |metas|
    ensures forall i :: 0 <= i < |metas| ==>
      && cols[i].name == metas[i].name
      && cols[i].evidenceType == EvidenceTypeOf(metas[i].dataType)
      && cols[i].typeFidelity == DbCommons.Precise
  {
    seq(|metas|, i requires 0 <= i < |metas| =>
      DbCommons.ColumnDefinition(metas[i].name, EvidenceTypeOf(metas[i].dataType), DbCommons.Precise))
  }

  // ---------------------------------------------------------------------
  // Rows and cleanRow
  // ---------------------------------------------------------------------

  /** A field value. `Cell` is whatever `toObject` produced for the field
      (its parsing is the client library's); `DateOf(v)` is `new Date(v)`,
      kept symbolic; `Undefined` is a missing property. */
  datatype Value = Undefined | Cell(text: string) | DateOf(arg: Value)

  /** A row object: property name to value. */
  type RowObject = map<string, Value>

  /** A row of the query result: its table's columns and the object
      `tableMeta.toObject(values)` builds from it. */
  datatype Row = Row(columns: seq<ColumnMeta>, fields: RowObject)

  /** `obj[k]`, which is `undefined` for a missing property. */
  function Lookup(obj: RowObject, k: string): Value
  {
    if k in obj then obj[k] else Undefined
  }

  /** `v` passed through `new Date(...)` `n` times. */
  function Dated(v: Value, n: nat): Value
  {
    if n == 0 then v else DateOf(Dated(v, n - 1))
  }

  /** How many date columns carry the label `k`. */
  function DateCount(cols: seq<ColumnMeta>, k: string): nat
  {
    if |cols| == 0 then 0
    else DateCount(cols[..|cols| - 1], k) + (if IsDate(cols[|cols| - 1]) && cols[|cols| - 1].name == k then 1 else 0)
  }

  /** The labels of the date columns. */
  function DateLabels(cols: seq<ColumnMeta>): set<string>
  {
    set c | c in cols && IsDate(c) :: c.name
  }

  /** The row object after rewriting the date columns listed in `cols`, one
      column after the other: each date column's property becomes `new Date`
      of its current value. */
  function CleanedWith(obj: RowObject, cols: seq<ColumnMeta>): RowObject
  {
    if |cols| == 0 then obj
    else
      var m, c := CleanedWith(obj, cols[..|cols| - 1]), cols[|cols| - 1];
      if IsDate(c) then m[c.name := DateOf(Lookup(m, c.name))] else m
  }

  /** What `cleanRow(row)` returns. */
  function Cleaned(row: Row): RowObject
  {
    CleanedWith(row.fields, row.columns)
  }

  /** A label has no date column exactly when it is not a date label. */
  lemma {:induction false} DateCountZero(cols: seq<ColumnMeta>, k: string)
    ensures DateCount(cols, k) == 0 <==> k !in DateLabels(cols)
    decreases |cols|
  {
    if |cols| > 0 {
      var init, last := cols[..|cols| - 1], cols[|cols| - 1];
      DateCountZero(init, k);
      DateLabelsSnoc(init, last);
      assert cols == init + [last];
    }
  }

  /** One more column adds its label to the date labels if it is a date
      column. */
  lemma DateLabelsSnoc(cols: seq<ColumnMeta>, c: ColumnMeta)
    ensures DateLabels(cols + [c]) == DateLabels(cols) + (if IsDate(c) then {c.name} else {})
  {
  }

  /** The rewritten object has the original properties and one property per
      date label. */
  lemma {:induction false} CleanedWithKeys(obj: RowObject, cols: seq<ColumnMeta>)
    ensures CleanedWith(obj, cols).Keys == obj.Keys + DateLabels(cols)
    decreases |cols|
  {
    if |cols| == 0 {
      assert DateLabels(cols) == {};
    } else {
      var init, last := cols[..|cols| - 1], cols[|cols| - 1];
      CleanedWithKeys(obj, init);
      DateLabelsSnoc(init, last);
      assert cols == init + [last];
    }
  }

  /** Every property of the rewritten object reads as its original value
      passed through `new Date` once per date column of that label. */
  lemma {:induction false} LookupCleanedWith(obj: RowObject, cols: seq<ColumnMeta>, k: string)
    ensures Lookup(CleanedWith(obj, cols), k) == Dated(Lookup(obj, k), DateCount(cols, k))
    decreases |cols|
  {
    if |cols| > 0 {
      var init, last := cols[..|cols| - 1], cols[|cols| - 1];
      LookupCleanedWith(obj, init, k);
    }
  }

  /** `cleanRow`: builds the row object, then overwrites each date column's
      property with `new Date` of its current value. */
  method CleanRow(row: Row) returns (rowObj: RowObject)
    ensures rowObj == Cleaned(row)
    ensures rowObj.Keys == row.fields.Keys + DateLabels(row.columns)
    ensures forall k :: Lookup(rowObj, k) == Dated(Lookup(row.fields, k), DateCount(row.columns, k))
  {
    rowObj := row.fields;
    var i := 0;
    while i < |row.columns|
      invariant 0 <= i <= |row.columns|
      invariant rowObj == CleanedWith(row.fields, row.columns[..i])
    {
      var c := row.columns[i];
      if c.dataType == DateTimeRFC3339 {
        rowObj := rowObj[c.name := DateOf(Lookup(rowObj, c.name))];
      }
      assert row.columns[..i + 1][..i] == row.columns[..i];
      i := i + 1;
    }
    assert row.columns[..|row.columns|] == row.columns;
    CleanedWithKeys(row.fields, row.columns);
    forall k {
      LookupCleanedWith(row.fields, row.columns, k);
    }
  }

  /** `cleanRow` leaves every property that no date column names exactly as
      `toObject` produced it, and adds no such property. */
  lemma CleanedKeepsOtherFields(row: Row, k: string)
    requires k !in DateLabels(row.columns)
    ensures k in Cleaned(row) <==> k in row.fields
    ensures k in row.fields ==> Cleaned(row)[k] == row.fields[k]
  {
    DateCountZero(row.columns, k);
    CleanedWithKeys(row.fields, row.columns);
    LookupCleanedWith(row.fields, row.columns, k);
  }

  /** Column labels are distinct within a table. */
  predicate DistinctLabels(cols: seq<ColumnMeta>)
  {
    forall i, j :: 0 <= i < j < |cols| ==> cols[i].name != cols[j].name
  }

  /** With distinct labels each date column is counted once. */
  lemma {:induction false} DateCountDistinct(cols: seq<ColumnMeta>, i: nat)
    requires DistinctLabels(cols) && i < |cols| && IsDate(cols[i])
    ensures DateCount(cols, cols[i].name) == 1
    decreases |cols|
  {
    var init, last := cols[..|cols| - 1], cols[|cols| - 1];
    if i == |cols| - 1 {
      DateCountZero(init, last.name);
      assert last.name !in DateLabels(init);
    } else {
      DateCountDistinct(init, i);
      assert last.name != cols[i].name;
    }
  }

  /** With distinct labels, `cleanRow` replaces each date column's property
      by `new Date` of the value `toObject` gave it, once. */
  lemma CleanedConvertsDatesOnce(row: Row, i: nat)
    requires DistinctLabels(row.columns) && i < |row.columns| && IsDate(row.columns[i])
    ensures row.columns[i].name in Cleaned(row)
    ensures Cleaned(row)[row.columns[i].name] == DateOf(Lookup(row.fields, row.columns[i].name))
  {
    var k := row.columns[i].name;
    DateCountDistinct(row.columns, i);
    CleanedWithKeys(row.fields, row.columns);
    LookupCleanedWith(row.fields, row.columns, k);
    assert row.columns[i] in row.columns;
    assert Dated(Lookup(row.fields, k), 1) == DateOf(Lookup(row.fields, k));
  }

  /** The properties `cleanRow` rewrites are exactly the names of the columns
      whose descriptor says `date`. */
  lemma DateDescriptorsMatchCleaning(metas: seq<ColumnMeta>, k: string)
    ensures k in DateLabels(metas) <==>
      exists i :: 0 <= i < |metas| && DateDescriptorAt(ColumnsOf(metas), i, k)
  {
    var cols := ColumnsOf(metas);
    if k in DateLabels(metas) {
      var c :| c in metas && IsDate(c) && c.name == k;
      var i :| 0 <= i < |metas| && metas[i] == c;
      assert DateDescriptorAt(cols, i, k);
    }
    if exists i :: 0 <= i < |metas| && DateDescriptorAt(cols, i, k) {
      var i :| 0 <= i < |metas| && DateDescriptorAt(cols, i, k);
      assert metas[i] in metas && IsDate(metas[i]);
    }
  }

  /** The descriptor at `i` names `k` and says `date`. */
  predicate DateDescriptorAt(cols: seq<DbCommons.ColumnDefinition>, i: int, k: string)
  {
    0 <= i < |cols| && cols[i].name == k && cols[i].evidenceType == DbCommons.Date
  }

  // ---------------------------------------------------------------------
  // Batching
  // ---------------------------------------------------------------------

  /** The batches one after the other. */
  function Flatten<T>(batches: seq<seq<T>>): seq<T>
  {
    if |batches| == 0 then []
    else Flatten(batches[..|batches| - 1]) + batches[|batches| - 1]
  }

  lemma FlattenAppend<T>(batches: seq<seq<T>>, b: seq<T>)
    ensures Flatten(batches + [b]) == Flatten(batches) + b
  {
    assert (batches + [b])[..|batches|] == batches;
  }

  /** Batches that all hold `size` rows hold `size` rows each in total. */
  lemma {:induction false} FlattenLength<T>(batches: seq<seq<T>>, size: nat)
    requires forall j :: 0 <= j < |batches| ==> |batches[j]| == size
    ensures |Flatten(batches)| == |batches| * size
    decreases |batches|
  {
    if |batches| > 0 {
      FlattenLength(batches[..|batches| - 1], size);
    }
  }

  /** Every row cleaned, in order. */
  function CleanedAll(rows: seq<Row>): seq<RowObject>
  {
    seq(|rows|, i requires 0 <= i < |rows| => Cleaned(rows[i]))
  }

  /** Cleaning one more row extends the cleaned prefix by that row. */
  lemma CleanedPrefixSnoc(first: RowObject, rows: seq<Row>, i: int)
    requires 0 <= i < |rows|
    ensures [first] + CleanedAll(rows[..i + 1]) == ([first] + CleanedAll(rows[..i])) + [Cleaned(rows[i])]
  {
    assert CleanedAll(rows[..i + 1]) == CleanedAll(rows[..i]) + [Cleaned(rows[i])];
  }

  /** Every batch holds at least `n` rows. */
  predicate AtLeast<T>(batches: seq<seq<T>>, n: int)
  {
    forall j :: 0 <= j < |batches| ==> |batches[j]| >= n
  }

  /** Every batch holds exactly `n` rows. */
  predicate Exactly<T>(batches: seq<seq<T>>, n: int)
  {
    forall j :: 0 <= j < |batches| ==> |batches[j]| == n
  }

  /** The shape of the batches for a batch size of at most one, after `i`
      later rows: the first batch took the first two rows, each one after it
      a single row. */
  predicate Singles<T>(batches: seq<seq<T>>, i: int)
  {
    && |batches| == i
    && (i > 0 ==> |batches[0]| == 2)
    && (forall j :: 0 < j < |batches| ==> |batches[j]| == 1)
  }

  /** The batches yielded by the generator: the full ones then the rest. */
  predicate YieldedShape<T>(batches: seq<seq<T>>, rowCount: nat, batchSize: int)
  {
    && |batches| >= 1
    && AtLeast(batches[..|batches| - 1], batchSize)
    && (batchSize >= 2 ==>
      && Exactly(batches[..|batches| - 1], batchSize)
      && rowCount == (|batches| - 1) * batchSize + |batches[|batches| - 1]|
      && |batches[|batches| - 1]| < batchSize)
    && (batchSize <= 1 && rowCount > 1 ==>
      && Singles(batches[..|batches| - 1], rowCount - 1)
      && batches[|batches| - 1] == [])
  }

  /** The final yield after the last row completes the shape. */
  lemma FinalYield<T>(batches: seq<seq<T>>, batch: seq<T>, rowCount: nat, batchSize: int)
    requires rowCount >= 1
    requires |Flatten(batches)| + |batch| == rowCount
    requires AtLeast(batches, batchSize)
    requires batchSize >= 2 ==> Exactly(batches, batchSize) && |batch| < batchSize
    requires batchSize <= 1 && rowCount > 1 ==> Singles(batches, rowCount - 1) && batch == []
    ensures YieldedShape(batches + [batch], rowCount, batchSize)
  {
    var all := batches + [batch];
    assert all[..|all| - 1] == batches;
    if batchSize >= 2 {
      FlattenLength(batches, batchSize);
    }
  }

  /** The generator's state after `pushed` has gone into the buffer: the
      batches yielded so far and the buffer hold `pushed` in order, and have
      the shape the buffering gives them. */
  ghost predicate Buffered<T>(batches: seq<seq<T>>, batch: seq<T>, pushed: seq<T>, batchSize: int)
  {
    && Flatten(batches) + batch == pushed
    && AtLeast(batches, batchSize)
    && (|pushed| == 1 ==> batches == [] && batch == pushed)
    && (batchSize >= 2 ==> Exactly(batches, batchSize) && |batch| < batchSize)
    && (batchSize <= 1 && |pushed| > 1 ==> Singles(batches, |pushed| - 1) && batch == [])
  }

  /** Pushing one more row into a buffer that stays short of `batchSize`
      keeps the state `Buffered`. */
  lemma PushKeep<T>(batches: seq<seq<T>>, batch: seq<T>, pushed: seq<T>, x: T, batchSize: int)
    requires |pushed| >= 1 && |batch + [x]| < batchSize
    requires Buffered(batches, batch, pushed, batchSize)
    ensures Buffered(batches, batch + [x], pushed + [x], batchSize)
  {
    assert Flatten(batches) + (batch + [x]) == (Flatten(batches) + batch) + [x];
  }

  lemma AtLeastSnoc<T>(batches: seq<seq<T>>, b: seq<T>, n: int)
    requires AtLeast(batches, n) && |b| >= n
    ensures AtLeast(batches + [b], n)
  {
  }

  lemma ExactlySnoc<T>(batches: seq<seq<T>>, b: seq<T>, n: int)
    requires Exactly(batches, n) && |b| == n
    ensures Exactly(batches + [b], n)
  {
  }

  lemma SinglesSnoc<T>(batches: seq<seq<T>>, b: seq<T>, i: int)
    requires Singles(batches, i) && (i == 0 ==> |b| == 2) && (i > 0 ==> |b| == 1)
    ensures Singles(batches + [b], i + 1)
  {
  }

  /** Pushing one more row that fills the buffer, and yielding the buffer,
      keeps the state `Buffered`. */
  lemma PushYield<T>(batches: seq<seq<T>>, batch: seq<T>, pushed: seq<T>, x: T, batchSize: int)
    requires |pushed| >= 1 && |batch + [x]| >= batchSize
    requires Buffered(batches, batch, pushed, batchSize)
    ensures Buffered(batches + [batch + [x]], [], pushed + [x], batchSize)
  {
    var b := batch + [x];
    assert Flatten(batches) + b == (Flatten(batches) + batch) + [x];
    FlattenAppend(batches, b);
    AtLeastSnoc(batches, b, batchSize);
    if batchSize >= 2 {
      ExactlySnoc(batches, b, batchSize);
    }
    if batchSize <= 1 {
      SinglesSnoc(batches, b, |pushed| - 1);
    }
  }

  /** The `rows` generator, run to completion: the buffer starts as the
      cleaned first row; every later row is cleaned and pushed; the buffer is
      yielded and emptied once it holds at least `batchSize` rows; after the
      last row the buffer is yielded whatever it holds. */
  method DrainRows(first: RowObject, rest: seq<Row>, batchSize: int) returns (batches: seq<seq<RowObject>>)
    ensures Flatten(batches) == [first] + CleanedAll(rest)
    ensures YieldedShape(batches, |rest| + 1, batchSize)
    ensures |rest| == 0 ==> batches == [[first]]
  {
    var batch := [first];
    batches := [];
    ghost var pushed := [first];
    var i := 0;
    while i < |rest|
      invariant 0 <= i <= |rest|
      invariant pushed == [first] + CleanedAll(rest[..i])
      invariant Buffered(batches, batch, pushed, batchSize)
    {
      var cleanedRow := CleanRow(rest[i]);
      CleanedPrefixSnoc(first, rest, i);
      ghost var before := batch;
      batch := batch + [cleanedRow];
      if |batch| >= batchSize {
        PushYield(batches, before, pushed, cleanedRow, batchSize);
        batches := batches + [batch];
        batch := [];
      } else {
        PushKeep(batches, before, pushed, cleanedRow, batchSize);
      }
      pushed := pushed + [cleanedRow];
      i := i + 1;
    }
    assert rest[..|rest|] == rest;
    FinalYield(batches, batch, |rest| + 1, batchSize);
    FlattenAppend(batches, batch);
    batches := batches + [batch];
  }

  // ---------------------------------------------------------------------
  // The runner
  // ---------------------------------------------------------------------

  /** The object the runner resolves to: the generator's batches, the column
      descriptors and `expectedRowCount`. */
  datatype QueryResult = QueryResult(
    batches: seq<seq<RowObject>>,
    columnTypes: seq<DbCommons.ColumnDefinition>,
    expectedRowCount: int)

  /** `null` for a path that is not a Flux query; a TypeError when the query
      has no first row; the query result otherwise. */
  datatype RunnerOutcome = NotFlux | NoFirstRow | Answer(result: QueryResult)

  /** The function `getRunner` returns, applied to a query path, a batch size
      and the rows `iterateRows` produces for the query text. */
  method Runner(queryPath: string, batchSize: int, rows: seq<Row>) returns (out: RunnerOutcome)
    ensures out == NotFlux <==> !EndsWith(queryPath, FLUX_SUFFIX)
    ensures EndsWith(queryPath, FLUX_SUFFIX) && |rows| == 0 ==> out == NoFirstRow
    ensures EndsWith(queryPath, FLUX_SUFFIX) && |rows| > 0 ==>
      && out.Answer?
      && out.result.columnTypes == ColumnsOf(rows[0].columns)
      && out.result.expectedRowCount == 0
      && Flatten(out.result.batches) == CleanedAll(rows)
      && YieldedShape(out.result.batches, |rows|, batchSize)
      && (|rows| == 1 ==> out.result.batches == [CleanedAll(rows)])
  {
    if !EndsWith(queryPath, FLUX_SUFFIX) {
      return NotFlux;
    }
    if |rows| == 0 {
      return NoFirstRow;
    }
    var first := rows[0];
    var firstObj := CleanRow(first);
    var cols := ColumnsOf(first.columns);
    var batches := DrainRows(firstObj, rows[1..], batchSize);
    assert [firstObj] + CleanedAll(rows[1..]) == CleanedAll(rows);
    if |rows| == 1 {
      assert |CleanedAll(rows[1..])| == 0;
      assert CleanedAll(rows) == [firstObj];
    }
    return Answer(QueryResult(batches, cols, 0));
  }
}
