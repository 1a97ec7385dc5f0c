/**
 The two consumers of the compiled query (sql_transform.py): the run that writes the final table,
 and the bounded preview. Both evaluate the same SELECT over the same stored rows.
 */
module DataDatabase {
  import opened Wrappers
  import opened Sequences
  import opened Models
  import opened Sql
  import opened SqlTransform
  import opened TableNames

  datatype TableName = TableName(schema: string, name: string)

  /** A stored table: its columns, those of type geometry, its rows, and the columns with a spatial index. */
  datatype Stored = Stored(columns: seq<string>, geometries: set<string>, rows: seq<Row>, gist: set<string>)

  type Tables = map<TableName, Stored>

  datatype RunError =
    | InvalidName
    | NoSuchTable(table: TableName)
    | NoJoinTarget
    | NotBuilt(error: BuildError)
    | QueryRejected          // a reference that does not resolve
    | DuplicateColumn        // CREATE TABLE AS or ADD COLUMN with a repeated name
    | ReservedColumn         // CREATE TABLE AS with the name of a system column
    | NoSpatialIndex         // a GIST index on a column that is not a geometry
    | SourceDropped          // the final table was one of the tables the query reads

  const GEOJSON_LABEL := "__geojson__"

  /** The names PostgreSQL keeps for itself in every table. */
  const SYSTEM_COLUMNS := {"tableoid", "xmin", "cmin", "xmax", "cmax", "ctid"}

  // ---- Dictionaries made from rows ----

  /** The cells of a row as a dictionary: a repeated label keeps its last value only. */
  function RowOf(cells: OutRow): Row {
    if cells == [] then map[]
    else
      var last := cells[|cells| - 1];
      RowOf(cells[..|cells| - 1])[last.alias := last.value]
  }

  function RowsOfCells(rows: seq<OutRow>): (r: seq<Row>)
    ensures |r| == |rows|
    ensures forall i :: 0 <= i < |r| ==> r[i] == RowOf(rows[i])
  {
    seq(|rows|, i requires 0 <= i < |rows| => RowOf(rows[i]))
  }

  // ---- What both consumers read ----

  predicate ValidNames(names: seq<TableName>) {
    forall i | 0 <= i < |names| ::
      && ValidateIdentifier(names[i].schema, PG_IDENTIFIER_MAX_LENGTH).Ok?
      && ValidateIdentifier(names[i].name, PG_IDENTIFIER_MAX_LENGTH).Ok?
  }

  /** The query, and what it reads: the rows of its tables and the names of their geometries. */
  datatype Prepared = Prepared(
    query: TransformationQuery, left: seq<Row>, right: seq<Row>, leftGeometries: set<string>,
    rightGeometries: set<string>)

  function TableOf(name: TableName, stored: Stored): Table {
    Table(name.schema, name.name, stored.columns)
  }

  /** `reflect_join_table`: nothing without a join, else the table the caller resolved. */
  function JoinTableOf(
    tables: Tables, config: Config, joinTarget: Option<TableName>): Result<Option<TableName>, RunError>
  {
    if JoinOf(config).None? then Ok(None)
    else if joinTarget.None? then Err(NoJoinTarget)
    else if !ValidNames([joinTarget.value]) then Err(InvalidName)
    else if joinTarget.value !in tables then Err(NoSuchTable(joinTarget.value))
    else Ok(joinTarget)
  }

  /** Reflection of the tables, then the compiler: what the run and the preview have in common. */
  function Prepare(
    tables: Tables, staging: TableName, config: Config, joinTarget: Option<TableName>): Result<Prepared, RunError>
  {
    if staging !in tables then Err(NoSuchTable(staging))
    else
      var join := JoinTableOf(tables, config, joinTarget);
      if join.Err? then Err(join.error)
      else
        var joinTable := if join.value.None? then None else Some(TableOf(join.value.value, tables[join.value.value]));
        var query := BuildQuery(TableOf(staging, tables[staging]), config, joinTable);
        if query.Err? then Err(NotBuilt(query.error))
        else if !SelectResolves(query.value.select) then Err(QueryRejected)
        else Ok(Prepared(query.value, tables[staging].rows,
                         if join.value.None? then [] else tables[join.value.value].rows,
                         tables[staging].geometries,
                         if join.value.None? then {} else tables[join.value.value].geometries))
  }

  // ---- The run ----

  predicate DistinctLabels(items: seq<Item>) {
    forall i, j | 0 <= i < j < |items| :: items[i].alias != items[j].alias
  }

  predicate TakesSystemName(items: seq<Item>) {
    exists i | 0 <= i < |items| :: items[i].alias in SYSTEM_COLUMNS
  }

  /** An expression of type geometry: a column of that type, or what a function of PostGIS makes. */
  predicate IsGeometry(from: From, left: set<string>, right: set<string>, e: Expr) {
    match e
    case Column(of, name) => name in (if of == Staging then left else right)
    case Qualified(table, name) =>
      var of := TableNamed(from, table);
      of.Some? && name in (if of.value == Staging then left else right)
    case SetSrid(_, _) => true
    case MakePoint(_, _) => true
    case _ => false
  }

  /** The labels of the columns of type geometry. */
  function GeometryLabels(prepared: Prepared): set<string> {
    var q := prepared.query.select;
    set i | 0 <= i < |q.items| && IsGeometry(q.from, prepared.leftGeometries, prepared.rightGeometries, q.items[i].e)
      :: q.items[i].alias
  }

  /** The spatial index cannot be made. */
  predicate IndexFails(prepared: Prepared) {
    var geom := prepared.query.geomColumn;
    geom.Some? && geom.value !in GeometryLabels(prepared)
  }

  /** The rows with the identifiers that the new primary key gives them. */
  function WithIds(rows: seq<Row>, ids: nat -> Value): (r: seq<Row>)
    ensures |r| == |rows|
    ensures forall i :: 0 <= i < |r| ==> r[i] == rows[i][ID_COLUMN := ids(i)]
  {
    seq(|rows|, i requires 0 <= i < |rows| => rows[i][ID_COLUMN := ids(i)])
  }

  function FinalTable(fn: Functions, prepared: Prepared, ids: nat -> Value, createId: bool): Stored {
    var q := prepared.query;
    var rows := RowsOfCells(EvalSelect(fn, q.select, prepared.left, prepared.right));
    Stored(
      Labels(q.select.items) + (if createId then [ID_COLUMN] else []),
      GeometryLabels(prepared),
      if createId then WithIds(rows, ids) else rows,
      if q.geomColumn.Some? then {q.geomColumn.value} else {})
  }

  /** The final table, or the error of the first statement that fails. */
  function CreateOutcome(
    fn: Functions, prepared: Prepared, ids: nat -> Value, createId: bool): Result<Stored, RunError>
  {
    if TakesSystemName(prepared.query.select.items) then Err(ReservedColumn)
    else if !DistinctLabels(prepared.query.select.items) then Err(DuplicateColumn)
    else if IndexFails(prepared) then Err(NoSpatialIndex)
    else if createId && ID_COLUMN in Labels(prepared.query.select.items) then Err(DuplicateColumn)
    else Ok(FinalTable(fn, prepared, ids, createId))
  }

  /** The tables the query reads, by the name it reads them under. */
  predicate ReadsTable(name: TableName, staging: TableName, config: Config, joinTarget: Option<TableName>) {
    name == staging || (JoinOf(config).Some? && Some(name) == joinTarget)
  }

  /** The outcome of a run: the table it writes, or why it fails. */
  function RunOutcome(
    fn: Functions, tables: Tables, ids: nat -> Value,
    staging: TableName, final: TableName, config: Config, createId: bool,
    joinTarget: Option<TableName>): Result<Stored, RunError>
  {
    if !ValidNames([staging, final]) then Err(InvalidName)
    else if ValidateIdentifier(final.name, POSTGIS_TABLE_NAME_MAX_LENGTH).Err? then Err(InvalidName)
    else
      var prepared := Prepare(tables, staging, config, joinTarget);
      if prepared.Err? then Err(prepared.error)
      else if ReadsTable(final, staging, config, joinTarget) then Err(SourceDropped)
      else CreateOutcome(fn, prepared.value, ids, createId)
  }

  /** Dropping the final table takes a table away from the query exactly when the query reads it. */
  lemma SourceGoneExactly(
    tables: Tables, staging: TableName, final: TableName, config: Config, joinTarget: Option<TableName>)
    requires Prepare(tables, staging, config, joinTarget).Ok?
    ensures JoinOf(config).Some? ==> joinTarget.Some?
    ensures ReadsTable(final, staging, config, joinTarget)
       <==> staging !in tables - {final} || (JoinOf(config).Some? && joinTarget.value !in tables - {final})
  {
  }

  lemma DropThenCreate(tables: Tables, final: TableName, created: Stored)
    ensures (tables - {final})[final := created] == tables[final := created]
  {
  }

  // ---- The preview ----

  datatype Feature = Feature(geometry: string, properties: Row)

  datatype PreviewResult = PreviewResult(rows: seq<Row>, features: Option<seq<Feature>>, isGeographic: bool)

  /** The cells the preview selects: the geometry as text, then once more as GeoJSON. */
  function PreviewCells(fn: Functions, geomColumn: Option<string>, cells: OutRow): OutRow {
    if geomColumn.None? then cells
    else
      GeomAsText(fn, geomColumn.value, cells)
      + [Cell(GEOJSON_LABEL, GeoJsonOf(fn, Get(RowOf(cells), geomColumn.value)))]
  }

  function GeomAsText(fn: Functions, geom: string, cells: OutRow): (r: OutRow)
    ensures |r| == |cells|
    ensures forall i :: 0 <= i < |r| ==>
              r[i] == if cells[i].alias == geom then Cell(GEOM, AsTextOf(fn, cells[i].value)) else cells[i]
  {
    seq(|cells|, i requires 0 <= i < |cells| =>
      if cells[i].alias == geom then Cell(GEOM, AsTextOf(fn, cells[i].value)) else cells[i])
  }

  function AsTextOf(fn: Functions, v: Value): Value { if v == Null then Null else Text(fn.asText(v)) }

  function GeoJsonOf(fn: Functions, v: Value): Value { if v == Null then Null else Text(fn.asGeoJson(v)) }

  /** `LIMIT n`, which the preview adds for a positive limit only. */
  function Limited<T>(limit: Option<int>, rows: seq<T>): seq<T> {
    if limit.Some? && 0 < limit.value < |rows| then rows[..limit.value] else rows
  }

  /** `_json_safe`, on the values of this model. */
  function JsonSafe(v: Value): Value { if v.Timestamp? then Text(v.iso) else v }

  function JsonSafeRow(row: Row): Row { map k | k in row :: JsonSafe(row[k]) }

  /** The row shown for one selected record, the GeoJSON taken out of it. */
  function PreviewRow(fn: Functions, geomColumn: Option<string>, cells: OutRow): Row {
    var record := RowOf(PreviewCells(fn, geomColumn, cells));
    JsonSafeRow(if geomColumn.Some? then record - {GEOJSON_LABEL} else record)
  }

  function PreviewRows(fn: Functions, geomColumn: Option<string>, out: seq<OutRow>): (r: seq<Row>)
    ensures |r| == |out|
    ensures forall i :: 0 <= i < |r| ==> r[i] == PreviewRow(fn, geomColumn, out[i])
  {
    seq(|out|, i requires 0 <= i < |out| => PreviewRow(fn, geomColumn, out[i]))
  }

  /** The features: one per record with a GeoJSON text, in order. */
  function Features(fn: Functions, geomColumn: Option<string>, out: seq<OutRow>): seq<Feature> {
    if out == [] then []
    else
      Features(fn, geomColumn, out[..|out| - 1]) + FeatureOf(fn, geomColumn, out[|out| - 1])
  }

  function FeatureOf(fn: Functions, geomColumn: Option<string>, cells: OutRow): seq<Feature> {
    if geomColumn.None? then []
    else
      var geojson := Get(RowOf(PreviewCells(fn, geomColumn, cells)), GEOJSON_LABEL);
      if geojson.Text? && geojson.text != ""
      then [Feature(geojson.text, PreviewRow(fn, geomColumn, cells) - {GEOM})]
      else []
  }

  function PreviewOutcome(
    fn: Functions, tables: Tables, staging: TableName, config: Config, limit: Option<int>,
    joinTarget: Option<TableName>)
    : Result<PreviewResult, RunError>
  {
    if !ValidNames([staging]) then Err(InvalidName)
    else
      var prepared := Prepare(tables, staging, config, joinTarget);
      if prepared.Err? then Err(prepared.error)
      else
        var q := prepared.value.query;
        var out := Limited(limit, EvalSelect(fn, q.select, prepared.value.left, prepared.value.right));
        var features := Features(fn, q.geomColumn, out);
        Ok(PreviewResult(PreviewRows(fn, q.geomColumn, out),
                         if q.geomColumn.Some? && features != [] then Some(features) else None,
                         q.geomColumn.Some?))
  }

  // ---- The database, updated in place ----

  class Database {
    var tables: Tables
    const fn: Functions
    const ids: nat -> Value // gen_random_uuid() for the n-th new row

    constructor (fn: Functions, ids: nat -> Value)
      ensures tables == map[] && this.fn == fn && this.ids == ids
    {
      tables := map[];
      this.fn := fn;
      this.ids := ids;
    }

    method PrepareQuery(staging: TableName, config: Config, joinTarget: Option<TableName>)
      returns (r: Result<Prepared, RunError>)
      ensures r == Prepare(tables, staging, config, joinTarget)
    {
      if staging !in tables {
        return Err(NoSuchTable(staging));
      }
      var join := JoinTableOf(tables, config, joinTarget);
      if join.Err? {
        return Err(join.error);
      }
      var joinTable := if join.value.None? then None else Some(TableOf(join.value.value, tables[join.value.value]));
      var query := BuildTransformationSelect(TableOf(staging, tables[staging]), config, joinTable);
      if query.Err? {
        return Err(NotBuilt(query.error));
      }
      if !SelectResolves(query.value.select) {
        return Err(QueryRejected);
      }
      return Ok(Prepared(query.value, tables[staging].rows,
                         if join.value.None? then [] else tables[join.value.value].rows,
                         tables[staging].geometries,
                         if join.value.None? then {} else tables[join.value.value].geometries));
    }

    /** The statements that create the final table: its rows, its spatial index, its primary key. */
    method CreateFinal(prepared: Prepared, createId: bool) returns (r: Result<Stored, RunError>)
      ensures r == CreateOutcome(fn, prepared, ids, createId)
    {
      var q := prepared.query;
      if TakesSystemName(q.select.items) {
        return Err(ReservedColumn);
      }
      if !DistinctLabels(q.select.items) {
        return Err(DuplicateColumn);
      }
      var rows := RowsOfCells(EvalSelect(fn, q.select, prepared.left, prepared.right));
      var created := Stored(Labels(q.select.items), GeometryLabels(prepared), rows, {});
      if q.geomColumn.Some? {
        if q.geomColumn.value !in created.geometries {
          return Err(NoSpatialIndex);
        }
        created := created.(gist := {q.geomColumn.value});
      }
      if createId {
        if ID_COLUMN in created.columns {
          return Err(DuplicateColumn);
        }
        created := created.(columns := created.columns + [ID_COLUMN], rows := WithIds(created.rows, ids));
      }
      assert created.columns == FinalTable(fn, prepared, ids, createId).columns;
      return Ok(created);
    }

    /**
     `transform_staging_to_final`: in one transaction, replace the final table by the rows of the
     compiled query. Returns the number of rows written.
     */
    method TransformStagingToFinal(
      staging: TableName, final: TableName, config: Config, createId: bool, joinTarget: Option<TableName>)
      returns (r: Result<nat, RunError>)
      modifies this
      ensures var outcome := RunOutcome(fn, old(tables), ids, staging, final, config, createId, joinTarget);
        if outcome.Ok?
        then tables == old(tables)[final := outcome.value] && r == Ok(|outcome.value.rows|)
        else tables == old(tables) && r == Err(outcome.error)
    {
      if !ValidNames([staging, final]) || ValidateIdentifier(final.name, POSTGIS_TABLE_NAME_MAX_LENGTH).Err? {
        return Err(InvalidName);
      }
      var prepared := PrepareQuery(staging, config, joinTarget);
      if prepared.Err? {
        return Err(prepared.error);
      }
      // The statements run on `work`; leaving without the commit rolls back to `tables`.
      var work := tables - {final};
      SourceGoneExactly(tables, staging, final, config, joinTarget);
      if staging !in work || (JoinOf(config).Some? && joinTarget.value !in work) {
        return Err(SourceDropped);
      }
      var created := CreateFinal(prepared.value, createId);
      if created.Err? {
        return Err(created.error);
      }
      work := work[final := created.value];
      DropThenCreate(tables, final, created.value);
      tables := work;
      return Ok(|created.value.rows|);
    }

    /** `read_transformed_preview`: its loop fills the rows and the features. */
    method ReadTransformedPreview(staging: TableName, config: Config, limit: Option<int>, joinTarget: Option<TableName>)
      returns (r: Result<PreviewResult, RunError>)
      ensures r == PreviewOutcome(fn, tables, staging, config, limit, joinTarget)
    {
      if !ValidNames([staging]) {
        return Err(InvalidName);
      }
      var prepared := PrepareQuery(staging, config, joinTarget);
      if prepared.Err? {
        return Err(prepared.error);
      }
      var q := prepared.value.query;
      var out := Limited(limit, EvalSelect(fn, q.select, prepared.value.left, prepared.value.right));
      var rows, features := CollectPreview(fn, q.geomColumn, out);
      return Ok(PreviewResult(rows,
                              if q.geomColumn.Some? && features != [] then Some(features) else None,
                              q.geomColumn.Some?));
    }
  }

  /** The loop over the records of the preview. */
  method CollectPreview(fn: Functions, geomColumn: Option<string>, out: seq<OutRow>)
    returns (rows: seq<Row>, features: seq<Feature>)
    ensures rows == PreviewRows(fn, geomColumn, out)
    ensures features == Features(fn, geomColumn, out)
  {
    rows, features := [], [];
    for i := 0 to |out|
      invariant rows == PreviewRows(fn, geomColumn, out[..i])
      invariant features == Features(fn, geomColumn, out[..i])
    {
      var row, feature := CollectRecord(fn, geomColumn, out[i]);
      rows, features := rows + [row], features + feature;
      OneMoreRecord(fn, geomColumn, out, i);
    }
    assert out[..|out|] == out;
  }

  lemma RowsSnoc(fn: Functions, geomColumn: Option<string>, init: seq<OutRow>, last: OutRow)
    ensures PreviewRows(fn, geomColumn, init + [last])
      == PreviewRows(fn, geomColumn, init) + [PreviewRow(fn, geomColumn, last)]
  {
  }

  lemma FeaturesSnoc(fn: Functions, geomColumn: Option<string>, init: seq<OutRow>, last: OutRow)
    ensures Features(fn, geomColumn, init + [last]) == Features(fn, geomColumn, init) + FeatureOf(fn, geomColumn, last)
  {
    WithoutLast(init, last);
  }

  lemma OneMoreRecord(fn: Functions, geomColumn: Option<string>, out: seq<OutRow>, i: nat)
    requires i < |out|
    ensures PreviewRows(fn, geomColumn, out[..i + 1])
      == PreviewRows(fn, geomColumn, out[..i]) + [PreviewRow(fn, geomColumn, out[i])]
    ensures Features(fn, geomColumn, out[..i + 1])
      == Features(fn, geomColumn, out[..i]) + FeatureOf(fn, geomColumn, out[i])
  {
    NextPrefix(out, i);
    RowsSnoc(fn, geomColumn, out[..i], out[i]);
    FeaturesSnoc(fn, geomColumn, out[..i], out[i]);
  }

  /** One turn of that loop: the row, and its feature if the record has a geometry. */
  method CollectRecord(fn: Functions, geomColumn: Option<string>, cells: OutRow)
    returns (row: Row, feature: seq<Feature>)
    ensures row == PreviewRow(fn, geomColumn, cells)
    ensures feature == FeatureOf(fn, geomColumn, cells)
  {
    var record := RowOf(PreviewCells(fn, geomColumn, cells));
    var geojson := Null;
    if geomColumn.Some? {
      geojson := Get(record, GEOJSON_LABEL);
      record := record - {GEOJSON_LABEL};
    }
    row := JsonSafeRow(record);
    feature := [];
    if geomColumn.Some? && geojson.Text? && geojson.text != "" {
      feature := [Feature(geojson.text, row - {GEOM})];
    }
  }
}
