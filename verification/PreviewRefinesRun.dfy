/**
 The run writes what the configuration means, and the preview shows the first rows of what the run
 writes.
 */
module PreviewRefinesRun {
  import opened Wrappers
  import opened Like
  import opened Models
  import opened Sql
  import opened SqlTransform
  import opened TransformMeaning
  import opened RowConservation
  import opened OutputNames
  import opened TableNames
  import opened DataDatabase

  // ---- The run ----

  /** Staging table and joined table as the compiler sees them. */
  function StagingTable(tables: Tables, staging: TableName): Table
    requires staging in tables
  {
    TableOf(staging, tables[staging])
  }

  function JoinTable(tables: Tables, config: Config, joinTarget: Option<TableName>): Option<Table> {
    if JoinOf(config).Some? && joinTarget.Some? && joinTarget.value in tables
    then Some(TableOf(joinTarget.value, tables[joinTarget.value])) else None
  }

  function JoinRows(tables: Tables, config: Config, joinTarget: Option<TableName>): seq<Row> {
    if JoinOf(config).Some? && joinTarget.Some? && joinTarget.value in tables then tables[joinTarget.value].rows else []
  }

  function JoinGeometries(tables: Tables, config: Config, joinTarget: Option<TableName>): set<string> {
    if JoinOf(config).Some? && joinTarget.Some? && joinTarget.value in tables
    then tables[joinTarget.value].geometries else {}
  }

  lemma PreparedQuery(tables: Tables, staging: TableName, config: Config, joinTarget: Option<TableName>)
    requires Prepare(tables, staging, config, joinTarget).Ok?
    ensures staging in tables
    ensures var p := Prepare(tables, staging, config, joinTarget).value;
      var table, joinTable := StagingTable(tables, staging), JoinTable(tables, config, joinTarget);
      && BuildQuery(table, config, joinTable) == Ok(p.query) && SelectResolves(p.query.select)
      && p.left == tables[staging].rows && p.right == JoinRows(tables, config, joinTarget)
      && p.leftGeometries == tables[staging].geometries
      && p.rightGeometries == JoinGeometries(tables, config, joinTarget)
  {
  }

  lemma NameIsAccepted(table: TableName)
    ensures ValidNames([table]) <==> IsAccepted(table.schema) && IsAccepted(table.name)
  {
    hide ValidateIdentifier, IsAccepted;
    AcceptedExactly(table.schema);
    AcceptedExactly(table.name);
    assert [table][0] == table;
  }

  /**
   A run or a preview gets as far as its query exactly when the tables are there, the joined one under valid
   names, and the compiler accepts the configuration and the database the query.
   */
  lemma PreparedExactly(tables: Tables, staging: TableName, config: Config, joinTarget: Option<TableName>)
    ensures
      Prepare(tables, staging, config, joinTarget).Ok?
      <==> && staging in tables
           && (JoinOf(config).Some? ==>
                 joinTarget.Some? && joinTarget.value in tables
                 && IsAccepted(joinTarget.value.schema) && IsAccepted(joinTarget.value.name))
           && var query := BuildQuery(StagingTable(tables, staging), config, JoinTable(tables, config, joinTarget));
              query.Ok? && SelectResolves(query.value.select)
  {
    hide ValidNames, IsAccepted, BuildQuery, SelectResolves;
    if joinTarget.Some? {
      NameIsAccepted(joinTarget.value);
    }
  }

  lemma CreatedIs(fn: Functions, p: Prepared, ids: nat -> Value, createId: bool)
    requires CreateOutcome(fn, p, ids, createId).Ok?
    ensures
      var written := CreateOutcome(fn, p, ids, createId).value;
      var rows := RowsOfCells(EvalSelect(fn, p.query.select, p.left, p.right));
      && DistinctLabels(p.query.select.items) && (createId ==> ID_COLUMN !in Labels(p.query.select.items))
      && written.rows == (if createId then WithIds(rows, ids) else rows)
      && written.gist == (if p.query.geomColumn.Some? then {p.query.geomColumn.value} else {})
      && written.columns == Labels(p.query.select.items) + (if createId then ["id_datafeeder"] else [])
      && (p.query.geomColumn.Some? ==> p.query.geomColumn.value in written.geometries)
  {
  }

  /** A run that succeeds, in terms of the rows its query gives. */
  lemma RunIs(
    fn: Functions, tables: Tables, ids: nat -> Value, staging: TableName, final: TableName,
    config: Config, createId: bool, joinTarget: Option<TableName>)
    requires RunOutcome(fn, tables, ids, staging, final, config, createId, joinTarget).Ok?
    ensures ValidNames([staging]) && Prepare(tables, staging, config, joinTarget).Ok?
    ensures
      var p := Prepare(tables, staging, config, joinTarget).value;
      var written := RunOutcome(fn, tables, ids, staging, final, config, createId, joinTarget).value;
      var rows := RowsOfCells(EvalSelect(fn, p.query.select, p.left, p.right));
      && DistinctLabels(p.query.select.items) && (createId ==> ID_COLUMN !in Labels(p.query.select.items))
      && written.rows == (if createId then WithIds(rows, ids) else rows)
      && written.gist == (if p.query.geomColumn.Some? then {p.query.geomColumn.value} else {})
      && written.columns == Labels(p.query.select.items) + (if createId then ["id_datafeeder"] else [])
      && (p.query.geomColumn.Some? ==> p.query.geomColumn.value in written.geometries)
  {
    hide ValidateIdentifier, Prepare, CreateOutcome, DistinctLabels, EvalSelect, Labels, WithIds;
    assert [staging, final][0] == staging;
    CreatedIs(fn, Prepare(tables, staging, config, joinTarget).value, ids, createId);
  }

  /**
   A run that succeeds writes the rows the configuration means, one block of max(1, partners) rows
   per staging row that passes the filters, and reports their number.
   */
  lemma RunWritesTheMeaning(
    fn: Functions, tables: Tables, ids: nat -> Value,
    staging: TableName, final: TableName, config: Config, createId: bool, joinTarget: Option<TableName>)
    requires ValidFold(fn.fold)
    requires RunOutcome(fn, tables, ids, staging, final, config, createId, joinTarget).Ok?
    ensures staging in tables
    ensures
      var written := RunOutcome(fn, tables, ids, staging, final, config, createId, joinTarget).value;
      var table, others := StagingTable(tables, staging), JoinRows(tables, config, joinTarget);
      var meaning := Meaning(fn, config, table, tables[staging].rows, others);
      && written.rows == (if createId then WithIds(RowsOfCells(meaning), ids) else RowsOfCells(meaning))
      && |written.rows| == JoinedCount(fn, config, table, tables[staging].rows, others)
      && written.gist == (if IsGeographic(config, table) then {"geom"} else {})
      && (IsGeographic(config, table) ==> "geom" in written.geometries)
      && written.columns
         == OutputLabels(config, table, JoinTable(tables, config, joinTarget))
            + (if createId then ["id_datafeeder"] else [])
  {
    RunIs(fn, tables, ids, staging, final, config, createId, joinTarget);
    PreparedQuery(tables, staging, config, joinTarget);
    var table, joinTable := StagingTable(tables, staging), JoinTable(tables, config, joinTarget);
    var others := JoinRows(tables, config, joinTarget);
    CompiledSelectMeansConfig(fn, config, table, joinTable, tables[staging].rows, others);
    RowsAreConserved(fn, config, table, tables[staging].rows, others);
  }

  lemma LabelsOfQuery(config: Config, table: Table, joinTable: Option<Table>)
    requires BuildQuery(table, config, joinTable).Ok?
    ensures DistinctLabels(BuildQuery(table, config, joinTable).value.select.items)
       <==> Distinct(OutputLabels(config, table, joinTable))
  {
    var items := ItemsOf(config, table, joinTable);
    assert forall i | 0 <= i < |items| :: OutputLabels(config, table, joinTable)[i] == items[i].alias;
  }

  /** The names a final table keeps for other uses. */
  function ReservedNames(createId: bool): set<string> {
    {"tableoid", "xmin", "cmin", "xmax", "cmax", "ctid"} + (if createId then {"id_datafeeder"} else {})
  }

  /** No kept column ends up with a reserved name, and no joined column has the name of a system column. */
  predicate NoReservedName(config: Config, table: Table, createId: bool) {
    && (forall name | name in ReservedNames(createId) :: !KeepsNamed(Kept(config, table), name))
    && (forall name | name in ReservedNames(false) :: !JoinsNamed(config, name))
  }

  lemma SystemNameExactly(items: seq<Item>)
    ensures TakesSystemName(items) <==> exists name | name in SYSTEM_COLUMNS :: name in Labels(items)
  {
    if i :| 0 <= i < |items| && items[i].alias in SYSTEM_COLUMNS {
      assert Labels(items)[i] in Labels(items);
    }
    if name :| name in SYSTEM_COLUMNS && name in Labels(items) {
      var i :| 0 <= i < |items| && Labels(items)[i] == name;
      assert items[i].alias == name;
    }
  }

  lemma GeomIsNotReserved()
    ensures GEOM !in ReservedNames(true) && ID_COLUMN !in SYSTEM_COLUMNS
  {
    assert forall name | name in SYSTEM_COLUMNS :: name[0] != 'g' && name[0] != 'i';
  }

  /** Which output columns have a reserved name. */
  lemma ReservedLabel(config: Config, table: Table, joinTable: Option<Table>, name: string)
    requires BuildErrorOf(config, table, joinTable).None? && name != GEOM
    ensures name in OutputLabels(config, table, joinTable)
       <==> KeepsNamed(Kept(config, table), name) || JoinsNamed(config, name)
  {
    LabelExactly(config, table, joinTable, name);
  }

  lemma ReservedAre(createId: bool)
    ensures forall name :: name in ReservedNames(createId) <==>
      name in SYSTEM_COLUMNS || (createId && name == ID_COLUMN)
  {
  }

  lemma ReservedExactly(config: Config, table: Table, joinTable: Option<Table>, createId: bool)
    requires BuildQuery(table, config, joinTable).Ok?
    ensures
      var items := BuildQuery(table, config, joinTable).value.select.items;
      NoReservedName(config, table, createId)
      <==> !TakesSystemName(items) && (createId ==> ID_COLUMN !in Labels(items))
  {
    hide ReservedNames;
    SystemNameExactly(ItemsOf(config, table, joinTable));
    GeomIsNotReserved();
    ReservedAre(true);
    ReservedAre(createId);
    ReservedAre(false);
    forall name | name in SYSTEM_COLUMNS
      ensures name in OutputLabels(config, table, joinTable)
         <==> KeepsNamed(Kept(config, table), name) || JoinsNamed(config, name)
    {
      ReservedLabel(config, table, joinTable, name);
    }
    ReservedLabel(config, table, joinTable, ID_COLUMN);
    if JoinOf(config).Some? {
      NoJoinedIdColumn(config, table, joinTable);
    }
  }

  /** The geometry of the result is made by PostGIS, or it is a column of that type. */
  predicate GeometryIsTyped(tables: Tables, staging: TableName, config: Config, joinTarget: Option<TableName>)
    requires staging in tables
  {
    || BuildsPoint(config) || SridOf(config).Some?
    || (&& (KeepsGeom(Kept(config, StagingTable(tables, staging))) ==> GEOM in tables[staging].geometries)
        && (JoinsGeom(config) ==> GEOM in JoinGeometries(tables, config, joinTarget)))
  }

  /** The type of the geometry of one table, as the query refers to it. */
  lemma GeomItemType(from: From, left: set<string>, right: set<string>, of: Source, name: string, srid: Option<nat>)
    requires name == (if of == Staging then from.left.name else if from.LeftJoin? then from.right.name else "")
    requires of == Joined ==> from.LeftJoin?
    requires Resolves(from, GeomItem(name, srid).e)
    ensures IsGeometry(from, left, right, GeomItem(name, srid).e)
       <==> srid.Some? || GEOM in (if of == Staging then left else right)
  {
  }

  /** Which items are geometries: those PostGIS makes, and the columns of that type that are not cast. */
  lemma ItemTypesExactly(
    from: From, left: set<string>, right: set<string>, name: string, castType: Option<CastType>, x: Expr, y: Expr,
    srid: nat)
    ensures IsGeometry(from, left, right, CastExpr(Column(Staging, name), castType)) <==> castType.None? && name in left
    ensures IsGeometry(from, left, right, Column(Joined, name)) <==> name in right
    ensures IsGeometry(from, left, right, SetSrid(x, srid)) && IsGeometry(from, left, right, MakePoint(x, y))
  {
  }

  /** With distinct labels, one item alone makes the column of its name. */
  lemma OneItemIsTheGeometry(p: Prepared, g: nat)
    requires DistinctLabels(p.query.select.items) && g < |p.query.select.items|
    ensures
      var q := p.query.select;
      q.items[g].alias in GeometryLabels(p) <==> IsGeometry(q.from, p.leftGeometries, p.rightGeometries, q.items[g].e)
  {
  }

  lemma PointType(
    config: Config, table: Table, joinTable: Option<Table>, from: From, left: set<string>, right: set<string>)
    requires BuildsPoint(config)
    ensures
      var items := ItemsOf(config, table, joinTable);
      && items != [] && items[|items| - 1].alias == GEOM && IsGeometry(from, left, right, items[|items| - 1].e)
  {
    LastItem(config, table, joinTable);
  }

  lemma KeptGeometryType(
    config: Config, table: Table, joinTable: Option<Table>, left: set<string>, right: set<string>, g: nat)
    requires BuildErrorOf(config, table, joinTable).None?
    requires g < |Kept(config, table)| && Kept(config, table)[g].originalName == GEOM
    ensures g < |ItemsOf(config, table, joinTable)|
    ensures
      var from, item := FromOf(config, table, joinTable), ItemsOf(config, table, joinTable)[g];
      && item.alias == GEOM
      && (Resolves(from, item.e) ==> (IsGeometry(from, left, right, item.e) <==> SridOf(config).Some? || GEOM in left))
  {
    hide BuildErrorOf, ItemsOf, KeepColumns;
    KeptItem(config, table, joinTable, g);
    if Resolves(FromOf(config, table, joinTable), ItemsOf(config, table, joinTable)[g].e) {
      GeomItemType(FromOf(config, table, joinTable), left, right, Staging, table.name, SridOf(config));
    }
  }

  lemma JoinedGeometryType(
    config: Config, table: Table, joinTable: Option<Table>, left: set<string>, right: set<string>, k: nat)
    requires BuildErrorOf(config, table, joinTable).None? && JoinOf(config).Some?
    requires k < |JoinOf(config).value.columns| && JoinOf(config).value.columns[k] == GEOM
    ensures |Kept(config, table)| + k < |ItemsOf(config, table, joinTable)|
    ensures
      var from := FromOf(config, table, joinTable);
      var item := ItemsOf(config, table, joinTable)[|Kept(config, table)| + k];
      && item.alias == GEOM
      && (Resolves(from, item.e) ==> (IsGeometry(from, left, right, item.e) <==> SridOf(config).Some? || GEOM in right))
  {
    hide BuildErrorOf, ItemsOf, Kept;
    BuiltJoinHasTable(config, table, joinTable);
    JoinedItem(config, table, joinTable, k);
    if Resolves(FromOf(config, table, joinTable), ItemsOf(config, table, joinTable)[|Kept(config, table)| + k].e) {
      GeomItemType(FromOf(config, table, joinTable), left, right, Joined, joinTable.value.name, SridOf(config));
    }
  }

  /** Which item of the SELECT list makes the geometry, and when it has the type. */
  lemma GeometryAt(config: Config, table: Table, joinTable: Option<Table>, left: set<string>, right: set<string>)
    returns (g: nat)
    requires BuildErrorOf(config, table, joinTable).None?
    requires IsGeographic(config, table) && !GeomClash(config, table)
    requires forall i | 0 <= i < |ItemsOf(config, table, joinTable)| ::
      Resolves(FromOf(config, table, joinTable), ItemsOf(config, table, joinTable)[i].e)
    ensures g < |ItemsOf(config, table, joinTable)|
    ensures
      var from, item := FromOf(config, table, joinTable), ItemsOf(config, table, joinTable)[g];
      && item.alias == GEOM
      && (IsGeometry(from, left, right, item.e)
          <==> || BuildsPoint(config) || SridOf(config).Some?
               || ((KeepsGeom(Kept(config, table)) ==> GEOM in left) && (JoinsGeom(config) ==> GEOM in right)))
  {
    hide BuildErrorOf, ItemsOf, Kept, IsGeometry, Resolves, FromOf, SridOf;
    if BuildsPoint(config) {
      PointType(config, table, joinTable, FromOf(config, table, joinTable), left, right);
      g := |ItemsOf(config, table, joinTable)| - 1;
    } else if KeepsGeom(Kept(config, table)) {
      g :| 0 <= g < |Kept(config, table)| && Kept(config, table)[g].originalName == GEOM;
      KeptGeometryType(config, table, joinTable, left, right, g);
    } else {
      var k :| 0 <= k < |JoinOf(config).value.columns| && JoinOf(config).value.columns[k] == GEOM;
      JoinedGeometryType(config, table, joinTable, left, right, k);
      g := |Kept(config, table)| + k;
    }
  }

  lemma IndexFailsExactly(tables: Tables, staging: TableName, config: Config, joinTarget: Option<TableName>)
    requires Prepare(tables, staging, config, joinTarget).Ok? && staging in tables
    requires !GeomClash(config, StagingTable(tables, staging))
    requires DistinctLabels(Prepare(tables, staging, config, joinTarget).value.query.select.items)
    ensures IndexFails(Prepare(tables, staging, config, joinTarget).value)
       <==> !GeometryIsTyped(tables, staging, config, joinTarget)
  {
    var p := Prepare(tables, staging, config, joinTarget).value;
    PreparedQuery(tables, staging, config, joinTarget);
    var table, joinTable := StagingTable(tables, staging), JoinTable(tables, config, joinTarget);
    if IsGeographic(config, table) {
      var g := GeometryAt(config, table, joinTable, p.leftGeometries, p.rightGeometries);
      OneItemIsTheGeometry(p, g);
    }
  }

  lemma NamesAreAccepted(staging: TableName, final: TableName)
    ensures
      ValidNames([staging, final]) && ValidateIdentifier(final.name, POSTGIS_TABLE_NAME_MAX_LENGTH).Ok?
      <==> && IsAccepted(staging.schema) && IsAccepted(staging.name) && IsAccepted(final.schema)
           && IsAccepted(final.name) && |final.name| <= 54
  {
    hide ValidateIdentifier, IsAccepted;
    AcceptedExactly(staging.schema);
    AcceptedExactly(staging.name);
    AcceptedExactly(final.schema);
    AcceptedExactly(final.name);
    assert [staging, final][0] == staging && [staging, final][1] == final;
  }

  /**
   Once its query is prepared, a run of an accepted configuration fails in no other way than these: a name
   that is not valid, a final table that the query reads, a joined column listed twice, two columns called
   `geom`, a column with the name of a system column or of the identifier to be added, or a geometry that
   is none.
   */
  lemma RunSucceedsExactly(
    fn: Functions, tables: Tables, ids: nat -> Value,
    staging: TableName, final: TableName, config: Config, createId: bool, joinTarget: Option<TableName>)
    requires Prepare(tables, staging, config, joinTarget).Ok?
    requires staging in tables && Distinct(tables[staging].columns) && Accepted(config)
    ensures
      RunOutcome(fn, tables, ids, staging, final, config, createId, joinTarget).Ok?
      <==> && IsAccepted(staging.schema) && IsAccepted(staging.name) && IsAccepted(final.schema)
           && IsAccepted(final.name) && |final.name| <= 54
           && final != staging && !(JoinOf(config).Some? && Some(final) == joinTarget)
           && !JoinRepeatsColumn(config) && !GeomClash(config, StagingTable(tables, staging))
           && NoReservedName(config, StagingTable(tables, staging), createId)
           && GeometryIsTyped(tables, staging, config, joinTarget)
  {
    hide Prepare, ValidNames, IsAccepted, ValidateIdentifier, CreateOutcome, JoinOf, JoinRepeatsColumn;
    hide GeomClash, NoReservedName, GeometryIsTyped;
    NamesAreAccepted(staging, final);
    CreateSucceedsExactly(fn, tables, ids, staging, config, createId, joinTarget);
  }

  /** The statements that create the table of a prepared query: when none of them fails. */
  lemma CreateSucceedsExactly(
    fn: Functions, tables: Tables, ids: nat -> Value,
    staging: TableName, config: Config, createId: bool, joinTarget: Option<TableName>)
    requires Prepare(tables, staging, config, joinTarget).Ok?
    requires staging in tables && Distinct(tables[staging].columns) && Accepted(config)
    ensures
      CreateOutcome(fn, Prepare(tables, staging, config, joinTarget).value, ids, createId).Ok?
      <==> && !JoinRepeatsColumn(config) && !GeomClash(config, StagingTable(tables, staging))
           && NoReservedName(config, StagingTable(tables, staging), createId)
           && GeometryIsTyped(tables, staging, config, joinTarget)
  {
    hide Prepare, BuildQuery, SelectResolves, TakesSystemName, DistinctLabels, IndexFails, Distinct, OutputLabels;
    hide JoinRepeatsColumn, GeomClash, NoReservedName, GeometryIsTyped, BuildErrorOf;
    PreparedQuery(tables, staging, config, joinTarget);
    var table, joinTable := StagingTable(tables, staging), JoinTable(tables, config, joinTarget);
    LabelsDistinctExactly(config, table, joinTable);
    LabelsOfQuery(config, table, joinTable);
    ReservedExactly(config, table, joinTable, createId);
    if !JoinRepeatsColumn(config) && !GeomClash(config, table) {
      IndexFailsExactly(tables, staging, config, joinTarget);
    }
  }

  /** A table copied as it is keeps every column under its name. */
  lemma CopiedColumnIsKept(table: Table, name: string)
    requires name in table.columns
    ensures KeepsNamed(Kept(None, table), name) && (name == GEOM ==> KeepsGeom(Kept(None, table)))
  {
    var columns, kept := ColumnsOf(None, table.columns), Kept(None, table);
    KeptMembers(columns, table.columns, false);
    var i :| 0 <= i < |table.columns| && table.columns[i] == name;
    assert columns[i] in kept;
  }

  /** A staging table with a column called `id_datafeeder`, copied as it is: the run fails. */
  lemma IdColumnBreaksTheRun(fn: Functions, tables: Tables, ids: nat -> Value, staging: TableName, final: TableName)
    requires staging in tables && Distinct(tables[staging].columns) && ID_COLUMN in tables[staging].columns
    ensures Prepare(tables, staging, None, None).Ok?
    ensures RunOutcome(fn, tables, ids, staging, final, None, true, None).Err?
  {
    var table := StagingTable(tables, staging);
    ResolutionIsExact(None, table, None);
    RunSucceedsExactly(fn, tables, ids, staging, final, None, true, None);
    CopiedColumnIsKept(table, ID_COLUMN);
  }

  /** A staging table with a column called `geom` that holds texts, copied as it is: the run fails. */
  lemma TextGeomBreaksTheRun(
    fn: Functions, tables: Tables, ids: nat -> Value, staging: TableName, final: TableName, createId: bool)
    requires staging in tables && Distinct(tables[staging].columns)
    requires GEOM in tables[staging].columns && GEOM !in tables[staging].geometries
    ensures Prepare(tables, staging, None, None).Ok?
    ensures RunOutcome(fn, tables, ids, staging, final, None, createId, None).Err?
  {
    var table := StagingTable(tables, staging);
    ResolutionIsExact(None, table, None);
    RunSucceedsExactly(fn, tables, ids, staging, final, None, createId, None);
    CopiedColumnIsKept(table, GEOM);
  }

  // ---- Dictionaries lose nothing ----

  lemma {:induction false} KeysOfRow(cells: OutRow)
    ensures forall k :: k in RowOf(cells) <==> exists i :: 0 <= i < |cells| && cells[i].alias == k
  {
    if cells != [] {
      var init := cells[..|cells| - 1];
      KeysOfRow(init);
      forall k ensures k in RowOf(cells) <==> exists i :: 0 <= i < |cells| && cells[i].alias == k {
        if k in RowOf(init) {
          var i :| 0 <= i < |init| && init[i].alias == k;
          assert cells[i].alias == k;
        }
        if i :| 0 <= i < |cells| && cells[i].alias == k {
          if i < |init| { assert init[i].alias == k; }
        }
      }
    }
  }

  predicate DistinctAliases(cells: OutRow) {
    forall i, j | 0 <= i < j < |cells| :: cells[i].alias != cells[j].alias
  }

  lemma {:induction false} ValueInRow(cells: OutRow, i: nat)
    requires i < |cells| && DistinctAliases(cells)
    ensures cells[i].alias in RowOf(cells) && RowOf(cells)[cells[i].alias] == cells[i].value
  {
    if i < |cells| - 1 {
      var init := cells[..|cells| - 1];
      ValueInRow(init, i);
      assert init[i] == cells[i];
    }
  }

  /** A dictionary keeps one entry per cell exactly when no label is repeated. */
  lemma {:induction false} DictionaryKeepsEveryCell(cells: OutRow)
    ensures |RowOf(cells)| <= |cells|
    ensures |RowOf(cells)| == |cells| <==> DistinctAliases(cells)
  {
    if cells != [] {
      var init, last := cells[..|cells| - 1], cells[|cells| - 1];
      DictionaryKeepsEveryCell(init);
      KeysOfRow(init);
      OneMoreEntry(RowOf(init), last.alias, last.value);
      LastIsDistinct(cells);
    }
  }

  lemma OneMoreEntry(row: Row, key: string, value: Value)
    ensures |row[key := value]| == |row| + (if key in row then 0 else 1)
  {
    assert row[key := value].Keys == row.Keys + {key};
    assert |row| == |row.Keys| && |row[key := value]| == |row[key := value].Keys|;
    if key in row {
      assert row.Keys + {key} == row.Keys;
    }
  }

  lemma LastIsDistinct(cells: OutRow)
    requires cells != []
    ensures DistinctAliases(cells)
       <==> DistinctAliases(cells[..|cells| - 1]) && !HasAlias(cells[..|cells| - 1], cells[|cells| - 1].alias)
  {
    var init, last := cells[..|cells| - 1], cells[|cells| - 1];
    assert forall i | 0 <= i < |init| :: init[i] == cells[i];
    if i :| 0 <= i < |init| && init[i].alias == last.alias {
      assert cells[i].alias == last.alias;
    }
  }

  predicate HasAlias(cells: OutRow, name: string) {
    exists i | 0 <= i < |cells| :: cells[i].alias == name
  }

  predicate IsGeomColumn(geomColumn: Option<string>) { geomColumn == None || geomColumn == Some(GEOM) }

  /** The keys of a previewed row: the labels, but for the one that carries the GeoJSON. */
  lemma PreviewKeys(fn: Functions, geomColumn: Option<string>, cells: OutRow)
    requires IsGeomColumn(geomColumn)
    ensures forall k :: k in PreviewRow(fn, geomColumn, cells)
              <==> HasAlias(cells, k) && !(geomColumn.Some? && k == GEOJSON_LABEL)
  {
    var all := PreviewCells(fn, geomColumn, cells);
    KeysOfRow(all);
    forall k
      ensures k in PreviewRow(fn, geomColumn, cells)
         <==> HasAlias(cells, k) && !(geomColumn.Some? && k == GEOJSON_LABEL)
    {
      assert forall i | 0 <= i < |cells| :: all[i].alias == cells[i].alias;
      if k in RowOf(all) {
        var i :| 0 <= i < |all| && all[i].alias == k;
      }
      if HasAlias(cells, k) {
        var i :| 0 <= i < |cells| && cells[i].alias == k;
        assert all[i].alias == k;
      }
    }
  }

  /**
   A previewed row keeps every value of its record exactly when the labels are distinct and, for a
   geographic result, no column is called `__geojson__`.
   */
  lemma PreviewLosesNothingExactly(fn: Functions, geomColumn: Option<string>, cells: OutRow)
    requires IsGeomColumn(geomColumn)
    ensures |PreviewRow(fn, geomColumn, cells)| == |cells|
       <==> DistinctAliases(cells) && !(geomColumn.Some? && HasAlias(cells, "__geojson__"))
  {
    var row, plain := PreviewRow(fn, geomColumn, cells), RowOf(cells);
    PreviewSize(fn, geomColumn, cells);
    DictionaryKeepsEveryCell(cells);
  }

  lemma PreviewSize(fn: Functions, geomColumn: Option<string>, cells: OutRow)
    requires IsGeomColumn(geomColumn)
    ensures |PreviewRow(fn, geomColumn, cells)|
      == |RowOf(cells)| - (if geomColumn.Some? && HasAlias(cells, GEOJSON_LABEL) then 1 else 0)
  {
    var row, plain := PreviewRow(fn, geomColumn, cells), RowOf(cells);
    PreviewKeys(fn, geomColumn, cells);
    KeysOfRow(cells);
    if geomColumn.Some? && HasAlias(cells, GEOJSON_LABEL) {
      OneKeyLess(row, plain, GEOJSON_LABEL);
    } else {
      SameKeys(row, plain);
    }
  }

  lemma SameKeys(a: Row, b: Row)
    requires forall k :: k in a <==> k in b
    ensures |a| == |b|
  {
    assert a.Keys == b.Keys;
    assert |a| == |a.Keys| && |b| == |b.Keys|;
  }

  lemma OneKeyLess(a: Row, b: Row, key: string)
    requires key in b && forall k :: k in a <==> k in b && k != key
    ensures |a| == |b| - 1
  {
    assert a.Keys == b.Keys - {key};
    assert |a| == |a.Keys| && |b| == |b.Keys|;
  }

  // ---- The preview refines the run ----

  /** The value the preview shows for a stored one. */
  function ShownValue(fn: Functions, geographic: bool, name: string, v: Value): Value {
    if geographic && name == "geom" then (if v == Null then Null else Text(fn.asText(v)))
    else
      match v
      case Timestamp(iso) => Text(iso)
      case _ => v
  }

  lemma ShownValueIs(fn: Functions, geographic: bool, name: string, v: Value)
    ensures ShownValue(fn, geographic, name, v) == if geographic && name == GEOM then AsTextOf(fn, v) else JsonSafe(v)
  {
  }

  /** The dictionary shown for a stored row, identifier aside. */
  function ShownRow(fn: Functions, geographic: bool, stored: Row): Row {
    map k | k in stored && k != ID_COLUMN :: ShownValue(fn, geographic, k, stored[k])
  }

  /** The features of stored rows: those with a geometry, in their order. */
  function ShownFeatures(fn: Functions, stored: seq<Row>): seq<Feature> {
    if stored == [] then []
    else
      var last := stored[|stored| - 1];
      ShownFeatures(fn, stored[..|stored| - 1])
      + (if Get(last, GEOM) == Null then []
         else [Feature(fn.asGeoJson(last[GEOM]), ShownRow(fn, true, last) - {GEOM})])
  }

  lemma PreviewCellsDistinct(fn: Functions, geomColumn: Option<string>, cells: OutRow)
    requires IsGeomColumn(geomColumn) && DistinctAliases(cells)
    requires geomColumn.Some? ==> !HasAlias(cells, GEOJSON_LABEL)
    ensures DistinctAliases(PreviewCells(fn, geomColumn, cells))
  {
    var all := PreviewCells(fn, geomColumn, cells);
    assert forall i | 0 <= i < |cells| :: all[i].alias == cells[i].alias;
  }

  /** One value of a previewed row, as the preview computes it. */
  lemma PreviewValue(fn: Functions, geomColumn: Option<string>, cells: OutRow, i: nat)
    requires IsGeomColumn(geomColumn) && DistinctAliases(cells) && i < |cells|
    requires geomColumn.Some? ==> !HasAlias(cells, GEOJSON_LABEL)
    ensures cells[i].alias in PreviewRow(fn, geomColumn, cells)
    ensures PreviewRow(fn, geomColumn, cells)[cells[i].alias]
      == if geomColumn.Some? && cells[i].alias == GEOM then AsTextOf(fn, cells[i].value) else JsonSafe(cells[i].value)
  {
    var all := PreviewCells(fn, geomColumn, cells);
    PreviewCellsDistinct(fn, geomColumn, cells);
    ValueInRow(all, i);
    assert HasAlias(cells, cells[i].alias);
  }

  /** One value of a previewed row. */
  lemma ValueIsShown(fn: Functions, geomColumn: Option<string>, cells: OutRow, i: nat)
    requires IsGeomColumn(geomColumn) && DistinctAliases(cells) && i < |cells|
    requires geomColumn.Some? ==> !HasAlias(cells, GEOJSON_LABEL)
    ensures cells[i].alias in RowOf(cells) && cells[i].alias in PreviewRow(fn, geomColumn, cells)
    ensures PreviewRow(fn, geomColumn, cells)[cells[i].alias]
         == ShownValue(fn, geomColumn.Some?, cells[i].alias, RowOf(cells)[cells[i].alias])
  {
    hide *;
    ValueInRow(cells, i);
    PreviewValue(fn, geomColumn, cells, i);
    ShownValueIs(fn, geomColumn.Some?, cells[i].alias, cells[i].value);
  }

  lemma KeyIsShown(fn: Functions, geomColumn: Option<string>, cells: OutRow, k: string)
    requires IsGeomColumn(geomColumn) && DistinctAliases(cells) && HasAlias(cells, k) && !HasAlias(cells, ID_COLUMN)
    requires geomColumn.Some? ==> !HasAlias(cells, GEOJSON_LABEL)
    ensures k in PreviewRow(fn, geomColumn, cells) && k in ShownRow(fn, geomColumn.Some?, RowOf(cells))
    ensures PreviewRow(fn, geomColumn, cells)[k] == ShownRow(fn, geomColumn.Some?, RowOf(cells))[k]
  {
    var i :| 0 <= i < |cells| && cells[i].alias == k;
    ValueIsShown(fn, geomColumn, cells, i);
  }

  lemma RowIsShown(fn: Functions, geomColumn: Option<string>, cells: OutRow)
    requires IsGeomColumn(geomColumn) && DistinctAliases(cells)
    requires !HasAlias(cells, ID_COLUMN)
    requires geomColumn.Some? ==> !HasAlias(cells, GEOJSON_LABEL)
    ensures PreviewRow(fn, geomColumn, cells) == ShownRow(fn, geomColumn.Some?, RowOf(cells))
  {
    var row, shown := PreviewRow(fn, geomColumn, cells), ShownRow(fn, geomColumn.Some?, RowOf(cells));
    PreviewKeys(fn, geomColumn, cells);
    ShownKeys(fn, geomColumn.Some?, cells);
    forall k | k in row ensures k in shown && row[k] == shown[k] {
      KeyIsShown(fn, geomColumn, cells, k);
    }
  }

  lemma ShownKeys(fn: Functions, geographic: bool, cells: OutRow)
    requires !HasAlias(cells, ID_COLUMN)
    ensures forall k :: k in ShownRow(fn, geographic, RowOf(cells)) <==> HasAlias(cells, k)
  {
    KeysOfRow(cells);
  }

  lemma GeoJsonIsShown(fn: Functions, cells: OutRow)
    requires DistinctAliases(cells) && !HasAlias(cells, GEOJSON_LABEL)
    ensures Get(RowOf(PreviewCells(fn, Some(GEOM), cells)), GEOJSON_LABEL) == GeoJsonOf(fn, Get(RowOf(cells), GEOM))
  {
    var all := PreviewCells(fn, Some(GEOM), cells);
    assert forall i | 0 <= i < |cells| :: all[i].alias == cells[i].alias;
    ValueInRow(all, |cells|);
  }

  predicate PlainCells(geomColumn: Option<string>, cells: OutRow) {
    && DistinctAliases(cells) && !HasAlias(cells, ID_COLUMN)
    && (geomColumn.Some? ==> !HasAlias(cells, GEOJSON_LABEL))
  }

  lemma {:induction false} FeaturesAreShown(fn: Functions, out: seq<OutRow>)
    requires forall i :: 0 <= i < |out| ==> PlainCells(Some(GEOM), out[i])
    requires forall v :: fn.asGeoJson(v) != ""
    ensures Features(fn, Some(GEOM), out) == ShownFeatures(fn, RowsOfCells(out))
  {
    if out != [] {
      var init, last := out[..|out| - 1], out[|out| - 1];
      FeaturesAreShown(fn, init);
      assert RowsOfCells(out)[..|out| - 1] == RowsOfCells(init);
      GeoJsonIsShown(fn, last);
      RowIsShown(fn, Some(GEOM), last);
    }
  }

  lemma {:induction false} FeaturesIgnoreIds(fn: Functions, rows: seq<Row>, ids: nat -> Value)
    requires forall i :: 0 <= i < |rows| ==> ID_COLUMN !in rows[i]
    ensures ShownFeatures(fn, WithIds(rows, ids)) == ShownFeatures(fn, rows)
  {
    if rows != [] {
      var init, last := rows[..|rows| - 1], rows[|rows| - 1];
      FeaturesIgnoreIds(fn, init, ids);
      assert WithIds(rows, ids)[..|rows| - 1] == WithIds(init, ids);
      ShownIgnoresIds(fn, true, last, ids(|rows| - 1));
    }
  }

  lemma ShownIgnoresIds(fn: Functions, geographic: bool, row: Row, id: Value)
    requires ID_COLUMN !in row
    ensures ShownRow(fn, geographic, row[ID_COLUMN := id]) == ShownRow(fn, geographic, row)
    ensures Get(row[ID_COLUMN := id], GEOM) == Get(row, GEOM)
  {
  }

  lemma CellsArePlain(fn: Functions, q: TransformationQuery, left: seq<Row>, right: seq<Row>)
    requires DistinctLabels(q.select.items) && ID_COLUMN !in Labels(q.select.items)
    requires q.geomColumn.Some? ==> GEOJSON_LABEL !in Labels(q.select.items)
    ensures forall i :: 0 <= i < |EvalSelect(fn, q.select, left, right)| ==>
              PlainCells(q.geomColumn, EvalSelect(fn, q.select, left, right)[i])
  {
    var out, items := EvalSelect(fn, q.select, left, right), q.select.items;
    assert forall i | 0 <= i < |items| :: Labels(items)[i] == items[i].alias;
    forall i | 0 <= i < |out| ensures PlainCells(q.geomColumn, out[i]) {
      assert |out[i]| == |items| && forall k | 0 <= k < |items| :: out[i][k].alias == items[k].alias;
      assert forall k | 0 <= k < |items| :: out[i][k].alias in Labels(items);
    }
  }

  /** The preview shows exactly these stored rows, and their geometries. */
  predicate Shows(fn: Functions, preview: PreviewResult, stored: seq<Row>) {
    && |preview.rows| == |stored|
    && (forall i :: 0 <= i < |stored| ==> preview.rows[i] == ShownRow(fn, preview.isGeographic, stored[i]))
    && preview.features
       == if preview.isGeographic && ShownFeatures(fn, stored) != [] then Some(ShownFeatures(fn, stored)) else None
  }

  function PreviewOf(fn: Functions, geomColumn: Option<string>, out: seq<OutRow>): PreviewResult {
    var features := Features(fn, geomColumn, out);
    PreviewResult(PreviewRows(fn, geomColumn, out),
                  if geomColumn.Some? && features != [] then Some(features) else None,
                  geomColumn.Some?)
  }

  lemma CellsAreShown(fn: Functions, geomColumn: Option<string>, out: seq<OutRow>, ids: nat -> Value)
    requires IsGeomColumn(geomColumn)
    requires forall i :: 0 <= i < |out| ==> PlainCells(geomColumn, out[i])
    requires forall v :: fn.asGeoJson(v) != ""
    ensures Shows(fn, PreviewOf(fn, geomColumn, out), WithIds(RowsOfCells(out), ids))
  {
    var plain := RowsOfCells(out);
    forall i | 0 <= i < |out|
      ensures ID_COLUMN !in plain[i]
      ensures PreviewRow(fn, geomColumn, out[i]) == ShownRow(fn, geomColumn.Some?, WithIds(plain, ids)[i])
    {
      KeysOfRow(out[i]);
      RowIsShown(fn, geomColumn, out[i]);
      ShownIgnoresIds(fn, geomColumn.Some?, plain[i], ids(i));
    }
    if geomColumn.Some? {
      FeaturesAreShown(fn, out);
      FeaturesIgnoreIds(fn, plain, ids);
    }
  }

  lemma GeomColumnIsGeom(tables: Tables, staging: TableName, config: Config, joinTarget: Option<TableName>)
    requires Prepare(tables, staging, config, joinTarget).Ok?
    ensures IsGeomColumn(Prepare(tables, staging, config, joinTarget).value.query.geomColumn)
  {
  }

  lemma PreviewIs(
    fn: Functions, tables: Tables, staging: TableName, config: Config, limit: Option<int>,
    joinTarget: Option<TableName>)
    requires ValidNames([staging]) && Prepare(tables, staging, config, joinTarget).Ok?
    ensures
      var p := Prepare(tables, staging, config, joinTarget).value;
      PreviewOutcome(fn, tables, staging, config, limit, joinTarget)
      == Ok(PreviewOf(fn, p.query.geomColumn, Limited(limit, EvalSelect(fn, p.query.select, p.left, p.right))))
  {
  }

  lemma LimitedRows(limit: Option<int>, out: seq<OutRow>, ids: nat -> Value)
    ensures WithIds(RowsOfCells(Limited(limit, out)), ids) == Limited(limit, WithIds(RowsOfCells(out), ids))
  {
    var few, all := WithIds(RowsOfCells(Limited(limit, out)), ids), Limited(limit, WithIds(RowsOfCells(out), ids));
    assert |few| == |all|;
    forall i | 0 <= i < |few|
      ensures few[i] == all[i]
    {
      assert Limited(limit, out)[i] == out[i];
    }
  }

  /**
   Whatever a run writes, the preview of the same tables with a limit shows its first rows: the
   same values in the same order, the geometry as text, the identifier aside. Its features are
   exactly those of the shown rows whose geometry is not NULL, in order.
   */
  lemma PreviewShowsWhatTheRunWrites(
    fn: Functions, tables: Tables, ids: nat -> Value, staging: TableName, final: TableName,
    config: Config, limit: Option<int>, joinTarget: Option<TableName>)
    requires RunOutcome(fn, tables, ids, staging, final, config, true, joinTarget).Ok?
    requires "__geojson__" !in Labels(Prepare(tables, staging, config, joinTarget).value.query.select.items)
    requires forall v :: fn.asGeoJson(v) != ""
    ensures PreviewOutcome(fn, tables, staging, config, limit, joinTarget).Ok?
    ensures
      var rows := RunOutcome(fn, tables, ids, staging, final, config, true, joinTarget).value.rows;
      var n := if limit.Some? && 0 < limit.value < |rows| then limit.value else |rows|;
      Shows(fn, PreviewOutcome(fn, tables, staging, config, limit, joinTarget).value, rows[..n])
  {
    var rows := RunOutcome(fn, tables, ids, staging, final, config, true, joinTarget).value.rows;
    assert rows[..|rows|] == rows;
    RunIs(fn, tables, ids, staging, final, config, true, joinTarget);
    PreviewIs(fn, tables, staging, config, limit, joinTarget);
    var p := Prepare(tables, staging, config, joinTarget).value;
    var out := EvalSelect(fn, p.query.select, p.left, p.right);
    GeomColumnIsGeom(tables, staging, config, joinTarget);
    CellsArePlain(fn, p.query, p.left, p.right);
    CellsAreShown(fn, p.query.geomColumn, Limited(limit, out), ids);
    LimitedRows(limit, out, ids);
  }
}
