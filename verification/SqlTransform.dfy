/**
 The transformation compiler (sql_transform.py): a saved configuration becomes one SELECT, which
 both the process run and the preview execute.
 */
module SqlTransform {
  import opened Wrappers
  import opened Sequences
  import opened Text
  import opened FilterSql
  import opened Models
  import opened Sql

  const DEFAULT_SRID: nat := 4326

  datatype BuildError =
    | NoJoinTable
    | UnknownSourceKey(name: string)
    | UnknownTargetKey(name: string)
    | UnknownJoinColumns(names: seq<string>)
    | ClashingJoinColumns(names: seq<string>)
    | UnknownCoordinate(name: string)

  datatype TransformationQuery = TransformationQuery(
    select: Select,
    geomColumn: Option<string>,
    propertyColumns: seq<string>)

  // ---- SRID ----

  /** An optional `EPSG:` in any case, then four to six digits and nothing else. */
  function ParseSrid(projection: string): Option<nat> {
    var stripped := Strip(IsWhiteSpace, projection);
    var code := if |stripped| >= 5 && Upper(stripped[..5]) == "EPSG:" then stripped[5..] else stripped;
    if 4 <= |code| <= 6 && (forall i :: 0 <= i < |code| ==> IsDigit(code[i]))
    then Some(ParseDecimal(code)) else None
  }

  /**
   A detected projection, written `EPSG:` and the SRID, reads back as that SRID when it has four to
   six digits, and as no projection at all otherwise.
   */
  lemma DetectedSridReadsBack(srid: nat)
    ensures ParseSrid("EPSG:" + Decimal(srid)) == if 1000 <= srid < 1000000 then Some(srid) else None
  {
    var digits, text := Decimal(srid), "EPSG:" + Decimal(srid);
    assert !IsWhiteSpace(text[0]) && !IsWhiteSpace(text[|text| - 1]);
    assert Strip(IsWhiteSpace, text) == text;
    assert text[..5] == "EPSG:" && text[5..] == digits;
    assert Upper("EPSG:") == "EPSG:";
    DecimalRoundTrip(srid);
    DecimalLength(srid, 3);
    DecimalLength(srid, 6);
    assert Pow10(3) == 1000 && Pow10(6) == 1000000;
  }

  function SridOf(config: Config): Option<nat> {
    if config.Some? && config.value.forceProjection.Some?
    then ParseSrid(config.value.forceProjection.value.projection) else None
  }

  // ---- What the compiler builds, clause by clause ----

  /** Neither excluded nor missing, and not the geometry that a point is about to replace. */
  predicate Keeps(c: ColumnConfig, tableColumns: seq<string>, point: bool) {
    !c.excluded && c.originalName in tableColumns && !(point && c.originalName == GEOM)
  }

  function KeepColumns(columns: seq<ColumnConfig>, tableColumns: seq<string>, point: bool): seq<ColumnConfig> {
    if columns == [] then []
    else
      (if Keeps(columns[0], tableColumns, point) then [columns[0]] else [])
      + KeepColumns(columns[1..], tableColumns, point)
  }

  function Kept(config: Config, table: Table): seq<ColumnConfig> {
    KeepColumns(ColumnsOf(config, table.columns), table.columns, BuildsPoint(config))
  }

  /** `_cast_expr`. */
  function CastExpr(e: Expr, castType: Option<CastType>): Expr {
    match castType
    case None => e
    case Some(BooleanCast) => ToBool(CastText(e))
    case Some(NumericCast) => ToNumeric(CastText(e))
    case Some(DateCast) => ToDate(CastText(e))
    case Some(TextCast) => CastText(e)
  }

  /** `_geom_expr`: the geometry of a table, referred to by the bare name of the table. */
  function GeomItem(tableName: string, srid: Option<nat>): Item {
    var geom := Qualified(tableName, GEOM);
    Item(if srid.Some? then SetSrid(geom, srid.value) else geom, GEOM)
  }

  function StagingItem(c: ColumnConfig, tableName: string, srid: Option<nat>): Item {
    if c.originalName == GEOM then GeomItem(tableName, srid)
    else Item(CastExpr(Column(Staging, c.originalName), c.castType), c.EffectiveName())
  }

  function StagingItems(kept: seq<ColumnConfig>, tableName: string, srid: Option<nat>): (r: seq<Item>)
    ensures |r| == |kept|
    ensures forall i :: 0 <= i < |r| ==> r[i] == StagingItem(kept[i], tableName, srid)
  {
    seq(|kept|, i requires 0 <= i < |kept| => StagingItem(kept[i], tableName, srid))
  }

  function JoinItem(name: string, tableName: string, srid: Option<nat>): Item {
    if name == GEOM then GeomItem(tableName, srid) else Item(Column(Joined, name), name)
  }

  function JoinItems(names: seq<string>, tableName: string, srid: Option<nat>): (r: seq<Item>)
    ensures |r| == |names|
    ensures forall i :: 0 <= i < |r| ==> r[i] == JoinItem(names[i], tableName, srid)
  {
    seq(|names|, i requires 0 <= i < |names| => JoinItem(names[i], tableName, srid))
  }

  function PointItem(projection: ForceProjection, srid: Option<nat>): Item
    requires projection.BuildsPoint()
  {
    var x := ToNumeric(CastText(Column(Staging, projection.xColumn.value)));
    var y := ToNumeric(CastText(Column(Staging, projection.yColumn.value)));
    Item(SetSrid(MakePoint(x, y), if srid.Some? then srid.value else DEFAULT_SRID), GEOM)
  }

  /** The columns whose filter takes effect: not the geometry, even when it carries a filter. */
  predicate IsFiltering(c: ColumnConfig) { c.originalName != GEOM && c.filter.Some? }

  function FilterClause(c: ColumnConfig): Condition
    requires c.filter.Some?
  {
    ILike(CastText(Column(Staging, c.originalName)), FilterPattern(c.filter.value))
  }

  function WhereClauses(kept: seq<ColumnConfig>): seq<Condition> {
    if kept == [] then []
    else
      var last := kept[|kept| - 1];
      WhereClauses(kept[..|kept| - 1]) + (if IsFiltering(last) then [FilterClause(last)] else [])
  }

  function PropertyNames(kept: seq<ColumnConfig>): seq<string> {
    if kept == [] then []
    else
      var last := kept[|kept| - 1];
      PropertyNames(kept[..|kept| - 1]) + (if last.originalName == GEOM then [] else [last.EffectiveName()])
  }

  function Without(names: seq<string>, name: string): seq<string> {
    if names == [] then []
    else
      var last := names[|names| - 1];
      Without(names[..|names| - 1], name) + (if last == name then [] else [last])
  }

  predicate KeepsGeom(kept: seq<ColumnConfig>) {
    exists i | 0 <= i < |kept| :: kept[i].originalName == GEOM
  }

  // ---- The checks on a join ----

  function EffectiveNames(kept: seq<ColumnConfig>): (r: seq<string>)
    ensures |r| == |kept|
    ensures forall i :: 0 <= i < |r| ==> r[i] == kept[i].EffectiveName()
  {
    seq(|kept|, i requires 0 <= i < |kept| => kept[i].EffectiveName())
  }

  /** Names a joined column cannot take; the geometry counts under its new name, if it has one. */
  function TakenNames(kept: seq<ColumnConfig>, point: bool): seq<string> {
    EffectiveNames(kept) + [ID_COLUMN] + (if point then [GEOM] else [])
  }

  function NotIn(names: seq<string>, known: seq<string>): seq<string> {
    if names == [] then []
    else (if names[0] in known then [] else [names[0]]) + NotIn(names[1..], known)
  }

  function AlsoIn(names: seq<string>, taken: seq<string>): seq<string> {
    if names == [] then []
    else (if names[0] in taken then [names[0]] else []) + AlsoIn(names[1..], taken)
  }

  /** `_join_from_clause`: the first check that fails, in the order they are made. */
  function JoinError(table: Table, joinTable: Table, join: JoinConfig, taken: seq<string>): Option<BuildError> {
    var unknown, clashes := NotIn(join.columns, joinTable.columns), AlsoIn(join.columns, taken);
    if join.sourceColumn !in table.columns then Some(UnknownSourceKey(join.sourceColumn))
    else if join.targetColumn !in joinTable.columns then Some(UnknownTargetKey(join.targetColumn))
    else if unknown != [] then Some(UnknownJoinColumns(unknown))
    else if clashes != [] then Some(ClashingJoinColumns(clashes))
    else None
  }

  lemma {:induction false} NotInExactly(names: seq<string>, known: seq<string>)
    ensures forall name :: name in NotIn(names, known) <==> name in names && name !in known
  {
    if names != [] {
      NotInExactly(names[1..], known);
      assert names == [names[0]] + names[1..];
    }
  }

  lemma {:induction false} AlsoInExactly(names: seq<string>, taken: seq<string>)
    ensures forall name :: name in AlsoIn(names, taken) <==> name in names && name in taken
  {
    if names != [] {
      AlsoInExactly(names[1..], taken);
      assert names == [names[0]] + names[1..];
    }
  }

  /**
   What is wrong with a join: a key that its table lacks, the staging table first; then columns that the
   joined table lacks, all of them; then columns with a name that is taken, all of them.
   */
  lemma JoinErrorExactly(table: Table, joinTable: Table, join: JoinConfig, taken: seq<string>)
    ensures
      var error := JoinError(table, joinTable, join, taken);
      var source, target := join.sourceColumn in table.columns, join.targetColumn in joinTable.columns;
      var unknown := exists name :: name in join.columns && name !in joinTable.columns;
      var clash := exists name :: name in join.columns && name in taken;
      && (error.None? <==> source && target && !unknown && !clash)
      && (!source <==> error == Some(UnknownSourceKey(join.sourceColumn)))
      && (source && !target <==> error == Some(UnknownTargetKey(join.targetColumn)))
      && (source && target && unknown ==>
            error.Some? && error.value.UnknownJoinColumns?
            && forall name :: name in error.value.names <==> name in join.columns && name !in joinTable.columns)
      && (source && target && !unknown && clash ==>
            error.Some? && error.value.ClashingJoinColumns?
            && forall name :: name in error.value.names <==> name in join.columns && name in taken)
  {
    NotInExactly(join.columns, joinTable.columns);
    AlsoInExactly(join.columns, taken);
    if NotIn(join.columns, joinTable.columns) != [] {
      assert NotIn(join.columns, joinTable.columns)[0] in NotIn(join.columns, joinTable.columns);
    }
    if AlsoIn(join.columns, taken) != [] {
      assert AlsoIn(join.columns, taken)[0] in AlsoIn(join.columns, taken);
    }
  }

  function JoinFrom(table: Table, joinTable: Table, join: JoinConfig): From {
    LeftJoin(table, joinTable,
             CastText(Column(Staging, join.sourceColumn)),
             CastText(Column(Joined, join.targetColumn)))
  }

  function FromOf(config: Config, table: Table, joinTable: Option<Table>): From {
    var join := JoinOf(config);
    if join.Some? && joinTable.Some? then JoinFrom(table, joinTable.value, join.value) else Only(table)
  }

  /** A coordinate column that the staging table lacks: X is looked up first. */
  function CoordinateError(config: Config, table: Table): Option<BuildError> {
    if !BuildsPoint(config) then None
    else
      var force := config.value.forceProjection.value;
      if force.xColumn.value !in table.columns then Some(UnknownCoordinate(force.xColumn.value))
      else if force.yColumn.value !in table.columns then Some(UnknownCoordinate(force.yColumn.value))
      else None
  }

  /** Everything that makes the compiler raise. */
  function BuildErrorOf(config: Config, table: Table, joinTable: Option<Table>): Option<BuildError> {
    var join := JoinOf(config);
    if join.Some? && joinTable.None? then Some(NoJoinTable)
    else
      var joinError :=
        if join.None? then None
        else JoinError(table, joinTable.value, join.value, TakenNames(Kept(config, table), BuildsPoint(config)));
      if joinError.Some? then joinError else CoordinateError(config, table)
  }

  function ItemsOf(config: Config, table: Table, joinTable: Option<Table>): seq<Item> {
    var srid, join := SridOf(config), JoinOf(config);
    StagingItems(Kept(config, table), table.name, srid)
    + (if join.Some? && joinTable.Some? then JoinItems(join.value.columns, joinTable.value.name, srid) else [])
    + (if BuildsPoint(config) then [PointItem(config.value.forceProjection.value, srid)] else [])
  }

  predicate IsGeographic(config: Config, table: Table) {
    || KeepsGeom(Kept(config, table))
    || (JoinOf(config).Some? && GEOM in JoinOf(config).value.columns)
    || BuildsPoint(config)
  }

  function BuildQuery(table: Table, config: Config, joinTable: Option<Table>): Result<TransformationQuery, BuildError> {
    var error := BuildErrorOf(config, table, joinTable);
    if error.Some? then Err(error.value)
    else
      var kept, join := Kept(config, table), JoinOf(config);
      Ok(TransformationQuery(
           Select(ItemsOf(config, table, joinTable), FromOf(config, table, joinTable), WhereClauses(kept)),
           if IsGeographic(config, table) then Some(GEOM) else None,
           PropertyNames(kept) + (if join.Some? then Without(join.value.columns, GEOM) else [])))
  }

  // ---- The compiler ----

  lemma OneMoreColumn(done: seq<ColumnConfig>, c: ColumnConfig, tableName: string, srid: Option<nat>)
    ensures StagingItems(done + [c], tableName, srid)
      == StagingItems(done, tableName, srid) + [StagingItem(c, tableName, srid)]
    ensures WhereClauses(done + [c]) == WhereClauses(done) + (if IsFiltering(c) then [FilterClause(c)] else [])
    ensures PropertyNames(done + [c])
      == PropertyNames(done) + (if c.originalName == GEOM then [] else [c.EffectiveName()])
    ensures KeepsGeom(done + [c]) <==> KeepsGeom(done) || c.originalName == GEOM
  {
    WithoutLast(done, c);
    if KeepsGeom(done) {
      var k :| 0 <= k < |done| && done[k].originalName == GEOM;
      assert (done + [c])[k].originalName == GEOM;
    }
  }

  /** The loop over the kept columns. */
  method AppendStagingColumns(columns: seq<ColumnConfig>, tableName: string, srid: Option<nat>)
    returns (items: seq<Item>, where: seq<Condition>, properties: seq<string>, geomOut: Option<string>)
    ensures items == StagingItems(columns, tableName, srid)
    ensures where == WhereClauses(columns)
    ensures properties == PropertyNames(columns)
    ensures geomOut == if KeepsGeom(columns) then Some(GEOM) else None
  {
    items, where, properties, geomOut := [], [], [], None;
    for i := 0 to |columns|
      invariant items == StagingItems(columns[..i], tableName, srid)
      invariant where == WhereClauses(columns[..i])
      invariant properties == PropertyNames(columns[..i])
      invariant geomOut == if KeepsGeom(columns[..i]) then Some(GEOM) else None
    {
      var c := columns[i];
      NextPrefix(columns, i);
      OneMoreColumn(columns[..i], c, tableName, srid);
      if c.originalName == GEOM {
        items := items + [GeomItem(tableName, srid)];
        geomOut := Some(GEOM);
      } else {
        var col := Column(Staging, c.originalName);
        items := items + [Item(CastExpr(col, c.castType), c.EffectiveName())];
        properties := properties + [c.EffectiveName()];
        if c.filter.Some? {
          where := where + [ILike(CastText(col), FilterPattern(c.filter.value))];
        }
      }
    }
    assert columns[..|columns|] == columns;
  }

  /** The loop over the joined columns. */
  method AppendJoinColumns(names: seq<string>, tableName: string, srid: Option<nat>)
    returns (items: seq<Item>, properties: seq<string>, hasGeom: bool)
    ensures items == JoinItems(names, tableName, srid)
    ensures properties == Without(names, GEOM)
    ensures hasGeom <==> GEOM in names
  {
    items, properties, hasGeom := [], [], false;
    for i := 0 to |names|
      invariant items == JoinItems(names[..i], tableName, srid)
      invariant properties == Without(names[..i], GEOM)
      invariant hasGeom <==> GEOM in names[..i]
    {
      assert names[..i + 1][..i] == names[..i] && names[..i + 1] == names[..i] + [names[i]];
      if names[i] == GEOM {
        items := items + [GeomItem(tableName, srid)];
        hasGeom := true;
      } else {
        items := items + [Item(Column(Joined, names[i]), names[i])];
        properties := properties + [names[i]];
      }
    }
    assert names[..|names|] == names;
  }

  /** `build_transformation_select`. */
  method BuildTransformationSelect(table: Table, config: Config, joinTable: Option<Table>)
    returns (r: Result<TransformationQuery, BuildError>)
    ensures r == BuildQuery(table, config, joinTable)
  {
    var srid, point := SridOf(config), BuildsPoint(config);
    var columns := KeepColumns(ColumnsOf(config, table.columns), table.columns, point);
    var join := JoinOf(config);
    var from := Only(table);
    if join.Some? {
      if joinTable.None? {
        return Err(NoJoinTable);
      }
      var error := JoinError(table, joinTable.value, join.value, TakenNames(columns, point));
      if error.Some? {
        return Err(error.value);
      }
      from := JoinFrom(table, joinTable.value, join.value);
    }

    var items, where, properties, geomOut := AppendStagingColumns(columns, table.name, srid);
    if join.Some? {
      var joinItems, joinProperties, hasGeom :=
        AppendJoinColumns(join.value.columns, joinTable.value.name, srid);
      items, properties := items + joinItems, properties + joinProperties;
      if hasGeom {
        geomOut := Some(GEOM);
      }
    }
    if point {
      var force := config.value.forceProjection.value;
      if force.xColumn.value !in table.columns {
        return Err(UnknownCoordinate(force.xColumn.value));
      }
      if force.yColumn.value !in table.columns {
        return Err(UnknownCoordinate(force.yColumn.value));
      }
      items := items + [PointItem(force, srid)];
      geomOut := Some(GEOM);
    }
    assert items == ItemsOf(config, table, joinTable);
    assert properties == PropertyNames(columns) + (if join.Some? then Without(join.value.columns, GEOM) else []);
    return Ok(TransformationQuery(Select(items, from, where), geomOut, properties));
  }

  // ---- Where the items of the SELECT list come from ----

  lemma ItemsCount(config: Config, table: Table, joinTable: Option<Table>)
    ensures |ItemsOf(config, table, joinTable)|
         == |Kept(config, table)|
            + (if JoinOf(config).Some? && joinTable.Some? then |JoinOf(config).value.columns| else 0)
            + (if BuildsPoint(config) then 1 else 0)
  {
  }

  lemma BuiltJoinHasTable(config: Config, table: Table, joinTable: Option<Table>)
    requires BuildErrorOf(config, table, joinTable).None? && JoinOf(config).Some?
    ensures joinTable.Some?
  {
  }

  lemma KeptItem(config: Config, table: Table, joinTable: Option<Table>, i: nat)
    requires i < |Kept(config, table)|
    ensures i < |ItemsOf(config, table, joinTable)|
    ensures ItemsOf(config, table, joinTable)[i] == StagingItem(Kept(config, table)[i], table.name, SridOf(config))
  {
  }

  /** Where the k-th joined column is in the SELECT list. */
  lemma JoinedItem(config: Config, table: Table, joinTable: Option<Table>, k: nat)
    requires JoinOf(config).Some? && joinTable.Some? && k < |JoinOf(config).value.columns|
    ensures |Kept(config, table)| + k < |ItemsOf(config, table, joinTable)|
    ensures ItemsOf(config, table, joinTable)[|Kept(config, table)| + k]
         == JoinItem(JoinOf(config).value.columns[k], joinTable.value.name, SridOf(config))
  {
    var srid := SridOf(config);
    Middle(StagingItems(Kept(config, table), table.name, srid),
           JoinItems(JoinOf(config).value.columns, joinTable.value.name, srid),
           if BuildsPoint(config) then [PointItem(config.value.forceProjection.value, srid)] else [], k);
  }

  lemma LastItem(config: Config, table: Table, joinTable: Option<Table>)
    requires BuildsPoint(config)
    ensures var items := ItemsOf(config, table, joinTable);
      items != [] && items[|items| - 1] == PointItem(config.value.forceProjection.value, SridOf(config))
  {
  }

  // ---- Facts about the kept columns ----

  lemma {:induction false} KeptMembers(columns: seq<ColumnConfig>, tableColumns: seq<string>, point: bool)
    ensures forall c {:trigger c in columns} {:trigger c in KeepColumns(columns, tableColumns, point)} ::
              c in KeepColumns(columns, tableColumns, point) <==> c in columns && Keeps(c, tableColumns, point)
  {
    if columns != [] {
      KeptMembers(columns[1..], tableColumns, point);
      var rest := KeepColumns(columns[1..], tableColumns, point);
      forall c
        ensures c in KeepColumns(columns, tableColumns, point) <==> c in columns && Keeps(c, tableColumns, point)
      {
        assert c in columns <==> c == columns[0] || c in columns[1..];
      }
    }
  }
}
