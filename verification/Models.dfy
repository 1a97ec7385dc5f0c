/** The transformation configuration saved with a dataset (models.py). */
module Models {
  import opened Wrappers
  import opened FilterSql

  const GEOM := "geom"
  const ID_COLUMN := "id_datafeeder"

  datatype CastType = BooleanCast | NumericCast | TextCast | DateCast

  datatype ColumnConfig = ColumnConfig(
    originalName: string,
    originalType: CastType,
    newName: Option<string>,
    excluded: bool,
    castType: Option<CastType>,
    filter: Option<ColumnFilter>)
  {
    /** `new_name or original_name`: an empty new name counts as none. */
    function EffectiveName(): string {
      if newName.Some? && newName.value != "" then newName.value else originalName
    }

    /** The name of the column in the output: the geometry is never renamed. */
    function OutputName(): string {
      if originalName == GEOM then GEOM else EffectiveName()
    }
  }

  datatype ForceProjection = ForceProjection(
    projection: string,
    yColumn: Option<string>,
    xColumn: Option<string>)
  {
    /** Both coordinate columns are given, and neither is the empty string. */
    predicate BuildsPoint() {
      xColumn.Some? && xColumn.value != "" && yColumn.Some? && yColumn.value != ""
    }
  }

  datatype JoinConfig = JoinConfig(
    linkId: string,
    sourceColumn: string,
    targetColumn: string,
    columns: seq<string>)

  datatype IntegrityTransformation = IntegrityTransformation(
    columns: Option<seq<ColumnConfig>>,
    forceProjection: Option<ForceProjection>,
    join: Option<JoinConfig>)

  type Config = Option<IntegrityTransformation>

  /** The column configurations in force: one plain entry per table column when none are saved. */
  function ColumnsOf(config: Config, tableColumns: seq<string>): seq<ColumnConfig> {
    if config.Some? && config.value.columns.Some? && config.value.columns.value != []
    then config.value.columns.value
    else Plain(tableColumns)
  }

  function Plain(names: seq<string>): (r: seq<ColumnConfig>)
    ensures |r| == |names|
    ensures forall i :: 0 <= i < |r| ==> r[i] == ColumnConfig(names[i], TextCast, None, false, None, None)
  {
    seq(|names|, i requires 0 <= i < |names| => ColumnConfig(names[i], TextCast, None, false, None, None))
  }

  predicate BuildsPoint(config: Config) {
    config.Some? && config.value.forceProjection.Some? && config.value.forceProjection.value.BuildsPoint()
  }

  /** The join in force: a join that adds no column is no join. */
  function JoinOf(config: Config): Option<JoinConfig> {
    if config.Some? && config.value.join.Some? && config.value.join.value.columns != []
    then config.value.join
    else None
  }
}
