/**
 The preview that also shows excluded columns (get_staging_preview in staging.py): the saved
 configuration is rewritten, then compiled like any other.
 */
module StagingPreview {
  import opened Wrappers
  import opened Sequences
  import opened Like
  import opened Models
  import opened Sql
  import opened SqlTransform
  import opened TransformMeaning
  import opened RowConservation
  import opened OutputNames

  function JoinedNames(config: IntegrityTransformation): seq<string> {
    if config.join.Some? then config.join.value.columns else []
  }

  /** An excluded column comes back without cast or filter, unless a joined column replaces it. */
  function RevealColumn(c: ColumnConfig, joined: seq<string>): ColumnConfig {
    if c.excluded && c.OutputName() !in joined
    then ColumnConfig(c.originalName, c.originalType, c.newName, false, None, None)
    else c
  }

  function RevealColumns(columns: seq<ColumnConfig>, joined: seq<string>): (r: seq<ColumnConfig>)
    ensures |r| == |columns|
    ensures forall i :: 0 <= i < |r| ==> r[i] == RevealColumn(columns[i], joined)
  {
    seq(|columns|, i requires 0 <= i < |columns| => RevealColumn(columns[i], joined))
  }

  /** The configuration previewed with `include_excluded`. */
  function Revealed(config: Config): Config {
    if config.Some? && config.value.columns.Some? && config.value.columns.value != []
    then Some(config.value.(columns := Some(RevealColumns(config.value.columns.value, JoinedNames(config.value)))))
    else config
  }

  function Shown(config: Config): seq<string> {
    if config.Some? then JoinedNames(config.value) else []
  }

  lemma RevealedColumns(config: Config, table: Table)
    ensures ColumnsOf(Revealed(config), table.columns)
         == RevealColumns(ColumnsOf(config, table.columns), Shown(config))
    ensures JoinOf(Revealed(config)) == JoinOf(config)
    ensures BuildsPoint(Revealed(config)) == BuildsPoint(config)
    ensures SridOf(Revealed(config)) == SridOf(config)
  {
  }

  /**
   The saved columns, one by one, as they are previewed: an excluded column is shown as it is stored, under
   the name it would have, unless a joined column has that name; any other column is as saved.
   */
  lemma RevealedExactly(saved: IntegrityTransformation, i: nat)
    requires saved.columns.Some? && i < |saved.columns.value|
    ensures
      var c, revealed := saved.columns.value[i], Revealed(Some(saved)).value.columns.value;
      var name := if c.originalName == "geom" then "geom"
                  else if c.newName.Some? && c.newName.value != "" then c.newName.value else c.originalName;
      && |revealed| == |saved.columns.value|
      && revealed[i]
         == if !c.excluded || (saved.join.Some? && name in saved.join.value.columns) then c
            else c.(excluded := false, castType := None, filter := None)
  {
  }

  // ---- The rewritten configuration builds ----

  /** Showing the staging geometry brings a name the join uses: the one `geom` was renamed to. */
  predicate RevealedGeomClashes(config: Config, table: Table) {
    && JoinOf(config).Some? && !BuildsPoint(config)
    && GEOM in table.columns && GEOM !in JoinOf(config).value.columns
    && exists i | 0 <= i < |ColumnsOf(config, table.columns)| ::
         var c := ColumnsOf(config, table.columns)[i];
         c.excluded && c.originalName == GEOM && c.EffectiveName() in JoinOf(config).value.columns
  }

  lemma RevealedKept(config: Config, table: Table, c: ColumnConfig)
    ensures c in Kept(Revealed(config), table)
       <==> exists i | 0 <= i < |ColumnsOf(config, table.columns)| ::
              && c == RevealColumn(ColumnsOf(config, table.columns)[i], Shown(config))
              && Keeps(c, table.columns, BuildsPoint(config))
  {
    RevealedColumns(config, table);
    var revealed := ColumnsOf(Revealed(config), table.columns);
    KeptMembers(revealed, table.columns, BuildsPoint(config));
    if c in revealed {
      var i :| 0 <= i < |revealed| && revealed[i] == c;
      assert c == RevealColumn(ColumnsOf(config, table.columns)[i], Shown(config));
    }
    if i :| 0 <= i < |ColumnsOf(config, table.columns)|
            && c == RevealColumn(ColumnsOf(config, table.columns)[i], Shown(config))
            && Keeps(c, table.columns, BuildsPoint(config)) {
      assert revealed[i] == c;
    }
  }

  /** Taken names grow by those of the revealed columns: none is a joined one, `geom` aside. */
  lemma TakenAfterReveal(config: Config, table: Table, name: string)
    requires JoinOf(config).Some? && name in JoinOf(config).value.columns
    requires name !in TakenNames(Kept(config, table), BuildsPoint(config))
    requires name in TakenNames(Kept(Revealed(config), table), BuildsPoint(config))
    ensures RevealedGeomClashes(config, table)
  {
    hide KeepColumns;
    var columns, kept, shown := ColumnsOf(config, table.columns), Kept(config, table), Kept(Revealed(config), table);
    var point, taken := BuildsPoint(config), TakenNames(kept, BuildsPoint(config));
    assert taken[|kept|] == ID_COLUMN;
    assert point ==> taken[|kept| + 1] == GEOM;
    var k :| 0 <= k < |TakenNames(shown, point)| && TakenNames(shown, point)[k] == name;
    assert k < |shown|;
    assert shown[k] in shown && shown[k].EffectiveName() == name;
    RevealedKept(config, table, shown[k]);
    var i :| 0 <= i < |columns| && shown[k] == RevealColumn(columns[i], Shown(config))
      && Keeps(shown[k], table.columns, point);
    KeptMembers(columns, table.columns, point);
    assert columns[i].excluded by {
      if !columns[i].excluded {
        KeptNamesAreTaken(kept, point, columns[i]);
      }
    }
    assert columns[i].EffectiveName() == name;
  }

  lemma KeptNamesAreTaken(kept: seq<ColumnConfig>, point: bool, c: ColumnConfig)
    requires c in kept
    ensures c.EffectiveName() in TakenNames(kept, point)
  {
    var j :| 0 <= j < |kept| && kept[j] == c;
    assert TakenNames(kept, point)[j] == c.EffectiveName();
  }

  /** The conditions under which the compiler raises nothing. */
  lemma BuildsExactly(config: Config, table: Table, joinTable: Option<Table>)
    ensures BuildQuery(table, config, joinTable).Ok?
       <==> && CoordinateError(config, table).None?
            && (JoinOf(config).Some? ==>
                  && joinTable.Some?
                  && JoinError(table, joinTable.value, JoinOf(config).value,
                               TakenNames(Kept(config, table), BuildsPoint(config))).None?)
  {
  }

  /** The names of the join stay free, or the renamed `geom` takes one of them. */
  lemma ClashingName(config: Config, table: Table) returns (k: nat)
    requires RevealedGeomClashes(config, table)
    ensures k < |JoinOf(config).value.columns|
    ensures JoinOf(config).value.columns[k] in TakenNames(Kept(Revealed(config), table), BuildsPoint(config))
  {
    var names, columns := JoinOf(config).value.columns, ColumnsOf(config, table.columns);
    var i :| 0 <= i < |columns| && columns[i].excluded && columns[i].originalName == GEOM
      && columns[i].EffectiveName() in names;
    var c := RevealColumn(columns[i], Shown(config));
    RevealedKept(config, table, c);
    KeptNamesAreTaken(Kept(Revealed(config), table), BuildsPoint(config), c);
    k :| 0 <= k < |names| && names[k] == c.EffectiveName();
  }

  lemma RevealedNamesClash(config: Config, table: Table)
    requires JoinOf(config).Some?
    requires AlsoIn(JoinOf(config).value.columns, TakenNames(Kept(config, table), BuildsPoint(config))) == []
    ensures AlsoIn(JoinOf(config).value.columns, TakenNames(Kept(Revealed(config), table), BuildsPoint(config))) == []
       <==> !RevealedGeomClashes(config, table)
  {
    var names, point := JoinOf(config).value.columns, BuildsPoint(config);
    var before, after := TakenNames(Kept(config, table), point), TakenNames(Kept(Revealed(config), table), point);
    AlsoInEmpty(names, before);
    AlsoInEmpty(names, after);
    if RevealedGeomClashes(config, table) {
      var k := ClashingName(config, table);
      assert names[k] in after;
    } else {
      forall k | 0 <= k < |names| ensures names[k] !in after {
        if names[k] in after {
          TakenAfterReveal(config, table, names[k]);
        }
      }
    }
  }

  /**
   When the saved configuration builds, so does the rewritten one, but for one case: an excluded
   `geom` that was renamed to the name of a joined column.
   */
  lemma {:induction false} RevealBuildsExactly(config: Config, table: Table, joinTable: Option<Table>)
    requires BuildQuery(table, config, joinTable).Ok?
    ensures BuildQuery(table, Revealed(config), joinTable).Ok? <==> !RevealedGeomClashes(config, table)
  {
    RevealedColumns(config, table);
    BuildsExactly(config, table, joinTable);
    BuildsExactly(Revealed(config), table, joinTable);
    if JoinOf(config).Some? {
      RevealedNamesClash(config, table);
    }
  }

  // ---- The rows are the saved ones, seen through the saved columns ----

  /** The cells whose label is among `labels`. */
  function Restrict(row: OutRow, labels: seq<string>): OutRow {
    if row == [] then []
    else (if row[0].alias in labels then [row[0]] else []) + Restrict(row[1..], labels)
  }

  lemma {:induction false} RestrictConcat(a: OutRow, b: OutRow, labels: seq<string>)
    ensures Restrict(a + b, labels) == Restrict(a, labels) + Restrict(b, labels)
  {
    if a == [] {
      assert a + b == b;
    } else {
      RestrictConcat(a[1..], b, labels);
      FirstOff(a, b);
      Associates(if a[0].alias in labels then [a[0]] else [], Restrict(a[1..], labels), Restrict(b, labels));
    }
  }

  lemma {:induction false} RestrictToOwn(row: OutRow, labels: seq<string>)
    requires forall i :: 0 <= i < |row| ==> row[i].alias in labels
    ensures Restrict(row, labels) == row
  {
    if row != [] {
      RestrictToOwn(row[1..], labels);
      assert row == [row[0]] + row[1..];
    }
  }

  lemma StagingCellsCons(fn: Functions, config: Config, c: ColumnConfig, rest: seq<ColumnConfig>, row: Row)
    ensures StagingCells(fn, config, [c] + rest, row)
         == [StagingCell(fn, config, c, row)] + StagingCells(fn, config, rest, row)
  {
  }

  lemma {:induction false} StagingCellsRestricted(
    fn: Functions, shown: Config, config: Config, columns: seq<ColumnConfig>, joined: seq<string>,
    tableColumns: seq<string>, point: bool, row: Row, labels: seq<string>)
    requires SridOf(shown) == SridOf(config)
    requires forall i | 0 <= i < |columns| && Keeps(columns[i], tableColumns, point) ::
      columns[i].OutputName() in labels
    requires forall i | 0 <= i < |columns| && columns[i].excluded
      && Keeps(RevealColumn(columns[i], joined), tableColumns, point) ::
      columns[i].OutputName() !in labels
    ensures Restrict(StagingCells(fn, shown, KeepColumns(RevealColumns(columns, joined), tableColumns, point), row),
                     labels)
         == StagingCells(fn, config, KeepColumns(columns, tableColumns, point), row)
  {
    if columns != [] {
      var c, rest := columns[0], columns[1..];
      StagingCellsRestricted(fn, shown, config, rest, joined, tableColumns, point, row, labels);
      HeadAndTail(columns);
      assert RevealColumns(columns, joined) == [RevealColumn(c, joined)] + RevealColumns(rest, joined);
      FirstCellRestricted(fn, shown, config, c, rest, joined, tableColumns, point, row, labels);
    }
  }

  lemma FirstCellRestricted(
    fn: Functions, shown: Config, config: Config, c: ColumnConfig, rest: seq<ColumnConfig>, joined: seq<string>,
    tableColumns: seq<string>, point: bool, row: Row, labels: seq<string>)
    requires SridOf(shown) == SridOf(config)
    requires Keeps(c, tableColumns, point) ==> c.OutputName() in labels
    requires c.excluded && Keeps(RevealColumn(c, joined), tableColumns, point) ==> c.OutputName() !in labels
    requires Restrict(StagingCells(fn, shown, KeepColumns(RevealColumns(rest, joined), tableColumns, point), row),
                      labels)
          == StagingCells(fn, config, KeepColumns(rest, tableColumns, point), row)
    ensures
      var kept := KeepColumns([RevealColumn(c, joined)] + RevealColumns(rest, joined), tableColumns, point);
      Restrict(StagingCells(fn, shown, kept, row), labels)
      == StagingCells(fn, config, KeepColumns([c] + rest, tableColumns, point), row)
  {
    hide KeepColumns, StagingCells, StagingCell, RevealColumn, Keeps, Restrict, RevealColumns, SridOf;
    var revealed := RevealColumn(c, joined);
    var shownRest := KeepColumns(RevealColumns(rest, joined), tableColumns, point);
    KeepCons(revealed, RevealColumns(rest, joined), tableColumns, point);
    KeepCons(c, rest, tableColumns, point);
    RevealedCell(fn, shown, config, c, joined, tableColumns, point, row);
    if Keeps(revealed, tableColumns, point) {
      StagingCellsCons(fn, shown, revealed, shownRest, row);
      RestrictCons(StagingCell(fn, shown, revealed, row), StagingCells(fn, shown, shownRest, row), labels);
      if !c.excluded {
        StagingCellsCons(fn, config, c, KeepColumns(rest, tableColumns, point), row);
      }
    }
  }

  /** A column that is not excluded is shown as it is; an excluded one is shown under its own name. */
  lemma RevealedCell(
    fn: Functions, shown: Config, config: Config, c: ColumnConfig, joined: seq<string>,
    tableColumns: seq<string>, point: bool, row: Row)
    requires SridOf(shown) == SridOf(config)
    ensures StagingCell(fn, shown, RevealColumn(c, joined), row).alias == c.OutputName()
    ensures !c.excluded ==>
      RevealColumn(c, joined) == c && StagingCell(fn, shown, c, row) == StagingCell(fn, config, c, row)
    ensures c.excluded ==> !Keeps(c, tableColumns, point)
  {
    hide CastValue;
  }

  lemma KeepCons(c: ColumnConfig, rest: seq<ColumnConfig>, tableColumns: seq<string>, point: bool)
    ensures KeepColumns([c] + rest, tableColumns, point)
         == if Keeps(c, tableColumns, point) then [c] + KeepColumns(rest, tableColumns, point)
            else KeepColumns(rest, tableColumns, point)
  {
    assert ([c] + rest)[1..] == rest;
  }

  lemma RestrictCons(cell: Cell, rest: OutRow, labels: seq<string>)
    ensures Restrict([cell] + rest, labels)
         == if cell.alias in labels then [cell] + Restrict(rest, labels) else Restrict(rest, labels)
  {
    assert ([cell] + rest)[1..] == rest;
  }

  lemma PassesUnchanged(fn: Functions, config: Config, table: Table, row: Row)
    ensures Passes(fn, Revealed(config), table, row) <==> Passes(fn, config, table, row)
  {
    RevealedColumns(config, table);
    var columns, revealed := ColumnsOf(config, table.columns), ColumnsOf(Revealed(config), table.columns);
    forall c: ColumnConfig | !c.excluded && c.filter.Some? ensures c in columns <==> c in revealed {
      if c in columns {
        var i :| 0 <= i < |columns| && columns[i] == c;
        assert revealed[i] == c;
      }
      if c in revealed {
        var i :| 0 <= i < |revealed| && revealed[i] == c;
        assert columns[i] == c;
      }
    }
  }

  /** No revealed column takes a label of the saved output. */
  lemma RevealedLabelsAreNew(config: Config, table: Table, joinTable: Option<Table>, c: ColumnConfig)
    requires Accepted(config) && Distinct(table.columns)
    requires GeomKeepsItsName(ColumnsOf(config, table.columns))
    requires BuildErrorOf(config, table, joinTable).None?
    requires c in ColumnsOf(config, table.columns)
    ensures Keeps(c, table.columns, BuildsPoint(config)) ==> c.OutputName() in OutputLabels(config, table, joinTable)
    ensures c.excluded && Keeps(RevealColumn(c, Shown(config)), table.columns, BuildsPoint(config))
        ==> c.OutputName() !in OutputLabels(config, table, joinTable)
  {
    if Keeps(c, table.columns, BuildsPoint(config)) {
      KeptIsLabelled(config, table, joinTable, c);
    }
    if c.excluded && Keeps(RevealColumn(c, Shown(config)), table.columns, BuildsPoint(config)) {
      var labels := OutputLabels(config, table, joinTable);
      forall k | 0 <= k < |labels| ensures labels[k] != c.OutputName() {
        RevealedIsNoLabel(config, table, joinTable, c, k);
      }
    }
  }

  lemma KeptIsLabelled(config: Config, table: Table, joinTable: Option<Table>, c: ColumnConfig)
    requires BuildErrorOf(config, table, joinTable).None?
    requires c in ColumnsOf(config, table.columns) && Keeps(c, table.columns, BuildsPoint(config))
    ensures c.OutputName() in OutputLabels(config, table, joinTable)
  {
    hide BuildErrorOf, KeepColumns, OutputLabels;
    var kept := Kept(config, table);
    KeptMembers(ColumnsOf(config, table.columns), table.columns, BuildsPoint(config));
    assert c in kept;
    var k :| 0 <= k < |kept| && kept[k] == c;
    KeptLabel(config, table, joinTable, k);
  }

  lemma RevealedIsNoLabel(config: Config, table: Table, joinTable: Option<Table>, c: ColumnConfig, k: nat)
    requires Accepted(config) && Distinct(table.columns)
    requires GeomKeepsItsName(ColumnsOf(config, table.columns))
    requires BuildErrorOf(config, table, joinTable).None?
    requires c in ColumnsOf(config, table.columns)
    requires c.excluded && Keeps(RevealColumn(c, Shown(config)), table.columns, BuildsPoint(config))
    requires k < |OutputLabels(config, table, joinTable)|
    ensures OutputLabels(config, table, joinTable)[k] != c.OutputName()
  {
    var columns, kept := ColumnsOf(config, table.columns), Kept(config, table);
    LabelAt(config, table, joinTable, k);
    if k < |kept| {
      KeptMembers(columns, table.columns, BuildsPoint(config));
      assert kept[k] in kept;
      KeptIsAnother(config, table, kept[k], c);
    }
  }

  /** A kept column and an excluded one of an accepted configuration have different names. */
  lemma KeptIsAnother(config: Config, table: Table, kept: ColumnConfig, c: ColumnConfig)
    requires Accepted(config) && Distinct(table.columns)
    requires GeomKeepsItsName(ColumnsOf(config, table.columns))
    requires kept in ColumnsOf(config, table.columns) && c in ColumnsOf(config, table.columns)
    requires !kept.excluded && c.excluded
    ensures kept.OutputName() != c.OutputName()
  {
    var columns := ColumnsOf(config, table.columns);
    AcceptedNamesAreDistinct(config, table);
    var i :| 0 <= i < |columns| && columns[i] == c;
    var j :| 0 <= j < |columns| && columns[j] == kept;
    assert EffectiveNames(columns)[i] != EffectiveNames(columns)[j];
  }

  /** The part of a row that does not come from the staging columns. */
  function Tail(fn: Functions, config: Config, row: Row, partner: Option<Row>): OutRow {
    (if JoinOf(config).Some? then JoinedCells(fn, config, JoinOf(config).value.columns, partner) else [])
    + (if BuildsPoint(config) then [PointCell(fn, config, config.value.forceProjection.value, row)] else [])
  }

  lemma OutputRowParts(fn: Functions, config: Config, table: Table, row: Row, partner: Option<Row>)
    ensures OutputRow(fn, config, table, row, partner)
         == StagingCells(fn, config, Kept(config, table), row) + Tail(fn, config, row, partner)
  {
  }

  lemma TailUnchanged(fn: Functions, config: Config, row: Row, partner: Option<Row>)
    ensures Tail(fn, Revealed(config), row, partner) == Tail(fn, config, row, partner)
  {
  }

  lemma TailIsLabelled(
    fn: Functions, config: Config, table: Table, joinTable: Option<Table>, row: Row, partner: Option<Row>)
    requires BuildErrorOf(config, table, joinTable).None?
    ensures forall i :: 0 <= i < |Tail(fn, config, row, partner)| ==>
              Tail(fn, config, row, partner)[i].alias in OutputLabels(config, table, joinTable)
  {
    var labels, tail := OutputLabels(config, table, joinTable), Tail(fn, config, row, partner);
    forall i | 0 <= i < |tail| ensures tail[i].alias in labels {
      TailLabel(fn, config, table, joinTable, row, partner, i);
    }
  }

  lemma TailLabel(
    fn: Functions, config: Config, table: Table, joinTable: Option<Table>, row: Row, partner: Option<Row>, i: nat)
    requires BuildErrorOf(config, table, joinTable).None? && i < |Tail(fn, config, row, partner)|
    ensures Tail(fn, config, row, partner)[i].alias in OutputLabels(config, table, joinTable)
  {
    var names := if JoinOf(config).Some? then JoinOf(config).value.columns else [];
    if i < |names| {
      JoinedLabel(config, table, joinTable, i);
      assert Tail(fn, config, row, partner)[i] == JoinedCell(fn, config, names[i], partner);
    } else {
      PointLabel(config, table, joinTable);
    }
  }

  lemma RowsRestricted(
    fn: Functions, config: Config, table: Table, joinTable: Option<Table>, row: Row, partner: Option<Row>)
    requires Accepted(config) && Distinct(table.columns)
    requires GeomKeepsItsName(ColumnsOf(config, table.columns))
    requires BuildErrorOf(config, table, joinTable).None?
    ensures Restrict(OutputRow(fn, Revealed(config), table, row, partner), OutputLabels(config, table, joinTable))
         == OutputRow(fn, config, table, row, partner)
  {
    RevealedColumns(config, table);
    var columns, labels := ColumnsOf(config, table.columns), OutputLabels(config, table, joinTable);
    forall i | 0 <= i < |columns|
      ensures Keeps(columns[i], table.columns, BuildsPoint(config)) ==> columns[i].OutputName() in labels
      ensures columns[i].excluded && Keeps(RevealColumn(columns[i], Shown(config)), table.columns, BuildsPoint(config))
          ==> columns[i].OutputName() !in labels
    {
      RevealedLabelsAreNew(config, table, joinTable, columns[i]);
    }
    StagingCellsRestricted(
      fn, Revealed(config), config, columns, Shown(config), table.columns, BuildsPoint(config), row, labels);
    OutputRowParts(fn, config, table, row, partner);
    OutputRowParts(fn, Revealed(config), table, row, partner);
    TailUnchanged(fn, config, row, partner);
    TailIsLabelled(fn, config, table, joinTable, row, partner);
    RestrictToOwn(Tail(fn, config, row, partner), labels);
    RestrictConcat(StagingCells(fn, Revealed(config), Kept(Revealed(config), table), row),
      Tail(fn, config, row, partner), labels);
  }

  /** Row for row, `shown` seen through `labels` is `saved`. */
  predicate RestrictsTo(shown: seq<OutRow>, saved: seq<OutRow>, labels: seq<string>) {
    |shown| == |saved| && forall i :: 0 <= i < |shown| ==> Restrict(shown[i], labels) == saved[i]
  }

  lemma RestrictsConcat(
    shown: seq<OutRow>, saved: seq<OutRow>, moreShown: seq<OutRow>, moreSaved: seq<OutRow>, labels: seq<string>)
    requires RestrictsTo(shown, saved, labels) && RestrictsTo(moreShown, moreSaved, labels)
    ensures RestrictsTo(shown + moreShown, saved + moreSaved, labels)
  {
  }

  lemma NothingRestricts(labels: seq<string>)
    ensures RestrictsTo([], [], labels)
  {
  }

  lemma PartnersUnchanged(fn: Functions, config: Config, row: Row, others: seq<Row>)
    ensures PartnersOf(fn, Revealed(config), row, others) == PartnersOf(fn, config, row, others)
  {
  }

  lemma {:induction false} MeaningRestricted(
    fn: Functions, config: Config, table: Table, joinTable: Option<Table>, rows: seq<Row>, others: seq<Row>)
    requires Accepted(config) && Distinct(table.columns)
    requires GeomKeepsItsName(ColumnsOf(config, table.columns))
    requires BuildErrorOf(config, table, joinTable).None?
    ensures RestrictsTo(Meaning(fn, Revealed(config), table, rows, others),
                        Meaning(fn, config, table, rows, others), OutputLabels(config, table, joinTable))
  {
    hide Accepted, BuildErrorOf, OutputLabels, RestrictsTo, Passes, OutputRows, PartnersOf, Revealed;
    var labels := OutputLabels(config, table, joinTable);
    NothingRestricts(labels);
    if rows != [] {
      MeaningRestricted(fn, config, table, joinTable, rows[1..], others);
      PassesUnchanged(fn, config, table, rows[0]);
      PartnersUnchanged(fn, config, rows[0], others);
      var partners, passes := PartnersOf(fn, config, rows[0], others), Passes(fn, config, table, rows[0]);
      RowBlockRestricted(fn, config, table, joinTable, rows[0], partners);
      RestrictsConcat(if passes then OutputRows(fn, Revealed(config), table, rows[0], partners) else [],
                      if passes then OutputRows(fn, config, table, rows[0], partners) else [],
                      Meaning(fn, Revealed(config), table, rows[1..], others),
                      Meaning(fn, config, table, rows[1..], others), labels);
    }
  }

  lemma RowBlockRestricted(
    fn: Functions, config: Config, table: Table, joinTable: Option<Table>, row: Row, partners: seq<Row>)
    requires Accepted(config) && Distinct(table.columns)
    requires GeomKeepsItsName(ColumnsOf(config, table.columns))
    requires BuildErrorOf(config, table, joinTable).None?
    ensures RestrictsTo(OutputRows(fn, Revealed(config), table, row, partners),
                        OutputRows(fn, config, table, row, partners), OutputLabels(config, table, joinTable))
  {
    var shown, saved :=
      OutputRows(fn, Revealed(config), table, row, partners), OutputRows(fn, config, table, row, partners);
    forall i | 0 <= i < |shown| ensures Restrict(shown[i], OutputLabels(config, table, joinTable)) == saved[i] {
      RowsRestricted(fn, config, table, joinTable, row, if partners == [] then None else Some(partners[i]));
    }
  }

  /** The rewriting makes a geometry visible by the bare name of a table, and both tables have that name. */
  predicate RevealedGeomIsAmbiguous(config: Config, table: Table, joinTable: Option<Table>) {
    && JoinOf(config).Some? && joinTable.Some? && joinTable.value.name == table.name
    && KeepsGeom(Kept(Revealed(config), table))
  }

  /**
   Showing excluded columns is a conservative extension: when the saved query builds and resolves, the
   rewritten one builds; it resolves unless it refers to a revealed geometry by a name that both tables
   share; and its rows, seen through the columns that are not excluded, are exactly the saved rows.
   */
  lemma {:induction false} IncludeExcludedIsConservative(
    fn: Functions, config: Config, table: Table, joinTable: Option<Table>, rows: seq<Row>, others: seq<Row>)
    requires ValidFold(fn.fold)
    requires Accepted(config) && Distinct(table.columns)
    requires GeomKeepsItsName(ColumnsOf(config, table.columns))
    requires BuildQuery(table, config, joinTable).Ok?
    requires SelectResolves(BuildQuery(table, config, joinTable).value.select)
    ensures BuildQuery(table, Revealed(config), joinTable).Ok?
    ensures SelectResolves(BuildQuery(table, Revealed(config), joinTable).value.select)
       <==> !RevealedGeomIsAmbiguous(config, table, joinTable)
    ensures !RevealedGeomIsAmbiguous(config, table, joinTable) ==>
      RestrictsTo(EvalSelect(fn, BuildQuery(table, Revealed(config), joinTable).value.select, rows, others),
                  EvalSelect(fn, BuildQuery(table, config, joinTable).value.select, rows, others),
                  OutputLabels(config, table, joinTable))
  {
    RevealBuildsExactly(config, table, joinTable);
    ResolutionIsExact(config, table, joinTable);
    ResolutionIsExact(Revealed(config), table, joinTable);
    CompiledSelectMeansConfig(fn, config, table, joinTable, rows, others);
    if !RevealedGeomIsAmbiguous(config, table, joinTable) {
      CompiledSelectMeansConfig(fn, Revealed(config), table, joinTable, rows, others);
      MeaningRestricted(fn, config, table, joinTable, rows, others);
    }
  }

  /** A geometry that is excluded and renamed to a joined column. */
  function HiddenGeom(linkId: string, key: string, name: string): Config {
    Some(IntegrityTransformation(
      Some([ColumnConfig(GEOM, TextCast, Some(name), true, None, None)]), None,
        Some(JoinConfig(linkId, key, key, [name]))))
  }

  /**
   Without the hypothesis on `geom`: whatever the tables, a geometry excluded under the name of a joined
   column gives a configuration that builds and whose rewritten form does not.
   */
  lemma RenamedGeomBreaksThePreview(table: Table, other: Table, linkId: string, key: string, name: string)
    requires GEOM in table.columns && key in table.columns && key in other.columns
    requires name in other.columns && name !in {"", GEOM, ID_COLUMN}
    ensures BuildQuery(table, HiddenGeom(linkId, key, name), Some(other)).Ok?
    ensures BuildQuery(table, Revealed(HiddenGeom(linkId, key, name)), Some(other)).Err?
  {
    var config := HiddenGeom(linkId, key, name);
    HiddenGeomBuilds(table, other, linkId, key, name);
    RevealBuildsExactly(config, table, Some(other));
    assert ColumnsOf(config, table.columns)[0].originalName == GEOM;
    assert JoinOf(config).value.columns[0] == name;
  }

  lemma NothingKept(c: ColumnConfig, tableColumns: seq<string>)
    requires c.excluded
    ensures KeepColumns([c], tableColumns, false) == []
  {
    assert [c][1..] == [];
  }

  lemma HiddenGeomBuilds(table: Table, other: Table, linkId: string, key: string, name: string)
    requires key in table.columns && key in other.columns && name in other.columns && name != ID_COLUMN
    ensures BuildErrorOf(HiddenGeom(linkId, key, name), table, Some(other)).None?
  {
    var config := HiddenGeom(linkId, key, name);
    assert [name][1..] == [] && NotIn([name], other.columns) == [];
    NothingKept(ColumnConfig(GEOM, TextCast, Some(name), true, None, None), table.columns);
    assert ColumnsOf(config, table.columns) == [ColumnConfig(GEOM, TextCast, Some(name), true, None, None)];
    assert !BuildsPoint(config) && Kept(config, table) == [];
    assert TakenNames([], false) == [ID_COLUMN];
    assert AlsoIn([name], [ID_COLUMN]) == [];
  }

  // ---- Whether the preview has a map ----

  /** `is_geographic` of the preview: an excluded geometry hides the map, a joined one restores it. */
  predicate PreviewIsGeographic(config: Config, table: Table, includeExcluded: bool) {
    && IsGeographic(if includeExcluded then Revealed(config) else config, table)
    && !(IsGeomExcluded(config) && !JoinsGeom(config))
  }

  /**
   The preview has a map exactly when the processed data has a geometry, except when the staging
   geometry is excluded in favour of a point built from X and Y (or listed both kept and excluded).
   */
  lemma PreviewMapExactly(config: Config, table: Table, includeExcluded: bool)
    ensures (PreviewIsGeographic(config, table, includeExcluded) <==> IsGeographic(config, table))
       <==> !(IsGeomExcluded(config) && !JoinsGeom(config) && (BuildsPoint(config) || KeepsGeom(Kept(config, table))))
  {
    RevealedColumns(config, table);
    var columns, kept, shown := ColumnsOf(config, table.columns), Kept(config, table), Kept(Revealed(config), table);
    KeptMembers(columns, table.columns, BuildsPoint(config));
    if !IsGeomExcluded(config) {
      assert KeepsGeom(shown) ==> KeepsGeom(kept) by {
        if KeepsGeom(shown) {
          var k :| 0 <= k < |shown| && shown[k].originalName == GEOM;
          assert shown[k] in shown;
          RevealedKept(config, table, shown[k]);
          var i :| 0 <= i < |columns| && shown[k] == RevealColumn(columns[i], Shown(config));
          assert columns[i] in kept;
        }
      }
      assert KeepsGeom(kept) ==> KeepsGeom(shown) by {
        if KeepsGeom(kept) {
          var k :| 0 <= k < |kept| && kept[k].originalName == GEOM;
          assert kept[k] in kept;
          var i :| 0 <= i < |columns| && columns[i] == kept[k];
          assert kept[k] == RevealColumn(columns[i], Shown(config));
          RevealedKept(config, table, kept[k]);
        }
      }
    }
  }
}
