/**
 The save-time check on column names (staging.py), what it guarantees about the columns of the
 output, and the geographic prediction made before a run (process.py, join_target.py).
 */
module OutputNames {
  import opened Wrappers
  import opened Sequences
  import opened Text
  import opened Models
  import opened Sql
  import opened SqlTransform
  import opened RowConservation

  datatype NameError = EmptyName(column: string) | DuplicateName(name: string)

  predicate IsBlank(name: string) { Strip(IsWhiteSpace, name) == "" }

  predicate Distinct<T(==)>(s: seq<T>) {
    forall i, j | 0 <= i < j < |s| :: s[i] != s[j]
  }

  /** Blank: nothing but white space. */
  lemma BlankExactly(name: string)
    ensures IsBlank(name) <==> forall i | 0 <= i < |name| :: IsWhiteSpace(name[i])
  {
    var left := StripLeft(IsWhiteSpace, name);
    StripLeftProperties(IsWhiteSpace, name);
    if forall i | 0 <= i < |name| :: IsWhiteSpace(name[i]) {
      StripIs(IsWhiteSpace, name, "", "");
      assert name + "" + "" == name;
    } else {
      var i :| 0 <= i < |name| && !IsWhiteSpace(name[i]);
      StripLeftKeepsInk(name, i);
      StripRightKeepsFirst(IsWhiteSpace, left);
    }
  }

  lemma {:induction false} StripLeftKeepsInk(name: string, i: nat)
    requires i < |name| && !IsWhiteSpace(name[i])
    ensures StripLeft(IsWhiteSpace, name) != "" && !IsWhiteSpace(StripLeft(IsWhiteSpace, name)[0])
  {
    if IsWhiteSpace(name[0]) {
      StripLeftKeepsInk(name[1..], i - 1);
    }
  }

  /** The effective names are neither blank nor repeated, excluded columns included. */
  predicate NamesAccepted(columns: seq<ColumnConfig>) {
    && (forall i | 0 <= i < |columns| :: !IsBlank(columns[i].EffectiveName()))
    && Distinct(EffectiveNames(columns))
  }

  /** The name check of `edit_staging_metadata`, with its set of names seen so far. */
  method CheckColumnNames(columns: seq<ColumnConfig>) returns (error: Option<NameError>)
    ensures error.None? <==> NamesAccepted(columns)
    ensures error.Some? ==> exists i | 0 <= i < |columns| ::
      && NamesAccepted(columns[..i])
      && error.value == if IsBlank(columns[i].EffectiveName()) then EmptyName(columns[i].originalName)
                        else DuplicateName(columns[i].EffectiveName())
  {
    var seen: set<string> := {};
    for i := 0 to |columns|
      invariant NamesAccepted(columns[..i])
      invariant forall name :: name in seen <==> name in EffectiveNames(columns[..i])
    {
      var name := columns[i].EffectiveName();
      ghost var done, next := EffectiveNames(columns[..i]), EffectiveNames(columns[..i + 1]);
      assert next == done + [name];
      if IsBlank(name) {
        assert columns[i].EffectiveName() == name;
        return Some(EmptyName(columns[i].originalName));
      }
      if name in seen {
        ghost var j :| 0 <= j < |done| && done[j] == name;
        assert EffectiveNames(columns)[j] == EffectiveNames(columns)[i];
        return Some(DuplicateName(name));
      }
      seen := seen + {name};
    }
    assert columns[..|columns|] == columns;
    return None;
  }

  /** The check as it applies to a saved configuration: no list, or an empty one, is not checked. */
  predicate Accepted(config: Config) {
    (config.Some? && config.value.columns.Some? && config.value.columns.value != [])
    ==> NamesAccepted(config.value.columns.value)
  }

  /** `geom` is neither renamed nor the new name of another column. */
  predicate GeomKeepsItsName(columns: seq<ColumnConfig>) {
    forall i | 0 <= i < |columns| :: columns[i].originalName == GEOM <==> columns[i].EffectiveName() == GEOM
  }

  lemma AcceptedNamesAreDistinct(config: Config, table: Table)
    requires Accepted(config) && Distinct(table.columns)
    ensures Distinct(EffectiveNames(ColumnsOf(config, table.columns)))
  {
  }

  // ---- Kept columns keep their order and stay distinct ----

  lemma {:induction false} KeptStayDistinct(columns: seq<ColumnConfig>, tableColumns: seq<string>, point: bool)
    requires Distinct(EffectiveNames(columns))
    ensures Distinct(EffectiveNames(KeepColumns(columns, tableColumns, point)))
  {
    hide Keeps;
    if columns != [] {
      var names, rest := EffectiveNames(columns), KeepColumns(columns[1..], tableColumns, point);
      assert EffectiveNames(columns[1..]) == names[1..];
      KeptStayDistinct(columns[1..], tableColumns, point);
      if Keeps(columns[0], tableColumns, point) {
        KeptMembers(columns[1..], tableColumns, point);
        var kept := [columns[0]] + rest;
        assert EffectiveNames(kept) == [names[0]] + EffectiveNames(rest);
        forall j | 0 <= j < |rest| ensures rest[j].EffectiveName() != names[0] {
          assert rest[j] in columns[1..];
          var k :| 0 <= k < |columns[1..]| && columns[1..][k] == rest[j];
          assert names[k + 1] == rest[j].EffectiveName();
        }
      }
    }
  }

  // ---- Output labels ----

  function OutputLabels(config: Config, table: Table, joinTable: Option<Table>): seq<string> {
    Labels(ItemsOf(config, table, joinTable))
  }

  predicate JoinsGeom(config: Config) {
    JoinOf(config).Some? && GEOM in JoinOf(config).value.columns
  }

  /** Two producers of an output column called `geom`. */
  predicate GeomClash(config: Config, table: Table) {
    var kept := Kept(config, table);
    || (exists i, j | 0 <= i < |kept| && 0 <= j < |kept| && i != j ::
          kept[i].originalName == GEOM && kept[j].OutputName() == GEOM)
    || (KeepsGeom(kept) && JoinsGeom(config))
    || (BuildsPoint(config) && exists j | 0 <= j < |kept| :: kept[j].OutputName() == GEOM)
  }

  predicate JoinRepeatsColumn(config: Config) {
    JoinOf(config).Some? && !Distinct(JoinOf(config).value.columns)
  }

  /** A join that passes the checks adds no name taken by a kept column or reserved. */
  lemma JoinAvoidsTakenNames(config: Config, table: Table, joinTable: Option<Table>)
    requires BuildErrorOf(config, table, joinTable).None? && JoinOf(config).Some?
    ensures forall k :: 0 <= k < |JoinOf(config).value.columns| ==>
              JoinOf(config).value.columns[k] !in TakenNames(Kept(config, table), BuildsPoint(config))
  {
    AlsoInEmpty(JoinOf(config).value.columns, TakenNames(Kept(config, table), BuildsPoint(config)));
  }

  lemma KeptLabel(config: Config, table: Table, joinTable: Option<Table>, i: nat)
    requires BuildErrorOf(config, table, joinTable).None? && i < |Kept(config, table)|
    ensures i < |OutputLabels(config, table, joinTable)|
    ensures OutputLabels(config, table, joinTable)[i] == Kept(config, table)[i].OutputName()
  {
    KeptItem(config, table, joinTable, i);
  }

  lemma JoinedLabel(config: Config, table: Table, joinTable: Option<Table>, k: nat)
    requires BuildErrorOf(config, table, joinTable).None? && JoinOf(config).Some? && k < |JoinOf(config).value.columns|
    ensures |Kept(config, table)| + k < |OutputLabels(config, table, joinTable)|
    ensures OutputLabels(config, table, joinTable)[|Kept(config, table)| + k] == JoinOf(config).value.columns[k]
  {
    BuiltJoinHasTable(config, table, joinTable);
    JoinedItem(config, table, joinTable, k);
  }

  lemma PointLabel(config: Config, table: Table, joinTable: Option<Table>)
    requires BuildErrorOf(config, table, joinTable).None? && BuildsPoint(config)
    ensures |OutputLabels(config, table, joinTable)| > |Kept(config, table)|
    ensures OutputLabels(config, table, joinTable)[|OutputLabels(config, table, joinTable)| - 1] == GEOM
  {
    ItemsCount(config, table, joinTable);
    LastItem(config, table, joinTable);
  }

  /** Where a label of the output comes from. */
  lemma LabelAt(config: Config, table: Table, joinTable: Option<Table>, i: nat)
    requires BuildErrorOf(config, table, joinTable).None?
    requires i < |ItemsOf(config, table, joinTable)|
    ensures var kept, n := Kept(config, table), |Kept(config, table)|;
      OutputLabels(config, table, joinTable)[i] ==
        if i < n then kept[i].OutputName()
        else if JoinOf(config).Some? && i < n + |JoinOf(config).value.columns| then JoinOf(config).value.columns[i - n]
        else GEOM
  {
    hide BuildErrorOf, OutputLabels, Kept, ItemsOf;
    var n := |Kept(config, table)|;
    if i < n {
      KeptLabel(config, table, joinTable, i);
    } else if JoinOf(config).Some? && i < n + |JoinOf(config).value.columns| {
      JoinedLabel(config, table, joinTable, i - n);
    } else {
      LabelsEndWithThePoint(config, table, joinTable, i);
    }
  }

  lemma LabelsEndWithThePoint(config: Config, table: Table, joinTable: Option<Table>, i: nat)
    requires BuildErrorOf(config, table, joinTable).None?
    requires i < |ItemsOf(config, table, joinTable)|
    requires i >= |Kept(config, table)| + (if JoinOf(config).Some? then |JoinOf(config).value.columns| else 0)
    ensures OutputLabels(config, table, joinTable)[i] == GEOM
  {
    ItemsCount(config, table, joinTable);
    PointLabel(config, table, joinTable);
  }

  predicate KeepsNamed(kept: seq<ColumnConfig>, name: string) {
    exists i | 0 <= i < |kept| :: kept[i].OutputName() == name
  }

  predicate JoinsNamed(config: Config, name: string) {
    JoinOf(config).Some? && name in JoinOf(config).value.columns
  }

  /** The names of the output columns: those of the kept columns, of the joined ones, and of a point. */
  lemma LabelExactly(config: Config, table: Table, joinTable: Option<Table>, name: string)
    requires BuildErrorOf(config, table, joinTable).None?
    ensures name in OutputLabels(config, table, joinTable)
       <==> KeepsNamed(Kept(config, table), name) || JoinsNamed(config, name) || (BuildsPoint(config) && name == GEOM)
  {
    var kept, labels := Kept(config, table), OutputLabels(config, table, joinTable);
    if i :| 0 <= i < |labels| && labels[i] == name {
      LabelAt(config, table, joinTable, i);
      ItemsCount(config, table, joinTable);
    }
    if i :| 0 <= i < |kept| && kept[i].OutputName() == name {
      KeptLabel(config, table, joinTable, i);
    }
    if JoinsNamed(config, name) {
      var k :| 0 <= k < |JoinOf(config).value.columns| && JoinOf(config).value.columns[k] == name;
      JoinedLabel(config, table, joinTable, k);
    }
    if BuildsPoint(config) {
      PointLabel(config, table, joinTable);
    }
  }

  /**
   The output columns of an accepted configuration have pairwise distinct names, unless a joined
   column is listed twice or two columns end up called `geom`.
   */
  lemma LabelsDistinctExactly(config: Config, table: Table, joinTable: Option<Table>)
    requires Accepted(config) && Distinct(table.columns)
    requires BuildQuery(table, config, joinTable).Ok?
    ensures Distinct(OutputLabels(config, table, joinTable))
       <==> !JoinRepeatsColumn(config) && !GeomClash(config, table)
  {
    if JoinRepeatsColumn(config) || GeomClash(config, table) {
      RepeatedLabel(config, table, joinTable);
    } else {
      var labels := OutputLabels(config, table, joinTable);
      forall i, j | 0 <= i < j < |labels| ensures labels[i] != labels[j] {
        TwoLabels(config, table, joinTable, i, j);
      }
    }
  }

  lemma RepeatedLabel(config: Config, table: Table, joinTable: Option<Table>)
    requires BuildErrorOf(config, table, joinTable).None?
    requires JoinRepeatsColumn(config) || GeomClash(config, table)
    ensures !Distinct(OutputLabels(config, table, joinTable))
  {
    var labels := OutputLabels(config, table, joinTable);
    var i: nat, j: nat;
    if JoinRepeatsColumn(config) {
      i, j := JoinedTwice(config, table, joinTable);
    } else {
      i, j := GeomTwice(config, table, joinTable);
    }
    assert labels[i] == labels[j];
  }

  /** The two places of a repeated element. */
  lemma RepeatedAt<T>(s: seq<T>) returns (i: nat, j: nat)
    requires !Distinct(s)
    ensures i < j < |s| && s[i] == s[j]
  {
    i, j :| 0 <= i < j < |s| && s[i] == s[j];
  }

  /** The two output columns of a joined column listed twice. */
  lemma JoinedTwice(config: Config, table: Table, joinTable: Option<Table>) returns (i: nat, j: nat)
    requires BuildErrorOf(config, table, joinTable).None? && JoinRepeatsColumn(config)
    ensures i < j < |OutputLabels(config, table, joinTable)|
    ensures OutputLabels(config, table, joinTable)[i] == OutputLabels(config, table, joinTable)[j]
  {
    hide BuildErrorOf, OutputLabels, Kept;
    var k, l := RepeatedAt(JoinOf(config).value.columns);
    JoinedLabel(config, table, joinTable, k);
    JoinedLabel(config, table, joinTable, l);
    i, j := |Kept(config, table)| + k, |Kept(config, table)| + l;
  }

  /** The two output columns called `geom`. */
  lemma GeomTwice(config: Config, table: Table, joinTable: Option<Table>) returns (i: nat, j: nat)
    requires BuildErrorOf(config, table, joinTable).None? && GeomClash(config, table)
    ensures i < j < |OutputLabels(config, table, joinTable)|
    ensures OutputLabels(config, table, joinTable)[i] == OutputLabels(config, table, joinTable)[j] == GEOM
  {
    var kept, n := Kept(config, table), |Kept(config, table)|;
    if a, b :| 0 <= a < n && 0 <= b < n && a != b && kept[a].originalName == GEOM && kept[b].OutputName() == GEOM {
      i, j := if a < b then a else b, if a < b then b else a;
      KeptLabel(config, table, joinTable, a);
      KeptLabel(config, table, joinTable, b);
    } else {
      i :| 0 <= i < n && kept[i].OutputName() == GEOM;
      KeptLabel(config, table, joinTable, i);
      j := LaterGeom(config, table, joinTable);
    }
  }

  /** A `geom` after those of the kept columns. */
  lemma LaterGeom(config: Config, table: Table, joinTable: Option<Table>) returns (j: nat)
    requires BuildErrorOf(config, table, joinTable).None? && (JoinsGeom(config) || BuildsPoint(config))
    ensures |Kept(config, table)| <= j < |OutputLabels(config, table, joinTable)|
    ensures OutputLabels(config, table, joinTable)[j] == GEOM
  {
    hide BuildErrorOf, OutputLabels, Kept;
    if JoinsGeom(config) {
      var k :| 0 <= k < |JoinOf(config).value.columns| && JoinOf(config).value.columns[k] == GEOM;
      j := |Kept(config, table)| + k;
      JoinedLabel(config, table, joinTable, k);
    } else {
      PointLabel(config, table, joinTable);
      j := |OutputLabels(config, table, joinTable)| - 1;
    }
  }

  lemma TwoLabels(config: Config, table: Table, joinTable: Option<Table>, i: nat, j: nat)
    requires Accepted(config) && Distinct(table.columns)
    requires BuildErrorOf(config, table, joinTable).None?
    requires !JoinRepeatsColumn(config) && !GeomClash(config, table)
    requires i < j < |ItemsOf(config, table, joinTable)|
    ensures OutputLabels(config, table, joinTable)[i] != OutputLabels(config, table, joinTable)[j]
  {
    var kept, n := Kept(config, table), |Kept(config, table)|;
    LabelAt(config, table, joinTable, i);
    LabelAt(config, table, joinTable, j);
    if j < n {
      AcceptedNamesAreDistinct(config, table);
      KeptStayDistinct(ColumnsOf(config, table.columns), table.columns, BuildsPoint(config));
      assert EffectiveNames(kept)[i] != EffectiveNames(kept)[j];
    } else if JoinOf(config).Some? {
      JoinedAgainst(config, table, joinTable, i, j);
    }
  }

  /** A joined column against a kept one, and a point against a joined column. */
  lemma JoinedAgainst(config: Config, table: Table, joinTable: Option<Table>, i: nat, j: nat)
    requires BuildErrorOf(config, table, joinTable).None? && JoinOf(config).Some?
    requires !GeomClash(config, table)
    ensures var kept, n, names := Kept(config, table), |Kept(config, table)|, JoinOf(config).value.columns;
      && (i < n <= j < n + |names| ==> kept[i].OutputName() != names[j - n])
      && (n <= i < n + |names| && BuildsPoint(config) ==> names[i - n] != GEOM)
  {
    var kept, n, names := Kept(config, table), |Kept(config, table)|, JoinOf(config).value.columns;
    JoinAvoidsTakenNames(config, table, joinTable);
    var taken := TakenNames(kept, BuildsPoint(config));
    if i < n <= j < n + |names| {
      assert taken[i] == kept[i].EffectiveName();
      assert kept[i].originalName == GEOM ==> KeepsGeom(kept);
    }
    if n <= i < n + |names| && BuildsPoint(config) {
      assert taken[n + 1] == GEOM;
    }
  }

  /** With `geom` neither renamed nor a rename target, a kept column is called `geom` only if it is the geometry. */
  lemma PlainKept(config: Config, table: Table)
    requires Accepted(config) && Distinct(table.columns)
    requires GeomKeepsItsName(ColumnsOf(config, table.columns))
    ensures forall i | 0 <= i < |Kept(config, table)| ::
              Kept(config, table)[i].originalName == GEOM <==> Kept(config, table)[i].EffectiveName() == GEOM
    ensures BuildsPoint(config) ==> !KeepsGeom(Kept(config, table))
    ensures Distinct(EffectiveNames(Kept(config, table)))
  {
    var columns, kept := ColumnsOf(config, table.columns), Kept(config, table);
    KeptMembers(columns, table.columns, BuildsPoint(config));
    AcceptedNamesAreDistinct(config, table);
    KeptStayDistinct(columns, table.columns, BuildsPoint(config));
    forall i | 0 <= i < |kept|
      ensures kept[i].originalName == GEOM <==> kept[i].EffectiveName() == GEOM
      ensures kept[i].originalName == GEOM ==> !BuildsPoint(config)
    {
      assert kept[i] in kept;
      var k :| 0 <= k < |columns| && columns[k] == kept[i];
    }
  }

  lemma PlainGeomOnce(config: Config, table: Table, joinTable: Option<Table>)
    requires Accepted(config) && Distinct(table.columns)
    requires GeomKeepsItsName(ColumnsOf(config, table.columns))
    requires BuildErrorOf(config, table, joinTable).None?
    ensures !GeomClash(config, table)
  {
    var kept := Kept(config, table);
    PlainKept(config, table);
    forall i, j | 0 <= i < |kept| && 0 <= j < |kept| && i != j
      ensures !(kept[i].originalName == GEOM && kept[j].OutputName() == GEOM)
    {
      assert EffectiveNames(kept)[i] != EffectiveNames(kept)[j];
    }
    if JoinOf(config).Some? {
      JoinAvoidsTakenNames(config, table, joinTable);
      assert forall i | 0 <= i < |kept| :: kept[i].EffectiveName() == TakenNames(kept, BuildsPoint(config))[i];
    }
  }

  /** With `geom` neither renamed nor a rename target, only a repeated joined column can clash. */
  lemma PlainGeomNeverClashes(config: Config, table: Table, joinTable: Option<Table>)
    requires Accepted(config) && Distinct(table.columns)
    requires GeomKeepsItsName(ColumnsOf(config, table.columns))
    requires BuildQuery(table, config, joinTable).Ok?
    ensures !GeomClash(config, table)
    ensures Distinct(OutputLabels(config, table, joinTable)) <==> !JoinRepeatsColumn(config)
    ensures GEOM in OutputLabels(config, table, joinTable)
      <==> BuildQuery(table, config, joinTable).value.geomColumn == Some(GEOM)
  {
    PlainGeomOnce(config, table, joinTable);
    LabelsDistinctExactly(config, table, joinTable);
    PlainKept(config, table);
    GeomLabelExactly(config, table, joinTable);
  }

  lemma GeomLabelFrom(config: Config, table: Table, joinTable: Option<Table>, i: nat)
    requires BuildErrorOf(config, table, joinTable).None?
    requires i < |OutputLabels(config, table, joinTable)| && OutputLabels(config, table, joinTable)[i] == GEOM
    ensures IsGeographic(config, table) || (i < |Kept(config, table)| && Kept(config, table)[i].EffectiveName() == GEOM)
  {
    var kept := Kept(config, table);
    LabelAt(config, table, joinTable, i);
    if i < |kept| && kept[i].originalName == GEOM {
      assert KeepsGeom(kept);
    }
  }

  lemma GeographicHasGeom(config: Config, table: Table, joinTable: Option<Table>)
    requires BuildErrorOf(config, table, joinTable).None? && IsGeographic(config, table)
    ensures GEOM in OutputLabels(config, table, joinTable)
  {
    var kept := Kept(config, table);
    if KeepsGeom(kept) {
      var i :| 0 <= i < |kept| && kept[i].originalName == GEOM;
      KeptLabel(config, table, joinTable, i);
    } else {
      var j := LaterGeom(config, table, joinTable);
    }
  }

  /** `geom` is an output column when the result is geographic, or a column was renamed to it. */
  lemma GeomLabelExactly(config: Config, table: Table, joinTable: Option<Table>)
    requires BuildQuery(table, config, joinTable).Ok?
    ensures GEOM in OutputLabels(config, table, joinTable)
       <==> || BuildQuery(table, config, joinTable).value.geomColumn == Some(GEOM)
            || exists i | 0 <= i < |Kept(config, table)| ::
                 Kept(config, table)[i].originalName != GEOM && Kept(config, table)[i].EffectiveName() == GEOM
  {
    var labels, kept := OutputLabels(config, table, joinTable), Kept(config, table);
    if IsGeographic(config, table) {
      GeographicHasGeom(config, table, joinTable);
    } else {
      if i :| 0 <= i < |kept| && kept[i].originalName != GEOM && kept[i].EffectiveName() == GEOM {
        KeptLabel(config, table, joinTable, i);
      }
      if i :| 0 <= i < |labels| && labels[i] == GEOM {
        GeomLabelFrom(config, table, joinTable, i);
        assert kept[i].originalName != GEOM;
      }
    }
  }

  /** The name of the primary key added to the final table is never taken by a joined column. */
  lemma NoJoinedIdColumn(config: Config, table: Table, joinTable: Option<Table>)
    requires BuildQuery(table, config, joinTable).Ok? && JoinOf(config).Some?
    ensures ID_COLUMN !in JoinOf(config).value.columns
  {
    JoinAvoidsTakenNames(config, table, joinTable);
    assert TakenNames(Kept(config, table), BuildsPoint(config))[|Kept(config, table)|] == ID_COLUMN;
  }

  /** A geometry renamed to `shape` with a column renamed to `geom`: accepted, built, two `geom`. */
  lemma RenamedGeomClashes()
    ensures var table := Table("staging", "t", ["geom", "area"]);
      var config := Some(IntegrityTransformation(
        Some([ColumnConfig("geom", TextCast, Some("shape"), false, None, None),
              ColumnConfig("area", TextCast, Some("geom"), false, None, None)]), None, None));
      && BuildQuery(table, config, None).Ok?
      && OutputLabels(config, table, None) == [GEOM, GEOM]
  {
    var table := Table("staging", "t", ["geom", "area"]);
    var shape := ColumnConfig("geom", TextCast, Some("shape"), false, None, None);
    var area := ColumnConfig("area", TextCast, Some("geom"), false, None, None);
    var columns := [shape, area];
    var config := Some(IntegrityTransformation(Some(columns), None, None));
    assert columns[1..] == [area] && [area][1..] == [];
    assert "geom" == table.columns[0] && "area" == table.columns[1];
    assert KeepColumns([area], table.columns, false) == [area];
    assert Kept(config, table) == columns;
    LabelAt(config, table, None, 0);
    LabelAt(config, table, None, 1);
  }

  // ---- The property columns ----

  /** The names other than `geom`. */
  function NotGeom(names: seq<string>): seq<string> {
    if names == [] then []
    else if names[0] == "geom" then NotGeom(names[1..])
    else [names[0]] + NotGeom(names[1..])
  }

  lemma {:induction false} NotGeomConcat(a: seq<string>, b: seq<string>)
    ensures NotGeom(a + b) == NotGeom(a) + NotGeom(b)
  {
    if a == [] {
      assert a + b == b;
    } else {
      FirstOff(a, b);
      NotGeomConcat(a[1..], b);
    }
  }

  lemma NotGeomOne(name: string)
    ensures NotGeom([name]) == if name == "geom" then [] else [name]
  {
    assert [name][1..] == [];
  }

  lemma {:induction false} WithoutGeom(names: seq<string>)
    ensures Without(names, GEOM) == NotGeom(names)
  {
    if names != [] {
      var init, last := names[..|names| - 1], names[|names| - 1];
      WithoutGeom(init);
      NotGeomConcat(init, [last]);
      NotGeomOne(last);
      assert names == init + [last];
    }
  }

  lemma {:induction false} PropertiesOfKept(kept: seq<ColumnConfig>, names: seq<string>)
    requires |names| == |kept| && forall i | 0 <= i < |kept| :: names[i] == kept[i].OutputName()
    requires forall i | 0 <= i < |kept| :: kept[i].originalName == GEOM <==> kept[i].OutputName() == "geom"
    ensures PropertyNames(kept) == NotGeom(names)
  {
    if kept != [] {
      var n := |kept| - 1;
      PropertiesOfKept(kept[..n], names[..n]);
      NotGeomConcat(names[..n], [names[n]]);
      NotGeomOne(names[n]);
      assert names == names[..n] + [names[n]];
    }
  }

  /** The labels, in their three parts. */
  lemma LabelParts(config: Config, table: Table, joinTable: Option<Table>)
    requires BuildErrorOf(config, table, joinTable).None?
    ensures
      var kept, labels := Kept(config, table), OutputLabels(config, table, joinTable);
      && |kept| <= |labels|
      && labels[..|kept|] == KeptNames(kept)
      && labels[|kept|..] == (if JoinOf(config).Some? then JoinOf(config).value.columns else [])
                             + (if BuildsPoint(config) then ["geom"] else [])
  {
    hide BuildErrorOf, OutputLabels, Kept, ItemsOf;
    var kept, labels, n := Kept(config, table), OutputLabels(config, table, joinTable), |Kept(config, table)|;
    LabelsCount(config, table, joinTable);
    forall i | 0 <= i < |labels| {
      LabelAt(config, table, joinTable, i);
    }
  }

  function KeptNames(kept: seq<ColumnConfig>): (r: seq<string>)
    ensures |r| == |kept| && forall i | 0 <= i < |r| :: r[i] == kept[i].OutputName()
  {
    seq(|kept|, i requires 0 <= i < |kept| => kept[i].OutputName())
  }

  lemma LabelsCount(config: Config, table: Table, joinTable: Option<Table>)
    requires BuildErrorOf(config, table, joinTable).None?
    ensures |OutputLabels(config, table, joinTable)| == |ItemsOf(config, table, joinTable)|
      == |Kept(config, table)| + (if JoinOf(config).Some? then |JoinOf(config).value.columns| else 0)
         + (if BuildsPoint(config) then 1 else 0)
  {
    ItemsCount(config, table, joinTable);
    if JoinOf(config).Some? {
      BuiltJoinHasTable(config, table, joinTable);
    }
  }

  lemma PlainKeptNames(config: Config, table: Table)
    requires GeomKeepsItsName(ColumnsOf(config, table.columns))
    ensures PropertyNames(Kept(config, table)) == NotGeom(KeptNames(Kept(config, table)))
  {
    var kept, columns := Kept(config, table), ColumnsOf(config, table.columns);
    KeptMembers(columns, table.columns, BuildsPoint(config));
    forall i | 0 <= i < |kept| ensures kept[i].originalName == GEOM <==> kept[i].OutputName() == "geom" {
      assert kept[i] in kept;
      var k :| 0 <= k < |columns| && columns[k] == kept[i];
    }
    PropertiesOfKept(kept, KeptNames(kept));
  }

  lemma PropertiesAre(config: Config, table: Table, joinTable: Option<Table>)
    requires BuildQuery(table, config, joinTable).Ok?
    ensures BuildQuery(table, config, joinTable).value.propertyColumns
      == PropertyNames(Kept(config, table))
         + (if JoinOf(config).Some? then Without(JoinOf(config).value.columns, GEOM) else [])
    ensures BuildErrorOf(config, table, joinTable).None?
  {
  }

  /** With `geom` neither renamed nor a rename target, the properties are the output columns but `geom`, in order. */
  lemma PropertiesAreTheOtherLabels(config: Config, table: Table, joinTable: Option<Table>)
    requires BuildQuery(table, config, joinTable).Ok? && GeomKeepsItsName(ColumnsOf(config, table.columns))
    ensures BuildQuery(table, config, joinTable).value.propertyColumns
      == NotGeom(OutputLabels(config, table, joinTable))
  {
    hide BuildQuery, BuildErrorOf, OutputLabels, Kept, PropertyNames, GeomKeepsItsName;
    var labels, n := OutputLabels(config, table, joinTable), |Kept(config, table)|;
    var join := if JoinOf(config).Some? then JoinOf(config).value.columns else [];
    var point := if BuildsPoint(config) then ["geom"] else [];
    PropertiesAre(config, table, joinTable);
    LabelParts(config, table, joinTable);
    PlainKeptNames(config, table);
    assert labels == labels[..n] + labels[n..];
    NotGeomConcat(labels[..n], labels[n..]);
    NotGeomConcat(join, point);
    WithoutGeom(join);
    NotGeomOne("geom");
  }

  // ---- The geographic prediction ----

  predicate IsGeomExcluded(config: Config) {
    && config.Some? && config.value.columns.Some?
    && exists i | 0 <= i < |config.value.columns.value| ::
         config.value.columns.value[i].originalName == GEOM && config.value.columns.value[i].excluded
  }

  /** Whether the data will be geographic, as `process_staging_data` tells before the run. */
  predicate PredictsGeographic(config: Config, table: Table) {
    || (GEOM in table.columns && !IsGeomExcluded(config))
    || BuildsPoint(config)
    || (config.Some? && config.value.join.Some? && GEOM in config.value.join.value.columns)
  }

  /** Exactly one of: `geom` listed and kept, `geom` listed and excluded. */
  predicate GeomListedOneWay(columns: seq<ColumnConfig>) {
    (exists i | 0 <= i < |columns| :: columns[i].originalName == GEOM && columns[i].excluded)
    <==> !(exists i | 0 <= i < |columns| :: columns[i].originalName == GEOM && !columns[i].excluded)
  }

  /** The staging geometry is kept when it is there, listed without being excluded, and not replaced by a point. */
  lemma KeepsGeomExactly(config: Config, table: Table)
    ensures var columns := ColumnsOf(config, table.columns);
      KeepsGeom(Kept(config, table))
      <==> && (exists i | 0 <= i < |columns| :: columns[i].originalName == GEOM && !columns[i].excluded)
           && GEOM in table.columns && !BuildsPoint(config)
  {
    var columns, kept := ColumnsOf(config, table.columns), Kept(config, table);
    KeptMembers(columns, table.columns, BuildsPoint(config));
    if i :| 0 <= i < |kept| && kept[i].originalName == GEOM {
      assert kept[i] in kept;
      var k :| 0 <= k < |columns| && columns[k] == kept[i];
    }
    if GEOM in table.columns && !BuildsPoint(config) {
      if i :| 0 <= i < |columns| && columns[i].originalName == GEOM && !columns[i].excluded {
        assert columns[i] in kept;
      }
    }
  }

  /**
   The prediction is right when the columns say one thing about `geom`. It is wrong exactly when
   nothing else brings a geometry, the staging table has one, and the saved columns either do not
   list it or list it both kept and excluded.
   */
  lemma PredictionIsRightExactly(config: Config, table: Table, joinTable: Option<Table>)
    requires BuildQuery(table, config, joinTable).Ok?
    ensures (PredictsGeographic(config, table) <==> BuildQuery(table, config, joinTable).value.geomColumn.Some?)
       <==> || BuildsPoint(config) || JoinsGeom(config) || GEOM !in table.columns
            || GeomListedOneWay(ColumnsOf(config, table.columns))
  {
    KeepsGeomExactly(config, table);
    var columns := ColumnsOf(config, table.columns);
    var excludes := exists i | 0 <= i < |columns| :: columns[i].originalName == GEOM && columns[i].excluded;
    assert GEOM in table.columns ==> (excludes <==> IsGeomExcluded(config));
  }

  /** Saved columns that leave the staging geometry out: predicted geographic, without a geometry. */
  lemma OmittedGeomIsPredicted(table: Table, c: ColumnConfig)
    requires GEOM in table.columns && c.originalName != GEOM
    ensures var config := Some(IntegrityTransformation(Some([c]), None, None));
      && PredictsGeographic(config, table)
      && BuildQuery(table, config, None).Ok? && BuildQuery(table, config, None).value.geomColumn.None?
  {
    var config := Some(IntegrityTransformation(Some([c]), None, None));
    assert ColumnsOf(config, table.columns) == [c];
    KeptMembers([c], table.columns, false);
    var kept := Kept(config, table);
    forall i | 0 <= i < |kept| ensures kept[i].originalName != GEOM {
      assert kept[i] in kept;
    }
    assert JoinOf(config).None? && !BuildsPoint(config) && !KeepsGeom(kept);
    assert PredictsGeographic(config, table) by {
      assert forall i | 0 <= i < |config.value.columns.value| :: config.value.columns.value[i] == c;
    }
  }

  /** Each staging column is listed once, whatever its order, name or exclusion. */
  predicate ListsEveryColumnOnce(columns: seq<ColumnConfig>, table: Table) {
    && (forall name | name in table.columns :: exists i | 0 <= i < |columns| :: columns[i].originalName == name)
    && (forall i, j | 0 <= i < j < |columns| :: columns[i].originalName != columns[j].originalName)
  }

  /** The screens save every staging column once: the prediction is then right. */
  lemma PredictionIsRight(config: Config, table: Table, joinTable: Option<Table>)
    requires BuildQuery(table, config, joinTable).Ok?
    requires ListsEveryColumnOnce(ColumnsOf(config, table.columns), table)
    ensures PredictsGeographic(config, table) <==> BuildQuery(table, config, joinTable).value.geomColumn.Some?
  {
    PredictionIsRightExactly(config, table, joinTable);
  }
}
