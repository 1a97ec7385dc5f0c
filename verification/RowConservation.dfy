/**
 What the compiled query does to the number of rows, and when PostgreSQL can resolve its names.
 */
module RowConservation {
  import opened Wrappers
  import opened Sequences
  import opened Models
  import opened Sql
  import opened SqlTransform
  import opened TransformMeaning

  function Max(a: nat, b: nat): nat { if a < b then b else a }

  /** The output rows that come from one staging row. */
  function RowsOf(fn: Functions, config: Config, table: Table, row: Row, others: seq<Row>): seq<OutRow> {
    if Passes(fn, config, table, row)
    then OutputRows(fn, config, table, row, PartnersOf(fn, config, row, others)) else []
  }

  /** The sum, over the rows that pass, of max(1, number of partners). */
  function JoinedCount(fn: Functions, config: Config, table: Table, rows: seq<Row>, others: seq<Row>): nat {
    if rows == [] then 0
    else
      (if Passes(fn, config, table, rows[0]) then Max(1, |PartnersOf(fn, config, rows[0], others)|) else 0)
      + JoinedCount(fn, config, table, rows[1..], others)
  }

  lemma FirstBlock(fn: Functions, config: Config, table: Table, rows: seq<Row>, others: seq<Row>)
    requires rows != []
    ensures Meaning(fn, config, table, rows, others)
         == RowsOf(fn, config, table, rows[0], others) + Meaning(fn, config, table, rows[1..], others)
  {
  }

  lemma BlockLength(fn: Functions, config: Config, table: Table, row: Row, others: seq<Row>)
    ensures |RowsOf(fn, config, table, row, others)|
         == if Passes(fn, config, table, row) then Max(1, |PartnersOf(fn, config, row, others)|) else 0
  {
  }

  /**
   Every staging row has its own block in the output: max(1, partners) rows when it passes the
   filters, none when it does not. Nothing else is in the output.
   */
  lemma {:induction false} EveryRowHasItsBlock(
    fn: Functions, config: Config, table: Table, rows: seq<Row>, others: seq<Row>, i: nat)
    requires i < |rows|
    ensures Meaning(fn, config, table, rows, others)
         == Meaning(fn, config, table, rows[..i], others)
            + RowsOf(fn, config, table, rows[i], others)
            + Meaning(fn, config, table, rows[i + 1..], others)
    ensures |RowsOf(fn, config, table, rows[i], others)|
         == if Passes(fn, config, table, rows[i]) then Max(1, |PartnersOf(fn, config, rows[i], others)|) else 0
  {
    hide *;
    BlockLength(fn, config, table, rows[i], others);
    FirstBlock(fn, config, table, rows, others);
    if i > 0 {
      EveryRowHasItsBlock(fn, config, table, rows[1..], others, i - 1);
      FirstBlock(fn, config, table, rows[..i], others);
      assert rows[..i][1..] == rows[1..][..i - 1] && rows[1..][i..] == rows[i + 1..];
      Regroups(RowsOf(fn, config, table, rows[0], others), Meaning(fn, config, table, rows[1..i], others),
               RowsOf(fn, config, table, rows[i], others), Meaning(fn, config, table, rows[i + 1..], others));
      assert rows[1..][..i - 1] == rows[1..i];
    } else {
      NoBlock(fn, config, table, others);
      assert rows[..0] == [];
    }
  }

  lemma NoBlock(fn: Functions, config: Config, table: Table, others: seq<Row>)
    ensures Meaning(fn, config, table, [], others) == []
  {
  }

  /** The row count of the output, as a sum over the staging rows. */
  lemma {:induction false} RowsAreConserved(
    fn: Functions, config: Config, table: Table, rows: seq<Row>, others: seq<Row>)
    ensures |Meaning(fn, config, table, rows, others)| == JoinedCount(fn, config, table, rows, others)
  {
    if rows != [] {
      RowsAreConserved(fn, config, table, rows[1..], others);
    }
  }

  /** The keys of the joined table are pairwise different texts, NULLs aside. */
  predicate DistinctKeys(fn: Functions, join: JoinConfig, others: seq<Row>) {
    forall i, j | 0 <= i < j < |others| ::
      var a, b := TextIn(fn, Get(others[i], join.targetColumn)), TextIn(fn, Get(others[j], join.targetColumn));
      a.Some? ==> a != b
  }

  lemma {:induction false} DistinctKeysGiveOnePartner(fn: Functions, join: JoinConfig, row: Row, others: seq<Row>)
    requires DistinctKeys(fn, join, others)
    ensures |Partners(fn, join, row, others)| <= 1
  {
    if others != [] {
      assert DistinctKeys(fn, join, others[1..]) by {
        forall i, j | 0 <= i < j < |others[1..]|
          ensures
            var a := TextIn(fn, Get(others[1..][i], join.targetColumn));
            var b := TextIn(fn, Get(others[1..][j], join.targetColumn));
            a.Some? ==> a != b
        {
          assert others[1..][i] == others[i + 1] && others[1..][j] == others[j + 1];
        }
      }
      DistinctKeysGiveOnePartner(fn, join, row, others[1..]);
      if KeysMatch(fn, join, row, others[0]) && Partners(fn, join, row, others[1..]) != [] {
        var k := FirstPartner(fn, join, row, others[1..]);
        assert false;
      }
    }
  }

  lemma {:induction false} FirstPartner(fn: Functions, join: JoinConfig, row: Row, others: seq<Row>) returns (k: nat)
    requires Partners(fn, join, row, others) != []
    ensures k < |others| && KeysMatch(fn, join, row, others[k])
  {
    if KeysMatch(fn, join, row, others[0]) {
      k := 0;
    } else {
      var rest := FirstPartner(fn, join, row, others[1..]);
      k := rest + 1;
    }
  }

  /** With distinct target keys, or without a join, the output has one row per passing staging row. */
  lemma {:induction false} DistinctKeysKeepTheCount(
    fn: Functions, config: Config, table: Table, rows: seq<Row>, others: seq<Row>)
    requires JoinOf(config).Some? ==> DistinctKeys(fn, JoinOf(config).value, others)
    ensures |Meaning(fn, config, table, rows, others)| == |PassingRows(fn, config, table, rows)|
  {
    if rows != [] {
      DistinctKeysKeepTheCount(fn, config, table, rows[1..], others);
      if JoinOf(config).Some? {
        DistinctKeysGiveOnePartner(fn, JoinOf(config).value, rows[0], others);
      }
    }
  }

  /** A NULL key, on either side, matches nothing. */
  lemma {:induction false} NullKeysMatchNothing(fn: Functions, join: JoinConfig, row: Row, others: seq<Row>)
    ensures Get(row, join.sourceColumn) == Null ==> Partners(fn, join, row, others) == []
    ensures forall other :: other in Partners(fn, join, row, others) ==>
              other in others && Get(other, join.targetColumn) != Null
  {
    if others != [] {
      NullKeysMatchNothing(fn, join, row, others[1..]);
    }
  }

  // ---- Name resolution ----

  lemma {:induction false} NotInEmpty(names: seq<string>, known: seq<string>)
    ensures NotIn(names, known) == [] <==> forall i :: 0 <= i < |names| ==> names[i] in known
  {
    if names != [] {
      NotInEmpty(names[1..], known);
      assert (forall i :: 0 <= i < |names| ==> names[i] in known)
        <==> names[0] in known && forall i :: 0 <= i < |names[1..]| ==> names[1..][i] in known by {
        assert forall i :: 0 <= i < |names[1..]| ==> names[1..][i] == names[i + 1];
        assert forall i :: 0 < i < |names| ==> names[i] == names[1..][i - 1];
      }
    }
  }

  lemma {:induction false} AlsoInEmpty(names: seq<string>, taken: seq<string>)
    ensures AlsoIn(names, taken) == [] <==> forall i :: 0 <= i < |names| ==> names[i] !in taken
  {
    if names != [] {
      AlsoInEmpty(names[1..], taken);
      assert (forall i :: 0 <= i < |names| ==> names[i] !in taken)
        <==> names[0] !in taken && forall i :: 0 <= i < |names[1..]| ==> names[1..][i] !in taken by {
        assert forall i :: 0 <= i < |names[1..]| ==> names[1..][i] == names[i + 1];
        assert forall i :: 0 < i < |names| ==> names[i] == names[1..][i - 1];
      }
    }
  }

  /** The geometry reference is ambiguous: two tables of one name, in different schemas. */
  predicate AmbiguousGeom(config: Config, table: Table, joinTable: Option<Table>) {
    && JoinOf(config).Some? && joinTable.Some? && joinTable.value.name == table.name
    && (KeepsGeom(Kept(config, table)) || GEOM in JoinOf(config).value.columns)
  }

  lemma WhereResolves(from: From, kept: seq<ColumnConfig>)
    requires forall i :: 0 <= i < |kept| ==> kept[i].originalName in from.left.columns
    ensures forall i :: 0 <= i < |WhereClauses(kept)| ==> Resolves(from, WhereClauses(kept)[i].e)
  {
    if kept != [] {
      WhereResolves(from, kept[..|kept| - 1]);
      var last := kept[|kept| - 1];
      if IsFiltering(last) {
        assert Resolves(from, Column(Staging, last.originalName));
        assert Resolves(from, FilterClause(last).e);
      }
    }
  }

  lemma ItemResolves(config: Config, table: Table, joinTable: Option<Table>, i: nat)
    requires BuildErrorOf(config, table, joinTable).None?
    requires i < |ItemsOf(config, table, joinTable)|
    ensures !AmbiguousGeom(config, table, joinTable)
        ==> Resolves(FromOf(config, table, joinTable), ItemsOf(config, table, joinTable)[i].e)
  {
    var from, kept, srid := FromOf(config, table, joinTable), Kept(config, table), SridOf(config);
    var join, n, item := JoinOf(config), |Kept(config, table)|, ItemsOf(config, table, joinTable)[i];
    KeptMembers(ColumnsOf(config, table.columns), table.columns, BuildsPoint(config));
    if i < n {
      assert kept[i] in kept;
      KeptItem(config, table, joinTable, i);
      if kept[i].originalName == GEOM {
        assert !AmbiguousGeom(config, table, joinTable) ==> Resolves(from, Qualified(table.name, GEOM));
      } else {
        CastResolves(from, Column(Staging, kept[i].originalName), kept[i].castType);
      }
    } else if join.Some? && i < n + |join.value.columns| {
      var name := join.value.columns[i - n];
      JoinedItem(config, table, joinTable, i - n);
      NotInEmpty(join.value.columns, joinTable.value.columns);
      if name == GEOM {
        assert !AmbiguousGeom(config, table, joinTable) ==> Resolves(from, Qualified(joinTable.value.name, GEOM));
      }
    } else {
      var force := config.value.forceProjection.value;
      LastItem(config, table, joinTable);
      CastResolves(from, Column(Staging, force.xColumn.value), Some(NumericCast));
      CastResolves(from, Column(Staging, force.yColumn.value), Some(NumericCast));
      assert Resolves(from, MakePoint(CastExpr(Column(Staging, force.xColumn.value), Some(NumericCast)),
                                      CastExpr(Column(Staging, force.yColumn.value), Some(NumericCast))));
    }
  }

  lemma CastResolves(from: From, e: Expr, castType: Option<CastType>)
    ensures Resolves(from, CastExpr(e, castType)) <==> Resolves(from, e)
  {
    assert Resolves(from, CastText(e)) <==> Resolves(from, e);
  }

  /** A geometry referred to by the name that both tables have. */
  lemma SharedNameIsAmbiguous(config: Config, table: Table, joinTable: Option<Table>)
    requires AmbiguousGeom(config, table, joinTable)
    ensures !Resolves(FromOf(config, table, joinTable), GeomItem(table.name, SridOf(config)).e)
  {
    assert !Resolves(FromOf(config, table, joinTable), Qualified(table.name, GEOM));
  }

  /** The item that cannot be resolved, when the two tables share their name. */
  lemma AmbiguousItem(config: Config, table: Table, joinTable: Option<Table>) returns (i: nat)
    requires AmbiguousGeom(config, table, joinTable)
    ensures i < |ItemsOf(config, table, joinTable)|
    ensures ItemsOf(config, table, joinTable)[i] == GeomItem(table.name, SridOf(config))
  {
    var kept, names := Kept(config, table), JoinOf(config).value.columns;
    if KeepsGeom(kept) {
      i :| 0 <= i < |kept| && kept[i].originalName == GEOM;
      KeptItem(config, table, joinTable, i);
    } else {
      var k :| 0 <= k < |names| && names[k] == GEOM;
      JoinedItem(config, table, joinTable, k);
      i := |kept| + k;
    }
  }

  /** The keys of the join exist once the join has been accepted. */
  lemma KeysResolve(config: Config, table: Table, joinTable: Option<Table>)
    requires BuildErrorOf(config, table, joinTable).None? && FromOf(config, table, joinTable).LeftJoin?
    ensures Resolves(FromOf(config, table, joinTable), FromOf(config, table, joinTable).leftKey)
    ensures Resolves(FromOf(config, table, joinTable), FromOf(config, table, joinTable).rightKey)
  {
    var from := FromOf(config, table, joinTable);
    CastResolves(from, Column(Staging, JoinOf(config).value.sourceColumn), Some(TextCast));
    CastResolves(from, Column(Joined, JoinOf(config).value.targetColumn), Some(TextCast));
  }

  /**
   A query the compiler builds can be resolved by PostgreSQL unless it refers to a geometry by the
   bare name of a table while both tables have that name: then, and only then, it fails.
   */
  lemma ResolutionIsExact(config: Config, table: Table, joinTable: Option<Table>)
    requires BuildQuery(table, config, joinTable).Ok?
    ensures SelectResolves(BuildQuery(table, config, joinTable).value.select)
       <==> !AmbiguousGeom(config, table, joinTable)
  {
    var from, kept, items := FromOf(config, table, joinTable), Kept(config, table), ItemsOf(config, table, joinTable);
    if AmbiguousGeom(config, table, joinTable) {
      var i := AmbiguousItem(config, table, joinTable);
      SharedNameIsAmbiguous(config, table, joinTable);
      assert !Resolves(from, items[i].e);
    } else {
      forall i | 0 <= i < |items| ensures Resolves(from, items[i].e) {
        ItemResolves(config, table, joinTable, i);
      }
      KeptMembers(ColumnsOf(config, table.columns), table.columns, BuildsPoint(config));
      assert forall i :: 0 <= i < |kept| ==> kept[i] in kept;
      WhereResolves(from, kept);
      if from.LeftJoin? {
        KeysResolve(config, table, joinTable);
      }
    }
  }

  lemma OneJoinedName(name: string, known: seq<string>, taken: seq<string>)
    requires name in known && name !in taken
    ensures NotIn([name], known) == [] && AlsoIn([name], taken) == []
  {
    assert [name][1..] == [];
  }

  /**
   A staging table and a joined table with one bare name, the geometry kept: the query builds, and
   PostgreSQL rejects it.
   */
  lemma SharedNameIsRejected(table: Table, joinTable: Table, linkId: string, key: string, name: string)
    requires joinTable.name == table.name && GEOM in table.columns && key in table.columns
    requires key in joinTable.columns && name in joinTable.columns && name !in table.columns && name != ID_COLUMN
    ensures
      var config := Some(IntegrityTransformation(None, None, Some(JoinConfig(linkId, key, key, [name]))));
      && BuildQuery(table, config, Some(joinTable)).Ok?
      && !SelectResolves(BuildQuery(table, config, Some(joinTable)).value.select)
  {
    var config := Some(IntegrityTransformation(None, None, Some(JoinConfig(linkId, key, key, [name]))));
    var columns, kept := ColumnsOf(config, table.columns), Kept(config, table);
    KeptMembers(columns, table.columns, false);
    var i :| 0 <= i < |table.columns| && table.columns[i] == GEOM;
    assert columns[i] in kept && columns[i].originalName == GEOM;
    var taken := TakenNames(kept, false);
    assert name !in taken by {
      forall k | 0 <= k < |kept| ensures taken[k] != name {
        assert kept[k] in kept;
        var j :| 0 <= j < |columns| && columns[j] == kept[k];
      }
    }
    OneJoinedName(name, joinTable.columns, taken);
    ResolutionIsExact(config, table, Some(joinTable));
  }
}
