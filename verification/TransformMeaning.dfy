/**
 What a transformation configuration means, row by row and without SQL, and the proof that the
 compiled SELECT computes exactly that.
 */
module TransformMeaning {
  import opened Wrappers
  import opened Sequences
  import opened Text
  import opened Like
  import opened FilterSql
  import opened Models
  import opened Sql
  import opened SqlTransform

  // ---- The reference meaning ----

  /** The text of a value: NULL has none. */
  function TextIn(fn: Functions, v: Value): Option<string> {
    match v
    case Null => None
    case Text(text) => Some(text)
    case _ => Some(fn.textOf(v))
  }

  /** A value passes a filter when it is not NULL and its text meets the filter. */
  predicate ValuePasses(fn: Functions, filter: ColumnFilter, v: Value) {
    TextIn(fn, v).Some? && FilterHolds(fn.fold, filter, TextIn(fn, v).value)
  }

  /** A staging row is kept when its raw values pass the filter of every kept property column. */
  predicate Passes(fn: Functions, config: Config, table: Table, row: Row) {
    forall c | c in ColumnsOf(config, table.columns)
      && !c.excluded && c.originalName in table.columns && c.originalName != GEOM && c.filter.Some? ::
      ValuePasses(fn, c.filter.value, Get(row, c.originalName))
  }

  /** Join keys are compared as text, and NULL matches nothing. */
  predicate KeysMatch(fn: Functions, join: JoinConfig, row: Row, other: Row) {
    var key := TextIn(fn, Get(row, join.sourceColumn));
    key.Some? && key == TextIn(fn, Get(other, join.targetColumn))
  }

  function Partners(fn: Functions, join: JoinConfig, row: Row, others: seq<Row>): seq<Row> {
    if others == [] then []
    else
      (if KeysMatch(fn, join, row, others[0]) then [others[0]] else [])
      + Partners(fn, join, row, others[1..])
  }

  /** What a text says about truth, blanks around it and case aside: it may say nothing. */
  function TruthOf(fn: Functions, text: string): Option<bool> {
    var word := MapChars(fn.fold, Strip(c => c == ' ', text));
    if word in ["true", "1", "yes", "on", "t", "y"] then Some(true)
    else if word in ["false", "0", "no", "off", "f", "n"] then Some(false)
    else None
  }

  /** A value read from the text of another; NULL without a text, or when it cannot be read. */
  function ReadAs(parse: string -> Option<Value>, text: Option<string>): Value {
    if text.Some? && parse(text.value).Some? then parse(text.value).value else Null
  }

  function CastValue(fn: Functions, castType: Option<CastType>, v: Value): Value {
    var text := TextIn(fn, v);
    match castType
    case None => v
    case Some(BooleanCast) =>
      if text.Some? && TruthOf(fn, text.value).Some? then Boolean(TruthOf(fn, text.value).value) else Null
    case Some(NumericCast) => ReadAs(fn.numberOf, text)
    case Some(DateCast) => ReadAs(fn.timestampOf, text)
    case Some(TextCast) => if text.Some? then Text(text.value) else Null
  }

  /** A geometry is given the projection that is forced, if there is one; NULL stays NULL. */
  function GeomValue(fn: Functions, config: Config, v: Value): Value {
    var srid := SridOf(config);
    if srid.Some? && v != Null then fn.setSrid(v, srid.value) else v
  }

  /** The name a column is asked for under: the new one, unless it is empty; the geometry keeps its own. */
  function NameAskedFor(c: ColumnConfig): string {
    if c.originalName == "geom" then "geom"
    else
      match c.newName
      case Some(name) => if name == "" then c.originalName else name
      case None => c.originalName
  }

  function StagingCell(fn: Functions, config: Config, c: ColumnConfig, row: Row): Cell {
    var raw := Get(row, c.originalName);
    Cell(NameAskedFor(c), if c.originalName == GEOM then GeomValue(fn, config, raw) else CastValue(fn, c.castType, raw))
  }

  function StagingCells(fn: Functions, config: Config, kept: seq<ColumnConfig>, row: Row): OutRow {
    seq(|kept|, i requires 0 <= i < |kept| => StagingCell(fn, config, kept[i], row))
  }

  /** A joined column keeps its name; it is NULL on a row without partner. */
  function JoinedCell(fn: Functions, config: Config, name: string, partner: Option<Row>): Cell {
    var raw := if partner.None? then Null else Get(partner.value, name);
    Cell(name, if name == GEOM then GeomValue(fn, config, raw) else raw)
  }

  function JoinedCells(fn: Functions, config: Config, names: seq<string>, partner: Option<Row>): OutRow {
    seq(|names|, i requires 0 <= i < |names| => JoinedCell(fn, config, names[i], partner))
  }

  function PointCell(fn: Functions, config: Config, force: ForceProjection, row: Row): Cell
    requires force.BuildsPoint()
  {
    var x := ReadAs(fn.numberOf, TextIn(fn, Get(row, force.xColumn.value)));
    var y := ReadAs(fn.numberOf, TextIn(fn, Get(row, force.yColumn.value)));
    var point := if x != Null && y != Null then fn.makePoint(x, y) else Null;
    var srid := if SridOf(config).Some? then SridOf(config).value else 4326;
    Cell(GEOM, if point != Null then fn.setSrid(point, srid) else Null)
  }

  function OutputRow(fn: Functions, config: Config, table: Table, row: Row, partner: Option<Row>): OutRow {
    StagingCells(fn, config, Kept(config, table), row)
    + (if JoinOf(config).Some? then JoinedCells(fn, config, JoinOf(config).value.columns, partner) else [])
    + (if BuildsPoint(config) then [PointCell(fn, config, config.value.forceProjection.value, row)] else [])
  }

  /** One output row per partner, and one on its own for a row without partner. */
  function OutputRows(fn: Functions, config: Config, table: Table, row: Row, partners: seq<Row>): (r: seq<OutRow>)
    ensures |r| == if partners == [] then 1 else |partners|
  {
    if partners == [] then [OutputRow(fn, config, table, row, None)]
    else seq(|partners|, i requires 0 <= i < |partners| => OutputRow(fn, config, table, row, Some(partners[i])))
  }

  function PartnersOf(fn: Functions, config: Config, row: Row, others: seq<Row>): seq<Row> {
    if JoinOf(config).Some? then Partners(fn, JoinOf(config).value, row, others) else []
  }

  /** The rows a configuration asks for. */
  function Meaning(fn: Functions, config: Config, table: Table, rows: seq<Row>, others: seq<Row>): seq<OutRow> {
    if rows == [] then []
    else
      (if Passes(fn, config, table, rows[0])
       then OutputRows(fn, config, table, rows[0], PartnersOf(fn, config, rows[0], others)) else [])
      + Meaning(fn, config, table, rows[1..], others)
  }

  function PassingRows(fn: Functions, config: Config, table: Table, rows: seq<Row>): seq<Row> {
    if rows == [] then []
    else
      (if Passes(fn, config, table, rows[0]) then [rows[0]] else [])
      + PassingRows(fn, config, table, rows[1..])
  }

  // ---- Which columns, which join and which projection are asked for ----

  /** The columns that are neither excluded, nor missing, nor a geometry that a point replaces. */
  function Wanted(columns: seq<ColumnConfig>, table: Table, point: bool): seq<ColumnConfig> {
    if columns == [] then []
    else
      var last := columns[|columns| - 1];
      Wanted(columns[..|columns| - 1], table, point)
      + (if last.excluded || last.originalName !in table.columns || (point && last.originalName == "geom") then []
         else [last])
  }

  /** A projection with two coordinate columns that have names. */
  predicate AsksForPoint(config: Config) {
    config.Some? && config.value.forceProjection.Some?
    && (match config.value.forceProjection.value
        case ForceProjection(_, Some(y), Some(x)) => y != "" && x != ""
        case _ => false)
  }

  lemma {:induction false} KeepColumnsConcat(
    a: seq<ColumnConfig>, b: seq<ColumnConfig>, tableColumns: seq<string>, point: bool)
    ensures KeepColumns(a + b, tableColumns, point)
      == KeepColumns(a, tableColumns, point) + KeepColumns(b, tableColumns, point)
  {
    if a == [] {
      assert a + b == b;
    } else {
      FirstOff(a, b);
      KeepColumnsConcat(a[1..], b, tableColumns, point);
    }
  }

  lemma {:induction false} KeepColumnsWanted(columns: seq<ColumnConfig>, table: Table, point: bool)
    ensures KeepColumns(columns, table.columns, point) == Wanted(columns, table, point)
  {
    if columns != [] {
      var init, last := columns[..|columns| - 1], columns[|columns| - 1];
      assert columns == init + [last] && [last][1..] == [];
      KeepColumnsConcat(init, [last], table.columns, point);
      KeepColumnsWanted(init, table, point);
    }
  }

  /**
   The kept columns, in their order: those saved, or all of them as they are when none was saved. The join is
   the saved one, as long as it adds a column.
   */
  lemma KeptIsWanted(config: Config, table: Table)
    ensures config.Some? && config.value.columns.Some? && config.value.columns.value != [] ==>
      Kept(config, table) == Wanted(config.value.columns.value, table, AsksForPoint(config))
    ensures config.None? || config.value.columns in {None, Some([])} ==>
      Kept(config, table)
      == Wanted(seq(|table.columns|, i requires 0 <= i < |table.columns| =>
                  ColumnConfig(table.columns[i], TextCast, None, false, None, None)), table, AsksForPoint(config))
    ensures BuildsPoint(config) == AsksForPoint(config)
    ensures forall join :: JoinOf(config) == Some(join) <==>
      join.columns != [] && config.Some? && config.value.join == Some(join)
  {
    KeepColumnsWanted(ColumnsOf(config, table.columns), table, BuildsPoint(config));
    assert Plain(table.columns)
      == seq(|table.columns|, i requires 0 <= i < |table.columns| =>
           ColumnConfig(table.columns[i], TextCast, None, false, None, None));
  }

  predicate AllDigits(s: string) { forall i :: 0 <= i < |s| ==> '0' <= s[i] <= '9' }

  /** What is left once the prefix is taken off. */
  lemma DigitsAfterPrefix(prefix: string, digits: string)
    requires prefix == "" || Upper(prefix) == "EPSG:"
    requires digits != "" && AllDigits(digits)
    ensures
      var text := prefix + digits;
      && (if |text| >= 5 && Upper(text[..5]) == "EPSG:" then text[5..] else text) == digits
      && !IsWhiteSpace(text[0]) && !IsWhiteSpace(text[|text| - 1])
  {
    var text := prefix + digits;
    if prefix == "" {
      assert text == digits;
      assert |text| >= 5 ==> Upper(text[..5])[0] == text[0] != 'E';
    } else {
      assert text[..5] == prefix && text[5..] == digits;
      assert Upper(prefix)[0] == 'E' && text[0] == prefix[0];
    }
  }

  lemma SridOfStripped(projection: string, text: string, digits: string)
    requires Strip(IsWhiteSpace, projection) == text
    requires (if |text| >= 5 && Upper(text[..5]) == "EPSG:" then text[5..] else text) == digits && AllDigits(digits)
    ensures ParseSrid(projection) == if 4 <= |digits| <= 6 then Some(ParseDecimal(digits)) else None
  {
    assert forall i :: 0 <= i < |digits| ==> IsDigit(digits[i]);
    var stripped := Strip(IsWhiteSpace, projection);
    assert digits == if |stripped| >= 5 && Upper(stripped[..5]) == "EPSG:" then stripped[5..] else stripped;
  }

  /** A forced projection: a number of four to six digits, with or without `EPSG:` in any case, and blanks around. */
  lemma SridExactly(projection: string, before: string, prefix: string, digits: string, after: string)
    requires projection == before + (prefix + digits) + after
    requires forall i :: 0 <= i < |before| ==> IsWhiteSpace(before[i])
    requires forall i :: 0 <= i < |after| ==> IsWhiteSpace(after[i])
    requires prefix == "" || Upper(prefix) == "EPSG:"
    requires digits != "" && AllDigits(digits)
    ensures ParseSrid(projection) == if 4 <= |digits| <= 6 then Some(ParseDecimal(digits)) else None
  {
    DigitsAfterPrefix(prefix, digits);
    StripIs(IsWhiteSpace, before, prefix + digits, after);
    SridOfStripped(projection, prefix + digits, digits);
  }

  // ---- The functions of the query mean the same ----

  lemma TextOfMeans(fn: Functions, v: Value)
    ensures TextOf(fn, v) == if TextIn(fn, v).Some? then Text(TextIn(fn, v).value) else Null
  {
  }

  lemma BoolOfMeans(fn: Functions, v: Value)
    ensures BoolOf(fn, TextOf(fn, v)) == CastValue(fn, Some(BooleanCast), v)
  {
    TextOfMeans(fn, v);
    if TextIn(fn, v).Some? {
      var text := TextIn(fn, v).value;
      StripAgrees(IsSpace, c => c == ' ', text);
    }
  }

  lemma CoercedMeans(fn: Functions, parse: string -> Option<Value>, v: Value)
    ensures Coerced(parse, TextOf(fn, v)) == ReadAs(parse, TextIn(fn, v))
  {
  }

  /**
   A boolean column, on every raw value: true exactly when the text without the blanks around it is one of
   six words, in any case, false exactly when it is one of six others, and NULL otherwise.
   */
  lemma BooleanColumnExactly(fn: Functions, v: Value, before: string, word: string, after: string)
    requires TextIn(fn, v) == Some(before + word + after)
    requires forall i :: 0 <= i < |before| ==> before[i] == ' '
    requires forall i :: 0 <= i < |after| ==> after[i] == ' '
    requires word == "" || (word[0] != ' ' && word[|word| - 1] != ' ')
    ensures
      var cell, folded := CastValue(fn, Some(BooleanCast), v), MapChars(fn.fold, word);
      && (cell == Boolean(true) <==> folded in {"true", "1", "yes", "on", "t", "y"})
      && (cell == Boolean(false) <==> folded in {"false", "0", "no", "off", "f", "n"})
      && (cell.Boolean? || cell == Null)
  {
    hide MapChars, TextIn;
    StripIs(c => c == ' ', before, word, after);
    TruthWords(MapChars(fn.fold, word));
  }

  /** No word says both. */
  lemma TruthWords(word: string)
    ensures word in {"true", "1", "yes", "on", "t", "y"} ==> word !in {"false", "0", "no", "off", "f", "n"}
  {
    if word in {"true", "1", "yes", "on", "t", "y"} {
      assert word[0] in {'t', '1', 'y'} || (word[0] == 'o' && |word| == 2);
    }
    if word in {"false", "0", "no", "off", "f", "n"} {
      assert word[0] in {'f', '0', 'n'} || (word[0] == 'o' && |word| == 3);
    }
  }

  // ---- WHERE: the filters, on raw staging values ----

  lemma {:induction false} HoldAllConcat(fn: Functions, from: From, p: Pair, a: seq<Condition>, b: seq<Condition>)
    ensures HoldAll(fn, from, p, a + b) == True
       <==> HoldAll(fn, from, p, a) == True && HoldAll(fn, from, p, b) == True
  {
    if a == [] {
      assert a + b == b;
    } else {
      HoldAllConcat(fn, from, p, a[1..], b);
      FirstOff(a, b);
    }
  }

  lemma FilterClauseMeans(fn: Functions, from: From, p: Pair, c: ColumnConfig)
    requires ValidFold(fn.fold) && c.filter.Some?
    ensures Holds(fn, from, p, FilterClause(c)) == True
       <==> ValuePasses(fn, c.filter.value, Get(p.left, c.originalName))
  {
    var v := TextOf(fn, Get(p.left, c.originalName));
    TextOfMeans(fn, Get(p.left, c.originalName));
    assert Eval(fn, from, p, Column(Staging, c.originalName)) == Get(p.left, c.originalName);
    assert Eval(fn, from, p, FilterClause(c).e) == v;
    if v.Text? {
      EscapingIsExact(fn.fold, c.filter.value, v.text);
    }
  }

  lemma {:induction false} WhereMeansFilters(fn: Functions, from: From, p: Pair, kept: seq<ColumnConfig>)
    requires ValidFold(fn.fold)
    ensures HoldAll(fn, from, p, WhereClauses(kept)) == True
       <==> forall i | 0 <= i < |kept| && IsFiltering(kept[i]) ::
              ValuePasses(fn, kept[i].filter.value, Get(p.left, kept[i].originalName))
  {
    if kept != [] {
      hide *;
      var init, last := kept[..|kept| - 1], kept[|kept| - 1];
      WhereMeansFilters(fn, from, p, init);
      LastClause(kept);
      LastFilter(fn, from, p, WhereClauses(init), last);
      assert forall i | 0 <= i < |init| :: kept[i] == init[i];
    }
  }

  lemma LastClause(kept: seq<ColumnConfig>)
    requires kept != []
    ensures var last := kept[|kept| - 1];
      WhereClauses(kept)
      == WhereClauses(kept[..|kept| - 1]) + (if IsFiltering(last) then [FilterClause(last)] else [])
  {
  }

  /** One column more: its clause, if it has one, joins the others. */
  lemma LastFilter(fn: Functions, from: From, p: Pair, where: seq<Condition>, last: ColumnConfig)
    requires ValidFold(fn.fold)
    ensures HoldAll(fn, from, p, where + (if IsFiltering(last) then [FilterClause(last)] else [])) == True
       <==> && HoldAll(fn, from, p, where) == True
            && (IsFiltering(last) ==> ValuePasses(fn, last.filter.value, Get(p.left, last.originalName)))
  {
    if IsFiltering(last) {
      var clause := FilterClause(last);
      HoldAllConcat(fn, from, p, where, [clause]);
      assert HoldAll(fn, from, p, [clause]) == And(Holds(fn, from, p, clause), HoldAll(fn, from, p, [clause][1..]));
      FilterClauseMeans(fn, from, p, last);
      assert And(Holds(fn, from, p, clause), True) == True <==> Holds(fn, from, p, clause) == True;
    } else {
      assert where + [] == where;
    }
  }

  lemma WhereMeansPasses(fn: Functions, config: Config, table: Table, from: From, p: Pair)
    requires ValidFold(fn.fold)
    ensures HoldAll(fn, from, p, WhereClauses(Kept(config, table))) == True <==> Passes(fn, config, table, p.left)
  {
    var columns, kept := ColumnsOf(config, table.columns), Kept(config, table);
    WhereMeansFilters(fn, from, p, kept);
    KeptMembers(columns, table.columns, BuildsPoint(config));
    if Passes(fn, config, table, p.left) {
      forall i | 0 <= i < |kept| && IsFiltering(kept[i])
        ensures ValuePasses(fn, kept[i].filter.value, Get(p.left, kept[i].originalName))
      {
        assert kept[i] in kept;
      }
    } else {
      var c :| c in columns && !c.excluded && c.originalName in table.columns && c.originalName != GEOM
        && c.filter.Some? && !ValuePasses(fn, c.filter.value, Get(p.left, c.originalName));
      assert c in kept;
      var i :| 0 <= i < |kept| && kept[i] == c;
      assert IsFiltering(kept[i]);
    }
  }

  // ---- WHERE after the join is filtering before it ----

  lemma {:induction false} WhereConcat(fn: Functions, from: From, where: seq<Condition>, a: seq<Pair>, b: seq<Pair>)
    ensures Where(fn, from, where, a + b) == Where(fn, from, where, a) + Where(fn, from, where, b)
  {
    if a == [] {
      assert a + b == b;
    } else {
      WhereConcat(fn, from, where, a[1..], b);
      FirstOff(a, b);
      Associates(if HoldAll(fn, from, a[0], where) == True then [a[0]] else [],
                 Where(fn, from, where, a[1..]), Where(fn, from, where, b));
    }
  }

  /** Conditions on staging columns keep or drop all the pairs of a staging row together. */
  lemma {:induction false} WhereOnOneRow(
    fn: Functions, config: Config, table: Table, from: From, row: Row, pairs: seq<Pair>)
    requires ValidFold(fn.fold)
    requires forall i :: 0 <= i < |pairs| ==> pairs[i].left == row
    ensures Where(fn, from, WhereClauses(Kept(config, table)), pairs)
         == if Passes(fn, config, table, row) then pairs else []
  {
    if pairs != [] {
      WhereOnOneRow(fn, config, table, from, row, pairs[1..]);
      WhereMeansPasses(fn, config, table, from, pairs[0]);
      assert pairs == [pairs[0]] + pairs[1..];
    }
  }

  /**
   The WHERE of a compiled query comes after its LEFT JOIN, and selects the same rows as filtering
   the staging table before joining it: no filter ever turns a row with partners into a row without.
   */
  lemma {:induction false} FilteringCommutesWithJoin(
    fn: Functions, config: Config, table: Table, from: From, rows: seq<Row>, others: seq<Row>)
    requires ValidFold(fn.fold)
    ensures Where(fn, from, WhereClauses(Kept(config, table)), FromRows(fn, from, rows, others))
         == FromRows(fn, from, PassingRows(fn, config, table, rows), others)
  {
    if rows != [] {
      var where := WhereClauses(Kept(config, table));
      var own := FromRow(fn, from, rows[0], others);
      FilteringCommutesWithJoin(fn, config, table, from, rows[1..], others);
      WhereConcat(fn, from, where, own, FromRows(fn, from, rows[1..], others));
      WhereOnOneRow(fn, config, table, from, rows[0], own);
      var passing := PassingRows(fn, config, table, rows);
      if Passes(fn, config, table, rows[0]) {
        assert passing[0] == rows[0] && passing[1..] == PassingRows(fn, config, table, rows[1..]);
      } else {
        assert passing == PassingRows(fn, config, table, rows[1..]);
      }
    }
  }

  // ---- The SELECT list ----

  lemma CastExprMeans(fn: Functions, from: From, p: Pair, e: Expr, castType: Option<CastType>)
    ensures Eval(fn, from, p, CastExpr(e, castType)) == CastValue(fn, castType, Eval(fn, from, p, e))
  {
    var v := Eval(fn, from, p, e);
    TextOfMeans(fn, v);
    BoolOfMeans(fn, v);
    CoercedMeans(fn, fn.numberOf, v);
    CoercedMeans(fn, fn.timestampOf, v);
  }

  lemma ItemsMean(fn: Functions, config: Config, table: Table, joinTable: Option<Table>, p: Pair)
    requires BuildErrorOf(config, table, joinTable).None?
    requires SelectResolves(BuildQuery(table, config, joinTable).value.select)
    ensures Project(fn, FromOf(config, table, joinTable), ItemsOf(config, table, joinTable), p)
         == OutputRow(fn, config, table, p.left, p.right)
  {
    var from, items := FromOf(config, table, joinTable), ItemsOf(config, table, joinTable);
    var out, expected := Project(fn, from, items, p), OutputRow(fn, config, table, p.left, p.right);
    assert |out| == |expected|;
    forall i | 0 <= i < |items| ensures out[i] == expected[i] {
      assert Resolves(from, items[i].e);
      ItemMeans(fn, config, table, joinTable, p, i);
    }
  }

  /** The i-th item evaluates to the i-th cell. */
  predicate ItemIsCell(fn: Functions, config: Config, table: Table, joinTable: Option<Table>, p: Pair, i: nat)
    requires i < |ItemsOf(config, table, joinTable)|
  {
    i < |OutputRow(fn, config, table, p.left, p.right)|
    && ItemCell(fn, FromOf(config, table, joinTable), p, ItemsOf(config, table, joinTable)[i])
       == OutputRow(fn, config, table, p.left, p.right)[i]
  }

  lemma ItemMeans(fn: Functions, config: Config, table: Table, joinTable: Option<Table>, p: Pair, i: nat)
    requires BuildErrorOf(config, table, joinTable).None? && i < |ItemsOf(config, table, joinTable)|
    requires Resolves(FromOf(config, table, joinTable), ItemsOf(config, table, joinTable)[i].e)
    ensures ItemIsCell(fn, config, table, joinTable, p, i)
  {
    hide ItemIsCell, Resolves, ItemsOf, Kept, BuildErrorOf;
    var n := |Kept(config, table)|;
    ItemsCount(config, table, joinTable);
    if JoinOf(config).Some? {
      BuiltJoinHasTable(config, table, joinTable);
    }
    if i < n {
      KeptItemMeans(fn, config, table, joinTable, p, i);
    } else if JoinOf(config).Some? && i < n + |JoinOf(config).value.columns| {
      var k := i - n;
      assert i == n + k;
      JoinedItemMeans(fn, config, table, joinTable, p, k);
    } else {
      assert BuildsPoint(config) && i == |ItemsOf(config, table, joinTable)| - 1;
      LastItemMeans(fn, config, table, joinTable, p);
    }
  }

  lemma KeptItemMeans(fn: Functions, config: Config, table: Table, joinTable: Option<Table>, p: Pair, i: nat)
    requires i < |Kept(config, table)| <= |ItemsOf(config, table, joinTable)|
    requires Resolves(FromOf(config, table, joinTable), ItemsOf(config, table, joinTable)[i].e)
    ensures ItemIsCell(fn, config, table, joinTable, p, i)
  {
    KeptItem(config, table, joinTable, i);
    StagingItemMeans(fn, config, FromOf(config, table, joinTable), p, Kept(config, table)[i]);
    StagingCellAt(fn, config, table, p, i);
  }

  lemma JoinedItemMeans(fn: Functions, config: Config, table: Table, joinTable: Option<Table>, p: Pair, k: nat)
    requires JoinOf(config).Some? && joinTable.Some? && k < |JoinOf(config).value.columns|
    requires |Kept(config, table)| + k < |ItemsOf(config, table, joinTable)|
    requires Resolves(FromOf(config, table, joinTable), ItemsOf(config, table, joinTable)[|Kept(config, table)| + k].e)
    ensures ItemIsCell(fn, config, table, joinTable, p, |Kept(config, table)| + k)
  {
    JoinedItem(config, table, joinTable, k);
    JoinItemMeans(fn, config, FromOf(config, table, joinTable), p, JoinOf(config).value.columns[k]);
    JoinedCellAt(fn, config, table, p, k);
  }

  lemma LastItemMeans(fn: Functions, config: Config, table: Table, joinTable: Option<Table>, p: Pair)
    requires BuildErrorOf(config, table, joinTable).None? && BuildsPoint(config)
    requires ItemsOf(config, table, joinTable) != []
    ensures ItemIsCell(fn, config, table, joinTable, p, |ItemsOf(config, table, joinTable)| - 1)
  {
    LastItem(config, table, joinTable);
    PointItemMeans(fn, config, FromOf(config, table, joinTable), p);
    PointCellLast(fn, config, table, p);
    SameLength(fn, config, table, joinTable, p);
  }

  lemma SameLength(fn: Functions, config: Config, table: Table, joinTable: Option<Table>, p: Pair)
    requires BuildErrorOf(config, table, joinTable).None?
    ensures |OutputRow(fn, config, table, p.left, p.right)| == |ItemsOf(config, table, joinTable)|
  {
  }

  lemma StagingCellAt(fn: Functions, config: Config, table: Table, p: Pair, i: nat)
    requires i < |Kept(config, table)|
    ensures i < |OutputRow(fn, config, table, p.left, p.right)|
    ensures OutputRow(fn, config, table, p.left, p.right)[i] == StagingCell(fn, config, Kept(config, table)[i], p.left)
  {
  }

  lemma PointCellLast(fn: Functions, config: Config, table: Table, p: Pair)
    requires BuildsPoint(config)
    ensures var row := OutputRow(fn, config, table, p.left, p.right);
      row != [] && row[|row| - 1] == PointCell(fn, config, config.value.forceProjection.value, p.left)
  {
  }

  lemma JoinedCellAt(fn: Functions, config: Config, table: Table, p: Pair, k: nat)
    requires JoinOf(config).Some? && k < |JoinOf(config).value.columns|
    ensures |Kept(config, table)| + k < |OutputRow(fn, config, table, p.left, p.right)|
    ensures OutputRow(fn, config, table, p.left, p.right)[|Kept(config, table)| + k]
         == JoinedCell(fn, config, JoinOf(config).value.columns[k], p.right)
  {
    Middle(StagingCells(fn, config, Kept(config, table), p.left),
           JoinedCells(fn, config, JoinOf(config).value.columns, p.right),
           if BuildsPoint(config) then [PointCell(fn, config, config.value.forceProjection.value, p.left)] else [], k);
  }

  lemma PointItemMeans(fn: Functions, config: Config, from: From, p: Pair)
    requires BuildsPoint(config)
    ensures ItemCell(fn, from, p, PointItem(config.value.forceProjection.value, SridOf(config)))
         == PointCell(fn, config, config.value.forceProjection.value, p.left)
  {
    var force := config.value.forceProjection.value;
    CoordinateMeans(fn, from, p, force.xColumn.value);
    CoordinateMeans(fn, from, p, force.yColumn.value);
    var x := ToNumeric(CastText(Column(Staging, force.xColumn.value)));
    var y := ToNumeric(CastText(Column(Staging, force.yColumn.value)));
    assert Eval(fn, from, p, MakePoint(x, y)) == PointOf(fn, Eval(fn, from, p, x), Eval(fn, from, p, y));
  }

  lemma CoordinateMeans(fn: Functions, from: From, p: Pair, name: string)
    ensures Eval(fn, from, p, ToNumeric(CastText(Column(Staging, name))))
         == ReadAs(fn.numberOf, TextIn(fn, Get(p.left, name)))
  {
    CoercedMeans(fn, fn.numberOf, Get(p.left, name));
    assert Eval(fn, from, p, CastText(Column(Staging, name))) == TextOf(fn, Eval(fn, from, p, Column(Staging, name)));
  }

  function ItemCell(fn: Functions, from: From, p: Pair, item: Item): Cell {
    Cell(item.alias, Eval(fn, from, p, item.e))
  }

  lemma StagingItemMeans(fn: Functions, config: Config, from: From, p: Pair, c: ColumnConfig)
    requires Resolves(from, StagingItem(c, from.left.name, SridOf(config)).e)
    ensures ItemCell(fn, from, p, StagingItem(c, from.left.name, SridOf(config))) == StagingCell(fn, config, c, p.left)
  {
    if c.originalName == GEOM {
      GeomItemMeans(fn, config, from, p, Staging);
    } else {
      CastExprMeans(fn, from, p, Column(Staging, c.originalName), c.castType);
    }
  }

  lemma JoinItemMeans(fn: Functions, config: Config, from: From, p: Pair, name: string)
    requires from.LeftJoin? && Resolves(from, JoinItem(name, from.right.name, SridOf(config)).e)
    ensures ItemCell(fn, from, p, JoinItem(name, from.right.name, SridOf(config)))
      == JoinedCell(fn, config, name, p.right)
  {
    if name == GEOM {
      GeomItemMeans(fn, config, from, p, Joined);
    }
  }

  /** A geometry reference that resolves names the table it was built for. */
  lemma GeomItemMeans(fn: Functions, config: Config, from: From, p: Pair, of: Source)
    requires of == Joined ==> from.LeftJoin?
    requires Resolves(from, GeomItem(NameOf(from, of), SridOf(config)).e)
    ensures ItemCell(fn, from, p, GeomItem(NameOf(from, of), SridOf(config)))
         == Cell(GEOM, GeomValue(fn, config, ReadColumn(p, of, GEOM)))
  {
    var ref := Qualified(NameOf(from, of), GEOM);
    assert Resolves(from, ref);
    assert TableNamed(from, NameOf(from, of)) == Some(of);
    assert Eval(fn, from, p, ref) == ReadColumn(p, of, GEOM);
  }

  function NameOf(from: From, of: Source): string
    requires of == Joined ==> from.LeftJoin?
  {
    if of == Staging then from.left.name else from.right.name
  }

  // ---- The main theorem ----

  lemma {:induction false} MatchingIsPartners(
    fn: Functions, config: Config, table: Table, joinTable: Table, row: Row, others: seq<Row>)
    requires JoinOf(config).Some?
    ensures Matching(fn, FromOf(config, table, Some(joinTable)), row, others)
         == Partners(fn, JoinOf(config).value, row, others)
  {
    if others != [] {
      MatchingIsPartners(fn, config, table, joinTable, row, others[1..]);
      var from, p := FromOf(config, table, Some(joinTable)), Pair(row, Some(others[0]));
      var join := JoinOf(config).value;
      assert Eval(fn, from, p, Column(Staging, join.sourceColumn)) == Get(row, join.sourceColumn);
      assert Eval(fn, from, p, Column(Joined, join.targetColumn)) == Get(others[0], join.targetColumn);
      assert Joins(fn, from, row, others[0]) <==> KeysMatch(fn, join, row, others[0]);
    }
  }

  function ProjectPairs(
    fn: Functions, config: Config, table: Table, joinTable: Option<Table>, pairs: seq<Pair>): (r: seq<OutRow>)
    ensures |r| == |pairs|
    ensures forall i :: 0 <= i < |r| ==>
              r[i] == Project(fn, FromOf(config, table, joinTable), ItemsOf(config, table, joinTable), pairs[i])
  {
    ProjectAll(fn, FromOf(config, table, joinTable), ItemsOf(config, table, joinTable), pairs)
  }

  lemma {:induction false} ProjectedFromRows(
    fn: Functions, config: Config, table: Table, joinTable: Option<Table>, from: From, rows: seq<Row>, others: seq<Row>)
    requires forall i :: 0 <= i < |rows| ==>
      ProjectPairs(fn, config, table, joinTable, FromRow(fn, from, rows[i], others))
        == OutputRows(fn, config, table, rows[i], PartnersOf(fn, config, rows[i], others))
    ensures ProjectPairs(fn, config, table, joinTable, FromRows(fn, from, PassingRows(fn, config, table, rows), others))
         == Meaning(fn, config, table, rows, others)
  {
    if rows != [] {
      ProjectedFromRows(fn, config, table, joinTable, from, rows[1..], others);
      var passing, rest := PassingRows(fn, config, table, rows), PassingRows(fn, config, table, rows[1..]);
      if Passes(fn, config, table, rows[0]) {
        assert passing[0] == rows[0] && passing[1..] == rest;
        ProjectConcat(fn, config, table, joinTable, FromRow(fn, from, rows[0], others),
          FromRows(fn, from, rest, others));
      } else {
        assert passing == rest;
      }
    }
  }

  lemma ProjectConcat(fn: Functions, config: Config, table: Table, joinTable: Option<Table>, a: seq<Pair>, b: seq<Pair>)
    ensures ProjectPairs(fn, config, table, joinTable, a + b)
         == ProjectPairs(fn, config, table, joinTable, a) + ProjectPairs(fn, config, table, joinTable, b)
  {
  }

  lemma ProjectedFromRow(
    fn: Functions, config: Config, table: Table, joinTable: Option<Table>, row: Row, others: seq<Row>)
    requires BuildErrorOf(config, table, joinTable).None?
    requires SelectResolves(BuildQuery(table, config, joinTable).value.select)
    ensures ProjectPairs(fn, config, table, joinTable, FromRow(fn, FromOf(config, table, joinTable), row, others))
         == OutputRows(fn, config, table, row, PartnersOf(fn, config, row, others))
  {
    var from := FromOf(config, table, joinTable);
    var partners := PartnersOf(fn, config, row, others);
    if JoinOf(config).Some? {
      MatchingIsPartners(fn, config, table, joinTable.value, row, others);
    }
    var pairs := FromRow(fn, from, row, others);
    assert pairs == PairsOf(row, partners);
    forall i | 0 <= i < |pairs|
      ensures ProjectPairs(fn, config, table, joinTable, pairs)[i] == OutputRows(fn, config, table, row, partners)[i]
    {
      ItemsMean(fn, config, table, joinTable, pairs[i]);
    }
  }

  /**
   For every configuration, staging table and joined table: when the compiler builds a query and
   PostgreSQL can resolve its names, evaluating it gives exactly the rows the configuration means.
   */
  lemma CompiledSelectMeansConfig(
    fn: Functions, config: Config, table: Table, joinTable: Option<Table>, rows: seq<Row>, others: seq<Row>)
    requires ValidFold(fn.fold)
    requires BuildQuery(table, config, joinTable).Ok?
    requires SelectResolves(BuildQuery(table, config, joinTable).value.select)
    ensures EvalSelect(fn, BuildQuery(table, config, joinTable).value.select, rows, others)
         == Meaning(fn, config, table, rows, others)
  {
    var from := FromOf(config, table, joinTable);
    FilteringCommutesWithJoin(fn, config, table, from, rows, others);
    forall i | 0 <= i < |rows|
      ensures ProjectPairs(fn, config, table, joinTable, FromRow(fn, from, rows[i], others))
           == OutputRows(fn, config, table, rows[i], PartnersOf(fn, config, rows[i], others))
    {
      ProjectedFromRow(fn, config, table, joinTable, rows[i], others);
    }
    ProjectedFromRows(fn, config, table, joinTable, from, rows, others);
  }
}
