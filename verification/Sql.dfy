/**
 A small SQL: just enough SELECT to hold the queries built by sql_transform.py, with a meaning.

 Rows are sequences taken in some fixed order: SQL promises a multiset of rows only, so every
 statement about order here is relative to one order of the stored rows.
 */
module Sql {
  import opened Wrappers
  import opened Text
  import opened Like

  datatype Value =
    | Null
    | Text(text: string)
    | Boolean(flag: bool)
    | Number(digits: string)
    | Timestamp(iso: string)
    | Geometry(ewkb: string)

  type Row = map<string, Value>

  /** The functions of PostgreSQL and PostGIS whose definition is not part of the model. */
  datatype Functions = Functions(
    textOf: Value -> string,             // CAST(v AS text), v not NULL
    numberOf: string -> Option<Value>,   // v::double precision, None where it raises
    timestampOf: string -> Option<Value>, // v::timestamp, None where it raises
    setSrid: (Value, nat) -> Value,      // ST_SetSRID
    makePoint: (Value, Value) -> Value,  // ST_MakePoint
    asText: Value -> string,             // ST_AsText
    asGeoJson: Value -> string,          // ST_AsGeoJSON(ST_Transform(v, 4326))
    fold: char -> char)                  // lower(), character by character

  /** Which table of the FROM clause a column belongs to. */
  datatype Source = Staging | Joined

  datatype Expr =
    | Column(of: Source, name: string)
    | Qualified(table: string, name: string) // "table"."name", as literal SQL text
    | CastText(e: Expr)
    | ToBool(e: Expr)
    | ToNumeric(e: Expr)
    | ToDate(e: Expr)
    | SetSrid(e: Expr, srid: nat)
    | MakePoint(x: Expr, y: Expr)

  datatype Condition = ILike(e: Expr, pattern: string)

  datatype Table = Table(schema: string, name: string, columns: seq<string>)

  datatype From =
    | Only(left: Table)
    | LeftJoin(left: Table, right: Table, leftKey: Expr, rightKey: Expr)

  datatype Item = Item(e: Expr, alias: string)

  datatype Select = Select(items: seq<Item>, from: From, where: seq<Condition>)

  datatype Cell = Cell(alias: string, value: Value)

  type OutRow = seq<Cell>

  /** A row of the FROM clause: `right` is None where the join extends `left` with NULLs. */
  datatype Pair = Pair(left: Row, right: Option<Row>)

  datatype Truth = True | False | Unknown

  function Get(row: Row, name: string): Value {
    if name in row then row[name] else Null
  }

  /** "table"."name" is a reference to a table by its bare name: schemas play no part in it. */
  function TableNamed(from: From, name: string): Option<Source> {
    match from
    case Only(left) => if left.name == name then Some(Staging) else None
    case LeftJoin(left, right, _, _) =>
      if left.name == name && right.name == name then None // ambiguous
      else if left.name == name then Some(Staging)
      else if right.name == name then Some(Joined)
      else None
  }

  function ReadColumn(p: Pair, of: Source, name: string): Value {
    match of
    case Staging => Get(p.left, name)
    case Joined => if p.right.None? then Null else Get(p.right.value, name)
  }

  function TextOf(fn: Functions, v: Value): Value {
    match v
    case Null => Null
    case Text(_) => v
    case _ => Text(fn.textOf(v))
  }

  const BOOL_TRUE := {"true", "1", "yes", "on", "t", "y"}
  const BOOL_FALSE := {"false", "0", "no", "off", "f", "n"}

  predicate IsSpace(c: char) { c == ' ' }

  /** datafeeder_to_bool. */
  function BoolOf(fn: Functions, v: Value): Value {
    if v.Text? then
      var s := MapChars(fn.fold, Strip(IsSpace, v.text));
      if s in BOOL_TRUE then Boolean(true) else if s in BOOL_FALSE then Boolean(false) else Null
    else Null
  }

  /** datafeeder_to_numeric and datafeeder_to_date: NULL instead of an error. */
  function Coerced(parse: string -> Option<Value>, v: Value): Value {
    if v.Text? && parse(v.text).Some? then parse(v.text).value else Null
  }

  /** The strict functions of PostGIS give NULL as soon as an argument is NULL. */
  function Relabelled(fn: Functions, v: Value, srid: nat): Value {
    if v == Null then Null else fn.setSrid(v, srid)
  }

  function PointOf(fn: Functions, x: Value, y: Value): Value {
    if x == Null || y == Null then Null else fn.makePoint(x, y)
  }

  function Eval(fn: Functions, from: From, p: Pair, e: Expr): Value {
    match e
    case Column(of, name) => ReadColumn(p, of, name)
    case Qualified(table, name) =>
      var of := TableNamed(from, table);
      if of.None? then Null else ReadColumn(p, of.value, name)
    case CastText(e) => TextOf(fn, Eval(fn, from, p, e))
    case ToBool(e) => BoolOf(fn, Eval(fn, from, p, e))
    case ToNumeric(e) => Coerced(fn.numberOf, Eval(fn, from, p, e))
    case ToDate(e) => Coerced(fn.timestampOf, Eval(fn, from, p, e))
    case SetSrid(e, srid) => Relabelled(fn, Eval(fn, from, p, e), srid)
    case MakePoint(x, y) => PointOf(fn, Eval(fn, from, p, x), Eval(fn, from, p, y))
  }

  /** `=` on two text values. */
  function Equal(a: Value, b: Value): Truth {
    if a == Null || b == Null then Unknown else if a == b then True else False
  }

  function Holds(fn: Functions, from: From, p: Pair, c: Condition): Truth {
    var v := Eval(fn, from, p, c.e);
    if !v.Text? then Unknown
    else if IsILike(fn.fold, v.text, c.pattern) then True
    else False
  }

  /** AND of the WHERE conditions: a row is kept when the conjunction is true, not unknown. */
  function And(a: Truth, b: Truth): Truth {
    if a == False || b == False then False
    else if a == Unknown || b == Unknown then Unknown
    else True
  }

  function HoldAll(fn: Functions, from: From, p: Pair, where: seq<Condition>): Truth {
    if where == [] then True
    else And(Holds(fn, from, p, where[0]), HoldAll(fn, from, p, where[1..]))
  }

  predicate Joins(fn: Functions, from: From, left: Row, right: Row)
    requires from.LeftJoin?
  {
    var p := Pair(left, Some(right));
    Equal(Eval(fn, from, p, from.leftKey), Eval(fn, from, p, from.rightKey)) == True
  }

  /** The rows of the joined table that `left` matches. */
  function Matching(fn: Functions, from: From, left: Row, right: seq<Row>): seq<Row>
    requires from.LeftJoin?
  {
    if right == [] then []
    else (if Joins(fn, from, left, right[0]) then [right[0]] else []) + Matching(fn, from, left, right[1..])
  }

  /** What one row of the left table contributes to a LEFT OUTER JOIN. */
  function PairsOf(left: Row, matches: seq<Row>): (r: seq<Pair>)
    ensures |r| == if matches == [] then 1 else |matches|
    ensures forall i :: 0 <= i < |r| ==> r[i].left == left
  {
    if matches == [] then [Pair(left, None)]
    else seq(|matches|, i requires 0 <= i < |matches| => Pair(left, Some(matches[i])))
  }

  function FromRow(fn: Functions, from: From, left: Row, right: seq<Row>): (r: seq<Pair>)
    ensures |r| >= 1
    ensures forall i :: 0 <= i < |r| ==> r[i].left == left
  {
    match from
    case Only(_) => [Pair(left, None)]
    case LeftJoin(_, _, _, _) => PairsOf(left, Matching(fn, from, left, right))
  }

  /** The rows of the FROM clause. */
  function FromRows(fn: Functions, from: From, left: seq<Row>, right: seq<Row>): seq<Pair> {
    if left == [] then []
    else FromRow(fn, from, left[0], right) + FromRows(fn, from, left[1..], right)
  }

  function Where(fn: Functions, from: From, where: seq<Condition>, pairs: seq<Pair>): seq<Pair> {
    if pairs == [] then []
    else
      (if HoldAll(fn, from, pairs[0], where) == True then [pairs[0]] else [])
      + Where(fn, from, where, pairs[1..])
  }

  function Project(fn: Functions, from: From, items: seq<Item>, p: Pair): (r: OutRow)
    ensures |r| == |items|
    ensures forall i :: 0 <= i < |r| ==> r[i] == Cell(items[i].alias, Eval(fn, from, p, items[i].e))
  {
    seq(|items|, i requires 0 <= i < |items| => Cell(items[i].alias, Eval(fn, from, p, items[i].e)))
  }

  function ProjectAll(fn: Functions, from: From, items: seq<Item>, pairs: seq<Pair>): (r: seq<OutRow>)
    ensures |r| == |pairs|
    ensures forall i :: 0 <= i < |r| ==> r[i] == Project(fn, from, items, pairs[i])
  {
    seq(|pairs|, i requires 0 <= i < |pairs| => Project(fn, from, items, pairs[i]))
  }

  /** FROM, then WHERE, then the SELECT list. */
  function EvalSelect(fn: Functions, q: Select, left: seq<Row>, right: seq<Row>): seq<OutRow> {
    ProjectAll(fn, q.from, q.items, Where(fn, q.from, q.where, FromRows(fn, q.from, left, right)))
  }

  function Labels(items: seq<Item>): (r: seq<string>)
    ensures |r| == |items|
    ensures forall i :: 0 <= i < |r| ==> r[i] == items[i].alias
  {
    seq(|items|, i requires 0 <= i < |items| => items[i].alias)
  }

  /** PostgreSQL accepts the expression: every reference names exactly one existing column. */
  predicate Resolves(from: From, e: Expr) {
    match e
    case Column(of, name) => name in ColumnsFrom(from, of)
    case Qualified(table, name) =>
      var of := TableNamed(from, table);
      of.Some? && name in ColumnsFrom(from, of.value)
    case CastText(e) => Resolves(from, e)
    case ToBool(e) => Resolves(from, e)
    case ToNumeric(e) => Resolves(from, e)
    case ToDate(e) => Resolves(from, e)
    case SetSrid(e, _) => Resolves(from, e)
    case MakePoint(x, y) => Resolves(from, x) && Resolves(from, y)
  }

  function ColumnsFrom(from: From, of: Source): seq<string> {
    if of == Staging then from.left.columns
    else if from.LeftJoin? then from.right.columns
    else []
  }

  predicate SelectResolves(q: Select) {
    && (forall i :: 0 <= i < |q.items| ==> Resolves(q.from, q.items[i].e))
    && (forall i :: 0 <= i < |q.where| ==> Resolves(q.from, q.where[i].e))
    && (q.from.LeftJoin? ==> Resolves(q.from, q.from.leftKey) && Resolves(q.from, q.from.rightKey))
  }

  // ---- LEFT OUTER JOIN as the documentation defines it ----

  /** The inner join alone. */
  function InnerJoin(fn: Functions, from: From, left: seq<Row>, right: seq<Row>): seq<Pair>
    requires from.LeftJoin?
  {
    if left == [] then []
    else
      var matches := Matching(fn, from, left[0], right);
      (if matches == [] then [] else PairsOf(left[0], matches)) + InnerJoin(fn, from, left[1..], right)
  }

  /** One NULL-extended row for each left row that joins with no right row. */
  function Unmatched(fn: Functions, from: From, left: seq<Row>, right: seq<Row>): seq<Pair>
    requires from.LeftJoin?
  {
    if left == [] then []
    else
      (if exists j | 0 <= j < |right| :: Joins(fn, from, left[0], right[j]) then []
       else [Pair(left[0], None)]) + Unmatched(fn, from, left[1..], right)
  }

  lemma OwnRowLast(own: seq<Pair>, rest: seq<Pair>, inner: seq<Pair>, unmatched: seq<Pair>)
    requires multiset(rest) == multiset(inner + unmatched)
    ensures multiset(own + rest) == multiset(inner + (own + unmatched))
  {
  }

  lemma OwnRowFirst(own: seq<Pair>, rest: seq<Pair>, inner: seq<Pair>, unmatched: seq<Pair>)
    requires multiset(rest) == multiset(inner + unmatched)
    ensures multiset(own + rest) == multiset((own + inner) + unmatched)
  {
  }

  /**
   First the inner join, then a NULL-extended row for every left row without a match (section
   7.2.1.1 of the PostgreSQL documentation): the same rows, in another order.
   */
  lemma {:induction false} LeftJoinIsInnerPlusUnmatched(fn: Functions, from: From, left: seq<Row>, right: seq<Row>)
    requires from.LeftJoin?
    ensures multiset(FromRows(fn, from, left, right))
         == multiset(InnerJoin(fn, from, left, right) + Unmatched(fn, from, left, right))
  {
    hide Matching, PairsOf, Joins;
    if left != [] {
      LeftJoinIsInnerPlusUnmatched(fn, from, left[1..], right);
      NoMatch(fn, from, left[0], right);
      var inner, unmatched := InnerJoin(fn, from, left[1..], right), Unmatched(fn, from, left[1..], right);
      var own := FromRow(fn, from, left[0], right);
      if Matching(fn, from, left[0], right) == [] {
        NoPartner(left[0]);
        EmptyIsNeutral(inner);
        OwnRowLast(own, FromRows(fn, from, left[1..], right), inner, unmatched);
      } else {
        EmptyIsNeutral(unmatched);
        OwnRowFirst(own, FromRows(fn, from, left[1..], right), inner, unmatched);
      }
    }
  }

  lemma NoPartner(left: Row)
    ensures PairsOf(left, []) == [Pair(left, None)]
  {
  }

  lemma EmptyIsNeutral(pairs: seq<Pair>)
    ensures [] + pairs == pairs
  {
  }

  lemma {:induction false} NoMatch(fn: Functions, from: From, left: Row, right: seq<Row>)
    requires from.LeftJoin?
    ensures Matching(fn, from, left, right) == []
       <==> !exists j | 0 <= j < |right| :: Joins(fn, from, left, right[j])
  {
    if right != [] {
      NoMatch(fn, from, left, right[1..]);
      if j :| 0 <= j < |right| && Joins(fn, from, left, right[j]) {
        if j > 0 { assert right[1..][j - 1] == right[j]; }
      }
      forall j | 0 <= j < |right[1..]| && Joins(fn, from, left, right[1..][j])
        ensures Joins(fn, from, left, right[j + 1])
      {
      }
    }
  }
}
