/**
 The JSON line that starts a table transfer: how it is written, and that it reads back.

 A byte is modelled by the character of the same code; names and types are in UTF-8 already. Each
 writer takes what is written after it, and each reader gives back what it has not read.
 */
module DefinitionJson {
  import opened Wrappers
  import opened Sequences

  type Bytes = string

  datatype TransferColumn = TransferColumn(name: Bytes, typeName: Bytes, notNull: bool)

  datatype TableDefinition = TableDefinition(
    columns: seq<TransferColumn>, primaryKey: seq<Bytes>, gistColumns: seq<Bytes>)

  datatype Parsed<T> = Parsed(value: T, rest: Bytes)

  // ---- Strings (section 7 of RFC 8259) ----

  function HexDigit(n: nat): char
    requires n < 16
  {
    if n < 10 then '0' + n as char else 'a' + (n - 10) as char
  }

  function HexValue(c: char): Option<nat> {
    if '0' <= c <= '9' then Some((c - '0') as nat)
    else if 'a' <= c <= 'f' then Some((c - 'a') as nat + 10)
    else None
  }

  /** Quotes, backslashes and control characters are escaped, and nothing else. */
  function EscapeByte(c: char): Bytes {
    if c == '"' then ['\\', '"']
    else if c == '\\' then ['\\', '\\']
    else if c == '\n' then ['\\', 'n']
    else if c == '\r' then ['\\', 'r']
    else if c == '\t' then ['\\', 't']
    else if c == '\U{8}' then ['\\', 'b']
    else if c == '\U{c}' then ['\\', 'f']
    else if c < ' ' then ['\\', 'u', '0', '0', HexDigit(c as nat / 16), HexDigit(c as nat % 16)]
    else [c]
  }

  function Chars(s: Bytes, rest: Bytes): Bytes {
    if s == [] then ['"'] + rest else EscapeByte(s[0]) + Chars(s[1..], rest)
  }

  function Quote(s: Bytes, rest: Bytes): Bytes { ['"'] + Chars(s, rest) }

  /** What one escape sequence stands for, and its length. */
  function Unescape(s: Bytes): Option<(char, nat)>
    requires |s| >= 1
  {
    if |s| < 2 then None
    else match s[1]
      case '"' => Some(('"', 2))
      case '\\' => Some(('\\', 2))
      case 'n' => Some(('\n', 2))
      case 'r' => Some(('\r', 2))
      case 't' => Some(('\t', 2))
      case 'b' => Some(('\U{8}', 2))
      case 'f' => Some(('\U{c}', 2))
      case 'u' =>
        if |s| >= 6 && s[2] == '0' && s[3] == '0' && HexValue(s[4]).Some? && HexValue(s[5]).Some?
        then Some(((16 * HexValue(s[4]).value + HexValue(s[5]).value) as char, 6)) else None
      case _ => None
  }

  /** One character of a string, escaped or not, and what follows it. */
  function ReadByte(s: Bytes): Option<Parsed<char>>
    requires s != []
  {
    if s[0] != '\\' then Some(Parsed(s[0], s[1..]))
    else
      var e := Unescape(s);
      if e.None? || e.value.1 > |s| then None else Some(Parsed(e.value.0, s[e.value.1..]))
  }

  /** The characters up to the closing quote. */
  function ReadChars(s: Bytes): Option<Parsed<Bytes>>
    decreases |s|
  {
    if s == [] then None
    else if s[0] == '"' then Some(Parsed([], s[1..]))
    else
      var c := ReadByte(s);
      if c.None? || |c.value.rest| >= |s| then None
      else
        var more := ReadChars(c.value.rest);
        if more.None? then None else Some(Parsed([c.value.value] + more.value.value, more.value.rest))
  }

  lemma ByteReadsBack(c: char, rest: Bytes)
    ensures EscapeByte(c) != [] && EscapeByte(c)[0] != '"'
    ensures ReadByte(EscapeByte(c) + rest) == Some(Parsed(c, rest))
  {
    var head := EscapeByte(c);
    var text := head + rest;
    assert forall i :: 0 <= i < |head| ==> text[i] == head[i];
    assert text[|head|..] == rest;
    if c < ' ' {
      assert c as nat == 16 * (c as nat / 16) + c as nat % 16;
    }
  }

  lemma {:induction false} CharsReadBack(s: Bytes, rest: Bytes)
    ensures ReadChars(Chars(s, rest)) == Some(Parsed(s, rest))
  {
    if s == [] {
      assert (['"'] + rest)[1..] == rest;
    } else {
      var tail := Chars(s[1..], rest);
      ByteReadsBack(s[0], tail);
      CharsReadBack(s[1..], rest);
      assert (EscapeByte(s[0]) + tail)[0] == EscapeByte(s[0])[0];
      assert [s[0]] + s[1..] == s;
    }
  }

  function ReadString(s: Bytes): Option<Parsed<Bytes>> {
    if s != [] && s[0] == '"' then ReadChars(s[1..]) else None
  }

  /** A quoted string reads back, whatever it holds and whatever follows it. */
  lemma QuotedReadsBack(s: Bytes, rest: Bytes)
    ensures ReadString(Quote(s, rest)) == Some(Parsed(s, rest))
  {
    CharsReadBack(s, rest);
    assert Quote(s, rest)[1..] == Chars(s, rest);
  }

  /** No control character. */
  predicate Printable(s: Bytes) { forall i | 0 <= i < |s| :: s[i] >= ' ' }

  lemma {:induction false} QuotedIsPrintable(s: Bytes, rest: Bytes)
    requires Printable(rest)
    ensures Printable(Chars(s, rest)) && Printable(Quote(s, rest))
  {
    if s != [] {
      QuotedIsPrintable(s[1..], rest);
      assert Printable(EscapeByte(s[0]));
    }
  }

  // ---- Lists of names ----

  function NamesTail(names: seq<Bytes>, rest: Bytes): Bytes {
    if names == [] then [']'] + rest else [','] + Quote(names[0], NamesTail(names[1..], rest))
  }

  function Names(names: seq<Bytes>, rest: Bytes): Bytes {
    ['['] + if names == [] then [']'] + rest else Quote(names[0], NamesTail(names[1..], rest))
  }

  function ReadNamesTail(s: Bytes): Option<Parsed<seq<Bytes>>>
    decreases |s|
  {
    if s == [] then None
    else if s[0] == ']' then Some(Parsed([], s[1..]))
    else if s[0] == ',' then
      var first := ReadString(s[1..]);
      if first.None? || |first.value.rest| >= |s| then None
      else
        var more := ReadNamesTail(first.value.rest);
        if more.None? then None else Some(Parsed([first.value.value] + more.value.value, more.value.rest))
    else None
  }

  function ReadNames(s: Bytes): Option<Parsed<seq<Bytes>>> {
    if |s| < 2 || s[0] != '[' then None
    else if s[1] == ']' then Some(Parsed([], s[2..]))
    else
      var first := ReadString(s[1..]);
      if first.None? then None
      else
        var more := ReadNamesTail(first.value.rest);
        if more.None? then None else Some(Parsed([first.value.value] + more.value.value, more.value.rest))
  }

  lemma {:induction false} QuoteIsLonger(s: Bytes, rest: Bytes)
    ensures |Chars(s, rest)| > |rest| && |Quote(s, rest)| > |rest|
  {
    if s != [] {
      QuoteIsLonger(s[1..], rest);
    }
  }

  lemma {:induction false} NamesTailReadsBack(names: seq<Bytes>, rest: Bytes)
    ensures ReadNamesTail(NamesTail(names, rest)) == Some(Parsed(names, rest))
  {
    if names == [] {
      assert ([']'] + rest)[1..] == rest;
    } else {
      var tail := NamesTail(names[1..], rest);
      var text := [','] + Quote(names[0], tail);
      assert text[1..] == Quote(names[0], tail);
      QuotedReadsBack(names[0], tail);
      QuoteIsLonger(names[0], tail);
      NamesTailReadsBack(names[1..], rest);
      assert [names[0]] + names[1..] == names;
    }
  }

  lemma NamesReadBack(names: seq<Bytes>, rest: Bytes)
    ensures ReadNames(Names(names, rest)) == Some(Parsed(names, rest))
  {
    if names == [] {
      assert (['['] + ([']'] + rest))[2..] == rest;
    } else {
      var tail := NamesTail(names[1..], rest);
      var text := ['['] + Quote(names[0], tail);
      assert text[1..] == Quote(names[0], tail) && text[1] == '"';
      QuotedReadsBack(names[0], tail);
      NamesTailReadsBack(names[1..], rest);
      assert [names[0]] + names[1..] == names;
    }
  }

  lemma {:induction false} NamesArePrintable(names: seq<Bytes>, rest: Bytes)
    requires Printable(rest)
    ensures Printable(NamesTail(names, rest)) && Printable(Names(names, rest))
  {
    if names != [] {
      NamesArePrintable(names[1..], rest);
      QuotedIsPrintable(names[0], NamesTail(names[1..], rest));
    }
  }

  // ---- Columns ----

  /** `text` without `prefix`, if it starts with it. */
  function Drop(prefix: Bytes, text: Bytes): Option<Bytes> {
    if prefix <= text then Some(text[|prefix|..]) else None
  }

  lemma DropPrefix(prefix: Bytes, rest: Bytes)
    ensures Drop(prefix, prefix + rest) == Some(rest)
  {
  }

  /** A key, then a string. */
  function Field(key: Bytes, value: Bytes, rest: Bytes): Bytes { key + Quote(value, rest) }

  function ReadField(key: Bytes, s: Bytes): Option<Parsed<Bytes>> {
    var text := Drop(key, s);
    if text.None? then None else ReadString(text.value)
  }

  lemma FieldReadsBack(key: Bytes, value: Bytes, rest: Bytes)
    ensures ReadField(key, Field(key, value, rest)) == Some(Parsed(value, rest))
  {
    DropPrefix(key, Quote(value, rest));
    QuotedReadsBack(value, rest);
  }

  const NAME_KEY := "{\"name\":"
  const TYPE_KEY := ",\"type\":"
  const NOT_NULL := ",\"not_null\":true}"
  const NULLABLE := ",\"not_null\":false}"

  function Flag(notNull: bool, rest: Bytes): Bytes { (if notNull then NOT_NULL else NULLABLE) + rest }

  function ReadFlag(s: Bytes): Option<Parsed<bool>> {
    if Drop(NOT_NULL, s).Some? then Some(Parsed(true, Drop(NOT_NULL, s).value))
    else if Drop(NULLABLE, s).Some? then Some(Parsed(false, Drop(NULLABLE, s).value))
    else None
  }

  lemma FlagReadsBack(notNull: bool, rest: Bytes)
    ensures ReadFlag(Flag(notNull, rest)) == Some(Parsed(notNull, rest))
  {
    DropPrefix(NOT_NULL, rest);
    DropPrefix(NULLABLE, rest);
    assert NOT_NULL[12] == 't' && NULLABLE[12] == 'f';
    assert (NULLABLE + rest)[12] == 'f';
  }

  function Column(c: TransferColumn, rest: Bytes): Bytes {
    Field(NAME_KEY, c.name, Field(TYPE_KEY, c.typeName, Flag(c.notNull, rest)))
  }

  function ReadColumn(s: Bytes): Option<Parsed<TransferColumn>> {
    var name := ReadField(NAME_KEY, s);
    if name.None? then None else
    var typeName := ReadField(TYPE_KEY, name.value.rest);
    if typeName.None? then None else
    var flag := ReadFlag(typeName.value.rest);
    if flag.None? then None
    else Some(Parsed(TransferColumn(name.value.value, typeName.value.value, flag.value.value), flag.value.rest))
  }

  lemma ColumnReadsBack(c: TransferColumn, rest: Bytes)
    ensures ReadColumn(Column(c, rest)) == Some(Parsed(c, rest))
  {
    FieldReadsBack(NAME_KEY, c.name, Field(TYPE_KEY, c.typeName, Flag(c.notNull, rest)));
    FieldReadsBack(TYPE_KEY, c.typeName, Flag(c.notNull, rest));
    FlagReadsBack(c.notNull, rest);
  }

  lemma ColumnIsPrintable(c: TransferColumn, rest: Bytes)
    requires Printable(rest)
    ensures Printable(Column(c, rest))
    ensures |Column(c, rest)| > |rest| && Column(c, rest)[0] == '{'
  {
    KeysArePrintable();
    ColumnIsLonger(c, rest);
    QuotedIsPrintable(c.typeName, Flag(c.notNull, rest));
    QuotedIsPrintable(c.name, Field(TYPE_KEY, c.typeName, Flag(c.notNull, rest)));
  }

  lemma ColumnIsLonger(c: TransferColumn, rest: Bytes)
    ensures |Column(c, rest)| > |rest| && Column(c, rest)[0] == '{'
  {
    QuoteIsLonger(c.typeName, Flag(c.notNull, rest));
    QuoteIsLonger(c.name, Field(TYPE_KEY, c.typeName, Flag(c.notNull, rest)));
    assert NAME_KEY[0] == '{';
  }

  lemma KeysArePrintable()
    ensures Printable(NAME_KEY) && Printable(TYPE_KEY) && Printable(NOT_NULL) && Printable(NULLABLE)
    ensures Printable(COLUMNS_KEY) && Printable(PRIMARY_KEY) && Printable(GIST_KEY)
  {
  }

  function ColumnsTail(columns: seq<TransferColumn>, rest: Bytes): Bytes {
    if columns == [] then [']'] + rest else [','] + Column(columns[0], ColumnsTail(columns[1..], rest))
  }

  function Columns(columns: seq<TransferColumn>, rest: Bytes): Bytes {
    ['['] + if columns == [] then [']'] + rest else Column(columns[0], ColumnsTail(columns[1..], rest))
  }

  function ReadColumnsTail(s: Bytes): Option<Parsed<seq<TransferColumn>>>
    decreases |s|
  {
    if s == [] then None
    else if s[0] == ']' then Some(Parsed([], s[1..]))
    else if s[0] == ',' then
      var first := ReadColumn(s[1..]);
      if first.None? || |first.value.rest| >= |s| then None
      else
        var more := ReadColumnsTail(first.value.rest);
        if more.None? then None else Some(Parsed([first.value.value] + more.value.value, more.value.rest))
    else None
  }

  function ReadColumns(s: Bytes): Option<Parsed<seq<TransferColumn>>> {
    if |s| < 2 || s[0] != '[' then None
    else if s[1] == ']' then Some(Parsed([], s[2..]))
    else
      var first := ReadColumn(s[1..]);
      if first.None? then None
      else
        var more := ReadColumnsTail(first.value.rest);
        if more.None? then None else Some(Parsed([first.value.value] + more.value.value, more.value.rest))
  }

  /** One more column of the list. */
  lemma TailStep(s: Bytes, first: Parsed<TransferColumn>, more: Parsed<seq<TransferColumn>>)
    requires s != [] && s[0] == ',' && ReadColumn(s[1..]) == Some(first) && |first.rest| < |s|
    requires ReadColumnsTail(first.rest) == Some(more)
    ensures ReadColumnsTail(s) == Some(Parsed([first.value] + more.value, more.rest))
  {
  }

  lemma {:induction false} ColumnsTailReadsBack(columns: seq<TransferColumn>, rest: Bytes)
    ensures ReadColumnsTail(ColumnsTail(columns, rest)) == Some(Parsed(columns, rest))
  {
    if columns == [] {
      TailOf(']', rest);
    } else {
      var tail := ColumnsTail(columns[1..], rest);
      var column := Column(columns[0], tail);
      ColumnReadsBack(columns[0], tail);
      ColumnIsLonger(columns[0], tail);
      ColumnsTailReadsBack(columns[1..], rest);
      TailOf(',', column);
      TailStep([','] + column, Parsed(columns[0], tail), Parsed(columns[1..], rest));
      HeadAndTail(columns);
    }
  }

  lemma ListStep(s: Bytes, first: Parsed<TransferColumn>, more: Parsed<seq<TransferColumn>>)
    requires |s| >= 2 && s[0] == '[' && s[1] != ']' && ReadColumn(s[1..]) == Some(first)
    requires ReadColumnsTail(first.rest) == Some(more)
    ensures ReadColumns(s) == Some(Parsed([first.value] + more.value, more.rest))
  {
  }

  lemma ColumnsReadBack(columns: seq<TransferColumn>, rest: Bytes)
    ensures ReadColumns(Columns(columns, rest)) == Some(Parsed(columns, rest))
  {
    if columns == [] {
      TailOf('[', [']'] + rest);
      assert (['['] + ([']'] + rest))[2..] == rest;
    } else {
      var tail := ColumnsTail(columns[1..], rest);
      var column := Column(columns[0], tail);
      ColumnIsLonger(columns[0], tail);
      TailOf('[', column);
      ColumnReadsBack(columns[0], tail);
      ColumnsTailReadsBack(columns[1..], rest);
      ListStep(['['] + column, Parsed(columns[0], tail), Parsed(columns[1..], rest));
      HeadAndTail(columns);
    }
  }

  lemma {:induction false} ColumnsArePrintable(columns: seq<TransferColumn>, rest: Bytes)
    requires Printable(rest)
    ensures Printable(ColumnsTail(columns, rest)) && Printable(Columns(columns, rest))
  {
    if columns != [] {
      ColumnsArePrintable(columns[1..], rest);
      ColumnIsPrintable(columns[0], ColumnsTail(columns[1..], rest));
    }
  }

  // ---- The definition ----

  const COLUMNS_KEY := "{\"columns\":"
  const PRIMARY_KEY := ",\"primary_key\":"
  const GIST_KEY := ",\"gist_columns\":"

  function Indexes(d: TableDefinition): Bytes {
    PRIMARY_KEY + Names(d.primaryKey, GIST_KEY + Names(d.gistColumns, "}"))
  }

  /** The line `dump_table` writes. */
  function Print(d: TableDefinition): Bytes { COLUMNS_KEY + Columns(d.columns, Indexes(d)) }

  function ReadIndexes(s: Bytes): Option<(seq<Bytes>, seq<Bytes>)> {
    var s1 := Drop(PRIMARY_KEY, s);
    if s1.None? then None else
    var primaryKey := ReadNames(s1.value);
    if primaryKey.None? then None else
    var s2 := Drop(GIST_KEY, primaryKey.value.rest);
    if s2.None? then None else
    var gist := ReadNames(s2.value);
    if gist.None? || gist.value.rest != "}" then None else Some((primaryKey.value.value, gist.value.value))
  }

  /** A reader of such lines. */
  function Read(line: Bytes): Option<TableDefinition> {
    var s := Drop(COLUMNS_KEY, line);
    if s.None? then None else
    var columns := ReadColumns(s.value);
    if columns.None? then None else
    var indexes := ReadIndexes(columns.value.rest);
    if indexes.None? then None
    else Some(TableDefinition(columns.value.value, indexes.value.0, indexes.value.1))
  }

  lemma IndexesReadBack(d: TableDefinition)
    ensures ReadIndexes(Indexes(d)) == Some((d.primaryKey, d.gistColumns))
  {
    var gist := Names(d.gistColumns, "}");
    DropPrefix(PRIMARY_KEY, Names(d.primaryKey, GIST_KEY + gist));
    NamesReadBack(d.primaryKey, GIST_KEY + gist);
    DropPrefix(GIST_KEY, gist);
    NamesReadBack(d.gistColumns, "}");
  }

  /** Every definition reads back from its line: nothing in a name or a type can disturb it. */
  lemma {:induction false} PrintedReadsBack(d: TableDefinition)
    ensures Read(Print(d)) == Some(d)
  {
    DropPrefix(COLUMNS_KEY, Columns(d.columns, Indexes(d)));
    ColumnsReadBack(d.columns, Indexes(d));
    IndexesReadBack(d);
  }

  /** The line of a definition is one line: no name or type puts a raw newline, or another control character, in it. */
  lemma {:induction false} PrintedIsOneLine(d: TableDefinition)
    ensures '\n' !in Print(d) && forall i | 0 <= i < |Print(d)| :: Print(d)[i] >= ' '
  {
    KeysArePrintable();
    NamesArePrintable(d.gistColumns, "}");
    NamesArePrintable(d.primaryKey, GIST_KEY + Names(d.gistColumns, "}"));
    ColumnsArePrintable(d.columns, Indexes(d));
  }

  lemma {:induction false} PlainChars(s: Bytes, rest: Bytes)
    requires forall i | 0 <= i < |s| :: s[i] >= ' ' && s[i] != '"' && s[i] != '\\'
    ensures Chars(s, rest) == s + (['"'] + rest)
  {
    if s == [] {
      assert s + (['"'] + rest) == ['"'] + rest;
    } else {
      PlainChars(s[1..], rest);
      assert s == [s[0]] + s[1..];
      Associates([s[0]], s[1..], ['"'] + rest);
    }
  }

  lemma Nested4(a: Bytes, b: Bytes, c: Bytes, d: Bytes)
    ensures a + b + c + d == a + (b + (c + d))
  {
  }

  /** A string that needs no escape is written between quotes as it is. */
  lemma PlainField(key: Bytes, value: Bytes, rest: Bytes)
    requires forall i | 0 <= i < |value| :: value[i] >= ' ' && value[i] != '"' && value[i] != '\\'
    ensures Field(key, value, rest) == key + "\"" + value + ("\"" + rest)
  {
    PlainChars(value, rest);
    Nested4(key, "\"", value, "\"" + rest);
  }

  /** The texts around the fields of a column. */
  lemma ColumnLine(c: TransferColumn, rest: Bytes)
    ensures Column(c, rest)
      == Field("{\"name\":", c.name,
           Field(",\"type\":", c.typeName,
             (if c.notNull then ",\"not_null\":true}" else ",\"not_null\":false}") + rest))
  {
  }

  /** The texts around the columns and the two lists of names. */
  lemma PrintedLine(d: TableDefinition)
    ensures Print(d)
      == "{\"columns\":" + Columns(d.columns, ",\"primary_key\":"
           + Names(d.primaryKey, ",\"gist_columns\":" + Names(d.gistColumns, "}")))
  {
  }
}
