/**
 Copy of a table between platforms (table_transfer.py): one JSON line, then the rows, cut anywhere
 by the transport. gzip is taken as lossless: what is modelled is the sequence of pieces that the
 decompressor gives back, one per read.
 */
module TableTransfer {
  import opened Wrappers
  import opened Sequences
  import opened DefinitionJson

  const MAX_DEFINITION_SIZE: nat := 1024 * 1024

  datatype TransferError =
    | DataAfterEnd
    | Truncated
    | InvalidGzip
    | NoDefinition
    | InvalidDefinition
    | NoColumn
    | DuplicateColumns
    | UnknownIndexColumns
    | InvalidType(column: Bytes)
    | TableExists
    | DataRejected

  // ---- The decompressed chunks ----

  /** One read of the stream: the bytes it decompresses to, and whether the gzip stream ends in it. */
  datatype Piece = Piece(bytes: Bytes, ends: bool) | Corrupt

  /** What a generator of chunks yields from here on, and the error it raises in the end, if any. */
  datatype Chunks = Chunks(chunks: seq<Bytes>, failure: Option<TransferError>)

  /** `_decompressed_chunks`, `eof` telling whether the gzip stream has ended already. */
  function ChunksOf(pieces: seq<Piece>, eof: bool): Chunks {
    if pieces == [] then Chunks([], if eof then None else Some(Truncated))
    else if eof then Chunks([], Some(DataAfterEnd))
    else match pieces[0]
      case Corrupt => Chunks([], Some(InvalidGzip))
      case Piece(bytes, ends) =>
        var rest := ChunksOf(pieces[1..], ends);
        if bytes == [] then rest else Chunks([bytes] + rest.chunks, rest.failure)
  }

  function Flat(chunks: seq<Bytes>): Bytes {
    if chunks == [] then [] else chunks[0] + Flat(chunks[1..])
  }

  lemma {:induction false} FlatConcat(a: seq<Bytes>, b: seq<Bytes>)
    ensures Flat(a + b) == Flat(a) + Flat(b)
  {
    if a == [] {
      assert a + b == b;
    } else {
      FlatConcat(a[1..], b);
      FirstOff(a, b);
      Associates(a[0], Flat(a[1..]), Flat(b));
    }
  }

  lemma FlatSnoc(chunks: seq<Bytes>, i: nat)
    requires i < |chunks|
    ensures Flat(chunks[..i + 1]) == Flat(chunks[..i]) + chunks[i]
  {
    NextPrefix(chunks, i);
    FlatConcat(chunks[..i], [chunks[i]]);
    assert [chunks[i]][1..] == [] && Flat([chunks[i]]) == chunks[i] + [];
  }

  /** The bytes of pieces, one after the other. */
  function BytesOf(pieces: seq<Piece>): Bytes {
    if pieces == [] then []
    else
      var last := pieces[|pieces| - 1];
      BytesOf(pieces[..|pieces| - 1]) + (if last.Piece? then last.bytes else [])
  }

  lemma {:induction false} BytesOfHead(piece: Piece, rest: seq<Piece>)
    ensures BytesOf([piece] + rest) == (if piece.Piece? then piece.bytes else []) + BytesOf(rest)
  {
    var all := [piece] + rest;
    if rest == [] {
      assert all[..0] == [];
    } else {
      var init, last := rest[..|rest| - 1], rest[|rest| - 1];
      BytesOfHead(piece, init);
      assert all[..|all| - 1] == [piece] + init;
      Associates(if piece.Piece? then piece.bytes else [], BytesOf(init), if last.Piece? then last.bytes else []);
    }
  }

  /** A piece that can be read and after which the stream goes on. */
  predicate GoesOn(piece: Piece) { piece.Piece? && !piece.ends }

  /**
   What the generator makes of a stream, n being the place of the first piece after which it does not go on:
   without one the stream is truncated; a corrupt one is an error; one that ends the stream must be the last.
   Until then every byte is yielded, and no chunk is empty.
   */
  lemma {:induction false} ChunksExactly(pieces: seq<Piece>) returns (n: nat)
    ensures n <= |pieces| && (forall i | 0 <= i < n :: GoesOn(pieces[i])) && (n < |pieces| ==> !GoesOn(pieces[n]))
    ensures
      var c := ChunksOf(pieces, false);
      && (forall i | 0 <= i < |c.chunks| :: c.chunks[i] != [])
      && Flat(c.chunks) == BytesOf(pieces[..if n < |pieces| then n + 1 else n])
      && c.failure
         == if n == |pieces| then Some(Truncated)
            else if pieces[n].Corrupt? then Some(InvalidGzip)
            else if n + 1 < |pieces| then Some(DataAfterEnd)
            else None
  {
    n := 0;
    while n < |pieces| && GoesOn(pieces[n])
      invariant n <= |pieces| && forall i | 0 <= i < n :: GoesOn(pieces[i])
    {
      n := n + 1;
    }
    YieldedExactly(pieces, n);
    FailureExactly(pieces, n);
  }

  /** The first piece after which the stream does not go on. */
  predicate StopsAt(pieces: seq<Piece>, n: nat) {
    n <= |pieces| && (forall i | 0 <= i < n :: GoesOn(pieces[i])) && (n < |pieces| ==> !GoesOn(pieces[n]))
  }

  lemma StopsInRest(pieces: seq<Piece>, n: nat)
    requires StopsAt(pieces, n) && n > 0
    ensures GoesOn(pieces[0]) && StopsAt(pieces[1..], n - 1)
  {
    assert forall i | 0 < i < |pieces| :: pieces[1..][i - 1] == pieces[i];
  }

  lemma {:induction false} YieldedExactly(pieces: seq<Piece>, n: nat)
    requires StopsAt(pieces, n)
    ensures
      var c := ChunksOf(pieces, false);
      && (forall i | 0 <= i < |c.chunks| :: c.chunks[i] != [])
      && Flat(c.chunks) == BytesOf(pieces[..if n < |pieces| then n + 1 else n])
  {
    if n == 0 {
      OnePiece(pieces);
    } else {
      hide ChunksOf, BytesOf, Flat, GoesOn;
      StopsInRest(pieces, n);
      hide StopsAt;
      YieldedExactly(pieces[1..], n - 1);
      var k := if n < |pieces| then n + 1 else n;
      PrefixHead(pieces, k);
      BytesOfHead(pieces[0], pieces[1..][..k - 1]);
      HeadAndTail(pieces);
      NextChunk(pieces[0], pieces[1..]);
    }
  }

  lemma {:induction false} FailureExactly(pieces: seq<Piece>, n: nat)
    requires StopsAt(pieces, n)
    ensures ChunksOf(pieces, false).failure
         == if n == |pieces| then Some(Truncated)
            else if pieces[n].Corrupt? then Some(InvalidGzip)
            else if n + 1 < |pieces| then Some(DataAfterEnd)
            else None
  {
    if n > 0 {
      hide ChunksOf, GoesOn;
      StopsInRest(pieces, n);
      hide StopsAt;
      FailureExactly(pieces[1..], n - 1);
      HeadAndTail(pieces);
      NextChunk(pieces[0], pieces[1..]);
    }
  }

  /** A piece after which the stream goes on yields its bytes, as a chunk unless there are none. */
  lemma NextChunk(piece: Piece, rest: seq<Piece>)
    requires GoesOn(piece)
    ensures
      var c, d := ChunksOf(rest, false), ChunksOf([piece] + rest, false);
      && d.failure == c.failure && Flat(d.chunks) == piece.bytes + Flat(c.chunks)
      && ((forall i | 0 <= i < |c.chunks| :: c.chunks[i] != []) ==>
            forall i | 0 <= i < |d.chunks| :: d.chunks[i] != [])
  {
    TailOf(piece, rest);
    var c := ChunksOf(rest, false);
    if piece.bytes != [] {
      TailOf(piece.bytes, c.chunks);
    } else {
      assert [] + Flat(c.chunks) == Flat(c.chunks);
    }
  }

  lemma OnePiece(pieces: seq<Piece>)
    requires pieces == [] || !GoesOn(pieces[0])
    ensures
      var c := ChunksOf(pieces, false);
      && (forall i | 0 <= i < |c.chunks| :: c.chunks[i] != [])
      && Flat(c.chunks) == BytesOf(pieces[..if pieces == [] then 0 else 1])
  {
    if pieces != [] {
      assert pieces[..1] == [pieces[0]] + [];
      BytesOfHead(pieces[0], []);
      if pieces[0].Piece? && pieces[0].bytes != [] {
        assert Flat([pieces[0].bytes]) == pieces[0].bytes + Flat([pieces[0].bytes][1..]);
      }
    }
  }

  class ChunkSource {
    var pieces: seq<Piece>
    var eof: bool

    constructor (pieces: seq<Piece>)
      ensures this.pieces == pieces && !eof
    {
      this.pieces, eof := pieces, false;
    }

    function Left(): Chunks
      reads this
    {
      ChunksOf(pieces, eof)
    }

    /** The next chunk, None at the end; pieces that decompress to nothing are skipped. */
    method Next() returns (r: Result<Option<Bytes>, TransferError>)
      modifies this
      ensures var left := old(Left());
        if left.chunks != [] then r == Ok(Some(left.chunks[0])) && Left() == Chunks(left.chunks[1..], left.failure)
        else r == if left.failure.Some? then Err(left.failure.value) else Ok(None)
    {
      while pieces != []
        invariant Left() == old(Left())
        decreases |pieces|
      {
        if eof {
          return Err(DataAfterEnd);
        }
        var data := pieces[0];
        if data.Corrupt? {
          return Err(InvalidGzip);
        }
        pieces, eof := pieces[1..], data.ends;
        if data.bytes != [] {
          return Ok(Some(data.bytes));
        }
      }
      return if eof then Ok(None) else Err(Truncated);
    }
  }

  // ---- The definition line ----

  /** The first index of a newline, or the length. */
  function NewlineAt(s: Bytes): (i: nat)
    ensures i <= |s|
  {
    if s == [] || s[0] == '\n' then 0 else 1 + NewlineAt(s[1..])
  }

  lemma {:induction false} NewlineIsFirst(s: Bytes)
    ensures '\n' !in s[..NewlineAt(s)]
    ensures NewlineAt(s) < |s| ==> s[NewlineAt(s)] == '\n'
    ensures NewlineAt(s) == |s| <==> '\n' !in s
  {
    if s != [] && s[0] != '\n' {
      NewlineIsFirst(s[1..]);
      assert s == [s[0]] + s[1..];
      assert s[..NewlineAt(s)] == [s[0]] + s[1..][..NewlineAt(s[1..])];
    }
  }

  /** Looking for the newline past a beginning that has none. */
  lemma {:induction false} NewlineAfter(a: Bytes, b: Bytes)
    requires NewlineAt(a) == |a|
    ensures NewlineAt(a + b) == |a| + NewlineAt(b)
  {
    if a == [] {
      assert a + b == b;
    } else {
      NewlineAfter(a[1..], b);
      FirstOff(a, b);
    }
  }

  /** A newline found in a beginning is the first of the whole. */
  lemma {:induction false} NewlineOfPrefix(a: Bytes, b: Bytes)
    requires NewlineAt(a) < |a|
    ensures NewlineAt(a + b) == NewlineAt(a)
  {
    if a[0] != '\n' {
      NewlineOfPrefix(a[1..], b);
      FirstOff(a, b);
    }
  }

  datatype Split = Split(line: Bytes, rest: Bytes, left: seq<Bytes>)

  /** How `_split_definition` cuts the chunks, `buffer` being what it has read so far. */
  function SplitLine(chunks: seq<Bytes>, buffer: Bytes): Option<Split> {
    if chunks == [] then None
    else
      var grown := buffer + chunks[0];
      var i := NewlineAt(grown);
      if i < |grown| then Some(Split(grown[..i], grown[i + 1..], chunks[1..]))
      else if |grown| > MAX_DEFINITION_SIZE then None
      else SplitLine(chunks[1..], grown)
  }

  /** The chunks end before a definition line is found or given up. */
  predicate RunsOut(chunks: seq<Bytes>, buffer: Bytes) {
    chunks == [] || (
      var grown := buffer + chunks[0];
      NewlineAt(grown) == |grown| <= MAX_DEFINITION_SIZE && RunsOut(chunks[1..], grown))
  }

  /** The chunks run out exactly when they hold no newline and no more bytes than allowed. */
  lemma {:induction false} RunsOutExactly(chunks: seq<Bytes>, buffer: Bytes)
    requires '\n' !in buffer && |buffer| <= 1048576
    ensures RunsOut(chunks, buffer) <==> '\n' !in buffer + Flat(chunks) && |buffer + Flat(chunks)| <= 1048576
  {
    if chunks == [] {
      assert buffer + Flat(chunks) == buffer;
    } else {
      var grown := buffer + chunks[0];
      NewlineIsFirst(grown);
      Associates(buffer, chunks[0], Flat(chunks[1..]));
      if '\n' !in grown && |grown| <= 1048576 {
        RunsOutExactly(chunks[1..], grown);
      } else if '\n' in grown {
        var k :| 0 <= k < |grown| && grown[k] == '\n';
        assert (grown + Flat(chunks[1..]))[k] == '\n';
      }
    }
  }

  /** The split of a stream at its first newline, what follows being spread over chunks. */
  predicate SplitsAtNewline(split: Option<Split>, stream: Bytes) {
    var i := NewlineAt(stream);
    && i < |stream| && split.Some?
    && split.value.line == stream[..i]
    && split.value.rest + Flat(split.value.left) == stream[i + 1..]
  }

  lemma SplitHere(grown: Bytes, left: seq<Bytes>)
    requires NewlineAt(grown) < |grown|
    ensures
      var i := NewlineAt(grown);
      SplitsAtNewline(Some(Split(grown[..i], grown[i + 1..], left)), grown + Flat(left))
  {
    CutHere(grown, Flat(left));
  }

  lemma CutHere(grown: Bytes, more: Bytes)
    requires NewlineAt(grown) < |grown|
    ensures var i := NewlineAt(grown);
      NewlineAt(grown + more) == i && (grown + more)[..i] == grown[..i]
        && (grown + more)[i + 1..] == grown[i + 1..] + more
  {
    NewlineOfPrefix(grown, more);
    CutEarly(grown, more, NewlineAt(grown));
  }

  lemma {:induction false} SplitFrom(chunks: seq<Bytes>, buffer: Bytes)
    requires NewlineAt(buffer) == |buffer|
    requires NewlineAt(buffer + Flat(chunks)) < |buffer + Flat(chunks)|
    requires NewlineAt(buffer + Flat(chunks)) <= MAX_DEFINITION_SIZE
    ensures SplitsAtNewline(SplitLine(chunks, buffer), buffer + Flat(chunks))
  {
    assert chunks == [] ==> buffer + Flat(chunks) == buffer;
    if chunks != [] {
      var grown := buffer + chunks[0];
      assert buffer + Flat(chunks) == grown + Flat(chunks[1..]);
      if NewlineAt(grown) < |grown| {
        SplitHere(grown, chunks[1..]);
      } else {
        NewlineAfter(grown, Flat(chunks[1..]));
        SplitFrom(chunks[1..], grown);
      }
    }
  }

  /**
   When the first newline comes within the allowed size, the line, and the rest joined to the chunks
   that follow, are the same wherever the stream is cut.
   */
  lemma SplitIgnoresChunking(chunks: seq<Bytes>)
    requires '\n' in Flat(chunks) && NewlineAt(Flat(chunks)) <= MAX_DEFINITION_SIZE
    ensures SplitsAtNewline(SplitLine(chunks, []), Flat(chunks))
  {
    assert [] + Flat(chunks) == Flat(chunks);
    NewlineIsFirst(Flat(chunks));
    SplitFrom(chunks, []);
  }

  /** In one piece, a stream with a newline is always split there. */
  lemma OnePieceIsAlwaysSplit(stream: Bytes)
    requires NewlineAt(stream) < |stream|
    ensures SplitLine([stream], []) == Some(Split(stream[..NewlineAt(stream)], stream[NewlineAt(stream) + 1..], []))
  {
    EmptyFirst(stream);
  }

  lemma FlatOfOne(stream: Bytes)
    ensures Flat([stream]) == stream
  {
    assert [stream][1..] == [] && stream + [] == stream;
  }

  /**
   And only then: a stream whose first newline comes later is accepted in one piece, and refused by
   some other cutting.
   */
  lemma SplitIgnoresChunkingExactly(stream: Bytes)
    requires '\n' in stream
    ensures exists chunks :: Flat(chunks) == stream && SplitLine(chunks, []).Some?
    ensures (forall chunks :: Flat(chunks) == stream ==> SplitLine(chunks, []).Some?)
       <==> NewlineAt(stream) <= MAX_DEFINITION_SIZE
  {
    NewlineIsFirst(stream);
    FlatOfOne(stream);
    OnePieceIsAlwaysSplit(stream);
    if NewlineAt(stream) <= MAX_DEFINITION_SIZE {
      forall chunks | Flat(chunks) == stream ensures SplitLine(chunks, []).Some? {
        SplitIgnoresChunking(chunks);
      }
    } else {
      CutTooLate(stream[..MAX_DEFINITION_SIZE + 1], stream[MAX_DEFINITION_SIZE + 1..]);
      assert stream[..MAX_DEFINITION_SIZE + 1] <= stream[..NewlineAt(stream)];
      assert stream[..MAX_DEFINITION_SIZE + 1] + stream[MAX_DEFINITION_SIZE + 1..] == stream;
    }
  }

  /** A line one byte too long: accepted or refused according to where the stream is cut. */
  lemma LongLineDependsOnTheCut(line: Bytes, rows: Bytes)
    requires |line| == MAX_DEFINITION_SIZE + 1 && '\n' !in line
    ensures var stream := line + "\n" + rows;
      && SplitLine([stream], []) == Some(Split(line, rows, []))
      && Flat([line, "\n" + rows]) == stream && SplitLine([line, "\n" + rows], []).None?
  {
    NewlineIsFirst(line);
    LineThenRows(line, rows);
    OnePieceIsAlwaysSplit(line + "\n" + rows);
    CutTooLate(line, "\n" + rows);
    Associates(line, "\n", rows);
  }

  lemma CutTooLate(first: Bytes, second: Bytes)
    ensures Flat([first, second]) == first + second
    ensures '\n' !in first && |first| > MAX_DEFINITION_SIZE ==> SplitLine([first, second], []).None?
  {
    assert [first, second][1..] == [second] && [second][1..] == [];
    assert Flat([second]) == second + [] == second;
    assert [] + first == first;
    NewlineIsFirst(first);
  }

  // ---- Dump and restore ----

  datatype TableName = TableName(schema: string, name: string)

  /** A table as a dump sees it: its definition, and its rows in COPY text format. */
  datatype Stored = Stored(definition: TableDefinition, rows: Bytes)

  type Tables = map<TableName, Stored>

  predicate Distinct(names: seq<Bytes>) {
    forall i, j | 0 <= i < j < |names| :: names[i] != names[j]
  }

  function ColumnNames(d: TableDefinition): (r: seq<Bytes>)
    ensures |r| == |d.columns|
    ensures forall i :: 0 <= i < |r| ==> r[i] == d.columns[i].name
  {
    seq(|d.columns|, i requires 0 <= i < |d.columns| => d.columns[i].name)
  }

  /** The first column with a type that the platform does not accept. */
  function BadType(columns: seq<TransferColumn>, accepts: Bytes -> bool): Option<Bytes> {
    if columns == [] then None
    else if !accepts(columns[0].typeName) then Some(columns[0].name)
    else BadType(columns[1..], accepts)
  }

  /** `_check_definition`: `accepts` is the type pattern together with `to_regtype`. */
  function DefinitionError(d: TableDefinition, accepts: Bytes -> bool): Option<TransferError> {
    var names := ColumnNames(d);
    if !Distinct(names) then Some(DuplicateColumns)
    else if exists i | 0 <= i < |d.primaryKey + d.gistColumns| :: (d.primaryKey + d.gistColumns)[i] !in names then
      Some(UnknownIndexColumns)
    else
      var bad := BadType(d.columns, accepts);
      if bad.Some? then Some(InvalidType(bad.value)) else None
  }

  lemma {:induction false} BadTypeExactly(columns: seq<TransferColumn>, accepts: Bytes -> bool)
    ensures BadType(columns, accepts).None? <==> forall i | 0 <= i < |columns| :: accepts(columns[i].typeName)
    ensures BadType(columns, accepts).Some? ==> exists i | 0 <= i < |columns| ::
      && columns[i].name == BadType(columns, accepts).value && !accepts(columns[i].typeName)
      && forall j | 0 <= j < i :: accepts(columns[j].typeName)
  {
    if columns != [] {
      var rest := columns[1..];
      BadTypeExactly(rest, accepts);
      assert forall i | 0 < i < |columns| :: columns[i] == rest[i - 1];
      if !accepts(columns[0].typeName) {
        assert columns[0].name == BadType(columns, accepts).value;
      } else if BadType(rest, accepts).Some? {
        var i :| 0 <= i < |rest| && rest[i].name == BadType(rest, accepts).value && !accepts(rest[i].typeName)
          && forall j | 0 <= j < i :: accepts(rest[j].typeName);
        assert columns[i + 1] == rest[i];
      }
    }
  }

  /** A column of that name. */
  predicate HasColumn(d: TableDefinition, name: Bytes) { exists i | 0 <= i < |d.columns| :: d.columns[i].name == name }

  /**
   A definition passes exactly when no two columns have the same name, every column of an index is a column,
   and the platform accepts every type; the first of these that fails, in this order, is the error.
   */
  lemma DefinitionErrorExactly(d: TableDefinition, accepts: Bytes -> bool)
    ensures
      var error := DefinitionError(d, accepts);
      var distinct := forall i, j | 0 <= i < j < |d.columns| :: d.columns[i].name != d.columns[j].name;
      var indexed := forall name | name in d.primaryKey || name in d.gistColumns :: HasColumn(d, name);
      var typed := forall i | 0 <= i < |d.columns| :: accepts(d.columns[i].typeName);
      && (error.None? <==> distinct && indexed && typed)
      && (error == Some(DuplicateColumns) <==> !distinct)
      && (error == Some(UnknownIndexColumns) <==> distinct && !indexed)
      && (error.Some? && error.value.InvalidType? <==> distinct && indexed && !typed)
  {
    var names, indexes := ColumnNames(d), d.primaryKey + d.gistColumns;
    BadTypeExactly(d.columns, accepts);
    forall name ensures name in names <==> HasColumn(d, name) {
      if i :| 0 <= i < |d.columns| && d.columns[i].name == name {
        assert names[i] == name;
      }
    }
    forall name ensures name in indexes <==> name in d.primaryKey || name in d.gistColumns {
    }
    assert Distinct(names) <==> forall i, j | 0 <= i < j < |d.columns| :: d.columns[i].name != d.columns[j].name by {
      assert forall i | 0 <= i < |names| :: names[i] == d.columns[i].name;
    }
  }

  /** The target platform: its reader of JSON, the types it knows, and the rows its COPY accepts. */
  datatype Platform = Platform(
    parse: Bytes -> Option<TableDefinition>,
    accepts: Bytes -> bool,
    rowCount: (TableDefinition, Bytes) -> Option<nat>)

  /** What a restore leads to: the table it creates and its number of rows, or the error it raises. */
  function RestoreOutcome(
    p: Platform, tables: Tables, source: Chunks, table: TableName): Result<(Stored, nat), TransferError>
  {
    var split := SplitLine(source.chunks, []);
    if split.None? then
      Err(if RunsOut(source.chunks, []) && source.failure.Some? then source.failure.value else NoDefinition)
    else
      var definition := p.parse(split.value.line);
      if definition.None? then Err(InvalidDefinition)
      else if definition.value.columns == [] then Err(NoColumn)
      else
        var error := DefinitionError(definition.value, p.accepts);
        if error.Some? then Err(error.value)
        else if table in tables then Err(TableExists)
        else if source.failure.Some? then Err(source.failure.value)
        else
          var rows := split.value.rest + Flat(split.value.left);
          var count := p.rowCount(definition.value, rows);
          if count.None? then Err(DataRejected) else Ok((Stored(definition.value, rows), count.value))
  }

  /** Whatever is restored is a new table: its columns differ, those of its indexes exist, its types are accepted. */
  lemma RestoredIsSound(p: Platform, tables: Tables, source: Chunks, table: TableName)
    requires RestoreOutcome(p, tables, source, table).Ok?
    ensures
      var d := RestoreOutcome(p, tables, source, table).value.0.definition;
      && table !in tables && d.columns != []
      && (forall i, j | 0 <= i < j < |d.columns| :: d.columns[i].name != d.columns[j].name)
      && (forall name | name in d.primaryKey || name in d.gistColumns :: HasColumn(d, name))
      && (forall i | 0 <= i < |d.columns| :: p.accepts(d.columns[i].typeName))
  {
    DefinitionErrorExactly(RestoreOutcome(p, tables, source, table).value.0.definition, p.accepts);
  }

  class Database {
    var tables: Tables
    const platform: Platform

    constructor (platform: Platform)
      ensures tables == map[] && this.platform == platform
    {
      tables := map[];
      this.platform := platform;
    }

    /**
     `dump_table`: the stream it writes, before compression. COPY gives the rows in pieces of its
     own; None when the table does not exist.
     */
    method DumpTable(table: TableName, copied: seq<Bytes>) returns (output: Option<Bytes>)
      requires table in tables ==> Flat(copied) == tables[table].rows
      ensures output == if table !in tables then None
                        else Some(Print(tables[table].definition) + "\n" + tables[table].rows)
    {
      if table !in tables {
        return None;
      }
      var written := Print(tables[table].definition) + "\n";
      ghost var line := written;
      for i := 0 to |copied|
        invariant written == line + Flat(copied[..i])
      {
        FlatSnoc(copied, i);
        Associates(line, Flat(copied[..i]), copied[i]);
        written := written + copied[i];
      }
      assert copied[..|copied|] == copied;
      return Some(written);
    }

    /** The loop of `_split_definition` over the chunks. */
    method SplitDefinition(source: ChunkSource) returns (r: Result<(TableDefinition, Bytes), TransferError>)
      modifies source
      ensures var split := SplitLine(old(source.Left()).chunks, []);
        if split.Some? then
          && source.Left() == Chunks(split.value.left, old(source.Left()).failure)
          && r == (var d := platform.parse(split.value.line);
                   if d.None? then Err(InvalidDefinition)
                   else if d.value.columns == [] then Err(NoColumn)
                   else Ok((d.value, split.value.rest)))
        else
          r == Err(if RunsOut(old(source.Left()).chunks, []) && old(source.Left()).failure.Some?
                   then old(source.Left()).failure.value else NoDefinition)
    {
      var buffer: Bytes := [];
      while true
        invariant SplitLine(source.Left().chunks, buffer) == SplitLine(old(source.Left()).chunks, [])
        invariant RunsOut(source.Left().chunks, buffer) <==> RunsOut(old(source.Left()).chunks, [])
        invariant source.Left().failure == old(source.Left()).failure
        decreases |source.Left().chunks|
      {
        var next := source.Next();
        if next.Err? {
          return Err(next.error);
        }
        if next.value.None? {
          return Err(NoDefinition);
        }
        buffer := buffer + next.value.value;
        var i := NewlineAt(buffer);
        if i < |buffer| {
          var line, rest := buffer[..i], buffer[i + 1..];
          var definition := platform.parse(line);
          if definition.None? {
            return Err(InvalidDefinition);
          }
          if definition.value.columns == [] {
            return Err(NoColumn);
          }
          return Ok((definition.value, rest));
        }
        if |buffer| > MAX_DEFINITION_SIZE {
          return Err(NoDefinition);
        }
      }
    }

    /** The rows as they are written to COPY: those read with the definition, then chunk by chunk. */
    method CopyRows(source: ChunkSource, first: Bytes) returns (r: Result<Bytes, TransferError>)
      modifies source
      ensures var left := old(source.Left());
        r == if left.failure.Some? then Err(left.failure.value) else Ok(first + Flat(left.chunks))
    {
      var copied := first;
      ghost var left := source.Left();
      while true
        invariant copied + Flat(source.Left().chunks) == first + Flat(left.chunks)
        invariant source.Left().failure == left.failure
        decreases |source.Left().chunks|
      {
        ghost var before := source.Left().chunks;
        var next := source.Next();
        if next.Err? {
          return Err(next.error);
        }
        if next.value.None? {
          assert copied + Flat([]) == copied;
          return Ok(copied);
        }
        assert copied + Flat(before) == (copied + before[0]) + Flat(before[1..]);
        copied := copied + next.value.value;
      }
    }

    /**
     `restore_table`: create the table from a stream, in one transaction. Whatever the error,
     nothing is created.
     */
    method RestoreTable(source: ChunkSource, table: TableName) returns (r: Result<nat, TransferError>)
      modifies this, source
      ensures var outcome := RestoreOutcome(platform, old(tables), old(source.Left()), table);
        if outcome.Ok?
        then tables == old(tables)[table := outcome.value.0] && r == Ok(outcome.value.1)
        else tables == old(tables) && r == Err(outcome.error)
    {
      var split := SplitDefinition(source);
      if split.Err? {
        return Err(split.error);
      }
      var definition, first := split.value.0, split.value.1;
      var error := DefinitionError(definition, platform.accepts);
      if error.Some? {
        return Err(error.value);
      }
      if table in tables {
        return Err(TableExists);
      }
      var rows := CopyRows(source, first);
      if rows.Err? {
        return Err(rows.error);
      }
      var copied := rows.value;
      var count := platform.rowCount(definition, copied);
      if count.None? {
        return Err(DataRejected);
      }
      tables := tables[table := Stored(definition, copied)];
      return Ok(count.value);
    }
  }

  /** The definitions a dump reads from a catalog, on a platform that knows the types. */
  predicate Restorable(p: Platform, d: TableDefinition) {
    d.columns != [] && DefinitionError(d, p.accepts).None?
  }

  /**
   Dump then restore gives back the definition and the rows, byte for byte, however the stream is
   cut on the way, as long as the definition line has the size allowed. The reader of the platform
   must read back the lines written here, as `DefinitionJson.Read` does.
   */
  lemma DumpThenRestore(p: Platform, tables: Tables, stored: Stored, pieces: seq<Piece>, table: TableName)
    requires p.parse(Print(stored.definition)) == Some(stored.definition)
    requires Restorable(p, stored.definition)
    requires |Print(stored.definition)| <= MAX_DEFINITION_SIZE
    requires table !in tables && p.rowCount(stored.definition, stored.rows).Some?
    requires ChunksOf(pieces, false).failure.None?
    requires Flat(ChunksOf(pieces, false).chunks) == Print(stored.definition) + "\n" + stored.rows
    ensures RestoreOutcome(p, tables, ChunksOf(pieces, false), table)
         == Ok((stored, p.rowCount(stored.definition, stored.rows).value))
  {
    DumpSplits(Print(stored.definition), stored.rows, ChunksOf(pieces, false).chunks, stored.definition);
  }

  /** With that reader nothing is left to assume of the definition line but its size. */
  lemma DumpThenRestoreWithRead(p: Platform, tables: Tables, stored: Stored, pieces: seq<Piece>, table: TableName)
    requires Restorable(p, stored.definition)
    requires |Print(stored.definition)| <= MAX_DEFINITION_SIZE
    requires table !in tables && p.rowCount(stored.definition, stored.rows).Some?
    requires ChunksOf(pieces, false).failure.None?
    requires Flat(ChunksOf(pieces, false).chunks) == Print(stored.definition) + "\n" + stored.rows
    ensures RestoreOutcome(p.(parse := Read), tables, ChunksOf(pieces, false), table)
         == Ok((stored, p.rowCount(stored.definition, stored.rows).value))
  {
    PrintedReadsBack(stored.definition);
    DumpThenRestore(p.(parse := Read), tables, stored, pieces, table);
  }

  lemma DumpSplits(line: Bytes, rows: Bytes, chunks: seq<Bytes>, d: TableDefinition)
    requires line == Print(d) && |line| <= MAX_DEFINITION_SIZE
    requires Flat(chunks) == line + "\n" + rows
    ensures var split := SplitLine(chunks, []);
      split.Some? && split.value.line == line && split.value.rest + Flat(split.value.left) == rows
  {
    PrintedIsOneLine(d);
    NewlineIsFirst(line);
    LineThenRows(line, rows);
    SplitIgnoresChunking(chunks);
  }

  lemma LineThenRows(line: Bytes, rows: Bytes)
    requires NewlineAt(line) == |line|
    ensures var stream := line + "\n" + rows;
      && NewlineAt(stream) == |line| && '\n' in stream
      && stream[..|line|] == line && stream[|line| + 1..] == rows
  {
    var stream := line + "\n" + rows;
    assert stream == line + ("\n" + rows);
    assert stream[|line|] == '\n';
    NewlineAfter(line, "\n" + rows);
  }
}
