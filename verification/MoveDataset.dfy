/**
 Moving a dataset to another organization (integrity_link_admin.py, layer_publication.py): a table,
 a layer and a database row in three systems, any of which may fail at any call.
 */
module MoveDataset {
  import opened Wrappers
  import opened Text
  import opened DataIds
  import opened DataSchemas
  import opened Sequences
  import opened TableNames

  type TableKey = (string, string)            // schema, table
  type DatastoreKey = (string, string)        // workspace, datastore
  type LayerKey = (string, string, string)    // workspace, datastore, layer

  function DatastoreOf(workspace: string): DatastoreKey { (workspace, workspace + "_ds") }

  /** The names GeoServer is given: sanitized, unlike those the dataset records. */
  function GeoServerName(name: string): string { SanitizeName(name, PG_IDENTIFIER_MAX_LENGTH) }

  type Datastores = map<DatastoreKey, Option<string>>

  /** The schema a datastore reads: None without a datastore, or without a schema parameter. */
  function SchemaRead(datastores: Datastores, key: DatastoreKey): Option<string> {
    if key in datastores then datastores[key] else None
  }

  /** If the datastore of a workspace reads a schema, it is this one. */
  predicate Reads(datastores: Datastores, workspace: string, schema: string) {
    SchemaRead(datastores, DatastoreOf(workspace)) in {None, Some(schema)}
  }

  /** The datastores after a publication in the workspace, which creates the one it does not find. */
  function WithDatastore(datastores: Datastores, workspace: string, schema: string): Datastores {
    if SchemaRead(datastores, DatastoreOf(workspace)).Some? then datastores
    else datastores[(GeoServerName(workspace), workspace + "_ds") := Some(schema)]
  }

  /** No datastore that read a schema reads another one now. */
  ghost predicate NoneRepointed(datastores: Datastores, now: Datastores) {
    forall key | key in datastores && datastores[key].Some? :: key in now && now[key] == datastores[key]
  }

  /** Only the datastore that a publication in `workspace` creates may differ. */
  ghost predicate OnlyCreates(datastores: Datastores, now: Datastores, workspace: string) {
    forall key | key != (GeoServerName(workspace), workspace + "_ds") ::
      (key in now <==> key in datastores) && (key in now ==> now[key] == datastores[key])
  }

  /** A publication in the workspace would find no datastore there, and overwrite one that reads another schema. */
  predicate WouldRepoint(datastores: Datastores, workspace: string, schema: string) {
    && SchemaRead(datastores, DatastoreOf(workspace)).None?
    && SchemaRead(datastores, (GeoServerName(workspace), workspace + "_ds")) !in {None, Some(schema)}
  }

  /** What that does to the datastores: it is the only way to lose the schema of one. */
  lemma RepointedExactly(datastores: Datastores, workspace: string, schema: string)
    ensures var now := WithDatastore(datastores, workspace, schema);
      && OnlyCreates(datastores, now, workspace)
      && (NoneRepointed(datastores, now) <==> !WouldRepoint(datastores, workspace, schema))
      && (Reads(datastores, workspace, schema) ==> Reads(now, workspace, schema))
  {
  }

  /**
   Two publications in the same workspace, under one schema and then under another: the second one
   overwrites the datastore of the first exactly when GeoServer does not keep the name of the workspace.
   */
  lemma SecondPublicationRepointsExactly(workspace: string, first: string, second: string)
    requires first != second
    ensures WithDatastore(map[], workspace, first) == map[(GeoServerName(workspace), workspace + "_ds") := Some(first)]
    ensures WouldRepoint(WithDatastore(map[], workspace, first), workspace, second)
       <==> GeoServerName(workspace) != workspace
  {
  }

  lemma FinalUnderscoreIsCut(start: string)
    requires IsIdentifier(start) && |start| <= PG_IDENTIFIER_MAX_LENGTH && start[|start| - 1] != '_'
    ensures GeoServerName(start + "_") == start
  {
    var name := start + "_";
    assert IsIdentifier(name) && name[..|start|] == start;
    SanitizedIdentifier(name, PG_IDENTIFIER_MAX_LENGTH);
    assert StripRight(IsUnderscore, name) == StripRight(IsUnderscore, start) == start;
  }

  /**
   So it is with an organization like `acme_`, published in the shared schema and then, once organizations
   have schemas of their own, in its own.
   */
  lemma SettingChangeRepoints(start: string)
    requires IsIdentifier(start) && |start| <= PG_IDENTIFIER_MAX_LENGTH && start[|start| - 1] != '_'
    ensures var workspace := start + "_";
      var before: Datastores := map[(start, workspace + "_ds") := Some(DEFAULT_DATA_SCHEMA)];
      && before == WithDatastore(map[], workspace, DataSchema(false, workspace))
      && WouldRepoint(before, workspace, DataSchema(true, workspace))
  {
    var workspace := start + "_";
    FinalUnderscoreIsCut(start);
    var own := DataSchema(true, workspace);
    assert own[|own| - 1] == '_' && DEFAULT_DATA_SCHEMA[|DEFAULT_DATA_SCHEMA| - 1] != '_';
    SecondPublicationRepointsExactly(workspace, DEFAULT_DATA_SCHEMA, own);
  }

  function LayerMade(workspace: string, table: string): LayerKey {
    (GeoServerName(workspace), workspace + "_ds", GeoServerName(table))
  }

  function LayerOf(workspace: string, table: string): LayerKey { (workspace, workspace + "_ds", table) }

  /** The runs of the dataset have been cancelled, or a table was to move, and did or did not. */
  datatype Event = RunsCancelled | Attempt(table: string, from: string, to: string, done: bool)

  datatype Error = Failed(status: nat)

  // ---- The systems ----

  class World {
    var tables: set<TableKey>
    var datastores: Datastores
    var layers: set<LayerKey>
    ghost var log: seq<Event> // every cancellation that succeeded and every move of a table, in order
    ghost var faults: nat     // calls that failed for a reason of the system's own
    const useOrgSchema: bool

    constructor (tables: set<TableKey>, datastores: Datastores, layers: set<LayerKey>, useOrgSchema: bool)
      ensures this.tables == tables && this.datastores == datastores && this.layers == layers
      ensures this.useOrgSchema == useOrgSchema && log == [] && faults == 0
    {
      this.tables, this.datastores, this.layers, this.useOrgSchema := tables, datastores, layers, useOrgSchema;
      log, faults := [], 0;
    }

    /** Whether a call fails. */
    method Fails() returns (fails: bool)
      modifies this`faults
      ensures faults == old(faults) + (if fails then 1 else 0)
    {
      fails := *;
      if fails {
        faults := faults + 1;
      }
    }

    method GetDatastoreSchema(key: DatastoreKey) returns (r: Result<Option<string>, Error>)
      modifies this`faults
      ensures r.Ok? ==> r.value == SchemaRead(datastores, key)
      ensures faults == old(faults) + (if r.Err? then 1 else 0)
    {
      var fails := Fails();
      return if fails then Err(Failed(500)) else Ok(SchemaRead(datastores, key));
    }

    method TableExists(key: TableKey) returns (r: Result<bool, Error>)
      modifies this`faults
      ensures r.Ok? ==> r.value == (key in tables)
      ensures faults == old(faults) + (if r.Err? then 1 else 0)
    {
      var fails := Fails();
      return if fails then Err(Failed(500)) else Ok(key in tables);
    }

    method LayerExists(key: LayerKey) returns (r: Result<bool, Error>)
      modifies this`faults
      ensures r.Ok? ==> r.value == (key in layers)
      ensures faults == old(faults) + (if r.Err? then 1 else 0)
    {
      var fails := Fails();
      return if fails then Err(Failed(500)) else Ok(key in layers);
    }

    /** ALTER TABLE ... SET SCHEMA, in a transaction, once the schema exists. */
    method AlterSchema(table: string, from: string, to: string) returns (ok: bool)
      modifies this`tables, this`faults
      ensures ok ==> (from, table) in old(tables) && (to, table) !in old(tables)
                     && tables == old(tables) - {(from, table)} + {(to, table)}
      ensures !ok ==> tables == old(tables)
      ensures ok ==> faults == old(faults)
      ensures faults >= old(faults)
      ensures !ok ==> faults > old(faults) || (from, table) !in tables || (to, table) in tables
    {
      var fails := Fails();
      if fails || (from, table) !in tables || (to, table) in tables {
        return false;
      }
      tables := tables - {(from, table)} + {(to, table)};
      return true;
    }

    /** Creates a workspace and its datastore, or sets its schema. A failure may come after the fact. */
    method CreateWorkspace(workspace: string, datastore: string, schema: string) returns (ok: bool)
      modifies this`datastores, this`faults
      ensures datastores in {old(datastores), old(datastores)[(GeoServerName(workspace), datastore) := Some(schema)]}
      ensures ok ==> datastores == old(datastores)[(GeoServerName(workspace), datastore) := Some(schema)]
      ensures faults == old(faults) + (if ok then 0 else 1)
    {
      var failsBefore := Fails();
      if failsBefore {
        return false;
      }
      datastores := datastores[(GeoServerName(workspace), datastore) := Some(schema)];
      var failsAfter := Fails();
      return !failsAfter;
    }

    method CreateLayer(workspace: string, datastore: string, table: string) returns (ok: bool)
      modifies this`layers, this`faults
      ensures layers in {old(layers), old(layers) + {(GeoServerName(workspace), datastore, GeoServerName(table))}}
      ensures ok ==> (GeoServerName(workspace), datastore, GeoServerName(table)) in layers
      ensures faults == old(faults) + (if ok then 0 else 1)
    {
      var failsBefore := Fails();
      if failsBefore {
        return false;
      }
      layers := layers + {(GeoServerName(workspace), datastore, GeoServerName(table))};
      var failsAfter := Fails();
      return !failsAfter;
    }

    /** Best effort: it may not delete, and it never raises. */
    method DeleteLayer(key: LayerKey)
      modifies this`layers, this`faults
      ensures layers in {old(layers), old(layers) - {key}}
      ensures faults == old(faults) ==> layers == old(layers) - {key}
      ensures faults >= old(faults)
    {
      var fails := Fails();
      if !fails {
        layers := layers - {key};
      }
    }

    /** `cancel_dataset_runs`, whose own contract says what is left of the runs. */
    method CancelRuns() returns (ok: bool)
      modifies this`log, this`faults
      ensures log == if ok then old(log) + [RunsCancelled] else old(log)
      ensures faults == old(faults) + (if ok then 0 else 1)
    {
      var fails := Fails();
      if fails {
        return false;
      }
      log := log + [RunsCancelled];
      return true;
    }

    /** Creation of a schema, reading of an extent: what only matters here is whether they raise. */
    method Call() returns (ok: bool)
      modifies this`faults
      ensures faults == old(faults) + (if ok then 0 else 1)
    {
      var fails := Fails();
      return !fails;
    }
  }

  class DatasetLink {
    var organization: string
    var dataId: Option<string>
    const finalTable: string

    constructor (organization: string, dataId: Option<string>, finalTable: string)
      ensures this.organization == organization && this.dataId == dataId && this.finalTable == finalTable
    {
      this.organization, this.dataId, this.finalTable := organization, dataId, finalTable;
    }
  }

  // ---- Locating the table ----

  /** The workspace of the layer, as recorded, else that of the organization. */
  function CurrentWorkspace(organization: string, dataId: Option<string>): string {
    var parts := ParseDataId(dataId);
    Lower(if parts.Some? then parts.value.0 else organization)
  }

  /** The schemas to look into, in order. */
  function Candidates(
    datastores: Datastores, useOrgSchema: bool, organization: string, workspace: string): seq<string>
  {
    var read := SchemaRead(datastores, DatastoreOf(workspace));
    (if read.Some? && read.value != "" then [read.value] else [])
    + [DataSchema(useOrgSchema, organization), DEFAULT_DATA_SCHEMA, workspace]
  }

  function FirstWith(tables: set<TableKey>, table: string, schemas: seq<string>): Option<string> {
    if schemas == [] then None
    else if schemas[0] != "" && (schemas[0], table) in tables then Some(schemas[0])
    else FirstWith(tables, table, schemas[1..])
  }

  function Located(
    tables: set<TableKey>, datastores: Datastores, useOrgSchema: bool, organization: string, workspace: string,
    table: string)
    : Option<string>
  {
    FirstWith(tables, table, Candidates(datastores, useOrgSchema, organization, workspace))
  }

  lemma {:induction false} FirstWithIsThere(tables: set<TableKey>, table: string, schemas: seq<string>)
    ensures var r := FirstWith(tables, table, schemas);
      r.Some? ==> r.value != "" && (r.value, table) in tables
  {
    if schemas != [] {
      FirstWithIsThere(tables, table, schemas[1..]);
    }
  }

  /** `_locate_final_table`. */
  method LocateFinalTable(world: World, link: DatasetLink, workspace: string) returns (r: Result<Option<string>, Error>)
    modifies world`faults
    ensures r.Ok? ==>
      r.value == Located(world.tables, world.datastores, world.useOrgSchema, link.organization, workspace,
        link.finalTable)
    ensures world.faults == old(world.faults) + (if r.Err? then 1 else 0)
  {
    var read := world.GetDatastoreSchema(DatastoreOf(workspace));
    if read.Err? {
      return Err(read.error);
    }
    var schemas :=
      (if read.value.Some? && read.value.value != "" then [read.value.value] else [])
      + [DataSchema(world.useOrgSchema, link.organization), DEFAULT_DATA_SCHEMA, workspace];
    for i := 0 to |schemas|
      invariant FirstWith(world.tables, link.finalTable, schemas)
        == FirstWith(world.tables, link.finalTable, schemas[i..])
      invariant world.faults == old(world.faults)
    {
      if schemas[i] != "" {
        var found := world.TableExists((schemas[i], link.finalTable));
        if found.Err? {
          return Err(found.error);
        }
        if found.value {
          return Ok(Some(schemas[i]));
        }
      }
      assert schemas[i..][1..] == schemas[i + 1..];
    }
    return Ok(None);
  }

  lemma FirstWithOne(tables: set<TableKey>, table: string, schema: string, rest: seq<string>)
    ensures FirstWith(tables, table, [schema] + rest)
      == if schema != "" && (schema, table) in tables then Some(schema) else FirstWith(tables, table, rest)
  {
    TailOf(schema, rest);
  }

  /** The schema of a table: the first, of four, that holds it. */
  lemma LocatedExactly(
    tables: set<TableKey>, datastores: Datastores, useOrgSchema: bool, organization: string, workspace: string,
    table: string)
    ensures
      var read := SchemaRead(datastores, (workspace, workspace + "_ds"));
      var own := if useOrgSchema then Lower(organization) else "data";
      Located(tables, datastores, useOrgSchema, organization, workspace, table)
      == if read.Some? && read.value != "" && (read.value, table) in tables then read
         else if own != "" && (own, table) in tables then Some(own)
         else if ("data", table) in tables then Some("data")
         else if workspace != "" && (workspace, table) in tables then Some(workspace)
         else None
  {
    var read := SchemaRead(datastores, DatastoreOf(workspace));
    var own := DataSchema(useOrgSchema, organization);
    FirstWithOne(tables, table, workspace, []);
    FirstWithOne(tables, table, DEFAULT_DATA_SCHEMA, [workspace] + []);
    FirstWithOne(tables, table, own, [DEFAULT_DATA_SCHEMA] + ([workspace] + []));
    var last := [own] + ([DEFAULT_DATA_SCHEMA] + ([workspace] + []));
    assert last == [own, DEFAULT_DATA_SCHEMA, workspace];
    if read.Some? && read.value != "" {
      FirstWithOne(tables, table, read.value, last);
    } else {
      assert [] + last == last;
    }
  }

  /** The workspace is that of the data id, when the dataset has one, else that of the organization. */
  lemma CurrentWorkspaceExactly(organization: string, workspace: string, layer: string)
    requires ':' !in workspace
    ensures CurrentWorkspace(organization, Some(workspace + ":" + layer)) == Lower(workspace)
    ensures CurrentWorkspace(organization, None) == Lower(organization)
    ensures CurrentWorkspace(organization, Some(workspace)) == Lower(organization)
  {
    DataIdReadsBack(workspace, layer);
  }

  // ---- The steps ----

  predicate InvalidSchema(schema: string) { ValidateIdentifier(schema, PG_IDENTIFIER_MAX_LENGTH).Err? }

  lemma InvalidExactly(schema: string)
    ensures InvalidSchema(schema) <==> !IsAccepted(schema)
  {
    ValidatedExactly(schema, PG_IDENTIFIER_MAX_LENGTH);
  }

  /** `_move_table`. Nothing moves within one schema; every other attempt is recorded with its outcome. */
  method MoveTable(world: World, table: string, from: string, to: string) returns (ok: bool)
    modifies world`tables, world`log, world`faults
    ensures ok ==> if from == to then world.tables == old(world.tables)
                   else (from, table) in old(world.tables) && (to, table) !in old(world.tables)
                        && world.tables == old(world.tables) - {(from, table)} + {(to, table)}
    ensures !ok ==> world.tables == old(world.tables) && from != to
    ensures world.log == old(world.log) + [Attempt(table, from, to, ok)]
    ensures ok ==> world.faults == old(world.faults) && (from == to || !(InvalidSchema(from) || InvalidSchema(to)))
    ensures world.faults >= old(world.faults)
    ensures !ok ==>
      || world.faults > old(world.faults) || InvalidSchema(from) || InvalidSchema(to)
      || (from, table) !in world.tables || (to, table) in world.tables
  {
    if from == to {
      ok := true;
    } else if InvalidSchema(from) || InvalidSchema(to) {
      ok := false;
    } else {
      ok := world.Call(); // the target schema is created
      if ok {
        ok := world.AlterSchema(table, from, to);
      }
    }
    world.log := world.log + [Attempt(table, from, to, ok)];
  }

  /** `publish_table` in the datastore of the workspace of the organization. */
  method PublishTable(world: World, link: DatasetLink, schema: string) returns (ok: bool)
    modifies world`datastores, world`layers, world`faults, link`dataId
    ensures var workspace := Lower(link.organization);
      && world.datastores in {old(world.datastores), WithDatastore(old(world.datastores), workspace, schema)}
      && world.layers in {old(world.layers), old(world.layers) + {LayerMade(workspace, link.finalTable)}}
      && (ok ==>
            && link.dataId == Some(MakeDataId(workspace, link.finalTable))
            && LayerMade(workspace, link.finalTable) in world.layers
            && world.datastores == WithDatastore(old(world.datastores), workspace, schema)
            && Reads(old(world.datastores), workspace, schema))
      && (if ok then world.faults == old(world.faults) else world.faults >= old(world.faults))
      && (!ok ==> world.faults > old(world.faults) || !Reads(old(world.datastores), workspace, schema))
    ensures !ok ==> link.dataId == old(link.dataId)
  {
    var workspace := Lower(link.organization);
    var read := world.GetDatastoreSchema(DatastoreOf(workspace));
    if read.Err? {
      return false;
    }
    if read.value.None? {
      var created := world.CreateWorkspace(workspace, workspace + "_ds", schema);
      if !created {
        return false;
      }
    } else if read.value.value != schema {
      return false;
    }
    var published := world.CreateLayer(workspace, workspace + "_ds", link.finalTable);
    if !published {
      return false;
    }
    link.dataId := Some(MakeDataId(workspace, link.finalTable));
    return true;
  }

  // ---- The move ----

  /** Everything a move may change. */
  datatype State = State(
    tables: set<TableKey>, datastores: Datastores, layers: set<LayerKey>, log: seq<Event>, faults: nat,
    organization: string, dataId: Option<string>)

  ghost function StateOf(world: World, link: DatasetLink): State
    reads world, link
  {
    State(world.tables, world.datastores, world.layers, world.log, world.faults, link.organization, link.dataId)
  }

  /** Table and layer are already where the new organization wants them. */
  predicate NothingToMove(
    tables: set<TableKey>, datastores: Datastores, useOrgSchema: bool, organization: string, dataId: Option<string>,
    table: string, newOrganization: string)
  {
    var workspace := CurrentWorkspace(organization, dataId);
    && workspace == Lower(newOrganization)
    && Located(tables, datastores, useOrgSchema, organization, workspace, table)
         == Some(DataSchema(useOrgSchema, Lower(newOrganization)))
  }

  datatype MoveResult = Moved | Raised(status: nat, stranded: bool)

  /** The table, and it alone, has gone from one schema to the other. */
  predicate TableMoved(tables: set<TableKey>, now: set<TableKey>, table: string, from: string, to: string) {
    && (from, table) in tables
    && (from != to ==> (to, table) !in tables)
    && now == tables - {(from, table)} + {(to, table)}
  }

  /**
   What was tried: the move alone, or the move and, after it, the move back. The table is stranded in
   the new schema only when the move back was tried and refused.
   */
  predicate Tried(r: MoveResult, log: seq<Event>, now: seq<Event>, table: string, from: string, to: string) {
    match r
    case Moved => now == log + [Attempt(table, from, to, true)]
    case Raised(status, true) =>
      status == 502 && now == log + [Attempt(table, from, to, true), Attempt(table, to, from, false)]
    case Raised(status, false) =>
      || (status == 500 && now == log + [Attempt(table, from, to, false)])
      || (status == 502 && now == log + [Attempt(table, from, to, true), Attempt(table, to, from, true)])
  }

  /** No layer appears but the new one, and none disappears but the one that is left. */
  predicate LayersChange(layers: set<LayerKey>, now: set<LayerKey>, current: string, workspace: string, table: string) {
    && now <= layers + {LayerMade(workspace, table)}
    && layers <= now + {LayerOf(current, table)}
  }

  /** A table cannot go between two schemas unless both have the names of identifiers. */
  predicate Unnamed(from: string, to: string) { from != to && (InvalidSchema(from) || InvalidSchema(to)) }

  /** What the checks look for: the datastore reads the schema, and the names are free. */
  predicate TargetIsFree(s: State, table: string, from: string, current: string, to: string, workspace: string) {
    && Reads(s.datastores, workspace, to)
    && (from != to ==> (to, table) !in s.tables)
    && (current != workspace ==> LayerOf(workspace, table) !in s.layers)
  }

  /** How the steps end that follow the checks. */
  ghost predicate Carried(
    r: MoveResult, s: State, now: State, table: string, newOrganization: string, from: string, current: string,
    to: string)
  {
    var workspace := Lower(newOrganization);
    && Tried(r, s.log, now.log, table, from, to)
    && (r.Moved? || r.stranded ==> TableMoved(s.tables, now.tables, table, from, to))
    && (r.Raised? && !r.stranded ==> now.tables == s.tables)
    && (r.Raised? ==>
          && now.organization == s.organization && now.dataId == s.dataId && s.layers <= now.layers
          && (now.faults > s.faults || Unnamed(from, to)))
    && (r.Moved? ==>
          && now.organization == newOrganization && !Unnamed(from, to)
          && now.dataId == if current == workspace then s.dataId else Some(MakeDataId(workspace, table)))
    && LayersChange(s.layers, now.layers, current, workspace, table)
    && (current == workspace ==> now.layers == s.layers && now.datastores == s.datastores)
    && (r.Moved? && current != workspace ==>
          && LayerMade(workspace, table) in now.layers
          && now.datastores == WithDatastore(s.datastores, workspace, to)
          && (now.faults == s.faults ==> LayerOf(current, table) !in now.layers))
    && now.datastores in {s.datastores, WithDatastore(s.datastores, workspace, to)}
  }

  /** Where a move that goes on starts from: under Airflow the runs of the dataset are cancelled first. */
  ghost function Started(s: State, useAirflow: bool): State {
    if useAirflow then s.(log := s.log + [RunsCancelled]) else s
  }

  /** How a move ends: stopped before anything changed, without need to move, or carried out. */
  ghost predicate MoveOutcome(
    r: MoveResult, s: State, now: State, useOrgSchema: bool, useAirflow: bool, table: string, newOrganization: string)
  {
    var current, workspace := CurrentWorkspace(s.organization, s.dataId), Lower(newOrganization);
    var located := Located(s.tables, s.datastores, useOrgSchema, s.organization, current, table);
    var schema := DataSchema(useOrgSchema, workspace);
    var nothing := located == Some(schema) && current == workspace;
    var free := located.Some? && TargetIsFree(s, table, located.value, current, schema, workspace);
    || (r.Raised? && !r.stranded && now == s.(faults := now.faults) && (now.faults == s.faults ==> r.status == 409)
        && (now.faults > s.faults || located.None? || (!nothing && !free)))
    || (r.Moved? && nothing && now == s.(organization := newOrganization))
    || (!nothing && free
        && Carried(r, Started(s, useAirflow), now, table, newOrganization, located.value, current, schema))
  }

  /** The move of a table, and the move back. */
  lemma ThereAndBack(tables: set<TableKey>, table: string, from: string, to: string)
    requires (from, table) in tables
    ensures from == to ==> TableMoved(tables, tables, table, from, to)
    ensures from != to && (to, table) !in tables ==>
      var now := tables - {(from, table)} + {(to, table)};
      TableMoved(tables, now, table, from, to) && now - {(to, table)} + {(from, table)} == tables
  {
  }

  /** The layer that is left is never the one just made: their datastores differ. */
  lemma LayersDiffer(current: string, workspace: string, table: string)
    requires current != workspace
    ensures LayerMade(workspace, table) != LayerOf(current, table)
  {
    var a, b := current + "_ds", workspace + "_ds";
    assert a[..|a| - 3] == current && b[..|b| - 3] == workspace;
  }

  /** What publishing and its follow-up may do to the layers and the datastores. */
  ghost predicate Published(
    moved: bool, s: State, now: State, table: string, current: string, to: string, workspace: string)
  {
    && LayersChange(s.layers, now.layers, current, workspace, table)
    && (!moved ==> s.layers <= now.layers && now.faults > s.faults)
    && (moved ==>
          && LayerMade(workspace, table) in now.layers
          && now.datastores == WithDatastore(s.datastores, workspace, to)
          && (now.faults == s.faults ==> LayerOf(current, table) !in now.layers))
    && now.datastores in {s.datastores, WithDatastore(s.datastores, workspace, to)}
    && now.faults >= s.faults
  }

  /** How the publication of a table that has moved ends, and the move back when it fails. */
  ghost predicate PublishedOrBack(
    r: MoveResult, s: State, now: State, table: string, oldOrganization: string, from: string, current: string,
    to: string)
  {
    && Published(r.Moved?, s, now, table, current, to, Lower(s.organization))
    && if r.Moved? then
         && now.tables == s.tables && now.log == s.log && now.organization == s.organization
         && now.dataId == Some(MakeDataId(Lower(s.organization), table))
       else
         && r.status == 502 && now.organization == oldOrganization && now.dataId == s.dataId
         && now.log == s.log + [Attempt(table, to, from, !r.stranded)]
         && now.tables == if r.stranded || from == to then s.tables else s.tables - {(to, table)} + {(from, table)}
  }

  /** The table is in its new schema: publish it, and move it back when that fails. */
  method PublishOrMoveBack(
    world: World, link: DatasetLink, oldOrganization: string, from: string, current: string, to: string)
    returns (r: MoveResult)
    requires current != Lower(link.organization) && Reads(world.datastores, Lower(link.organization), to)
    modifies world, link
    ensures PublishedOrBack(r, old(StateOf(world, link)), StateOf(world, link), link.finalTable, oldOrganization,
      from, current, to)
  {
    var published := world.Call(); // the extent of the table
    if published {
      published := PublishTable(world, link, to);
    }
    if !published {
      link.organization := oldOrganization;
      var restored := MoveTable(world, link.finalTable, to, from);
      return Raised(502, !restored);
    }
    LayersDiffer(current, Lower(link.organization), link.finalTable);
    world.DeleteLayer(LayerOf(current, link.finalTable));
    return Moved;
  }

  /** The move of the table, then its publication: together, how the steps end. */
  lemma MovedThenPublished(
    r: MoveResult, s: State, at: State, now: State, table: string, newOrganization: string, from: string,
    current: string, to: string)
    requires (from, table) in s.tables && (from != to ==> (to, table) !in s.tables) && !Unnamed(from, to)
    requires at == s.(tables := if from == to then s.tables else s.tables - {(from, table)} + {(to, table)},
                      log := s.log + [Attempt(table, from, to, true)], organization := newOrganization)
    requires current != Lower(newOrganization)
    requires PublishedOrBack(r, at, now, table, s.organization, from, current, to)
    ensures Carried(r, s, now, table, newOrganization, from, current, to)
  {
    ThereAndBack(s.tables, table, from, to);
    if r.Raised? {
      Associates(s.log, [Attempt(table, from, to, true)], [Attempt(table, to, from, !r.stranded)]);
    }
  }

  /** The steps that follow the checks. */
  method CarryOut(
    world: World, link: DatasetLink, newOrganization: string,
    currentSchema: string, currentWs: string, newSchema: string) returns (r: MoveResult)
    requires (currentSchema, link.finalTable) in world.tables
    requires TargetIsFree(StateOf(world, link), link.finalTable, currentSchema, currentWs, newSchema,
      Lower(newOrganization))
    modifies world, link
    ensures Carried(r, old(StateOf(world, link)), StateOf(world, link), link.finalTable, newOrganization,
                    currentSchema, currentWs, newSchema)
  {
    var oldOrganization, table := link.organization, link.finalTable;
    ghost var s := StateOf(world, link);
    var moved := MoveTable(world, table, currentSchema, newSchema);
    if !moved {
      return Raised(500, false);
    }
    link.organization := newOrganization;
    if currentWs == Lower(newOrganization) {
      ThereAndBack(s.tables, table, currentSchema, newSchema);
      return Moved;
    }
    ghost var at := StateOf(world, link);
    r := PublishOrMoveBack(world, link, oldOrganization, currentSchema, currentWs, newSchema);
    MovedThenPublished(r, s, at, StateOf(world, link), table, newOrganization, currentSchema, currentWs, newSchema);
  }

  /** `_move_dataset`. */
  method MoveDataset(world: World, link: DatasetLink, newOrganization: string, useAirflow: bool) returns (r: MoveResult)
    modifies world, link
    ensures MoveOutcome(r, old(StateOf(world, link)), StateOf(world, link), world.useOrgSchema, useAirflow,
      link.finalTable, newOrganization)
  {
    var table := link.finalTable;
    var currentWs, newWs := CurrentWorkspace(link.organization, link.dataId), Lower(newOrganization);
    var located := LocateFinalTable(world, link, currentWs);
    if located.Err? {
      return Raised(500, false);
    }
    var newSchema := DataSchema(world.useOrgSchema, newWs);
    if located.value.None? {
      return Raised(409, false);
    }
    var currentSchema := located.value.value;
    FirstWithIsThere(world.tables, table,
      Candidates(world.datastores, world.useOrgSchema, link.organization, currentWs));
    if currentSchema == newSchema && currentWs == newWs {
      link.organization := newOrganization;
      return Moved;
    }
    var error := CheckTarget(world, link, currentSchema, currentWs, newSchema, newWs);
    if error.Some? {
      return Raised(error.value, false);
    }
    if useAirflow {
      var cancelled := world.CancelRuns();
      if !cancelled {
        return Raised(502, false);
      }
    }
    r := CarryOut(world, link, newOrganization, currentSchema, currentWs, newSchema);
  }

  /**
   All or nothing. A move that raises leaves the table, the organization and the data id as they were,
   unless the move back was tried and refused; a move that succeeds leaves the one table in the new
   schema, and its layer in the new workspace, whose datastore reads that schema. No other table or
   layer changes; no datastore is repointed unless GeoServer gives the workspace another name and a
   datastore under that name reads another schema. Under Airflow no table moves before the runs of the
   dataset are cancelled.
   */
  lemma MoveIsAllOrNothing(
    r: MoveResult, s: State, now: State, useOrgSchema: bool, useAirflow: bool, table: string, newOrganization: string)
    requires MoveOutcome(r, s, now, useOrgSchema, useAirflow, table, newOrganization)
    ensures r.Raised? ==> now.organization == s.organization && now.dataId == s.dataId
    ensures r.Raised? && !r.stranded ==> now.tables == s.tables
    ensures
      var current := CurrentWorkspace(s.organization, s.dataId);
      var located := Located(s.tables, s.datastores, useOrgSchema, s.organization, current, table);
      var schema := DataSchema(useOrgSchema, Lower(newOrganization));
      && (r.Moved? || r.stranded ==>
            && located.Some? && (located.value, table) in s.tables
            && (located.value != schema ==> (schema, table) !in s.tables)
            && now.tables == s.tables - {(located.value, table)} + {(schema, table)})
      && (r.Raised? && r.stranded ==>
            now.log == Started(s, useAirflow).log
              + [Attempt(table, located.value, schema, true), Attempt(table, schema, located.value, false)])
    ensures r.Raised? && now.faults == s.faults && now.log == s.log ==> r.status == 409
    ensures now.tables != s.tables ==> Started(s, useAirflow).log <= now.log
    ensures r.Moved? ==> now.organization == newOrganization
    ensures
      var current, workspace := CurrentWorkspace(s.organization, s.dataId), Lower(newOrganization);
      r.Moved? && current != workspace ==>
        && (workspace, workspace + "_ds", table) !in s.layers
        && SchemaRead(s.datastores, (workspace, workspace + "_ds"))
             in {None, Some(DataSchema(useOrgSchema, workspace))}
    ensures
      var current, workspace := CurrentWorkspace(s.organization, s.dataId), Lower(newOrganization);
      && now.layers - s.layers <= {(GeoServerName(workspace), workspace + "_ds", GeoServerName(table))}
      && s.layers - now.layers <= {(current, current + "_ds", table)}
      && (r.Raised? ==> s.layers <= now.layers)
      && (r.Moved? && current != workspace ==>
            LayerMade(workspace, table) in now.layers && now.dataId == Some(MakeDataId(workspace, table)))
    ensures
      var current, workspace := CurrentWorkspace(s.organization, s.dataId), Lower(newOrganization);
      var schema := DataSchema(useOrgSchema, workspace);
      && (r.Moved? && current != workspace ==>
            || SchemaRead(s.datastores, DatastoreOf(workspace)) == Some(schema)
            || SchemaRead(now.datastores, (GeoServerName(workspace), workspace + "_ds")) == Some(schema))
      && OnlyCreates(s.datastores, now.datastores, workspace)
      && (!WouldRepoint(s.datastores, workspace, schema) ==> NoneRepointed(s.datastores, now.datastores))
      && (r.Moved? && current != workspace && WouldRepoint(s.datastores, workspace, schema) ==>
            !NoneRepointed(s.datastores, now.datastores))
  {
    var current := CurrentWorkspace(s.organization, s.dataId);
    FirstWithIsThere(s.tables, table, Candidates(s.datastores, useOrgSchema, s.organization, current));
    var schema := DataSchema(useOrgSchema, Lower(newOrganization));
    RepointedExactly(s.datastores, Lower(newOrganization), schema);
    if (schema, table) in s.tables {
      ThereAndBack(s.tables, table, schema, schema);
    }
  }

  /**
   When no call fails, a move raises if and only if the table is nowhere, or it has to go somewhere and the
   datastore there reads another schema, a table or a layer of its name is there, or a schema it goes
   between has no valid name.
   */
  lemma MoveSucceedsExactly(
    r: MoveResult, s: State, now: State, useOrgSchema: bool, useAirflow: bool, table: string, newOrganization: string)
    requires MoveOutcome(r, s, now, useOrgSchema, useAirflow, table, newOrganization) && now.faults == s.faults
    ensures
      var current, workspace := CurrentWorkspace(s.organization, s.dataId), Lower(newOrganization);
      var located := Located(s.tables, s.datastores, useOrgSchema, s.organization, current, table);
      var schema := DataSchema(useOrgSchema, workspace);
      var read := SchemaRead(s.datastores, (workspace, workspace + "_ds"));
      r.Raised?
      <==> || located.None?
           || (located.value != schema
               && ((schema, table) in s.tables || !IsAccepted(located.value) || !IsAccepted(schema)))
           || (current != workspace && (workspace, workspace + "_ds", table) in s.layers)
           || ((located.value != schema || current != workspace) && read.Some? && read.value != schema)
  {
    hide IsAccepted, InvalidSchema, Located, CurrentWorkspace, DataSchema, Lower;
    var current := CurrentWorkspace(s.organization, s.dataId);
    var located := Located(s.tables, s.datastores, useOrgSchema, s.organization, current, table);
    if located.Some? {
      InvalidExactly(located.value);
    }
    InvalidExactly(DataSchema(useOrgSchema, Lower(newOrganization)));
    var workspace := Lower(newOrganization);
    var schema := DataSchema(useOrgSchema, workspace);
    var read := SchemaRead(s.datastores, (workspace, workspace + "_ds"));
    assert located.Some? ==> (TargetIsFree(s, table, located.value, current, schema, workspace) <==>
      && !(read.Some? && read.value != schema) && !(located.value != schema && (schema, table) in s.tables)
      && !(current != workspace && (workspace, workspace + "_ds", table) in s.layers));
  }

  /** The checks made before anything changes. */
  method CheckTarget(
    world: World, link: DatasetLink, currentSchema: string, currentWs: string, newSchema: string, newWs: string)
    returns (error: Option<nat>)
    modifies world`faults
    ensures error.None? ==> world.faults == old(world.faults)
    ensures error.Some? && world.faults == old(world.faults) ==> error == Some(409)
    ensures error.Some? && world.faults == old(world.faults)
        ==> !TargetIsFree(StateOf(world, link), link.finalTable, currentSchema, currentWs, newSchema, newWs)
    ensures error.None?
        ==> TargetIsFree(StateOf(world, link), link.finalTable, currentSchema, currentWs, newSchema, newWs)
    ensures world.faults >= old(world.faults)
  {
    var table := link.finalTable;
    var read := world.GetDatastoreSchema(DatastoreOf(newWs));
    if read.Err? {
      return Some(500);
    }
    if read.value.Some? && read.value.value != newSchema {
      return Some(409);
    }
    if currentSchema != newSchema {
      var taken := world.TableExists((newSchema, table));
      if taken.Err? {
        return Some(500);
      }
      if taken.value {
        return Some(409);
      }
    }
    if currentWs != newWs {
      var taken := world.LayerExists(LayerOf(newWs, table));
      if taken.Err? {
        return Some(500);
      }
      if taken.value {
        return Some(409);
      }
    }
    return None;
  }

  /**
   When there is nothing to move, the datastore of the workspace is not checked: it may read another
   schema, the table not being there.
   */
  lemma UncheckedDatastore()
    ensures var tables: set<TableKey> := {("data", "t")};
      var datastores: Datastores := map[("b", "b_ds") := Some("other")];
      && NothingToMove(tables, datastores, false, "a", Some("b:t"), "t", "b")
      && !Reads(datastores, "b", DataSchema(false, "b"))
  {
    var tables: set<TableKey> := {("data", "t")};
    var datastores: Datastores := map[("b", "b_ds") := Some("other")];
    DataIdReadsBack("b", "t");
    assert MakeDataId("b", "t") == "b:t";
    assert Lower("b") == "b";
    assert "b" + "_ds" == "b_ds";
    assert DatastoreOf("b") == ("b", "b_ds");
    assert Candidates(datastores, false, "a", "b") == ["other", "data", "data", "b"];
    assert ["other", "data", "data", "b"][1..] == ["data", "data", "b"];
    assert "other" != "data";
  }

  /**
   When there is nothing to move, that datastore reads the schema of the table exactly when it reads none
   or reads one that holds the table.
   */
  lemma CheckedExactly(tables: set<TableKey>, datastores: Datastores, useOrgSchema: bool, organization: string,
                       dataId: Option<string>, table: string, newOrganization: string)
    requires NothingToMove(tables, datastores, useOrgSchema, organization, dataId, table, newOrganization)
    ensures var schema := DataSchema(useOrgSchema, Lower(newOrganization));
      Reads(datastores, Lower(newOrganization), schema)
      <==> var read := SchemaRead(datastores, DatastoreOf(Lower(newOrganization)));
           read.None? || (read.value != "" && (read.value, table) in tables)
  {
    var workspace := CurrentWorkspace(organization, dataId);
    var schemas := Candidates(datastores, useOrgSchema, organization, workspace);
    FirstWithIsThere(tables, table, schemas);
    var read := SchemaRead(datastores, DatastoreOf(workspace));
    if read.Some? && read.value != "" && (read.value, table) in tables {
      assert schemas[0] == read.value;
    }
  }

  /**
   The layer a move creates is the one the dataset records exactly when GeoServer keeps both names:
   they are identifiers within the length, and neither ends with an underscore.
   */
  lemma RecordedLayerExactly(organization: string, table: string)
    requires organization != "" && table != ""
    ensures (GeoServerName(organization), GeoServerName(table)) == (organization, table)
       <==> KeptByGeoServer(organization) && KeptByGeoServer(table)
  {
    SanitizeFixesExactly(organization, PG_IDENTIFIER_MAX_LENGTH);
    SanitizeFixesExactly(table, PG_IDENTIFIER_MAX_LENGTH);
  }

  predicate KeptByGeoServer(name: string) {
    IsIdentifier(name) && |name| <= PG_IDENTIFIER_MAX_LENGTH && name[|name| - 1] != '_'
  }

  /** A 55-character title that is cut right after an underscore: a valid table name, and another layer name. */
  lemma TitleCutAfterUnderscore(start: string)
    requires IsIdentifier(start) && |start| == POSTGIS_TABLE_NAME_MAX_LENGTH - 1
    ensures
      var table := SanitizeName(start + "_b", POSTGIS_TABLE_NAME_MAX_LENGTH);
      && table == start + "_" && ValidateIdentifier(table, POSTGIS_TABLE_NAME_MAX_LENGTH).Ok?
      && GeoServerName(table) != table
  {
    var title, table := start + "_b", start + "_";
    assert IsIdentifier(title) && IsIdentifier(table);
    SanitizedIdentifier(title, POSTGIS_TABLE_NAME_MAX_LENGTH);
    assert title[..POSTGIS_TABLE_NAME_MAX_LENGTH] == table;
    ValidatedExactly(table, POSTGIS_TABLE_NAME_MAX_LENGTH);
    SanitizeFixesExactly(table, PG_IDENTIFIER_MAX_LENGTH);
  }
}
