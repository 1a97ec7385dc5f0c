/**
 The listing of datasets (integrity_links.py): rows come from one database in batches, the tables
 that decide which rows are listed are looked up in another, and pages must still be exact.
 */
module IntegrityLinks {
  import opened Wrappers
  import opened Sequences
  import opened DataSchemas
  import opened Text

  const BATCH_SIZE: nat := 100

  datatype ImportType = Url | File | Database | Api | Ftp | Empty | Prefilled | DirectAccess

  /** The fields of a dataset that decide whether it is listed; `id` tells rows apart. */
  datatype Link = Link(
    id: nat,
    importType: ImportType,
    stagingTable: Option<string>,
    finalTable: Option<string>,
    organization: string)

  /** What `information_schema.tables` holds, and how schemas are named. */
  datatype DataTables = DataTables(
    staging: set<string>,                // tables of the staging schema
    final: set<(string, string)>,        // (schema, table) of every other schema
    useOrgSchema: bool)

  /** A name that is present and not empty. */
  predicate HasName(name: Option<string>) { name.Some? && name.value != "" }

  // ---- The existence checks of one batch ----

  /** `_check_staging_existence`. */
  method CheckStagingExistence(links: seq<Link>, data: DataTables) returns (found: set<string>)
    ensures found == StagingFound(links, data)
  {
    var candidates := set i | 0 <= i < |links| && HasName(links[i].stagingTable) :: links[i].stagingTable.value;
    assert forall i | 0 <= i < |links| && HasName(links[i].stagingTable) :: links[i].stagingTable.value in candidates;
    if candidates == {} {
      return {};
    }
    found := set name | name in candidates && name in data.staging;
  }

  function StagingFound(links: seq<Link>, data: DataTables): set<string> {
    set i | 0 <= i < |links| && HasName(links[i].stagingTable) && links[i].stagingTable.value in data.staging
      :: links[i].stagingTable.value
  }

  /** `_check_final_existence`: candidates grouped by schema, then one query per schema. */
  method CheckFinalExistence(links: seq<Link>, data: DataTables) returns (existing: set<(string, string)>)
    ensures existing == FinalFound(links, data)
  {
    var bySchema: map<string, set<string>> := map[];
    for i := 0 to |links|
      invariant forall schema, name ::
        InGroup(bySchema, schema, name) <==> IsCandidate(links[..i], data, schema, name)
    {
      ghost var done := links[..i];
      assert links[..i + 1] == done + [links[i]];
      ghost var before := bySchema;
      if HasName(links[i].finalTable) {
        var schema := DataSchema(data.useOrgSchema, links[i].organization);
        var names := if schema in bySchema then bySchema[schema] else {};
        bySchema := bySchema[schema := names + {links[i].finalTable.value}];
      }
      forall schema, name
        ensures InGroup(bySchema, schema, name) <==> IsCandidate(links[..i + 1], data, schema, name)
      {
        OneMoreCandidate(done, links[i], data, schema, name);
        assert InGroup(before, schema, name) <==> IsCandidate(done, data, schema, name);
      }
    }
    assert links[..|links|] == links;

    existing := {};
    var schemas := bySchema.Keys;
    while schemas != {}
      invariant schemas <= bySchema.Keys
      invariant forall schema, name ::
        (schema, name) in existing <==>
        InGroup(bySchema, schema, name) && schema !in schemas && (schema, name) in data.final
    {
      var schema :| schema in schemas;
      var found := set name | name in bySchema[schema] && (schema, name) in data.final;
      existing := existing + set name | name in found :: (schema, name);
      schemas := schemas - {schema};
    }
    FinalFoundMembers(links, data);
    assert existing == FinalFound(links, data) by {
      forall t: (string, string) ensures t in existing <==> t in FinalFound(links, data) {
        assert t == (t.0, t.1);
      }
    }
  }

  predicate InGroup(bySchema: map<string, set<string>>, schema: string, name: string) {
    schema in bySchema && name in bySchema[schema]
  }

  predicate CandidateOf(link: Link, data: DataTables, schema: string, name: string) {
    HasName(link.finalTable) && DataSchema(data.useOrgSchema, link.organization) == schema
      && link.finalTable.value == name
  }

  predicate IsCandidate(links: seq<Link>, data: DataTables, schema: string, name: string) {
    exists i | 0 <= i < |links| :: CandidateOf(links[i], data, schema, name)
  }

  lemma OneMoreCandidate(links: seq<Link>, link: Link, data: DataTables, schema: string, name: string)
    ensures IsCandidate(links + [link], data, schema, name)
       <==> IsCandidate(links, data, schema, name) || CandidateOf(link, data, schema, name)
  {
    if i :| 0 <= i < |links| && CandidateOf(links[i], data, schema, name) {
      assert CandidateOf((links + [link])[i], data, schema, name);
    }
    if CandidateOf(link, data, schema, name) {
      assert CandidateOf((links + [link])[|links|], data, schema, name);
    }
  }

  function FinalFound(links: seq<Link>, data: DataTables): set<(string, string)> {
    set i | 0 <= i < |links| && HasName(links[i].finalTable)
      && (DataSchema(data.useOrgSchema, links[i].organization), links[i].finalTable.value) in data.final
      :: (DataSchema(data.useOrgSchema, links[i].organization), links[i].finalTable.value)
  }

  lemma FinalFoundMembers(links: seq<Link>, data: DataTables)
    ensures forall schema, name ::
      (schema, name) in FinalFound(links, data)
      <==> IsCandidate(links, data, schema, name) && (schema, name) in data.final
  {
    forall schema, name
      ensures (schema, name) in FinalFound(links, data)
        <==> IsCandidate(links, data, schema, name) && (schema, name) in data.final
    {
      if IsCandidate(links, data, schema, name) {
        var i :| 0 <= i < |links| && CandidateOf(links[i], data, schema, name);
        assert (schema, name) == (DataSchema(data.useOrgSchema, links[i].organization), links[i].finalTable.value);
      }
      if (schema, name) in FinalFound(links, data) {
        var i :| 0 <= i < |links| && HasName(links[i].finalTable)
          && (DataSchema(data.useOrgSchema, links[i].organization), links[i].finalTable.value) == (schema, name);
        assert CandidateOf(links[i], data, schema, name);
      }
    }
  }

  /** `_final_table_exists`. */
  predicate FinalTableExists(link: Link, data: DataTables, existing: set<(string, string)>) {
    HasName(link.finalTable) && (DataSchema(data.useOrgSchema, link.organization), link.finalTable.value) in existing
  }

  /** `_is_listed`. */
  predicate IsListed(link: Link, data: DataTables, staging: set<string>, existing: set<(string, string)>) {
    || link.importType in {Empty, Prefilled, DirectAccess}
    || (HasName(link.stagingTable) && link.stagingTable.value in staging)
    || FinalTableExists(link, data, existing)
  }

  // ---- Listedness belongs to the link, not to the batch ----

  /** The final table of the dataset is in its schema. */
  predicate HasFinal(link: Link, data: DataTables) {
    && link.finalTable.Some? && link.finalTable.value != ""
    && (if data.useOrgSchema then Lower(link.organization) else "data", link.finalTable.value) in data.final
  }

  /** The datasets that the listing keeps: those that need no table, and those that have one. */
  predicate Listed(link: Link, data: DataTables) {
    || link.importType == Empty || link.importType == Prefilled || link.importType == DirectAccess
    || (link.stagingTable.Some? && link.stagingTable.value != "" && link.stagingTable.value in data.staging)
    || HasFinal(link, data)
  }

  /** Whatever batch the checks ran on, a link of the batch is judged as on the whole database. */
  lemma ListednessIgnoresTheBatch(links: seq<Link>, i: nat, data: DataTables)
    requires i < |links|
    ensures IsListed(links[i], data, StagingFound(links, data), FinalFound(links, data)) <==> Listed(links[i], data)
    ensures FinalTableExists(links[i], data, FinalFound(links, data)) <==> HasFinal(links[i], data)
  {
    if HasName(links[i].stagingTable) && links[i].stagingTable.value in data.staging {
      assert links[i].stagingTable.value in StagingFound(links, data);
    }
    if HasFinal(links[i], data) {
      var schema := DataSchema(data.useOrgSchema, links[i].organization);
      assert (schema, links[i].finalTable.value) in FinalFound(links, data);
    }
  }

  // ---- One page ----

  datatype Entry = Entry(link: Link, hasFinal: bool, index: nat)

  /** The listed rows from `lo` to `hi`, with their index among all rows. */
  function Entries(rows: seq<Link>, data: DataTables, lo: nat, hi: nat): seq<Entry>
    requires lo <= hi <= |rows|
    decreases hi
  {
    if lo == hi then []
    else
      Entries(rows, data, lo, hi - 1)
      + (if Listed(rows[hi - 1], data) then [Entry(rows[hi - 1], HasFinal(rows[hi - 1], data), hi - 1)] else [])
  }

  datatype Page = Page(items: seq<Entry>, hasMore: bool, nextOffset: nat, total: Option<nat>)

  function Min(a: nat, b: nat): nat { if a < b then a else b }

  /** The next batch of rows, at most one more than a page holds. */
  function Fetch(rows: seq<Link>, offset: nat): seq<Link> {
    if offset >= |rows| then [] else rows[offset..Min(offset + BATCH_SIZE + 1, |rows|)]
  }

  /** `_count_listed`, on one snapshot of the matching links. */
  function CountListed(rows: seq<Link>, data: DataTables): nat {
    if rows == [] then 0
    else (if Listed(rows[0], data) then 1 else 0) + CountListed(rows[1..], data)
  }

  /** Some entry is about the i-th row. */
  predicate HasIndex(entries: seq<Entry>, i: nat) { exists k | 0 <= k < |entries| :: entries[k].index == i }

  /**
   Of the rows from `lo` to `hi`, the entries are about those of the datasets that need no table, or have
   their staging table, or their final table in the schema of their organization.
   */
  ghost predicate ShowsExactly(rows: seq<Link>, data: DataTables, entries: seq<Entry>, lo: nat, hi: nat) {
    && (lo < hi ==> hi <= |rows|)
    && forall i | lo <= i < hi ::
      HasIndex(entries, i)
      <==> || rows[i].importType in {Empty, Prefilled, DirectAccess}
           || (rows[i].stagingTable.Some? && rows[i].stagingTable.value != ""
               && rows[i].stagingTable.value in data.staging)
           || (rows[i].finalTable.Some? && rows[i].finalTable.value != ""
               && (DataSchema(data.useOrgSchema, rows[i].organization), rows[i].finalTable.value) in data.final)
  }

  /** A page, as the caller gets it, shows exactly those rows up to the next one. */
  lemma PageIsExact(rows: seq<Link>, data: DataTables, offset: nat, page: Page)
    requires
      var found := Entries(rows, data, Min(offset, |rows|), |rows|);
      && page.items == (if |found| > BATCH_SIZE then found[..BATCH_SIZE] else found)
      && page.hasMore == (|found| > BATCH_SIZE)
      && (page.hasMore ==> page.nextOffset == found[BATCH_SIZE].index)
    ensures page.hasMore ==> offset < page.nextOffset < |rows|
    ensures ShowsExactly(rows, data, page.items, offset, if page.hasMore then page.nextOffset else |rows|)
  {
    var start := Min(offset, |rows|);
    EntriesFit(rows, data, start);
    var hi := if page.hasMore then page.nextOffset else |rows|;
    assert page.items == PageAt(rows, data, start).items && hi == PageAt(rows, data, start).nextOffset;
    forall i | offset <= i < hi
      ensures HasIndex(page.items, i) <==> Listed(rows[i], data)
    {
      PageShowsExactly(rows, data, start, i);
    }
  }

  /**
   The page loop of `list_integrity_links`: fetch batches until a page and one more are listed or
   the rows are exhausted. Rows and tables stay the same meanwhile.
   */
  method ListLinks(rows: seq<Link>, data: DataTables, offset: nat) returns (page: Page)
    ensures var found := Entries(rows, data, Min(offset, |rows|), |rows|);
      && page.items == (if |found| > BATCH_SIZE then found[..BATCH_SIZE] else found)
      && page.hasMore == (|found| > BATCH_SIZE)
      && (page.hasMore ==> page.nextOffset == found[BATCH_SIZE].index)
      && (!page.hasMore ==> page.nextOffset == if offset > |rows| then offset else |rows|)
      && page.total == if offset == 0 then Some(CountListed(rows, data)) else None
    ensures |page.items| <= 100 && (page.hasMore ==> |page.items| == 100)
    ensures page.hasMore ==> offset < page.nextOffset < |rows|
    ensures ShowsExactly(rows, data, page.items, offset, if page.hasMore then page.nextOffset else |rows|)
  {
    hide Entries, ShowsExactly, CountListed, Listed, DataSchema;
    var accumulated: seq<Entry>, fetchOffset, lastChunk := [], offset, 0;
    NoEntries(rows, data, Min(offset, |rows|));
    ghost var start, scanned := Min(offset, |rows|), Min(offset, |rows|);
    while |accumulated| < BATCH_SIZE + 1
      invariant start <= scanned <= |rows|
      invariant fetchOffset == if offset > |rows| then offset else scanned
      invariant accumulated == Entries(rows, data, start, scanned)
      decreases |rows| - scanned
    {
      var chunk := Fetch(rows, fetchOffset);
      lastChunk := |chunk|;
      if chunk == [] {
        break;
      }
      var listed := ListChunk(rows, data, fetchOffset, chunk, accumulated, start);
      accumulated := listed;
      scanned := scanned + |chunk|;
      if lastChunk < BATCH_SIZE + 1 {
        break;
      }
      fetchOffset := fetchOffset + lastChunk;
    }
    var total: Option<nat> := None;
    if offset == 0 {
      var count := CountLinks(rows, data);
      total := Some(count);
    }
    var hasMore := |accumulated| > BATCH_SIZE;
    if hasMore {
      EntriesPrefix(rows, data, start, scanned);
      page := Page(accumulated[..BATCH_SIZE], true, accumulated[BATCH_SIZE].index, total);
    } else {
      page := Page(accumulated, false, fetchOffset + lastChunk, total);
    }
    PageIsExact(rows, data, offset, page);
  }

  /** The inner loop: the rows of one batch that the batch's own checks list. */
  method ListChunk(
    rows: seq<Link>, data: DataTables, fetchOffset: nat, chunk: seq<Link>, accumulated: seq<Entry>, ghost start: nat)
    returns (r: seq<Entry>)
    requires start <= fetchOffset && fetchOffset + |chunk| <= |rows|
      && chunk == rows[fetchOffset..fetchOffset + |chunk|]
    requires accumulated == Entries(rows, data, start, fetchOffset)
    ensures r == Entries(rows, data, start, fetchOffset + |chunk|)
  {
    var staging := CheckStagingExistence(chunk, data);
    var existing := CheckFinalExistence(chunk, data);
    r := accumulated;
    for i := 0 to |chunk|
      invariant r == Entries(rows, data, start, fetchOffset + i)
    {
      ListednessIgnoresTheBatch(chunk, i, data);
      assert chunk[i] == rows[fetchOffset + i];
      if IsListed(chunk[i], data, staging, existing) {
        r := r + [Entry(chunk[i], FinalTableExists(chunk[i], data, existing), fetchOffset + i)];
      }
    }
  }

  /** `_count_listed`: the checks run on all the links at once. */
  method CountLinks(rows: seq<Link>, data: DataTables) returns (count: nat)
    ensures count == CountListed(rows, data)
    ensures count == |set i | 0 <= i < |rows|
      && (|| rows[i].importType in {Empty, Prefilled, DirectAccess}
          || (rows[i].stagingTable.Some? && rows[i].stagingTable.value != ""
              && rows[i].stagingTable.value in data.staging)
          || (rows[i].finalTable.Some? && rows[i].finalTable.value != ""
              && (DataSchema(data.useOrgSchema, rows[i].organization), rows[i].finalTable.value) in data.final))|
  {
    var staging := CheckStagingExistence(rows, data);
    var existing := CheckFinalExistence(rows, data);
    count := 0;
    for i := |rows| downto 0
      invariant count == CountListed(rows[i..], data)
    {
      ListednessIgnoresTheBatch(rows, i, data);
      assert rows[i..][0] == rows[i] && rows[i..][1..] == rows[i + 1..];
      if IsListed(rows[i], data, staging, existing) {
        count := count + 1;
      }
    }
    assert rows[0..] == rows;
    CountIsExact(rows, data, 0);
    assert (set i | 0 <= i < |rows| && Listed(rows[i], data))
      == set i | 0 <= i < |rows|
        && (|| rows[i].importType in {Empty, Prefilled, DirectAccess}
            || (rows[i].stagingTable.Some? && rows[i].stagingTable.value != ""
                && rows[i].stagingTable.value in data.staging)
            || (rows[i].finalTable.Some? && rows[i].finalTable.value != ""
                && (DataSchema(data.useOrgSchema, rows[i].organization), rows[i].finalTable.value) in data.final));
  }

  /** The count, as the number of the rows that are listed. */
  lemma {:induction false} CountIsExact(rows: seq<Link>, data: DataTables, lo: nat)
    requires lo <= |rows|
    ensures CountListed(rows[lo..], data) == |set i | lo <= i < |rows| && Listed(rows[i], data)|
    decreases |rows| - lo
  {
    var listed := set i | lo <= i < |rows| && Listed(rows[i], data);
    if lo == |rows| {
      assert listed == {};
    } else {
      CountIsExact(rows, data, lo + 1);
      var later := set i | lo + 1 <= i < |rows| && Listed(rows[i], data);
      assert listed == later + (if Listed(rows[lo], data) then {lo} else {});
      assert rows[lo..][0] == rows[lo] && rows[lo..][1..] == rows[lo + 1..];
    }
  }

  lemma {:induction false} EntriesPrefix(rows: seq<Link>, data: DataTables, lo: nat, mid: nat)
    requires lo <= mid <= |rows|
    ensures Entries(rows, data, lo, mid) <= Entries(rows, data, lo, |rows|)
  {
    EntriesSplit(rows, data, lo, mid, |rows|);
  }

  lemma {:induction false} EntriesSplit(rows: seq<Link>, data: DataTables, lo: nat, mid: nat, hi: nat)
    requires lo <= mid <= hi <= |rows|
    ensures Entries(rows, data, lo, hi) == Entries(rows, data, lo, mid) + Entries(rows, data, mid, hi)
    decreases hi
  {
    if mid < hi {
      EntriesSplit(rows, data, lo, mid, hi - 1);
    } else {
      assert Entries(rows, data, mid, hi) == [];
    }
  }

  lemma NoEntries(rows: seq<Link>, data: DataTables, lo: nat)
    requires lo <= |rows|
    ensures Entries(rows, data, lo, lo) == []
  {
  }

  // ---- All the pages ----

  /** The page a caller gets, as a value: what `ListLinks` returns, next offset of a last page aside. */
  function PageAt(rows: seq<Link>, data: DataTables, offset: nat): Page
    requires offset <= |rows|
  {
    var found := Entries(rows, data, offset, |rows|);
    Page(
      if |found| > BATCH_SIZE then found[..BATCH_SIZE] else found,
      |found| > BATCH_SIZE,
      if |found| > BATCH_SIZE then found[BATCH_SIZE].index else |rows|,
      if offset == 0 then Some(CountListed(rows, data)) else None)
  }

  lemma {:induction false} EntryIndices(rows: seq<Link>, data: DataTables, lo: nat, hi: nat)
    requires lo <= hi <= |rows|
    ensures forall k :: 0 <= k < |Entries(rows, data, lo, hi)| ==>
      var e := Entries(rows, data, lo, hi)[k];
      lo + k <= e.index < hi && e.link == rows[e.index] && Listed(e.link, data) && e.hasFinal == HasFinal(e.link, data)
    ensures forall j, k :: 0 <= j < k < |Entries(rows, data, lo, hi)| ==>
      Entries(rows, data, lo, hi)[j].index < Entries(rows, data, lo, hi)[k].index
    decreases hi
  {
    if lo < hi {
      EntryIndices(rows, data, lo, hi - 1);
      var init := Entries(rows, data, lo, hi - 1);
      EntriesAreFew(rows, data, lo, hi - 1);
    }
  }

  lemma {:induction false} EntriesAreFew(rows: seq<Link>, data: DataTables, lo: nat, hi: nat)
    requires lo <= hi <= |rows|
    ensures |Entries(rows, data, lo, hi)| <= hi - lo
    decreases hi
  {
    if lo < hi { EntriesAreFew(rows, data, lo, hi - 1); }
  }

  /** Entries between two indices are the ones of all the rows with such an index: none is missed. */
  lemma {:induction false} EveryListedRowHasItsEntry(rows: seq<Link>, data: DataTables, lo: nat, hi: nat, i: nat)
    requires lo <= i < hi <= |rows| && Listed(rows[i], data)
    ensures Entry(rows[i], HasFinal(rows[i], data), i) in Entries(rows, data, lo, hi)
    decreases hi
  {
    if i < hi - 1 {
      EveryListedRowHasItsEntry(rows, data, lo, hi - 1, i);
    }
  }

  /** Which rows from `lo` on have an entry. */
  lemma EntriesShowExactly(rows: seq<Link>, data: DataTables, lo: nat, i: nat)
    requires lo <= i < |rows|
    ensures HasIndex(Entries(rows, data, lo, |rows|), i) <==> Listed(rows[i], data)
  {
    var found := Entries(rows, data, lo, |rows|);
    EntryIndices(rows, data, lo, |rows|);
    if Listed(rows[i], data) {
      EveryListedRowHasItsEntry(rows, data, lo, |rows|, i);
      var k :| 0 <= k < |found| && found[k] == Entry(rows[i], HasFinal(rows[i], data), i);
    }
  }

  lemma EntriesFit(rows: seq<Link>, data: DataTables, lo: nat)
    requires lo <= |rows|
    ensures lo == |rows| ==> !PageAt(rows, data, lo).hasMore
    ensures !PageAt(rows, data, lo).hasMore ==> PageAt(rows, data, lo).nextOffset == |rows|
    ensures PageAt(rows, data, lo).hasMore ==> lo < PageAt(rows, data, lo).nextOffset < |rows|
  {
    EntryIndices(rows, data, lo, |rows|);
  }

  /** Which rows a page shows, among those before the next one. */
  lemma PageShowsExactly(rows: seq<Link>, data: DataTables, offset: nat, i: nat)
    requires offset <= |rows| && offset <= i < PageAt(rows, data, offset).nextOffset
    ensures i < |rows| && (HasIndex(PageAt(rows, data, offset).items, i) <==> Listed(rows[i], data))
  {
    var found, page := Entries(rows, data, offset, |rows|), PageAt(rows, data, offset);
    EntryIndices(rows, data, offset, |rows|);
    EntriesShowExactly(rows, data, offset, i);
    if HasIndex(found, i) {
      var k :| 0 <= k < |found| && found[k].index == i;
      assert page.items[k].index == i;
    }
    if HasIndex(page.items, i) {
      var k :| 0 <= k < |page.items| && page.items[k].index == i;
      assert found[k].index == i;
    }
  }

  /** From the 101st entry on, the entries are those found from its index on. */
  lemma EntriesFrom(rows: seq<Link>, data: DataTables, lo: nat, k: nat)
    requires lo <= |rows| && k < |Entries(rows, data, lo, |rows|)|
    ensures var next := Entries(rows, data, lo, |rows|)[k].index;
      next < |rows| && Entries(rows, data, next, |rows|) == Entries(rows, data, lo, |rows|)[k..]
  {
    EntryIndices(rows, data, lo, |rows|);
    var all := Entries(rows, data, lo, |rows|);
    var next := all[k].index;
    EntriesSplit(rows, data, lo, next, |rows|);
    EntryIndices(rows, data, lo, next);
    EntryIndices(rows, data, next, |rows|);
    var before, after := Entries(rows, data, lo, next), Entries(rows, data, next, |rows|);
    assert forall j :: 0 <= j < |all| ==> all[j] == (before + after)[j];
    assert |before| == k;
  }

  /** The pages a caller sees by following the next offset while there is more. */
  function Pages(rows: seq<Link>, data: DataTables, offset: nat): seq<Page>
    requires offset <= |rows|
    decreases |Entries(rows, data, offset, |rows|)|
  {
    var page := PageAt(rows, data, offset);
    if page.hasMore then
      EntriesFrom(rows, data, offset, BATCH_SIZE);
      [page] + Pages(rows, data, page.nextOffset)
    else [page]
  }

  function AllItems(pages: seq<Page>): seq<Entry> {
    if pages == [] then [] else pages[0].items + AllItems(pages[1..])
  }

  /** Following the offsets from `offset` returns every entry from there on, once and in order. */
  lemma {:induction false} PagesFrom(rows: seq<Link>, data: DataTables, offset: nat)
    requires offset <= |rows|
    ensures AllItems(Pages(rows, data, offset)) == Entries(rows, data, offset, |rows|)
    ensures forall p :: 0 <= p < |Pages(rows, data, offset)| ==>
      Pages(rows, data, offset)[p].hasMore == (p < |Pages(rows, data, offset)| - 1)
    ensures forall p :: 0 <= p < |Pages(rows, data, offset)| - 1 ==> |Pages(rows, data, offset)[p].items| == BATCH_SIZE
    decreases |Entries(rows, data, offset, |rows|)|
  {
    var found, page, pages :=
      Entries(rows, data, offset, |rows|), PageAt(rows, data, offset), Pages(rows, data, offset);
    if page.hasMore {
      EntriesFrom(rows, data, offset, BATCH_SIZE);
      PagesFrom(rows, data, page.nextOffset);
      assert pages[1..] == Pages(rows, data, page.nextOffset);
      assert found == found[..BATCH_SIZE] + found[BATCH_SIZE..];
    } else {
      assert pages[1..] == [] && AllItems([]) == [];
    }
  }

  lemma {:induction false} CountIsNumberOfEntries(rows: seq<Link>, data: DataTables, lo: nat)
    requires lo <= |rows|
    ensures CountListed(rows[lo..], data) == |Entries(rows, data, lo, |rows|)|
    decreases |rows| - lo
  {
    if lo < |rows| {
      CountIsNumberOfEntries(rows, data, lo + 1);
      EntriesSplit(rows, data, lo, lo + 1, |rows|);
      assert rows[lo..][0] == rows[lo] && rows[lo..][1..] == rows[lo + 1..];
      assert Entries(rows, data, lo, lo) == [];
    }
  }

  /**
   On a frozen listing, following the offsets from 0 shows every listed dataset exactly once, in
   row order; every page but the last is full; and the total announced by the first page is the
   number of items over all of them.
   */
  lemma PagingIsExact(rows: seq<Link>, data: DataTables)
    ensures var pages, items := Pages(rows, data, 0), AllItems(Pages(rows, data, 0));
      && ShowsExactly(rows, data, items, 0, |rows|)
      && (forall j, k :: 0 <= j < k < |items| ==> items[j].index < items[k].index)
      && (forall k :: 0 <= k < |items| ==>
            items[k].index < |rows| && items[k].link == rows[items[k].index]
            && items[k].hasFinal == HasFinal(items[k].link, data))
      && (forall p :: 0 <= p < |pages| - 1 ==> |pages[p].items| == 100)
      && pages[0].total == Some(|items|)
  {
    PagesFrom(rows, data, 0);
    EntryIndices(rows, data, 0, |rows|);
    CountIsNumberOfEntries(rows, data, 0);
    assert rows[0..] == rows;
    forall i | 0 <= i < |rows| {
      EntriesShowExactly(rows, data, 0, i);
    }
  }

  predicate SamePage(a: Page, b: Page) {
    a.items == b.items && a.hasMore == b.hasMore && (a.hasMore ==> a.nextOffset == b.nextOffset)
  }

  /** What `ListLinks` returns is the page at that offset. */
  lemma PageListed(rows: seq<Link>, data: DataTables, offset: nat, page: Page)
    requires offset <= |rows|
    requires
      var found := Entries(rows, data, Min(offset, |rows|), |rows|);
      && page.items == (if |found| > BATCH_SIZE then found[..BATCH_SIZE] else found)
      && page.hasMore == (|found| > BATCH_SIZE)
      && (page.hasMore ==> page.nextOffset == found[BATCH_SIZE].index)
    ensures SamePage(page, PageAt(rows, data, offset))
  {
  }

  /** The first of the pages from an offset, and the ones behind it. */
  lemma FollowOnce(rows: seq<Link>, data: DataTables, offset: nat)
    requires offset <= |rows|
    ensures
      var page, pages := PageAt(rows, data, offset), Pages(rows, data, offset);
      && pages != [] && AllItems(pages) == page.items + AllItems(pages[1..])
      && (page.hasMore ==>
            && page.nextOffset <= |rows| && pages[1..] == Pages(rows, data, page.nextOffset)
            && |Entries(rows, data, page.nextOffset, |rows|)| < |Entries(rows, data, offset, |rows|)|)
      && (!page.hasMore ==> |pages| == 1 && AllItems(pages[1..]) == [])
  {
    var page := PageAt(rows, data, offset);
    if page.hasMore {
      EntriesFrom(rows, data, offset, BATCH_SIZE);
      TailOf(page, Pages(rows, data, page.nextOffset));
    }
  }

  /** A caller that follows the offsets with `ListLinks` itself collects those same items. */
  method FollowPages(rows: seq<Link>, data: DataTables) returns (items: seq<Entry>, pageCount: nat)
    ensures items == AllItems(Pages(rows, data, 0))
    ensures pageCount == |Pages(rows, data, 0)|
  {
    hide Entries, Pages, AllItems, ShowsExactly, PageAt;
    var page := ListLinks(rows, data, 0);
    items, pageCount := page.items, 1;
    var offset: nat := 0;
    PageListed(rows, data, offset, page);
    FollowOnce(rows, data, offset);
    while page.hasMore
      invariant offset <= |rows| && SamePage(page, PageAt(rows, data, offset))
      invariant Pages(rows, data, offset) != []
      invariant AllItems(Pages(rows, data, 0)) == items + AllItems(Pages(rows, data, offset)[1..])
      invariant |Pages(rows, data, 0)| == pageCount + |Pages(rows, data, offset)| - 1
      decreases |Entries(rows, data, offset, |rows|)|
    {
      FollowOnce(rows, data, offset);
      offset := page.nextOffset;
      page := ListLinks(rows, data, offset);
      PageListed(rows, data, offset, page);
      FollowOnce(rows, data, offset);
      Associates(items, page.items, AllItems(Pages(rows, data, offset)[1..]));
      items, pageCount := items + page.items, pageCount + 1;
    }
    FollowOnce(rows, data, offset);
    assert items + [] == items;
  }
}
