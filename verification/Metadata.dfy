/**
 The edits of an ISO 19115-3 record (metadata_schema_19115_3.py, metadata_schema.py): the revision date,
 the online resources of a layer, and the replacement of a layer's links.
 */
module Metadata {
  import opened Wrappers
  import opened Sequences
  import opened XmlPaths

  // ---- Names and paths ----

  const METADATA := Name(Mdb, "MD_Metadata")
  const DISTRIBUTION_INFO := Name(Mdb, "distributionInfo")
  const DISTRIBUTION := Name(Mrd, "MD_Distribution")
  const CI_DATE := Name(Cit, "CI_Date")
  const DATE := Name(Cit, "date")
  const DATE_TYPE := Name(Cit, "dateType")
  const DATE_TYPE_CODE := Name(Cit, "CI_DateTypeCode")
  const GCO_DATE := Name(Gco, "Date")
  const GCO_DATE_TIME := Name(Gco, "DateTime")
  const CHARACTER_STRING := Name(Gco, "CharacterString")
  const LINKAGE := Name(Cit, "linkage")
  const PROTOCOL := Name(Cit, "protocol")
  const NAME := Name(Cit, "name")
  const TRANSFER_OPTIONS := Name(Mrd, "transferOptions")
  const DIGITAL_OPTIONS := Name(Mrd, "MD_DigitalTransferOptions")
  const ON_LINE := Name(Mrd, "onLine")
  const ONLINE_RESOURCE := Name(Cit, "CI_OnlineResource")

  const DATE_CODE_LIST :=
    "http://standards.iso.org/iso/19115/resources/Codelists/cat/codelists.xml#CI_DateTypeCode"
  const FUNCTION_CODE_LIST :=
    "http://standards.iso.org/iso/19115/resources/Codelists/cat/codelists.xml#CI_OnLineFunctionCode"

  const CITATIONS: Path := [Tag(Name(Mdb, "identificationInfo")), Tag(Name(Mri, "MD_DataIdentification")),
                            Tag(Name(Mri, "citation")), Tag(Name(Cit, "CI_Citation"))]

  const TITLE: Path := [Tag(Name(Cit, "title")), Tag(CHARACTER_STRING)]

  const TITLES: Path := CITATIONS + TITLE

  const REVISION_DATES: Path := [Tag(DATE), Having(CI_DATE, DATE_TYPE, DATE_TYPE_CODE, "codeListValue", "revision"),
                                 Tag(DATE), OneOf([GCO_DATE_TIME, GCO_DATE])]

  const DISTRIBUTIONS: Path := [Tag(DISTRIBUTION_INFO), Tag(DISTRIBUTION)]

  const RESOURCES: Path :=
    DISTRIBUTIONS + [Tag(TRANSFER_OPTIONS), Tag(DIGITAL_OPTIONS), Tag(ON_LINE), Tag(ONLINE_RESOURCE)]

  const PROTOCOLS_OF_OPTIONS: Path := [Tag(ON_LINE), Tag(ONLINE_RESOURCE), Tag(PROTOCOL), Tag(CHARACTER_STRING)]

  const NAMES: Path := [LocalName("name"), Tag(CHARACTER_STRING)]

  const PROTOCOLS: Path := [LocalName("protocol"), Tag(CHARACTER_STRING)]

  const LINKAGES: Path := [Tag(LINKAGE), Tag(CHARACTER_STRING)]

  function Leaf(tag: Name, text: string): Element { Element(tag, map[], Some(text), [], "") }

  function Node(tag: Name, children: seq<Element>): Element { Element(tag, map[], None, children, "") }

  // ---- The revision date ----

  /** A date node that now holds a date and time. */
  function Stamped(node: Element, date: string): Element { node.(tag := GCO_DATE_TIME, text := Some(date)) }

  function RevisionKind(): Element {
    Node(DATE_TYPE, [Element(DATE_TYPE_CODE, map["codeList" := DATE_CODE_LIST, "codeListValue" := "revision"],
                             Some("revision"), [], "")])
  }

  function RevisionDay(date: string): Element { Node(DATE, [Leaf(GCO_DATE_TIME, date)]) }

  function RevisionDate(date: string): Element { Node(CI_DATE, [RevisionDay(date), RevisionKind()]) }

  function RevisionEntry(date: string): Element { Node(DATE, [RevisionDate(date)]) }

  /** The entry of a revision date, written out. */
  lemma RevisionEntryIs(date: string)
    ensures RevisionEntry(date)
      == Element(Name(Cit, "date"), map[], None, [Element(Name(Cit, "CI_Date"), map[], None,
           [Element(Name(Cit, "date"), map[], None, [Element(Name(Gco, "DateTime"), map[], Some(date), [], "")], ""),
            Element(Name(Cit, "dateType"), map[], None,
              [Element(Name(Cit, "CI_DateTypeCode"),
                 map["codeList" := DATE_CODE_LIST, "codeListValue" := "revision"], Some("revision"), [], "")], "")],
           "")], "")
  {
  }

  /** A citation with its first revision date set, or a new one appended. */
  function RevisedCitation(citation: Element, date: string): Element {
    var existing := Select(citation, REVISION_DATES);
    if existing != [] then Put(citation, REVISION_DATES, 0, Stamped(existing[0], date))
    else citation.(children := citation.children + [RevisionEntry(date)])
  }

  function RevisedEach(citations: seq<Element>, date: string): (revised: seq<Element>)
    ensures |revised| == |citations|
    ensures forall i :: 0 <= i < |citations| ==> revised[i] == RevisedCitation(citations[i], date)
  {
    if citations == [] then [] else [RevisedCitation(citations[0], date)] + RevisedEach(citations[1..], date)
  }

  /** The record with every citation revised. */
  function Revised(root: Element, date: string): Element {
    PutAll(root, CITATIONS, RevisedEach(Select(root, CITATIONS), date))
  }

  lemma PathsAreSound()
    ensures Sound(CITATIONS) && Sound(REVISION_DATES) && Sound(DISTRIBUTIONS) && Sound(RESOURCES)
    ensures Sound(NAMES) && Sound(LINKAGES)
  {
    PlainIsSound(CITATIONS);
    PlainIsSound(RESOURCES);
    PlainIsSound(DISTRIBUTIONS);
    PlainIsSound(NAMES);
    PlainIsSound(LINKAGES);
    PlainIsSound(REVISION_DATES[2..]);
    assert REVISION_DATES[1..][1..] == REVISION_DATES[2..];
    assert |"date"| != |"dateType"|;
    assert Sound(REVISION_DATES[1..]);
  }

  lemma DayIsFound(date: string, later: string)
    ensures Select(RevisionDay(date), REVISION_DATES[3..]) == [Leaf(GCO_DATE_TIME, date)]
    ensures PutAll(RevisionDay(date), REVISION_DATES[3..], [Leaf(GCO_DATE_TIME, later)]) == RevisionDay(later)
  {
    var leaf, node := Leaf(GCO_DATE_TIME, date), Leaf(GCO_DATE_TIME, later);
    assert REVISION_DATES[3..][1..] == [];
    TakeFirst(leaf, [], REVISION_DATES[3..]);
    PutFirst(leaf, [], REVISION_DATES[3..], node);
  }

  lemma RevisionIsMatched(date: string)
    ensures REVISION_DATES[1].Matches(RevisionDate(date))
  {
    var kind := RevisionKind();
    assert kind.children[0] in kind.children && REVISION_DATES[1].IsWitness(kind);
    assert kind in RevisionDate(date).children;
  }

  lemma DateIsFound(date: string, later: string)
    ensures Select(RevisionDate(date), REVISION_DATES[2..]) == [Leaf(GCO_DATE_TIME, date)]
    ensures PutAll(RevisionDate(date), REVISION_DATES[2..], [Leaf(GCO_DATE_TIME, later)]) == RevisionDate(later)
    ensures REVISION_DATES[1].Matches(RevisionDate(date))
  {
    hide SelectAmong, PutAmong;
    var path, kind := REVISION_DATES[2..], RevisionKind();
    assert path != [] && path[1..] == REVISION_DATES[3..];
    assert |"date"| != |"dateType"|;
    DayIsFound(date, later);
    SkipFirst(kind, [], path);
    TakeFirst(RevisionDay(date), [kind], path);
    PutFirst(RevisionDay(date), [kind], path, Leaf(GCO_DATE_TIME, later));
    assert RevisionDate(date).children == [RevisionDay(date)] + [kind];
    RevisionIsMatched(date);
  }

  /** The appended entry is itself found by the path of revision dates, and rewritten by it. */
  lemma EntryIsFound(date: string, later: string)
    ensures SelectAmong([RevisionEntry(date)], REVISION_DATES) == [Leaf(GCO_DATE_TIME, date)]
    ensures PutAmong([RevisionEntry(date)], REVISION_DATES, [Leaf(GCO_DATE_TIME, later)]) == [RevisionEntry(later)]
  {
    var path, node := REVISION_DATES, Leaf(GCO_DATE_TIME, later);
    assert path[1..][1..] == path[2..];
    DateIsFound(date, later);
    TakeFirst(RevisionDate(date), [], path[1..]);
    PutFirst(RevisionDate(date), [], path[1..], node);
    TakeFirst(RevisionEntry(date), [], path);
    PutFirst(RevisionEntry(date), [], path, node);
  }

  lemma StampFits(citation: Element, date: string)
    ensures Select(citation, REVISION_DATES) != [] ==>
      Fit(REVISION_DATES, Select(citation, REVISION_DATES)[0 := Stamped(Select(citation, REVISION_DATES)[0], date)])
  {
    SelectedFit(citation, REVISION_DATES);
    var dates := Select(citation, REVISION_DATES);
    if dates != [] {
      FitUpdated(REVISION_DATES, dates, 0, Stamped(dates[0], date));
    }
  }

  /** After a revision the citation has a revision date, the first one is the date given, and no other changed. */
  lemma RevisionIsFirst(citation: Element, date: string)
    ensures RevisedCitation(citation, date).tag == citation.tag
    ensures
      var before := Select(citation, REVISION_DATES);
      var dates := Select(RevisedCitation(citation, date), REVISION_DATES);
      && |dates| == (if before == [] then 1 else |before|)
      && dates[0].tag == GCO_DATE_TIME && dates[0].text == Some(date)
      && (before != [] ==>
            && dates[1..] == before[1..]
            && dates[0].attributes == before[0].attributes && dates[0].children == before[0].children)
  {
    PathsAreSound();
    var before := Select(citation, REVISION_DATES);
    if before != [] {
      StampFits(citation, date);
      PutGet(citation, REVISION_DATES, before[0 := Stamped(before[0], date)]);
    } else {
      SelectAppended(citation.children, REVISION_DATES, [RevisionEntry(date)]);
      EntryIsFound(date, date);
    }
  }

  /** A revision date set twice. */
  lemma DateSetTwice(citation: Element, date: string, later: string)
    requires Select(citation, REVISION_DATES) != []
    ensures RevisedCitation(RevisedCitation(citation, date), later) == RevisedCitation(citation, later)
  {
    PathsAreSound();
    var before := Select(citation, REVISION_DATES);
    StampFits(citation, date);
    var nodes := before[0 := Stamped(before[0], date)];
    PutNext(citation, REVISION_DATES, nodes, 0, Stamped(nodes[0], later));
    assert nodes[0 := Stamped(nodes[0], later)] == before[0 := Stamped(before[0], later)];
  }

  /** A revision date added, then set. */
  lemma DateAddedThenSet(citation: Element, date: string, later: string)
    requires Select(citation, REVISION_DATES) == []
    ensures RevisedCitation(RevisedCitation(citation, date), later) == RevisedCitation(citation, later)
  {
    PathsAreSound();
    EntryIsFound(date, later);
    SelectAppended(citation.children, REVISION_DATES, [RevisionEntry(date)]);
    var dates := [Leaf(GCO_DATE_TIME, date)];
    assert Select(RevisedCitation(citation, date), REVISION_DATES) == dates;
    assert dates[0 := Stamped(dates[0], later)] == [Leaf(GCO_DATE_TIME, later)];
    PutAppended(citation.children, REVISION_DATES, [RevisionEntry(date)], [Leaf(GCO_DATE_TIME, later)]);
  }

  /** Revising a citation twice is revising it with the later date. */
  lemma CitationKeepsTheLastDate(citation: Element, date: string, later: string)
    ensures RevisedCitation(RevisedCitation(citation, date), later) == RevisedCitation(citation, later)
  {
    if Select(citation, REVISION_DATES) != [] {
      DateSetTwice(citation, date, later);
    } else {
      DateAddedThenSet(citation, date, later);
    }
  }

  lemma RevisedFit(root: Element, date: string)
    ensures Fit(CITATIONS, RevisedEach(Select(root, CITATIONS), date))
  {
    var citations := Select(root, CITATIONS);
    SelectedFit(root, CITATIONS);
    forall v | v in RevisedEach(citations, date)
      ensures CITATIONS[|CITATIONS| - 1].Matches(v)
    {
      var i :| 0 <= i < |citations| && RevisedEach(citations, date)[i] == v;
      assert citations[i] in citations;
      RevisionIsFirst(citations[i], date);
    }
  }

  lemma {:induction false} EachKeepsTheLastDate(citations: seq<Element>, date: string, later: string)
    ensures RevisedEach(RevisedEach(citations, date), later) == RevisedEach(citations, later)
  {
    hide RevisedCitation;
    if citations != [] {
      CitationKeepsTheLastDate(citations[0], date, later);
      EachKeepsTheLastDate(citations[1..], date, later);
      TailOf(RevisedCitation(citations[0], date), RevisedEach(citations[1..], date));
    }
  }

  /** Setting the revision date twice leaves exactly what setting the later date alone leaves. */
  lemma LastRevisionWins(root: Element, date: string, later: string)
    ensures Revised(Revised(root, date), later) == Revised(root, later)
  {
    hide Select, PutAll, RevisedEach;
    PathsAreSound();
    var citations := Select(root, CITATIONS);
    RevisedFit(root, date);
    PutGet(root, CITATIONS, RevisedEach(citations, date));
    EachKeepsTheLastDate(citations, date, later);
    PutPut(root, CITATIONS, RevisedEach(citations, date), RevisedEach(citations, later));
  }

  // ---- The links of a layer ----

  datatype Url = Text(text: string) | Service(base: string)

  datatype LayerUrls = LayerUrls(qualifiedName: Option<string>, services: map<string, Url>)
  {
    function LayerName(): string { if qualifiedName.Some? then qualifiedName.value else "" }

    /** The address under a key; a missing key and an empty text count as none. */
    function Address(key: string): Option<string> {
      if key !in services || services[key] == Text("") then None
      else if services[key].Text? then Some(services[key].text)
      else Some(services[key].base)
    }
  }

  const LAYER_URL_PROTOCOLS: seq<(string, string)> :=
    [("ogcfeatures", "OGC API Features"), ("wms", "OGC:WMS"), ("wfs", "OGC:WFS")]

  function TextOfFirst(nodes: seq<Element>): Option<string> { if nodes == [] then None else nodes[0].text }

  function NameOf(resource: Element): Option<string> { TextOfFirst(Select(resource, NAMES)) }

  function ProtocolTexts(resource: Element): seq<string> { TextsOf(Select(resource, PROTOCOLS)) }

  /** The new address of a protocol, if the layer is served by it. */
  function AddressOf(urls: LayerUrls, protocol: string): Option<string> {
    AddressFrom(urls, protocol, 0)
  }

  function AddressFrom(urls: LayerUrls, protocol: string, i: nat): Option<string>
    requires i <= |LAYER_URL_PROTOCOLS|
    decreases |LAYER_URL_PROTOCOLS| - i
  {
    if i == |LAYER_URL_PROTOCOLS| then None
    else if LAYER_URL_PROTOCOLS[i].1 == protocol && urls.Address(LAYER_URL_PROTOCOLS[i].0).Some? then
      urls.Address(LAYER_URL_PROTOCOLS[i].0)
    else AddressFrom(urls, protocol, i + 1)
  }

  /** The address under a key: there is none under a missing key, nor an empty one. */
  function Served(urls: LayerUrls, key: string): Option<string> {
    if key in urls.services then
      match urls.services[key]
      case Text(text) => if text == "" then None else Some(text)
      case Service(base) => Some(base)
    else None
  }

  /** The three protocols a layer can be served by, and where. */
  lemma ServicesExactly(urls: LayerUrls, protocol: string)
    ensures AddressOf(urls, protocol)
      == if protocol == "OGC API Features" then Served(urls, "ogcfeatures")
         else if protocol == "OGC:WMS" then Served(urls, "wms")
         else if protocol == "OGC:WFS" then Served(urls, "wfs")
         else None
  {
    assert |"OGC API Features"| != |"OGC:WMS"| && "OGC:WMS"[5] != "OGC:WFS"[5];
    assert AddressFrom(urls, protocol, 3) == None;
    assert AddressFrom(urls, protocol, 2) == if protocol == "OGC:WFS" then Served(urls, "wfs") else None;
    assert AddressFrom(urls, protocol, 1)
      == if protocol == "OGC:WMS" then Served(urls, "wms") else AddressFrom(urls, protocol, 2);
  }

  function WithText(node: Element, text: string): Element { node.(text := Some(text)) }

  function Renamed(resource: Element, name: string): Element {
    var names := Select(resource, NAMES);
    if names == [] then resource else Put(resource, NAMES, 0, WithText(names[0], name))
  }

  function Relinked(resource: Element, urls: LayerUrls): Element {
    var protocols := ProtocolTexts(resource);
    var linkages := Select(resource, LINKAGES);
    if protocols != [] && AddressOf(urls, protocols[0]).Some? && linkages != [] then
      Put(resource, LINKAGES, 0, WithText(linkages[0], AddressOf(urls, protocols[0]).value))
    else
      resource
  }

  /** A resource of the old layer gets the new name and, where it has one, the new address. */
  function Replaced(resource: Element, oldName: string, urls: LayerUrls): Element {
    if NameOf(resource) == Some(oldName) then Relinked(Renamed(resource, urls.LayerName()), urls) else resource
  }

  function ReplacedEach(resources: seq<Element>, oldName: string, urls: LayerUrls): (replaced: seq<Element>)
    ensures |replaced| == |resources|
    ensures forall i :: 0 <= i < |resources| ==> replaced[i] == Replaced(resources[i], oldName, urls)
  {
    if resources == [] then []
    else [Replaced(resources[0], oldName, urls)] + ReplacedEach(resources[1..], oldName, urls)
  }

  function LinksReplaced(root: Element, oldName: string, urls: LayerUrls): Element {
    PutAll(root, RESOURCES, ReplacedEach(Select(root, RESOURCES), oldName, urls))
  }

  predicate Carries(resources: seq<Element>, name: string) {
    exists r | r in resources :: NameOf(r) == Some(name)
  }

  lemma PathsAreApart()
    ensures Apart(NAMES, PROTOCOLS) && Apart(NAMES, LINKAGES) && Apart(LINKAGES, NAMES) && Apart(LINKAGES, PROTOCOLS)
    ensures Apart(RESOURCES, CITATIONS) && Apart(RESOURCES, TITLES) && Apart(DISTRIBUTIONS, CITATIONS)
    ensures Apart(DISTRIBUTIONS, TITLES) && Apart(CITATIONS, RESOURCES) && Apart(CITATIONS, DISTRIBUTIONS)
  {
    assert |"name"| != |"protocol"| && |"name"| != |"linkage"| && |"protocol"| != |"linkage"|;
    assert |"identificationInfo"| != |"distributionInfo"|;
    assert RESOURCES[0] == DISTRIBUTIONS[0] && TITLES[0] == CITATIONS[0];
  }

  /** What replacing does to one resource of the old layer. */
  lemma ReplacedExactly(resource: Element, oldName: string, urls: LayerUrls)
    requires NameOf(resource) == Some(oldName)
    ensures
      var after := Replaced(resource, oldName, urls);
      && after.tag == resource.tag
      && NameOf(after) == Some(urls.LayerName())
      && ProtocolTexts(after) == ProtocolTexts(resource)
    ensures
      var after := Replaced(resource, oldName, urls);
      var before := Select(resource, LINKAGES);
      var protocols := ProtocolTexts(resource);
      Select(after, LINKAGES)
      == if before != [] && protocols != [] && AddressOf(urls, protocols[0]).Some?
         then before[0 := WithText(before[0], AddressOf(urls, protocols[0]).value)]
         else before
  {
    PathsAreSound();
    PathsAreApart();
    SelectedFit(resource, NAMES);
    var names := Select(resource, NAMES);
    var renaming := names[0 := WithText(names[0], urls.LayerName())];
    var renamed := Renamed(resource, urls.LayerName());
    assert names[0] in names;
    FitUpdated(NAMES, names, 0, WithText(names[0], urls.LayerName()));
    PutGet(resource, NAMES, renaming);
    PutElsewhere(resource, NAMES, renaming, PROTOCOLS);
    PutElsewhere(resource, NAMES, renaming, LINKAGES);
    var linkages := Select(renamed, LINKAGES);
    var protocols := ProtocolTexts(renamed);
    if protocols != [] && AddressOf(urls, protocols[0]).Some? && linkages != [] {
      SelectedFit(renamed, LINKAGES);
      var relinking := linkages[0 := WithText(linkages[0], AddressOf(urls, protocols[0]).value)];
      assert linkages[0] in linkages;
      FitUpdated(LINKAGES, linkages, 0, WithText(linkages[0], AddressOf(urls, protocols[0]).value));
      PutGet(renamed, LINKAGES, relinking);
      PutElsewhere(renamed, LINKAGES, relinking, NAMES);
      PutElsewhere(renamed, LINKAGES, relinking, PROTOCOLS);
    }
  }

  lemma ReplacedFit(root: Element, oldName: string, urls: LayerUrls)
    ensures Fit(RESOURCES, ReplacedEach(Select(root, RESOURCES), oldName, urls))
  {
    var resources := Select(root, RESOURCES);
    SelectedFit(root, RESOURCES);
    forall v | v in ReplacedEach(resources, oldName, urls)
      ensures RESOURCES[|RESOURCES| - 1].Matches(v)
    {
      var i :| 0 <= i < |resources| && ReplacedEach(resources, oldName, urls)[i] == v;
      assert resources[i] in resources;
      if NameOf(resources[i]) == Some(oldName) {
        ReplacedExactly(resources[i], oldName, urls);
      }
    }
  }

  /**
   After the replacement the record has the same resources in the same places, those of the old layer
   carry the new name, the others and the citations are what they were.
   */
  lemma OnlyOldLinksChange(root: Element, oldName: string, urls: LayerUrls)
    ensures
      var before := Select(root, RESOURCES);
      var after := Select(LinksReplaced(root, oldName, urls), RESOURCES);
      && |after| == |before|
      && (forall i ::
            0 <= i < |before| ==>
              if NameOf(before[i]) == Some(oldName) then NameOf(after[i]) == Some(urls.LayerName())
              else after[i] == before[i])
    ensures Select(LinksReplaced(root, oldName, urls), CITATIONS) == Select(root, CITATIONS)
    ensures !Carries(Select(root, RESOURCES), oldName) ==> LinksReplaced(root, oldName, urls) == root
  {
    PathsAreSound();
    PathsAreApart();
    var before := Select(root, RESOURCES);
    var nodes := ReplacedEach(before, oldName, urls);
    ReplacedFit(root, oldName, urls);
    PutGet(root, RESOURCES, nodes);
    PutElsewhere(root, RESOURCES, nodes, CITATIONS);
    forall i | 0 <= i < |before|
      ensures if NameOf(before[i]) == Some(oldName) then NameOf(nodes[i]) == Some(urls.LayerName())
              else nodes[i] == before[i]
    {
      if NameOf(before[i]) == Some(oldName) {
        ReplacedExactly(before[i], oldName, urls);
      }
    }
    if !Carries(before, oldName) {
      forall i | 0 <= i < |before|
        ensures nodes[i] == before[i]
      {
        assert before[i] in before;
      }
      assert nodes == before;
      GetPut(root, RESOURCES);
    }
  }

  /** No resource is left under the old name exactly when there was none or the name did change. */
  lemma OldNameIsGoneExactly(root: Element, oldName: string, urls: LayerUrls)
    ensures
      !Carries(Select(LinksReplaced(root, oldName, urls), RESOURCES), oldName)
      <==> urls.LayerName() != oldName || !Carries(Select(root, RESOURCES), oldName)
  {
    OnlyOldLinksChange(root, oldName, urls);
    var before := Select(root, RESOURCES);
    var after := Select(LinksReplaced(root, oldName, urls), RESOURCES);
    if urls.LayerName() == oldName && Carries(before, oldName) {
      var r :| r in before && NameOf(r) == Some(oldName);
      var i :| 0 <= i < |before| && before[i] == r;
      assert after[i] in after;
    }
  }

  /** A repeated replacement changes nothing once the name did change. */
  lemma ReplacingAgainChangesNothing(root: Element, oldName: string, urls: LayerUrls, others: LayerUrls)
    requires urls.LayerName() != oldName
    ensures LinksReplaced(LinksReplaced(root, oldName, urls), oldName, others) == LinksReplaced(root, oldName, urls)
  {
    OldNameIsGoneExactly(root, oldName, urls);
    OnlyOldLinksChange(LinksReplaced(root, oldName, urls), oldName, others);
  }

  // ---- Adding the resources of a layer ----

  function LinkResource(address: string, protocol: string, name: string, description: string): Element {
    Node(ONLINE_RESOURCE,
         [Node(LINKAGE, [Leaf(CHARACTER_STRING, address)]),
          Node(PROTOCOL, [Leaf(CHARACTER_STRING, protocol)]),
          Node(NAME, [Leaf(CHARACTER_STRING, name)]),
          Node(Name(Cit, "description"), [Leaf(CHARACTER_STRING, description)]),
          Node(Name(Cit, "function"),
               [Element(Name(Cit, "CI_OnLineFunctionCode"),
                        map["codeList" := FUNCTION_CODE_LIST, "codeListValue" := "download"],
                        Some("download"), [], "")])])
  }

  function Link(address: string, protocol: string, name: string, description: string): Element {
    Node(ON_LINE, [LinkResource(address, protocol, name, description)])
  }

  /** The protocols that digital transfer options already advertise. */
  function Advertised(options: Element): seq<string> { TextsOf(Select(options, PROTOCOLS_OF_OPTIONS)) }

  /** The i-th service of a layer is available and not advertised yet. */
  predicate IsNew(existing: seq<string>, urls: LayerUrls, i: nat)
    requires i < |LAYER_URL_PROTOCOLS|
  {
    LAYER_URL_PROTOCOLS[i].1 !in existing && urls.Address(LAYER_URL_PROTOCOLS[i].0).Some?
  }

  /** The link of the i-th service. */
  function NewLink(urls: LayerUrls, description: string, i: nat): Element
    requires i < |LAYER_URL_PROTOCOLS| && urls.Address(LAYER_URL_PROTOCOLS[i].0).Some?
  {
    var (key, protocol) := LAYER_URL_PROTOCOLS[i];
    Link(urls.Address(key).value, protocol, urls.LayerName(), description)
  }

  /** The links of the services from the i-th on. */
  function NewLinks(existing: seq<string>, urls: LayerUrls, description: string, i: nat): seq<Element>
    requires i <= |LAYER_URL_PROTOCOLS|
    decreases |LAYER_URL_PROTOCOLS| - i
  {
    if i == |LAYER_URL_PROTOCOLS| then []
    else
      (if IsNew(existing, urls, i)
       then [NewLink(urls, description, i)]
       else [])
      + NewLinks(existing, urls, description, i + 1)
  }

  /** The title of the record, or the name of the layer when there is none. */
  function Description(root: Element, urls: LayerUrls): string {
    var title := TextOfFirst(Select(root, TITLES));
    if title.Some? && title.value != "" then title.value else urls.LayerName()
  }

  /** The link of a service, written out: its description is the title of the record, or the name of the layer. */
  lemma NewLinkIs(root: Element, urls: LayerUrls, i: nat)
    requires i < |LAYER_URL_PROTOCOLS| && urls.Address(LAYER_URL_PROTOCOLS[i].0).Some?
    ensures
      var titles := Select(root, TITLES);
      var name := if urls.qualifiedName.Some? then urls.qualifiedName.value else "";
      var title := if titles == [] || titles[0].text in {None, Some("")} then name else titles[0].text.value;
      var text := (s: string) => [Element(Name(Gco, "CharacterString"), map[], Some(s), [], "")];
      var node := (n: Name, children: seq<Element>) => Element(n, map[], None, children, "");
      NewLink(urls, Description(root, urls), i)
      == node(Name(Mrd, "onLine"), [node(Name(Cit, "CI_OnlineResource"),
           [node(Name(Cit, "linkage"), text(urls.Address(LAYER_URL_PROTOCOLS[i].0).value)),
            node(Name(Cit, "protocol"), text(LAYER_URL_PROTOCOLS[i].1)),
            node(Name(Cit, "name"), text(name)),
            node(Name(Cit, "description"), text(title)),
            node(Name(Cit, "function"),
              [Element(Name(Cit, "CI_OnLineFunctionCode"),
                 map["codeList" := FUNCTION_CODE_LIST, "codeListValue" := "download"], Some("download"), [], "")])])])
  {
  }

  /** An element that has a child of the given name. */
  function Ensured(e: Element, tag: Name): (r: Element)
    ensures r.tag == e.tag && Select(r, [Tag(tag)]) != []
  {
    if Select(e, [Tag(tag)]) != [] then e
    else
      SelectAppended(e.children, [Tag(tag)], [Node(tag, [])]);
      e.(children := e.children + [Node(tag, [])])
  }

  /** The first child of the given name, once there is one. */
  function FirstOf(e: Element, tag: Name): (child: Element)
    ensures child.tag == tag
  {
    SelectedFit(Ensured(e, tag), [Tag(tag)]);
    var children := Select(Ensured(e, tag), [Tag(tag)]);
    assert children[0] in children;
    children[0]
  }

  function WithFirst(e: Element, tag: Name, child: Element): Element { Put(Ensured(e, tag), [Tag(tag)], 0, child) }

  function OptionsOf(distribution: Element): Element {
    FirstOf(FirstOf(distribution, TRANSFER_OPTIONS), DIGITAL_OPTIONS)
  }

  function WithOptions(distribution: Element, options: Element): Element {
    WithFirst(distribution, TRANSFER_OPTIONS,
      WithFirst(FirstOf(distribution, TRANSFER_OPTIONS), DIGITAL_OPTIONS, options))
  }

  /** The links that adding the layer appends to the first distribution. */
  function Additions(root: Element, urls: LayerUrls): seq<Element>
    requires Select(root, DISTRIBUTIONS) != []
  {
    NewLinks(Advertised(OptionsOf(Select(root, DISTRIBUTIONS)[0])), urls, Description(root, urls), 0)
  }

  function WithLinks(options: Element, links: seq<Element>): Element { options.(children := options.children + links) }

  /** The record with the layer's services advertised. */
  function LinksAdded(root: Element, urls: LayerUrls): Element {
    var distributions := Select(root, DISTRIBUTIONS);
    if distributions == [] then root
    else
      Put(root, DISTRIBUTIONS, 0,
        WithOptions(distributions[0], WithLinks(OptionsOf(distributions[0]), Additions(root, urls))))
  }

  /** Writing the first child of a name and reading it back. */
  lemma FirstIsWritten(e: Element, tag: Name, child: Element)
    requires child.tag == tag
    ensures WithFirst(e, tag, child).tag == e.tag
    ensures FirstOf(WithFirst(e, tag, child), tag) == child
    ensures WithFirst(WithFirst(e, tag, child), tag, child) == WithFirst(e, tag, child)
  {
    PlainIsSound([Tag(tag)]);
    PutOne(Ensured(e, tag), [Tag(tag)], 0, child, child);
  }

  lemma OptionsAreWritten(distribution: Element, options: Element)
    requires options.tag == DIGITAL_OPTIONS
    ensures WithOptions(distribution, options).tag == distribution.tag
    ensures OptionsOf(WithOptions(distribution, options)) == options
    ensures WithOptions(WithOptions(distribution, options), options) == WithOptions(distribution, options)
  {
    var transfer := FirstOf(distribution, TRANSFER_OPTIONS);
    FirstIsWritten(transfer, DIGITAL_OPTIONS, options);
    FirstIsWritten(distribution, TRANSFER_OPTIONS, WithFirst(transfer, DIGITAL_OPTIONS, options));
  }

  lemma LinkProtocol(address: string, protocol: string, name: string, description: string)
    ensures Advertised(Node(DIGITAL_OPTIONS, [Link(address, protocol, name, description)])) == [protocol]
  {
    var path := PROTOCOLS_OF_OPTIONS;
    var link := Link(address, protocol, name, description);
    var resource := link.children[0];
    var leaf := Leaf(CHARACTER_STRING, protocol);
    assert path[1..][1..] == path[2..] && path[2..][1..] == path[3..] && path[3..][1..] == [];
    ResourceProtocol(address, protocol, name, description);
    TakeFirst(resource, [], path[1..]);
    TakeFirst(link, [], path);
    assert Texts(leaf) == [protocol];
    assert TextsOf([leaf]) == [protocol] + TextsOf([]);
  }

  lemma ResourceProtocol(address: string, protocol: string, name: string, description: string)
    ensures SelectAmong(LinkResource(address, protocol, name, description).children, PROTOCOLS_OF_OPTIONS[2..])
            == [Leaf(CHARACTER_STRING, protocol)]
  {
    hide SelectAmong, PutAmong;
    var path := PROTOCOLS_OF_OPTIONS[2..];
    var children := LinkResource(address, protocol, name, description).children;
    var leaf := Leaf(CHARACTER_STRING, protocol);
    assert path[0] == Tag(PROTOCOL) && path[1..] == [Tag(CHARACTER_STRING)] && path[1..][1..] == [];
    assert |"linkage"| != |"protocol"| && |"name"| != |"protocol"| && |"description"| != |"protocol"|;
    assert "function"[0] != "protocol"[0];
    TakeFirst(leaf, [], path[1..]);
    SkipFirst(children[4], [], path);
    SkipFirst(children[3], [children[4]], path);
    SkipFirst(children[2], [children[3]] + [children[4]], path);
    TakeFirst(children[1], [children[2]] + ([children[3]] + [children[4]]), path);
    SkipFirst(children[0], [children[1]] + ([children[2]] + ([children[3]] + [children[4]])), path);
    assert children == [children[0]] + ([children[1]] + ([children[2]] + ([children[3]] + [children[4]])));
  }

  lemma {:induction false} TextsOfConcat(a: seq<Element>, b: seq<Element>)
    ensures TextsOf(a + b) == TextsOf(a) + TextsOf(b)
  {
    if a == [] {
      assert a + b == b;
    } else {
      FirstOff(a, b);
      TextsOfConcat(a[1..], b);
      Associates(Texts(a[0]), TextsOf(a[1..]), TextsOf(b));
    }
  }

  /** Appended links advertise their protocols after those already there. */
  lemma AdvertisedAfter(options: Element, links: seq<Element>)
    ensures Advertised(WithLinks(options, links)) == Advertised(options) + Advertised(Node(DIGITAL_OPTIONS, links))
  {
    SelectAppended(options.children, PROTOCOLS_OF_OPTIONS, links);
    TextsOfConcat(Select(options, PROTOCOLS_OF_OPTIONS), SelectAmong(links, PROTOCOLS_OF_OPTIONS));
  }

  /** One link more advertises its protocol first. */
  lemma LinkAhead(address: string, protocol: string, name: string, description: string, rest: seq<Element>)
    ensures var links := [Link(address, protocol, name, description)] + rest;
      Advertised(Node(DIGITAL_OPTIONS, links)) == [protocol] + Advertised(Node(DIGITAL_OPTIONS, rest))
  {
    var link := Link(address, protocol, name, description);
    LinkProtocol(address, protocol, name, description);
    AdvertisedAfter(Node(DIGITAL_OPTIONS, [link]), rest);
  }

  lemma NewProtocolStep(existing: seq<string>, urls: LayerUrls, description: string, i: nat, protocol: string)
    requires i < |LAYER_URL_PROTOCOLS|
    ensures
      protocol in Advertised(Node(DIGITAL_OPTIONS, NewLinks(existing, urls, description, i)))
      <==> || (IsNew(existing, urls, i) && LAYER_URL_PROTOCOLS[i].1 == protocol)
           || protocol in Advertised(Node(DIGITAL_OPTIONS, NewLinks(existing, urls, description, i + 1)))
  {
    var rest := NewLinks(existing, urls, description, i + 1);
    if IsNew(existing, urls, i) {
      var (key, name) := LAYER_URL_PROTOCOLS[i];
      LinkAhead(urls.Address(key).value, name, urls.LayerName(), description, rest);
    } else {
      assert [] + rest == rest;
    }
  }

  /** The protocols of the new links are the new protocols. */
  lemma {:induction false} NewProtocols(
    existing: seq<string>, urls: LayerUrls, description: string, i: nat, protocol: string)
    requires i <= |LAYER_URL_PROTOCOLS|
    ensures
      protocol in Advertised(Node(DIGITAL_OPTIONS, NewLinks(existing, urls, description, i)))
      <==> exists k | i <= k < |LAYER_URL_PROTOCOLS| :: LAYER_URL_PROTOCOLS[k].1 == protocol && IsNew(existing, urls, k)
    decreases |LAYER_URL_PROTOCOLS| - i
  {
    if i < |LAYER_URL_PROTOCOLS| {
      NewProtocols(existing, urls, description, i + 1, protocol);
      NewProtocolStep(existing, urls, description, i, protocol);
    } else {
      assert Select(Node(DIGITAL_OPTIONS, []), PROTOCOLS_OF_OPTIONS) == [];
    }
  }

  /** No link is new exactly when every available service is advertised. */
  lemma {:induction false} NothingNewExactly(existing: seq<string>, urls: LayerUrls, description: string, i: nat)
    requires i <= |LAYER_URL_PROTOCOLS|
    ensures
      NewLinks(existing, urls, description, i) == []
      <==> forall k | i <= k < |LAYER_URL_PROTOCOLS| :: !IsNew(existing, urls, k)
    decreases |LAYER_URL_PROTOCOLS| - i
  {
    if i < |LAYER_URL_PROTOCOLS| {
      NothingNewExactly(existing, urls, description, i + 1);
    }
  }

  /** What the first options of the first distribution advertise. */
  function AdvertisedBy(root: Element): seq<string> {
    var distributions := Select(root, DISTRIBUTIONS);
    if distributions == [] then [] else Advertised(OptionsOf(distributions[0]))
  }

  lemma DistributionIsWritten(root: Element, distribution: Element)
    requires Select(root, DISTRIBUTIONS) != [] && distribution.tag == Select(root, DISTRIBUTIONS)[0].tag
    ensures Select(Put(root, DISTRIBUTIONS, 0, distribution), DISTRIBUTIONS)
      == Select(root, DISTRIBUTIONS)[0 := distribution]
    ensures Put(Put(root, DISTRIBUTIONS, 0, distribution), DISTRIBUTIONS, 0, distribution)
      == Put(root, DISTRIBUTIONS, 0, distribution)
  {
    PathsAreSound();
    SelectedFit(root, DISTRIBUTIONS);
    assert Select(root, DISTRIBUTIONS)[0] in Select(root, DISTRIBUTIONS);
    PutOne(root, DISTRIBUTIONS, 0, distribution, distribution);
  }

  lemma AddedOptions(root: Element, urls: LayerUrls)
    requires Select(root, DISTRIBUTIONS) != []
    ensures
      var distribution := Select(root, DISTRIBUTIONS)[0];
      var options := WithLinks(OptionsOf(distribution), Additions(root, urls));
      Select(LinksAdded(root, urls), DISTRIBUTIONS)
        == Select(root, DISTRIBUTIONS)[0 := WithOptions(distribution, options)]
      && OptionsOf(WithOptions(distribution, options)) == options
  {
    var distributions := Select(root, DISTRIBUTIONS);
    var options := WithLinks(OptionsOf(distributions[0]), Additions(root, urls));
    OptionsAreWritten(distributions[0], options);
    DistributionIsWritten(root, WithOptions(distributions[0], options));
  }

  /** Afterwards exactly the protocols advertised before and the layer's available ones are advertised. */
  lemma AdvertisedExactly(root: Element, urls: LayerUrls, protocol: string)
    requires Select(root, DISTRIBUTIONS) != []
    ensures
      protocol in AdvertisedBy(LinksAdded(root, urls))
      <==> (protocol in AdvertisedBy(root)
            || exists k | 0 <= k < |LAYER_URL_PROTOCOLS| ::
              LAYER_URL_PROTOCOLS[k].1 == protocol && urls.Address(LAYER_URL_PROTOCOLS[k].0).Some?)
  {
    AddedOptions(root, urls);
    var options := OptionsOf(Select(root, DISTRIBUTIONS)[0]);
    var existing := Advertised(options);
    AdvertisedAfter(options, Additions(root, urls));
    NewProtocols(existing, urls, Description(root, urls), 0, protocol);
    if protocol !in existing {
      forall k | 0 <= k < |LAYER_URL_PROTOCOLS| && LAYER_URL_PROTOCOLS[k].1 == protocol
        ensures IsNew(existing, urls, k) == urls.Address(LAYER_URL_PROTOCOLS[k].0).Some?
      {
      }
    }
  }

  /** Adding a layer, then one with no further service, is adding the first. */
  lemma AddingAgainChangesNothing(root: Element, urls: LayerUrls, later: LayerUrls)
    requires forall k | 0 <= k < |LAYER_URL_PROTOCOLS| ::
               later.Address(LAYER_URL_PROTOCOLS[k].0).Some? ==> urls.Address(LAYER_URL_PROTOCOLS[k].0).Some?
    ensures LinksAdded(LinksAdded(root, urls), later) == LinksAdded(root, urls)
  {
    if Select(root, DISTRIBUTIONS) != [] {
      var distributions := Select(root, DISTRIBUTIONS);
      var added := LinksAdded(root, urls);
      var options := WithLinks(OptionsOf(distributions[0]), Additions(root, urls));
      var distribution := WithOptions(distributions[0], options);
      AddedOptions(root, urls);
      forall k | 0 <= k < |LAYER_URL_PROTOCOLS|
        ensures !IsNew(Advertised(options), later, k)
      {
        AdvertisedExactly(root, urls, LAYER_URL_PROTOCOLS[k].1);
      }
      NothingNewExactly(Advertised(options), later, Description(added, later), 0);
      assert Additions(added, later) == [];
      assert WithLinks(options, []) == options;
      OptionsAreWritten(distributions[0], options);
      DistributionIsWritten(root, distribution);
    }
  }

  /** A distribution that has the containers that links are appended to. */
  predicate HasOptions(distribution: Element) {
    var transfers := Select(distribution, [Tag(TRANSFER_OPTIONS)]);
    transfers != [] && Select(transfers[0], [Tag(DIGITAL_OPTIONS)]) != []
  }

  /** Writing back the first child changes an element exactly when that child had to be created. */
  lemma FirstWrittenBack(e: Element, tag: Name)
    ensures WithFirst(e, tag, FirstOf(e, tag)) == Ensured(e, tag)
    ensures Ensured(e, tag) == e <==> Select(e, [Tag(tag)]) != []
  {
    var nodes := Select(Ensured(e, tag), [Tag(tag)]);
    assert nodes[0 := nodes[0]] == nodes;
    GetPut(Ensured(e, tag), [Tag(tag)]);
    if Select(e, [Tag(tag)]) == [] {
      assert |Ensured(e, tag).children| == |e.children| + 1;
    }
  }

  lemma OptionsWrittenBack(distribution: Element)
    ensures WithOptions(distribution, OptionsOf(distribution)) == distribution <==> HasOptions(distribution)
  {
    var transfer := FirstOf(distribution, TRANSFER_OPTIONS);
    var ensured := Ensured(distribution, TRANSFER_OPTIONS);
    FirstWrittenBack(transfer, DIGITAL_OPTIONS);
    FirstWrittenBack(distribution, TRANSFER_OPTIONS);
    var filled := Ensured(transfer, DIGITAL_OPTIONS);
    FirstIsWritten(distribution, TRANSFER_OPTIONS, filled);
    if Select(distribution, [Tag(TRANSFER_OPTIONS)]) == [] {
      PutKeepsCount(ensured.children, [Tag(TRANSFER_OPTIONS)], Select(ensured, [Tag(TRANSFER_OPTIONS)])[0 := filled]);
      assert |WithFirst(distribution, TRANSFER_OPTIONS, filled).children| == |distribution.children| + 1;
    }
  }

  /** When there is nothing to advertise, the record still changes exactly when a container is missing. */
  lemma EmptyContainersExactly(root: Element, urls: LayerUrls)
    requires Select(root, DISTRIBUTIONS) != [] && Additions(root, urls) == []
    ensures LinksAdded(root, urls) == root <==> HasOptions(Select(root, DISTRIBUTIONS)[0])
  {
    var distributions := Select(root, DISTRIBUTIONS);
    var options := OptionsOf(distributions[0]);
    var distribution := WithOptions(distributions[0], options);
    assert WithLinks(options, []) == options;
    OptionsAreWritten(distributions[0], options);
    OptionsWrittenBack(distributions[0]);
    DistributionIsWritten(root, distribution);
    if HasOptions(distributions[0]) {
      assert distributions[0 := distribution] == distributions;
      GetPut(root, DISTRIBUTIONS);
    } else {
      assert distributions[0 := distribution][0] != distributions[0];
    }
  }

  /** A distribution without transfer options, and a layer without services: containers appear, no link does. */
  lemma BareDistributionChanges()
    ensures
      var distribution := Node(DISTRIBUTION, []);
      var root, urls := Node(METADATA, [Node(DISTRIBUTION_INFO, [distribution])]), LayerUrls(None, map[]);
      Select(root, DISTRIBUTIONS) == [distribution] && Additions(root, urls) == [] && LinksAdded(root, urls) != root
  {
    var distribution := Node(DISTRIBUTION, []);
    var root, urls := Node(METADATA, [Node(DISTRIBUTION_INFO, [distribution])]), LayerUrls(None, map[]);
    assert DISTRIBUTIONS[1..][1..] == [];
    TakeFirst(distribution, [], DISTRIBUTIONS[1..]);
    TakeFirst(root.children[0], [], DISTRIBUTIONS);
    assert Select(distribution, [Tag(TRANSFER_OPTIONS)]) == [];
    NothingNewExactly(Advertised(OptionsOf(distribution)), urls, Description(root, urls), 0);
    EmptyContainersExactly(root, urls);
  }

  /** Adding links to a record that needs none and has its containers is no change; no other edit goes unnoticed. */
  lemma NoChangeExactly(root: Element, urls: LayerUrls)
    ensures
      LinksAdded(root, urls) == root
      <==> || Select(root, DISTRIBUTIONS) == []
           || (Additions(root, urls) == [] && HasOptions(Select(root, DISTRIBUTIONS)[0]))
  {
    var distributions := Select(root, DISTRIBUTIONS);
    if distributions != [] {
      if Additions(root, urls) == [] {
        EmptyContainersExactly(root, urls);
      } else {
        AddedOptions(root, urls);
        var options := OptionsOf(distributions[0]);
        assert |WithLinks(options, Additions(root, urls)).children| > |options.children|;
      }
    }
  }

  // ---- The edits together ----

  lemma OwnNames(address: string, protocol: string, name: string, description: string, later: string)
    ensures Select(LinkResource(address, protocol, name, description), NAMES) == [Leaf(CHARACTER_STRING, name)]
    ensures
      PutAll(LinkResource(address, protocol, name, description), NAMES, [Leaf(CHARACTER_STRING, later)])
      == LinkResource(address, protocol, later, description)
  {
    hide SelectAmong, PutAmong;
    var children := LinkResource(address, protocol, name, description).children;
    var leaf, node := Leaf(CHARACTER_STRING, name), Leaf(CHARACTER_STRING, later);
    assert NAMES[1..] == [Tag(CHARACTER_STRING)] && NAMES[1..][1..] == [];
    assert |"linkage"| != |"name"| && |"protocol"| != |"name"| && |"description"| != |"name"|
      && |"function"| != |"name"|;
    TakeFirst(leaf, [], NAMES[1..]);
    PutFirst(leaf, [], NAMES[1..], node);
    SkipFirst(children[4], [], NAMES);
    SkipFirst(children[3], [children[4]], NAMES);
    var rest := [children[3]] + [children[4]];
    TakeFirst(children[2], rest, NAMES);
    PutFirst(children[2], rest, NAMES, node);
    var named := [children[2]] + rest;
    SkipFirst(children[1], named, NAMES);
    SkipFirst(children[0], [children[1]] + named, NAMES);
    SkipFirst(children[1], [], NAMES);
    SkipFirst(children[0], [children[1]], NAMES);
    assert [children[0], children[1]] == [children[0]] + [children[1]];
    PutAppended([children[0], children[1]], NAMES, named, [node]);
    assert children == [children[0], children[1]] + named == [children[0]] + ([children[1]] + named);
  }

  lemma OwnLinkage(address: string, protocol: string, name: string, description: string, later: string)
    ensures Select(LinkResource(address, protocol, name, description), LINKAGES) == [Leaf(CHARACTER_STRING, address)]
    ensures
      PutAll(LinkResource(address, protocol, name, description), LINKAGES, [Leaf(CHARACTER_STRING, later)])
      == LinkResource(later, protocol, name, description)
  {
    hide SelectAmong, PutAmong;
    var children := LinkResource(address, protocol, name, description).children;
    var leaf, node := Leaf(CHARACTER_STRING, address), Leaf(CHARACTER_STRING, later);
    assert LINKAGES[1..] == [Tag(CHARACTER_STRING)] && LINKAGES[1..][1..] == [];
    assert |"linkage"| != |"name"| && |"protocol"| != |"linkage"| && |"description"| != |"linkage"|
      && |"function"| != |"linkage"|;
    TakeFirst(leaf, [], LINKAGES[1..]);
    PutFirst(leaf, [], LINKAGES[1..], node);
    SkipFirst(children[4], [], LINKAGES);
    SkipFirst(children[3], [children[4]], LINKAGES);
    SkipFirst(children[2], [children[3]] + [children[4]], LINKAGES);
    var rest := [children[1]] + ([children[2]] + ([children[3]] + [children[4]]));
    SkipFirst(children[1], [children[2]] + ([children[3]] + [children[4]]), LINKAGES);
    TakeFirst(children[0], rest, LINKAGES);
    PutFirst(children[0], rest, LINKAGES, node);
    assert children == [children[0]] + rest;
  }

  lemma OwnProtocol(address: string, protocol: string, name: string, description: string)
    ensures ProtocolTexts(LinkResource(address, protocol, name, description)) == [protocol]
  {
    hide SelectAmong, PutAmong;
    var children := LinkResource(address, protocol, name, description).children;
    var leaf := Leaf(CHARACTER_STRING, protocol);
    assert PROTOCOLS[1..] == [Tag(CHARACTER_STRING)] && PROTOCOLS[1..][1..] == [];
    assert |"linkage"| != |"protocol"| && |"name"| != |"protocol"| && |"description"| != |"protocol"|;
    assert "function"[0] != "protocol"[0];
    TakeFirst(leaf, [], PROTOCOLS[1..]);
    SkipFirst(children[4], [], PROTOCOLS);
    SkipFirst(children[3], [children[4]], PROTOCOLS);
    SkipFirst(children[2], [children[3]] + [children[4]], PROTOCOLS);
    var rest := [children[2]] + ([children[3]] + [children[4]]);
    TakeFirst(children[1], rest, PROTOCOLS);
    SkipFirst(children[0], [children[1]] + rest, PROTOCOLS);
    assert children == [children[0]] + ([children[1]] + rest);
    assert Texts(leaf) == [protocol];
    assert TextsOf([leaf]) == [protocol] + TextsOf([]);
  }

  /**
   A link that was added for a layer is recognized when the layer is replaced, and becomes the link that
   adding the new layer would have written (with its old address when the new layer has no such service).
   */
  lemma AddedLinksFollowTheLayer(address: string, protocol: string, name: string, description: string, urls: LayerUrls)
    ensures
      Replaced(LinkResource(address, protocol, name, description), name, urls)
      == LinkResource(if AddressOf(urls, protocol).Some? then AddressOf(urls, protocol).value else address,
                      protocol, urls.LayerName(), description)
  {
    var resource := LinkResource(address, protocol, name, description);
    OwnNames(address, protocol, name, description, urls.LayerName());
    assert [Leaf(CHARACTER_STRING, name)][0 := Leaf(CHARACTER_STRING, urls.LayerName())]
      == [Leaf(CHARACTER_STRING, urls.LayerName())];
    var renamed := LinkResource(address, protocol, urls.LayerName(), description);
    assert Renamed(resource, urls.LayerName()) == renamed;
    OwnProtocol(address, protocol, urls.LayerName(), description);
    if AddressOf(urls, protocol).Some? {
      var later := AddressOf(urls, protocol).value;
      OwnLinkage(address, protocol, urls.LayerName(), description, later);
      assert [Leaf(CHARACTER_STRING, address)][0 := Leaf(CHARACTER_STRING, later)] == [Leaf(CHARACTER_STRING, later)];
    }
  }

  /** Revising the dates touches no online resource, and adding or replacing links touches no citation. */
  lemma EditsAreApart(root: Element, date: string, oldName: string, urls: LayerUrls)
    ensures Select(Revised(root, date), RESOURCES) == Select(root, RESOURCES)
    ensures Select(LinksReplaced(root, oldName, urls), CITATIONS) == Select(root, CITATIONS)
    ensures Select(LinksAdded(root, urls), CITATIONS) == Select(root, CITATIONS)
  {
    PathsAreApart();
    PutElsewhere(root, CITATIONS, RevisedEach(Select(root, CITATIONS), date), RESOURCES);
    PutElsewhere(root, RESOURCES, ReplacedEach(Select(root, RESOURCES), oldName, urls), CITATIONS);
    var distributions := Select(root, DISTRIBUTIONS);
    if distributions != [] {
      var written := WithOptions(distributions[0], WithLinks(OptionsOf(distributions[0]), Additions(root, urls)));
      PutElsewhere(root, DISTRIBUTIONS, distributions[0 := written], CITATIONS);
    }
  }

  // ---- A record refreshed after each run ----

  /** What is sent when a fresh record gets a revision date and the links of a layer, if anything is. */
  function Refreshed(root: Element, date: string, urls: LayerUrls): Option<Element> {
    var revised := Revised(root, date);
    if Select(root, CITATIONS) == []
      && (Select(revised, DISTRIBUTIONS) == [] || Additions(revised, urls) == []) then None
    else Some(LinksAdded(revised, urls))
  }

  /** Revising a citation leaves its title. */
  lemma RevisionKeepsTitle(citation: Element, date: string)
    ensures Select(RevisedCitation(citation, date), TITLE) == Select(citation, TITLE)
  {
    assert |"date"| != |"title"|;
    var dates := Select(citation, REVISION_DATES);
    if dates != [] {
      PutElsewhere(citation, REVISION_DATES, dates[0 := Stamped(dates[0], date)], TITLE);
    } else {
      SelectAppended(citation.children, TITLE, [RevisionEntry(date)]);
      SkipFirst(RevisionEntry(date), [], TITLE);
    }
  }

  lemma {:induction false} RevisionsKeepTitles(citations: seq<Element>, date: string)
    ensures SelectEach(RevisedEach(citations, date), TITLE) == SelectEach(citations, TITLE)
  {
    if citations != [] {
      RevisionKeepsTitle(citations[0], date);
      RevisionsKeepTitles(citations[1..], date);
      TailOf(RevisedCitation(citations[0], date), RevisedEach(citations[1..], date));
    }
  }

  /** So the description of new links does not depend on the date. */
  lemma RevisionKeepsDescription(root: Element, date: string, urls: LayerUrls)
    ensures Description(Revised(root, date), urls) == Description(root, urls)
  {
    PathsAreSound();
    RevisedFit(root, date);
    PutGet(root, CITATIONS, RevisedEach(Select(root, CITATIONS), date));
    SelectThrough(root, CITATIONS, TITLE);
    SelectThrough(Revised(root, date), CITATIONS, TITLE);
    RevisionsKeepTitles(Select(root, CITATIONS), date);
  }

  /** Revising the dates and adding links can be done in either order. */
  lemma RevisingAndAddingCommute(root: Element, date: string, urls: LayerUrls)
    ensures Revised(LinksAdded(root, urls), date) == LinksAdded(Revised(root, date), urls)
  {
    PathsAreApart();
    var citations, distributions := Select(root, CITATIONS), Select(root, DISTRIBUTIONS);
    var revised := RevisedEach(citations, date);
    PutElsewhere(root, CITATIONS, revised, DISTRIBUTIONS);
    if distributions != [] {
      RevisionKeepsDescription(root, date, urls);
      var options := WithLinks(OptionsOf(distributions[0]), Additions(root, urls));
      var written := distributions[0 := WithOptions(distributions[0], options)];
      PutElsewhere(root, DISTRIBUTIONS, written, CITATIONS);
      PutsCommute(root, DISTRIBUTIONS, written, CITATIONS, revised);
      assert LinksAdded(Revised(root, date), urls) == PutAll(Revised(root, date), DISTRIBUTIONS, written);
    }
  }

  /**
   Refreshing the record that was sent sends, when it has a citation, exactly what refreshing the first
   record at the later date would have sent: nothing piles up run after run. Without a citation the
   links are sent once.
   */
  lemma RefreshesDoNotPileUp(root: Element, date: string, later: string, urls: LayerUrls)
    requires Refreshed(root, date, urls).Some?
    ensures
      Refreshed(Refreshed(root, date, urls).value, later, urls)
      == if Select(root, CITATIONS) == [] then None else Refreshed(root, later, urls)
  {
    var revised, sent := Revised(root, date), LinksAdded(Revised(root, date), urls);
    RevisingAndAddingCommute(revised, later, urls);
    LastRevisionWins(root, date, later);
    var last := LinksAdded(Revised(root, later), urls);
    assert Revised(sent, later) == last;
    AddingAgainChangesNothing(Revised(root, later), urls, urls);
    SentCitations(root, date, urls);
    if Select(root, CITATIONS) == [] {
      NoChangeExactly(last, urls);
    }
  }

  lemma SentCitations(root: Element, date: string, urls: LayerUrls)
    ensures |Select(LinksAdded(Revised(root, date), urls), CITATIONS)| == |Select(root, CITATIONS)|
  {
    PathsAreSound();
    RevisedFit(root, date);
    PutGet(root, CITATIONS, RevisedEach(Select(root, CITATIONS), date));
    EditsAreApart(Revised(root, date), date, "", urls);
  }

  /** What changed without being sent: the empty containers of a record that has no citation, and nothing else. */
  lemma UnsentChangeExactly(root: Element, date: string, urls: LayerUrls)
    ensures
      Refreshed(root, date, urls).None? && LinksAdded(Revised(root, date), urls) != root
      <==> && Select(root, CITATIONS) == [] && Select(root, DISTRIBUTIONS) != []
           && Additions(root, urls) == [] && !HasOptions(Select(root, DISTRIBUTIONS)[0])
  {
    PathsAreApart();
    PutElsewhere(root, CITATIONS, RevisedEach(Select(root, CITATIONS), date), DISTRIBUTIONS);
    if Select(root, CITATIONS) == [] {
      GetPut(root, CITATIONS);
      assert Revised(root, date) == root;
      NoChangeExactly(root, urls);
    }
  }

  // ---- The record that is edited in place ----

  /** The first k nodes of a path were replaced by their edits. */
  ghost function Partly(root: Element, path: Path, edited: seq<Element>, k: nat): Element
    requires |edited| == |Select(root, path)| && k <= |edited|
  {
    PutAll(root, path, edited[..k] + Select(root, path)[k..])
  }

  /** Replacing the next node, which is still what it was. */
  lemma PartlyNext(root: Element, path: Path, edited: seq<Element>, k: nat)
    requires path != [] && Sound(path) && |edited| == |Select(root, path)| && Fit(path, edited) && k < |edited|
    ensures |Select(Partly(root, path, edited, k), path)| == |edited|
    ensures Select(Partly(root, path, edited, k), path)[k] == Select(root, path)[k]
    ensures Put(Partly(root, path, edited, k), path, k, edited[k]) == Partly(root, path, edited, k + 1)
    ensures edited[k] == Select(root, path)[k] ==> Partly(root, path, edited, k) == Partly(root, path, edited, k + 1)
  {
    var before := Select(root, path);
    var mixed := edited[..k] + before[k..];
    SelectedFit(root, path);
    forall i | 0 <= i < |mixed|
      ensures path[|path| - 1].Matches(mixed[i])
    {
      assert mixed[i] in edited || mixed[i] in before;
    }
    PutNext(root, path, mixed, k, edited[k]);
    assert mixed[k := edited[k]] == edited[..k + 1] + before[k + 1..];
    if edited[k] == before[k] {
      assert mixed[k := edited[k]] == mixed;
    }
  }

  lemma PartlyEnds(root: Element, path: Path, edited: seq<Element>)
    requires |edited| == |Select(root, path)|
    ensures Partly(root, path, edited, 0) == root
    ensures Partly(root, path, edited, |edited|) == PutAll(root, path, edited)
  {
    var before := Select(root, path);
    GetPut(root, path);
    assert edited[..0] + before[0..] == before;
    assert edited[..|edited|] + before[|edited|..] == edited;
  }

  ghost function PartlyRevised(root: Element, date: string, k: nat): Element
    requires k <= |Select(root, CITATIONS)|
  {
    Partly(root, CITATIONS, RevisedEach(Select(root, CITATIONS), date), k)
  }

  lemma RevisionStep(root: Element, date: string, k: nat)
    requires k < |Select(root, CITATIONS)|
    ensures
      var now := PartlyRevised(root, date, k);
      k < |Select(now, CITATIONS)|
      && Put(now, CITATIONS, k, RevisedCitation(Select(now, CITATIONS)[k], date)) == PartlyRevised(root, date, k + 1)
  {
    PathsAreSound();
    RevisedFit(root, date);
    PartlyNext(root, CITATIONS, RevisedEach(Select(root, CITATIONS), date), k);
  }

  lemma RevisionEnds(root: Element, date: string)
    ensures PartlyRevised(root, date, 0) == root
    ensures PartlyRevised(root, date, |Select(root, CITATIONS)|) == Revised(root, date)
  {
    PartlyEnds(root, CITATIONS, RevisedEach(Select(root, CITATIONS), date));
  }

  ghost function PartlyReplaced(root: Element, oldName: string, urls: LayerUrls, k: nat): Element
    requires k <= |Select(root, RESOURCES)|
  {
    Partly(root, RESOURCES, ReplacedEach(Select(root, RESOURCES), oldName, urls), k)
  }

  lemma ReplacementStep(root: Element, oldName: string, urls: LayerUrls, k: nat)
    requires k < |Select(root, RESOURCES)|
    ensures
      var resource := Select(root, RESOURCES)[k];
      var now := PartlyReplaced(root, oldName, urls, k);
      && k < |Select(now, RESOURCES)| && Select(now, RESOURCES)[k] == resource
      && (if NameOf(resource) == Some(oldName)
          then Put(now, RESOURCES, k, Relinked(Renamed(resource, urls.LayerName()), urls))
            == PartlyReplaced(root, oldName, urls, k + 1)
          else now == PartlyReplaced(root, oldName, urls, k + 1))
    ensures
      Carries(Select(root, RESOURCES)[..k + 1], oldName)
      == (Carries(Select(root, RESOURCES)[..k], oldName) || NameOf(Select(root, RESOURCES)[k]) == Some(oldName))
  {
    PathsAreSound();
    ReplacedFit(root, oldName, urls);
    var resources := Select(root, RESOURCES);
    PartlyNext(root, RESOURCES, ReplacedEach(resources, oldName, urls), k);
    assert resources[..k + 1] == resources[..k] + [resources[k]];
  }

  /** The first k resources of the record have had their turn. */
  ghost predicate ReplacedUpTo(
    root: Element, updated: bool, before: Element, already: bool, oldName: string, urls: LayerUrls, k: nat)
  {
    && k <= |Select(before, RESOURCES)|
    && root == PartlyReplaced(before, oldName, urls, k)
    && updated == (already || Carries(Select(before, RESOURCES)[..k], oldName))
  }

  lemma ReplacementStarts(root: Element, updated: bool, oldName: string, urls: LayerUrls)
    ensures ReplacedUpTo(root, updated, root, updated, oldName, urls, 0)
  {
    PartlyEnds(root, RESOURCES, ReplacedEach(Select(root, RESOURCES), oldName, urls));
  }

  /** One turn: what it reads, and the record and the flag it leaves. */
  lemma ReplacementGoesOn(
    root: Element, updated: bool, before: Element, already: bool, oldName: string, urls: LayerUrls, k: nat)
    requires ReplacedUpTo(root, updated, before, already, oldName, urls, k) && k < |Select(before, RESOURCES)|
    ensures k < |Select(root, RESOURCES)|
    ensures
      var resource := Select(root, RESOURCES)[k];
      if NameOf(resource) == Some(oldName)
      then ReplacedUpTo(Put(root, RESOURCES, k, Relinked(Renamed(resource, urls.LayerName()), urls)), true,
                        before, already, oldName, urls, k + 1)
      else ReplacedUpTo(root, updated, before, already, oldName, urls, k + 1)
  {
    ReplacementStep(before, oldName, urls, k);
  }

  lemma ReplacementEnds(root: Element, updated: bool, before: Element, already: bool, oldName: string, urls: LayerUrls)
    requires ReplacedUpTo(root, updated, before, already, oldName, urls, |Select(before, RESOURCES)|)
    ensures root == LinksReplaced(before, oldName, urls)
    ensures updated == (already || Carries(Select(before, RESOURCES), oldName))
  {
    var resources := Select(before, RESOURCES);
    PartlyEnds(before, RESOURCES, ReplacedEach(resources, oldName, urls));
    assert resources[..|resources|] == resources;
  }

  lemma LinksStep(options: Element, existing: seq<string>, urls: LayerUrls, description: string, i: nat)
    requires i < |LAYER_URL_PROTOCOLS|
    ensures
      var links := NewLinks(existing, urls, description, i);
      var rest := NewLinks(existing, urls, description, i + 1);
      if IsNew(existing, urls, i) then
        var link := NewLink(urls, description, i);
        links != [] && WithLinks(WithLinks(options, [link]), rest) == WithLinks(options, links)
      else
        links == rest
  {
    var rest := NewLinks(existing, urls, description, i + 1);
    if IsNew(existing, urls, i) {
      var link := NewLink(urls, description, i);
      assert options.children + ([link] + rest) == (options.children + [link]) + rest;
    }
  }

  class MetadataRecord {
    var root: Element
    var updated: bool

    constructor (root: Element)
      ensures this.root == root && !updated
    {
      this.root := root;
      updated := false;
    }

    static method ReviseCitation(citation: Element, date: string) returns (revised: Element)
      ensures revised == RevisedCitation(citation, date)
    {
      var existing := Select(citation, REVISION_DATES);
      if existing != [] {
        revised := Put(citation, REVISION_DATES, 0, Stamped(existing[0], date));
      } else {
        revised := citation.(children := citation.children + [RevisionEntry(date)]);
      }
    }

    /** `update_revision_date`. */
    method UpdateRevisionDate(date: string)
      modifies this
      ensures root == Revised(old(root), date)
      ensures updated == (old(updated) || Select(old(root), CITATIONS) != [])
    {
      hide *;
      ghost var before := root;
      RevisionEnds(root, date);
      var n := |Select(root, CITATIONS)|;
      var k := 0;
      while k < n
        invariant 0 <= k <= n == |Select(before, CITATIONS)|
        invariant root == PartlyRevised(before, date, k)
        invariant updated == (old(updated) || k > 0)
      {
        RevisionStep(before, date, k);
        var citation := ReviseCitation(Select(root, CITATIONS)[k], date);
        root := Put(root, CITATIONS, k, citation);
        updated := true;
        k := k + 1;
      }
    }

    /** One turn of the loop over the resources: a resource of the old layer, and whether it was one. */
    static method ReplaceResource(resource: Element, oldName: string, urls: LayerUrls)
      returns (replaced: Element, carried: bool)
      ensures carried == (NameOf(resource) == Some(oldName))
      ensures replaced == if carried then Relinked(Renamed(resource, urls.LayerName()), urls) else resource
    {
      replaced, carried := resource, false;
      if NameOf(resource) == Some(oldName) {
        replaced := Renamed(replaced, urls.LayerName());
        replaced, carried := Relinked(replaced, urls), true;
      }
    }

    /** `replace_layer_online_resources`. */
    method ReplaceLayerOnlineResources(oldName: string, urls: LayerUrls)
      modifies this
      ensures root == LinksReplaced(old(root), oldName, urls)
      ensures updated == (old(updated) || Carries(Select(old(root), RESOURCES), oldName))
    {
      hide *;
      ghost var before, already := root, updated;
      ReplacementStarts(root, updated, oldName, urls);
      var n := |Select(root, RESOURCES)|;
      var k := 0;
      while k < n
        invariant k <= n == |Select(before, RESOURCES)|
        invariant ReplacedUpTo(root, updated, before, already, oldName, urls, k)
      {
        ReplacementGoesOn(root, updated, before, already, oldName, urls, k);
        var resource, carried := ReplaceResource(Select(root, RESOURCES)[k], oldName, urls);
        if carried {
          root := Put(root, RESOURCES, k, resource);
          updated := true;
        }
        k := k + 1;
      }
      ReplacementEnds(root, updated, before, already, oldName, urls);
    }

    /** One link for each available service that is not advertised yet. */
    static method AppendLinks(
      options: Element, urls: LayerUrls, description: string) returns (filled: Element, any: bool)
      ensures filled == WithLinks(options, NewLinks(Advertised(options), urls, description, 0))
      ensures any == (NewLinks(Advertised(options), urls, description, 0) != [])
    {
      var existing := Advertised(options);
      ghost var links := NewLinks(existing, urls, description, 0);
      filled, any := options, false;
      var i := 0;
      while i < |LAYER_URL_PROTOCOLS|
        invariant 0 <= i <= |LAYER_URL_PROTOCOLS|
        invariant WithLinks(filled, NewLinks(existing, urls, description, i)) == WithLinks(options, links)
        invariant if any then links != [] else links == NewLinks(existing, urls, description, i)
      {
        LinksStep(filled, existing, urls, description, i);
        var (key, protocol) := LAYER_URL_PROTOCOLS[i];
        if protocol !in existing && urls.Address(key).Some? {
          var link := Link(urls.Address(key).value, protocol, urls.LayerName(), description);
          filled := WithLinks(filled, [link]);
          any := true;
        }
        i := i + 1;
      }
      assert WithLinks(filled, []) == filled;
    }

    /** `add_online_resources_from_layer_urls_19115_3`: containers created for nothing do not set the flag. */
    method AddOnlineResources(urls: LayerUrls)
      modifies this
      ensures root == LinksAdded(old(root), urls)
      ensures updated == (old(updated) || (Select(old(root), DISTRIBUTIONS) != [] && Additions(old(root), urls) != []))
    {
      var distributions := Select(root, DISTRIBUTIONS);
      if distributions == [] {
        return;
      }
      var options := OptionsOf(distributions[0]);
      var filled, any := AppendLinks(options, urls, Description(root, urls));
      root := Put(root, DISTRIBUTIONS, 0, WithOptions(distributions[0], filled));
      updated := updated || any;
    }

    /** The edits after a run of a dataset (process.py): date, links, upload. */
    static method Refresh(root: Element, date: string, urls: LayerUrls) returns (sent: Option<Element>)
      ensures sent == Refreshed(root, date, urls)
    {
      var record := new MetadataRecord(root);
      record.UpdateRevisionDate(date);
      record.AddOnlineResources(urls);
      sent := record.UploadToGn();
    }

    /** `upload_to_gn`: what is sent, if anything. */
    method UploadToGn() returns (sent: Option<Element>)
      ensures sent == if updated then Some(root) else None
    {
      if !updated {
        return None;
      }
      sent := Some(root);
    }
  }
}
