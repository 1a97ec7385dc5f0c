/**
 Sharing rules of a dataset and their effect on its layer (integrity_link.py): rules change in a
 session that is committed only once GeoServer has taken them.
 */
module DataSharing {
  import opened Wrappers
  import opened Sequences
  import opened Text
  import opened DataIds
  import opened GeoServerAcl

  datatype RuleType = Data | Metadata

  datatype Rule = Rule(id: nat, linkId: nat, ruleType: RuleType, value: RuleValue, group: string)

  datatype Link = Link(
    id: nat, organization: string, finalTable: Option<string>, prefilled: bool, dataId: Option<string>)

  /** Role names by id, as the console gives them; None when it does not answer. */
  type Console = Option<map<string, string>>

  // ---- The layer of a dataset ----

  /** Workspace and name of the layer whose rules follow the dataset, if it has one. */
  function LayerOf(link: Link): Option<(string, string)> {
    var workspace := Lower(link.organization);
    var parts := if link.prefilled then ParseDataId(link.dataId) else None;
    if parts.Some? then (if parts.value.1 == "" then None else Some((Lower(parts.value.0), Lower(parts.value.1))))
    else if link.finalTable.Some? && link.finalTable.value != "" then Some((workspace, link.finalTable.value))
    else None
  }

  /** Nothing is synchronized for a dataset that has no final table, unless it came with its layer. */
  predicate IsSkipped(link: Link) { link.finalTable in {None, Some("")} && !link.prefilled }

  // ---- From rules to privileges ----

  predicate IsDataRule(link: Link, rule: Rule) { rule.linkId == link.id && rule.ruleType.Data? }

  function DataRules(link: Link, rules: seq<Rule>): seq<Rule> {
    if rules == [] then []
    else (if IsDataRule(link, rules[0]) then [rules[0]] else []) + DataRules(link, rules[1..])
  }

  /** The role a rule grants to: None when the console does not know it. */
  function RoleOf(rule: Rule, console: Console): Option<string> {
    if rule.group == EVERYONE then Some(EVERYONE)
    else if console.Some? && rule.group in console.value then Some("ROLE_" + console.value[rule.group])
    else None
  }

  function Resolve(rules: seq<Rule>, console: Console): Option<seq<Privilege>> {
    if rules == [] then Some([])
    else
      var role, rest := RoleOf(rules[0], console), Resolve(rules[1..], console);
      if role.None? || rest.None? then None else Some([Privilege(role.value, rules[0].value)] + rest.value)
  }

  /** The rules of the layer say exactly what the DATA rules of the dataset say. */
  predicate LayerFollowsRules(link: Link, rules: seq<Rule>, console: Console, acl: Acl) {
    LayerOf(link).Some? ==>
      var privileges := Resolve(DataRules(link, rules), console);
      privileges.Some? && InSync(acl, LayerOf(link).value.0, LayerOf(link).value.1, privileges.value)
  }

  /** A DATA rule of the dataset that grants this role, under the name GeoServer knows. */
  predicate Grants(link: Link, rule: Rule, console: Console, role: string) {
    && rule.linkId == link.id && rule.ruleType == Data
    && (if rule.group == "*" then role == "*"
        else console.Some? && rule.group in console.value
             && role == ToGeoServerRole("ROLE_" + console.value[rule.group]))
  }

  /** A DATA rule of the dataset, that lets write if need be. */
  predicate Counts(link: Link, rule: Rule, writing: bool) {
    rule.linkId == link.id && rule.ruleType == Data && (writing ==> rule.value == WriteValue)
  }

  ghost predicate RolesGranted(link: Link, rules: seq<Rule>, console: Console, roles: seq<string>, writing: bool) {
    forall role :: role in roles <==>
      exists i | 0 <= i < |rules| :: Grants(link, rules[i], console, role) && Counts(link, rules[i], writing)
  }

  /** The text of a rule of the layer names the roles that the rules of the dataset grant, and no other. */
  ghost predicate Names(link: Link, rules: seq<Rule>, console: Console, text: string, writing: bool) {
    exists roles :: text == Join(",", roles) && RolesGranted(link, rules, console, roles, writing)
  }

  /** The first rule, and the others, as privileges. */
  lemma ResolvedHead(link: Link, rules: seq<Rule>, console: Console)
    requires rules != [] && Resolve(DataRules(link, rules), console).Some?
    ensures
      var privileges, rest := Resolve(DataRules(link, rules), console), Resolve(DataRules(link, rules[1..]), console);
      && rest.Some?
      && if IsDataRule(link, rules[0])
         then RoleOf(rules[0], console).Some?
              && privileges.value == [Privilege(RoleOf(rules[0], console).value, rules[0].value)] + rest.value
         else privileges == rest
  {
    var rest := DataRules(link, rules[1..]);
    if IsDataRule(link, rules[0]) {
      TailOf(rules[0], rest);
    } else {
      EmptyFirst(rest);
    }
  }

  /** The roles of the privileges are those the rules grant. */
  lemma {:induction false} GrantedExactly(
    link: Link, rules: seq<Rule>, console: Console, writing: bool, role: string)
    requires Resolve(DataRules(link, rules), console).Some?
    ensures
      role in Roles(Resolve(DataRules(link, rules), console).value, if writing then Write else Read)
      <==> exists i | 0 <= i < |rules| :: Grants(link, rules[i], console, role) && Counts(link, rules[i], writing)
  {
    if rules != [] {
      var rest := rules[1..];
      ResolvedHead(link, rules, console);
      GrantedExactly(link, rest, console, writing, role);
      if IsDataRule(link, rules[0]) {
        RolesOfHead(Privilege(RoleOf(rules[0], console).value, rules[0].value),
                    Resolve(DataRules(link, rest), console).value, if writing then Write else Read);
      }
      var head := Grants(link, rules[0], console, role) && Counts(link, rules[0], writing);
      assert (exists i | 0 <= i < |rules| :: Grants(link, rules[i], console, role) && Counts(link, rules[i], writing))
        <==> head || exists i | 0 <= i < |rest| ::
               Grants(link, rest[i], console, role) && Counts(link, rest[i], writing)
      by {
        if i :| 0 <= i < |rules| && Grants(link, rules[i], console, role) && Counts(link, rules[i], writing) {
          if i > 0 { assert rest[i - 1] == rules[i]; }
        }
        if i :| 0 <= i < |rest| && Grants(link, rest[i], console, role) && Counts(link, rest[i], writing) {
          assert rules[i + 1] == rest[i];
        }
      }
    }
  }

  lemma {:induction false} SomeGrantedExactly(link: Link, rules: seq<Rule>, console: Console, writing: bool)
    requires Resolve(DataRules(link, rules), console).Some?
    ensures
      Roles(Resolve(DataRules(link, rules), console).value, if writing then Write else Read) != []
      <==> exists i | 0 <= i < |rules| :: Counts(link, rules[i], writing)
  {
    if rules != [] {
      var rest := rules[1..];
      ResolvedHead(link, rules, console);
      SomeGrantedExactly(link, rest, console, writing);
      if IsDataRule(link, rules[0]) {
        RolesOfHead(Privilege(RoleOf(rules[0], console).value, rules[0].value),
                    Resolve(DataRules(link, rest), console).value, if writing then Write else Read);
      }
      if i :| 0 <= i < |rules| && Counts(link, rules[i], writing) {
        if i > 0 { assert rest[i - 1] == rules[i]; }
      }
      if i :| 0 <= i < |rest| && Counts(link, rest[i], writing) {
        assert rules[i + 1] == rest[i];
      }
    }
  }

  /**
   A layer that follows the rules, in terms of these rules alone: its read rule is there exactly when the
   dataset has a DATA rule and names the roles of all of them, its write rule exactly when one of them is a
   WRITE rule and names the roles of those.
   */
  ghost predicate LayerSays(link: Link, rules: seq<Rule>, console: Console, acl: Acl) {
    LayerOf(link).Some? ==>
      var (workspace, layer) := LayerOf(link).value;
      var read, write := workspace + "." + layer + ".r", workspace + "." + layer + ".w";
      && (read in acl <==> exists i | 0 <= i < |rules| :: Counts(link, rules[i], false))
      && (write in acl <==> exists i | 0 <= i < |rules| :: Counts(link, rules[i], true))
      && (read in acl ==> Names(link, rules, console, acl[read], false))
      && (write in acl ==> Names(link, rules, console, acl[write], true))
  }

  lemma LayerFollowsExactly(link: Link, rules: seq<Rule>, console: Console, acl: Acl)
    requires LayerFollowsRules(link, rules, console, acl)
    ensures LayerSays(link, rules, console, acl)
  {
    if LayerOf(link).None? {
      return;
    }
    var privileges := Resolve(DataRules(link, rules), console).value;
    RolesAre(privileges);
    SomeGrantedExactly(link, rules, console, false);
    SomeGrantedExactly(link, rules, console, true);
    forall role
      ensures role in Mapped(privileges) <==>
        exists i | 0 <= i < |rules| :: Grants(link, rules[i], console, role) && Counts(link, rules[i], false)
      ensures role in Mapped(Writers(privileges)) <==>
        exists i | 0 <= i < |rules| :: Grants(link, rules[i], console, role) && Counts(link, rules[i], true)
    {
      GrantedExactly(link, rules, console, false, role);
      GrantedExactly(link, rules, console, true, role);
    }
    assert RolesGranted(link, rules, console, Mapped(privileges), false);
    assert RolesGranted(link, rules, console, Mapped(Writers(privileges)), true);
  }

  /** The layer of a dataset: of a prefilled one, the layer it came with when its data id has two parts. */
  lemma LayerOfExactly(link: Link, workspace: string, layer: string)
    requires ':' !in workspace
    ensures link.prefilled && link.dataId == Some(workspace + ":" + layer) ==>
      LayerOf(link) == if layer == "" then None else Some((Lower(workspace), Lower(layer)))
    ensures !link.prefilled || link.dataId == None || link.dataId == Some(workspace) ==>
      LayerOf(link) == if link.finalTable in {None, Some("")} then None
                       else Some((Lower(link.organization), link.finalTable.value))
  {
    DataIdReadsBack(workspace, layer);
  }

  predicate IsLayerKey(link: Link, key: string) {
    LayerOf(link).Some? &&
    var name := LayerName(LayerOf(link).value.0, LayerOf(link).value.1);
    key == RuleKey(name, Read) || key == RuleKey(name, Write)
  }

  /** No rule of another layer differs. */
  ghost predicate OthersUnchanged(link: Link, acl: Acl, now: Acl) {
    forall key | !IsLayerKey(link, key) :: (key in now <==> key in acl) && (key in now ==> now[key] == acl[key])
  }

  // ---- Changes to the rules ----

  function FreshId(rules: seq<Rule>): nat {
    if rules == [] then 0
    else
      var rest := FreshId(rules[1..]);
      if rules[0].id >= rest then rules[0].id + 1 else rest
  }

  predicate SameGroup(link: Link, rule: Rule, ruleType: RuleType, group: string) {
    rule.linkId == link.id && rule.ruleType == ruleType && rule.group == group
  }

  /** Change the first rule of the group, or add one. */
  function Upserted(
    link: Link, rules: seq<Rule>, ruleType: RuleType, group: string, value: RuleValue, newId: nat): seq<Rule>
  {
    if rules == [] then [Rule(newId, link.id, ruleType, value, group)]
    else if SameGroup(link, rules[0], ruleType, group) then [rules[0].(value := value)] + rules[1..]
    else [rules[0]] + Upserted(link, rules[1..], ruleType, group, value, newId)
  }

  function Find(rules: seq<Rule>, id: nat): Option<Rule> {
    if rules == [] then None else if rules[0].id == id then Some(rules[0]) else Find(rules[1..], id)
  }

  function Deleted(rules: seq<Rule>, id: nat): seq<Rule> {
    if rules == [] then []
    else if rules[0].id == id then rules[1..]
    else [rules[0]] + Deleted(rules[1..], id)
  }

  predicate IsEveryoneRead(link: Link, rule: Rule) {
    SameGroup(link, rule, Data, EVERYONE) && rule.value.ReadValue?
  }

  function WithoutEveryone(link: Link, rules: seq<Rule>): seq<Rule> {
    if rules == [] then []
    else (if IsEveryoneRead(link, rules[0]) then [] else [rules[0]]) + WithoutEveryone(link, rules[1..])
  }

  /** The first rule of the group changes its value, and no other rule changes; without one, a rule is added. */
  lemma {:induction false} UpsertedExactly(
    link: Link, rules: seq<Rule>, ruleType: RuleType, group: string, value: RuleValue, newId: nat)
    returns (i: nat)
    ensures i <= |rules|
    ensures forall k | 0 <= k < i ::
      !(rules[k].linkId == link.id && rules[k].ruleType == ruleType && rules[k].group == group)
    ensures
      var upserted := Upserted(link, rules, ruleType, group, value, newId);
      if i == |rules| then upserted == rules + [Rule(newId, link.id, ruleType, value, group)]
      else
        && rules[i].linkId == link.id && rules[i].ruleType == ruleType && rules[i].group == group
        && upserted == rules[i := rules[i].(value := value)]
  {
    if rules == [] || SameGroup(link, rules[0], ruleType, group) {
      i := 0;
    } else {
      var k := UpsertedExactly(link, rules[1..], ruleType, group, value, newId);
      i := k + 1;
      assert rules == [rules[0]] + rules[1..];
      forall j | 0 <= j < i
        ensures !(rules[j].linkId == link.id && rules[j].ruleType == ruleType && rules[j].group == group)
      {
        if j > 0 { assert rules[j] == rules[1..][j - 1]; }
      }
    }
  }

  lemma OtherIdFirst(rule: Rule, rest: seq<Rule>, id: nat)
    requires rule.id != id
    ensures Find([rule] + rest, id) == Find(rest, id) && Deleted([rule] + rest, id) == [rule] + Deleted(rest, id)
  {
    TailOf(rule, rest);
  }

  /** The rule of that id goes, and the others are as before. */
  lemma {:induction false} DeletedExactly(rules: seq<Rule>, id: nat) returns (i: nat)
    ensures i <= |rules| && forall k | 0 <= k < i :: rules[k].id != id
    ensures
      if i == |rules| then Find(rules, id) == None && Deleted(rules, id) == rules
      else rules[i].id == id && Find(rules, id) == Some(rules[i]) && Deleted(rules, id) == rules[..i] + rules[i + 1..]
  {
    if rules == [] || rules[0].id == id {
      i := 0;
    } else {
      hide *;
      var k := DeletedExactly(rules[1..], id);
      i := k + 1;
      HeadAndTail(rules);
      OtherIdFirst(rules[0], rules[1..], id);
      forall j | 0 <= j < i ensures rules[j].id != id {
        if j > 0 { assert rules[j] == rules[1..][j - 1]; }
      }
    }
  }

  /** Unpublishing takes away the DATA rules of the dataset that let everyone read, and nothing else. */
  lemma {:induction false} UnpublishedExactly(link: Link, rules: seq<Rule>, rule: Rule)
    ensures multiset(WithoutEveryone(link, rules))[rule]
      == if rule.linkId == link.id && rule.ruleType == Data && rule.group == "*" && rule.value == ReadValue then 0
         else multiset(rules)[rule]
  {
    if rules != [] {
      UnpublishedExactly(link, rules[1..], rule);
      assert rules == [rules[0]] + rules[1..];
    }
  }

  /** The rule a new one gets is that of no rule. */
  lemma {:induction false} FreshIdIsFresh(rules: seq<Rule>)
    ensures forall i | 0 <= i < |rules| :: rules[i].id < FreshId(rules)
  {
    if rules != [] {
      FreshIdIsFresh(rules[1..]);
      forall i | 0 <= i < |rules| ensures rules[i].id < FreshId(rules) {
        if i > 0 { assert rules[i] == rules[1..][i - 1]; }
      }
    }
  }

  lemma {:induction false} DataRulesConcat(link: Link, a: seq<Rule>, b: seq<Rule>)
    ensures DataRules(link, a + b) == DataRules(link, a) + DataRules(link, b)
  {
    if a == [] {
      assert a + b == b;
    } else {
      DataRulesConcat(link, a[1..], b);
      FirstOff(a, b);
    }
  }

  /** Changing a METADATA rule leaves the DATA rules, so the layer need not be touched. */
  lemma {:induction false} MetadataUpsertKeepsData(
    link: Link, rules: seq<Rule>, group: string, value: RuleValue, newId: nat)
    ensures DataRules(link, Upserted(link, rules, Metadata, group, value, newId)) == DataRules(link, rules)
  {
    var upserted := Upserted(link, rules, Metadata, group, value, newId);
    if rules == [] {
      assert upserted[1..] == [];
    } else if SameGroup(link, rules[0], Metadata, group) {
      assert upserted[1..] == rules[1..];
    } else {
      MetadataUpsertKeepsData(link, rules[1..], group, value, newId);
      assert upserted[1..] == Upserted(link, rules[1..], Metadata, group, value, newId);
    }
  }

  lemma {:induction false} MetadataDeleteKeepsData(link: Link, rules: seq<Rule>, id: nat)
    requires Find(rules, id).Some? && !Find(rules, id).value.ruleType.Data?
    ensures DataRules(link, Deleted(rules, id)) == DataRules(link, rules)
  {
    if rules[0].id != id {
      MetadataDeleteKeepsData(link, rules[1..], id);
      assert Deleted(rules, id)[1..] == Deleted(rules[1..], id);
    }
  }

  /** After publishing, everyone is among the readers; after unpublishing, only a WRITE rule can do that. */
  lemma {:induction false} PublicationExactly(link: Link, rules: seq<Rule>, console: Console, newId: nat)
    ensures var published := rules + [Rule(newId, link.id, Data, ReadValue, EVERYONE)];
      Resolve(DataRules(link, published), console).Some? ==>
        EVERYONE in Roles(Resolve(DataRules(link, published), console).value, Read)
    ensures var left := DataRules(link, WithoutEveryone(link, rules));
      Resolve(left, console).Some? ==>
        (EVERYONE in Roles(Resolve(left, console).value, Read)
         <==> exists i | 0 <= i < |left| :: left[i].group == EVERYONE && left[i].value.WriteValue?)
  {
    var added := Rule(newId, link.id, Data, ReadValue, EVERYONE);
    DataRulesConcat(link, rules, [added]);
    assert DataRules(link, [added]) == [added] by { assert [added][1..] == []; }
    var published := DataRules(link, rules) + [added];
    if Resolve(published, console).Some? {
      EveryoneReads(published, console);
      assert published[|published| - 1] == added;
    }
    var left := DataRules(link, WithoutEveryone(link, rules));
    if Resolve(left, console).Some? {
      EveryoneReads(left, console);
      NoEveryoneReadLeft(link, rules);
    }
  }

  lemma {:induction false} EveryoneReads(rules: seq<Rule>, console: Console)
    requires Resolve(rules, console).Some?
    ensures EVERYONE in Roles(Resolve(rules, console).value, Read)
       <==> exists i | 0 <= i < |rules| :: rules[i].group == EVERYONE
  {
    if rules != [] {
      var privileges := Resolve(rules, console).value;
      EveryoneReads(rules[1..], console);
      assert privileges[1..] == Resolve(rules[1..], console).value;
      RoleMappingIsIdempotent(privileges[0].role);
      assert rules[0].group == EVERYONE <==> privileges[0].role == EVERYONE;
      if i :| 0 <= i < |rules| && rules[i].group == EVERYONE {
        if i > 0 { assert rules[1..][i - 1].group == EVERYONE; }
      }
      if i :| 0 <= i < |rules[1..]| && rules[1..][i].group == EVERYONE {
        assert rules[i + 1].group == EVERYONE;
      }
    }
  }

  lemma {:induction false} NoEveryoneReadLeft(link: Link, rules: seq<Rule>)
    ensures forall i :: 0 <= i < |DataRules(link, WithoutEveryone(link, rules))| ==>
      var rule := DataRules(link, WithoutEveryone(link, rules))[i];
      IsDataRule(link, rule) && !IsEveryoneRead(link, rule)
  {
    if rules != [] {
      NoEveryoneReadLeft(link, rules[1..]);
      var left := WithoutEveryone(link, rules);
      if !IsEveryoneRead(link, rules[0]) {
        assert left[1..] == WithoutEveryone(link, rules[1..]);
      } else {
        assert left == WithoutEveryone(link, rules[1..]);
      }
    }
  }

  // ---- The routes ----

  datatype Outcome = Committed | RolledBack | Refused

  datatype Operation =
    | Upsert(ruleType: RuleType, group: string, value: RuleValue)
    | Delete(ruleId: nat)
    | Publish
    | Unpublish

  /** The rules an operation asks for, or None when it is refused from the start. */
  function Requested(link: Link, rules: seq<Rule>, op: Operation): Option<seq<Rule>> {
    match op
    case Upsert(ruleType, group, value) => Some(Upserted(link, rules, ruleType, group, value, FreshId(rules)))
    case Delete(id) =>
      if Find(rules, id).Some? && Find(rules, id).value.linkId == link.id then Some(Deleted(rules, id)) else None
    case Publish =>
      if LayerOf(link).None? then None
      else Some(rules + [Rule(FreshId(rules), link.id, Data, ReadValue, EVERYONE)])
    case Unpublish => if LayerOf(link).None? then None else Some(WithoutEveryone(link, rules))
  }

  /** What is refused: to publish or unpublish without a layer, and to delete a rule of another dataset, or none. */
  lemma RefusedExactly(link: Link, rules: seq<Rule>, op: Operation)
    ensures Requested(link, rules, op).None?
       <==> match op
            case Upsert(_, _, _) => false
            case Delete(id) =>
              !exists i | 0 <= i < |rules| ::
                rules[i].id == id && rules[i].linkId == link.id && forall k | 0 <= k < i :: rules[k].id != id
            case Publish => LayerOf(link) == None
            case Unpublish => LayerOf(link) == None
  {
    if op.Delete? {
      var i := DeletedExactly(rules, op.ruleId);
    }
  }

  /** Whether the operation goes to GeoServer. */
  predicate TouchesData(rules: seq<Rule>, op: Operation) {
    match op
    case Upsert(ruleType, _, _) => ruleType.Data?
    case Delete(id) => Find(rules, id).Some? && Find(rules, id).value.ruleType.Data?
    case Publish => true
    case Unpublish => true
  }

  /** A run of operations: `states[i]` are the committed rules before the i-th one. */
  predicate IsRun(link: Link, ops: seq<Operation>, outcomes: seq<Outcome>, states: seq<seq<Rule>>) {
    && |outcomes| == |ops| && |states| == |ops| + 1
    && forall i | 0 <= i < |ops| ::
      && (outcomes[i].Refused? <==> Requested(link, states[i], ops[i]).None?)
      && if outcomes[i].Committed? then Requested(link, states[i], ops[i]) == Some(states[i + 1])
         else states[i + 1] == states[i]
  }

  /** No operation on DATA rules was rolled back from the i-th on. */
  predicate Undisturbed(ops: seq<Operation>, outcomes: seq<Outcome>, states: seq<seq<Rule>>, i: nat)
    requires |outcomes| == |ops| < |states|
  {
    forall k | i <= k < |ops| :: outcomes[k].RolledBack? ==> !TouchesData(states[k], ops[k])
  }

  /** The i-th operation was committed on DATA rules, and none after it was rolled back. */
  predicate SettledAt(ops: seq<Operation>, outcomes: seq<Outcome>, states: seq<seq<Rule>>, i: nat)
    requires |outcomes| == |ops| < |states| && i < |ops|
  {
    outcomes[i].Committed? && TouchesData(states[i], ops[i]) && Undisturbed(ops, outcomes, states, i + 1)
  }

  predicate InStep(ops: seq<Operation>, outcomes: seq<Outcome>, states: seq<seq<Rule>>)
    requires |outcomes| == |ops| < |states|
  {
    exists i | 0 <= i < |ops| :: SettledAt(ops, outcomes, states, i)
  }

  /** One operation more. */
  lemma RunGoesOn(
    link: Link, ops: seq<Operation>, outcomes: seq<Outcome>, states: seq<seq<Rule>>,
    op: Operation, outcome: Outcome, rules: seq<Rule>)
    requires IsRun(link, ops, outcomes, states)
    requires outcome.Refused? <==> Requested(link, states[|ops|], op).None?
    requires if outcome.Committed? then Requested(link, states[|ops|], op) == Some(rules) else rules == states[|ops|]
    ensures IsRun(link, ops + [op], outcomes + [outcome], states + [rules])
  {
    var ops', outcomes', states', n := ops + [op], outcomes + [outcome], states + [rules], |ops|;
    assert forall i | 0 <= i < n :: ops'[i] == ops[i] && outcomes'[i] == outcomes[i];
    assert forall i | 0 <= i <= n :: states'[i] == states[i];
  }

  lemma UndisturbedGoesOn(
    ops: seq<Operation>, outcomes: seq<Outcome>, states: seq<seq<Rule>>, op: Operation, outcome: Outcome,
    rules: seq<Rule>, i: nat)
    requires |outcomes| == |ops| && |states| == |ops| + 1 && i <= |ops|
    ensures Undisturbed(ops + [op], outcomes + [outcome], states + [rules], i)
       <==> Undisturbed(ops, outcomes, states, i) && (outcome.RolledBack? ==> !TouchesData(states[|ops|], op))
  {
    var ops', outcomes', states', n := ops + [op], outcomes + [outcome], states + [rules], |ops|;
    assert ops'[n] == op && outcomes'[n] == outcome && states'[n] == states[n];
    assert forall k | 0 <= k < n :: ops'[k] == ops[k] && outcomes'[k] == outcomes[k] && states'[k] == states[k];
  }

  /** Which operation settles the layer when there is one operation more. */
  lemma SettledGoesOn(
    ops: seq<Operation>, outcomes: seq<Outcome>, states: seq<seq<Rule>>, op: Operation, outcome: Outcome,
    rules: seq<Rule>, i: nat)
    requires |outcomes| == |ops| && |states| == |ops| + 1 && i <= |ops|
    ensures SettledAt(ops + [op], outcomes + [outcome], states + [rules], i)
       <==> if i < |ops|
            then SettledAt(ops, outcomes, states, i) && (outcome.RolledBack? ==> !TouchesData(states[|ops|], op))
            else outcome.Committed? && TouchesData(states[|ops|], op)
  {
    if i < |ops| {
      UndisturbedGoesOn(ops, outcomes, states, op, outcome, rules, i + 1);
    }
  }

  lemma InStepGoesOn(
    ops: seq<Operation>, outcomes: seq<Outcome>, states: seq<seq<Rule>>, op: Operation, outcome: Outcome,
    rules: seq<Rule>)
    requires |outcomes| == |ops| && |states| == |ops| + 1
    ensures InStep(ops + [op], outcomes + [outcome], states + [rules])
       <==> if TouchesData(states[|ops|], op)
            then outcome.Committed? || (outcome.Refused? && InStep(ops, outcomes, states))
            else InStep(ops, outcomes, states)
  {
    var touches := TouchesData(states[|ops|], op);
    forall i | 0 <= i <= |ops|
      ensures SettledAt(ops + [op], outcomes + [outcome], states + [rules], i)
         <==> if i < |ops| then SettledAt(ops, outcomes, states, i) && (outcome.RolledBack? ==> !touches)
              else outcome.Committed? && touches
    {
      SettledGoesOn(ops, outcomes, states, op, outcome, rules, i);
    }
    if outcome.Committed? && touches {
      assert SettledAt(ops + [op], outcomes + [outcome], states + [rules], |ops|);
    }
    if i :| 0 <= i < |ops| && SettledAt(ops, outcomes, states, i) {
      assert (outcome.RolledBack? && touches) || SettledAt(ops + [op], outcomes + [outcome], states + [rules], i);
    }
  }

  class Backend {
    const link: Link
    const console: Console
    const server: AclServer
    var rules: seq<Rule>  // as committed
    var published: bool   // gs_is_published
    ghost var commitFaults: nat

    constructor (link: Link, console: Console, server: AclServer, rules: seq<Rule>)
      ensures this.link == link && this.console == console && this.server == server && this.rules == rules && !published
      ensures commitFaults == 0
    {
      this.link, this.console, this.server, this.rules, published := link, console, server, rules, false;
      commitFaults := 0;
    }

    predicate FollowsRules()
      reads this, server
    {
      LayerFollowsRules(link, rules, console, server.acl)
    }

    /** Commit of the session, which may fail. */
    method Commit() returns (ok: bool)
      modifies this`commitFaults
      ensures commitFaults == old(commitFaults) + (if ok then 0 else 1)
    {
      ok := *;
      if !ok {
        commitFaults := commitFaults + 1;
      }
    }

    /** `_sync_data_sharing`, on the rules of the session. Roles are resolved before the layer is looked for. */
    method SyncDataSharing(pending: seq<Rule>) returns (ok: bool)
      modifies server
      ensures ok ==> LayerFollowsRules(link, pending, console, server.acl)
      ensures ok ==> IsSkipped(link) || Resolve(DataRules(link, pending), console).Some?
      ensures OthersUnchanged(link, old(server.acl), server.acl)
      ensures ok ==> server.faults == old(server.faults)
      ensures !ok ==> server.faults > old(server.faults) || Resolve(DataRules(link, pending), console).None?
      ensures link.finalTable in {None, Some("")} && !link.prefilled ==> ok && server.acl == old(server.acl)
    {
      if IsSkipped(link) {
        return true;
      }
      var privileges := Resolve(DataRules(link, pending), console);
      if privileges.None? {
        return false;
      }
      var layer := LayerOf(link);
      if layer.None? {
        return true;
      }
      ghost var acl := server.acl;
      var error := SyncLayerAcl(server, layer.value.0, layer.value.1, privileges.value);
      if error.None? {
        SyncedIsInSync(acl, layer.value.0, layer.value.1, privileges.value);
      }
      return error.None?;
    }

    /**
     Change the session, bring GeoServer in line, read the rule back for a publication, commit. When it is
     the commit that fails, the layer follows the rules that were asked for.
     */
    method Apply(op: Operation) returns (outcome: Outcome)
      modifies this, server
      ensures outcome.Refused? <==> Requested(link, old(rules), op).None?
      ensures if outcome.Committed? then Some(rules) == Requested(link, old(rules), op) else rules == old(rules)
      ensures outcome.Committed? && TouchesData(old(rules), op) ==>
        FollowsRules() && LayerSays(link, rules, console, server.acl)
      ensures outcome.Committed? && !TouchesData(old(rules), op) ==>
        DataRules(link, rules) == DataRules(link, old(rules))
      ensures outcome.Refused? || !TouchesData(old(rules), op) ==> server.acl == old(server.acl)
      ensures op.Upsert? && op.ruleType == Metadata ==> server.acl == old(server.acl)
      ensures old(FollowsRules()) && (outcome.RolledBack? ==> !TouchesData(old(rules), op)) ==> FollowsRules()
      ensures OthersUnchanged(link, old(server.acl), server.acl)
      ensures published == if outcome.Committed? && op.Publish? then true
                           else if outcome.Committed? && op.Unpublish? then false
                           else old(published)
      ensures commitFaults > old(commitFaults) ==>
        outcome.RolledBack?
        && (TouchesData(old(rules), op) ==>
              LayerFollowsRules(link, Requested(link, old(rules), op).value, console, server.acl))
      ensures outcome.RolledBack? && commitFaults <= old(commitFaults) ==>
        && TouchesData(old(rules), op) && (link.prefilled || link.finalTable !in {None, Some("")})
        && (server.faults == old(server.faults) ==>
              Resolve(DataRules(link, Requested(link, old(rules), op).value), console).None?)
    {
      var pending := Requested(link, rules, op);
      if pending.None? {
        return Refused;
      }
      if TouchesData(rules, op) {
        var ok := SyncDataSharing(pending.value);
        if !ok {
          return RolledBack;
        }
        if op.Publish? || op.Unpublish? {
          var layer := LayerOf(link).value;
          var roles := server.Get(RuleKey(LayerName(layer.0, layer.1), Read));
          if roles.Err? {
            return RolledBack;
          }
        }
      } else if op.Upsert? {
        MetadataUpsertKeepsData(link, rules, op.group, op.value, FreshId(rules));
      } else {
        MetadataDeleteKeepsData(link, rules, op.ruleId);
      }
      var committed := Commit();
      if !committed {
        return RolledBack;
      }
      if TouchesData(rules, op) {
        LayerFollowsExactly(link, pending.value, console, server.acl);
      }
      rules := pending.value;
      published := op.Publish? || (published && !op.Unpublish?);
      return Committed;
    }

    /**
     Any sequence of operations. The layer follows the committed rules as soon as an operation on DATA
     rules is committed, and until one is rolled back: that one may have left GeoServer half changed, or
     ahead of the database, and the next one that is committed repairs it. Rules of other layers never
     change.
     */
    method ApplyAll(ops: seq<Operation>) returns (outcomes: seq<Outcome>, states: seq<seq<Rule>>)
      modifies this, server
      ensures IsRun(link, ops, outcomes, states) && states[0] == old(rules) && states[|ops|] == rules
      ensures InStep(ops, outcomes, states) ==> FollowsRules()
      ensures old(FollowsRules()) && Undisturbed(ops, outcomes, states, 0) ==> FollowsRules()
      ensures OthersUnchanged(link, old(server.acl), server.acl)
    {
      hide LayerFollowsRules, SettledAt, TouchesData, Requested;
      outcomes, states := [], [rules];
      for i := 0 to |ops|
        invariant IsRun(link, ops[..i], outcomes, states) && states[0] == old(rules) && states[i] == rules
        invariant InStep(ops[..i], outcomes, states) ==> FollowsRules()
        invariant old(FollowsRules()) && Undisturbed(ops[..i], outcomes, states, 0) ==> FollowsRules()
        invariant OthersUnchanged(link, old(server.acl), server.acl)
      {
        ghost var acl := server.acl;
        var outcome := Apply(ops[i]);
        OthersUnchangedTransitive(link, old(server.acl), acl, server.acl);
        RunGoesOn(link, ops[..i], outcomes, states, ops[i], outcome, rules);
        InStepGoesOn(ops[..i], outcomes, states, ops[i], outcome, rules);
        UndisturbedGoesOn(ops[..i], outcomes, states, ops[i], outcome, rules, 0);
        NextPrefix(ops, i);
        outcomes, states := outcomes + [outcome], states + [rules];
      }
      assert ops[..|ops|] == ops;
    }
  }

  lemma OthersUnchangedTransitive(link: Link, a: Acl, b: Acl, c: Acl)
    requires OthersUnchanged(link, a, b) && OthersUnchanged(link, b, c)
    ensures OthersUnchanged(link, a, c)
  {
  }
}
