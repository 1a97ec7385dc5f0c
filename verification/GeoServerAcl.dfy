/**
 The access rules of a layer in GeoServer (geoserver.py). Any request may fail; a request that fails
 changes nothing.
 */
module GeoServerAcl {
  import opened Wrappers
  import opened Sequences
  import opened Text

  const EVERYONE := "*"

  datatype AccessType = Read | Write

  datatype RuleValue = ReadValue | WriteValue

  datatype Privilege = Privilege(role: string, value: RuleValue)

  /** The rules of all layers, by key; the roles of a rule are joined with commas. */
  type Acl = map<string, string>

  function AccessName(access: AccessType): string { if access.Read? then "r" else "w" }

  function LayerName(workspace: string, layer: string): string { workspace + "." + layer }

  function RuleKey(layerName: string, access: AccessType): string { layerName + "." + AccessName(access) }

  // ---- Role names ----

  /** `_to_geoserver_role`. */
  function ToGeoServerRole(role: string): string {
    if role == EVERYONE then role
    else
      var upper := Upper(Strip(IsWhiteSpace, role));
      if StartsWith(upper, "ROLE_") then upper else "ROLE_" + upper
  }

  /** No white space at either end. */
  predicate IsStripped(s: string) {
    s == "" || (!IsWhiteSpace(s[0]) && !IsWhiteSpace(s[|s| - 1]))
  }

  lemma StripStrips(s: string)
    ensures IsStripped(Strip(IsWhiteSpace, s))
  {
    StripLeftProperties(IsWhiteSpace, s);
    StripRightProperties(IsWhiteSpace, StripLeft(IsWhiteSpace, s));
  }

  lemma StrippedStays(s: string)
    requires IsStripped(s)
    ensures Strip(IsWhiteSpace, s) == s
  {
  }

  lemma UpperStays(s: string)
    requires IsStripped(s)
    ensures IsStripped(Upper(s)) && Upper(Upper(s)) == Upper(s)
  {
    assert Upper(s) != "" ==> !IsWhiteSpace(Upper(s)[0]) && !IsWhiteSpace(Upper(s)[|s| - 1]);
  }

  /** An upper-case text with the prefix in front, on which mapping stops. */
  lemma WithPrefix(upper: string)
    requires IsStripped(upper) && Upper(upper) == upper
    ensures var role := "ROLE_" + upper;
      IsStripped(role) && Upper(role) == role && StartsWith(role, "ROLE_")
  {
    var role := "ROLE_" + upper;
    assert role[|role| - 1] == if upper == "" then '_' else upper[|upper| - 1];
    assert role[..5] == "ROLE_";
    assert Upper("ROLE_") == "ROLE_";
    assert Upper(role) == Upper("ROLE_") + Upper(upper);
  }

  lemma MappedRoleIsStripped(role: string)
    ensures ToGeoServerRole(role) != "" && IsStripped(ToGeoServerRole(role))
    ensures role != EVERYONE ==>
      StartsWith(ToGeoServerRole(role), "ROLE_") && Upper(ToGeoServerRole(role)) == ToGeoServerRole(role)
  {
    if role != EVERYONE {
      StripStrips(role);
      UpperStays(Strip(IsWhiteSpace, role));
      WithPrefix(Upper(Strip(IsWhiteSpace, role)));
    }
  }

  /** Mapping a role twice is mapping it once; only the wildcard stays the wildcard. */
  lemma RoleMappingIsIdempotent(role: string)
    ensures ToGeoServerRole(ToGeoServerRole(role)) == ToGeoServerRole(role)
    ensures ToGeoServerRole(role) == EVERYONE <==> role == EVERYONE
  {
    MappedRoleIsStripped(role);
    if role != EVERYONE {
      assert ToGeoServerRole(role)[0] == 'R';
      StrippedStays(ToGeoServerRole(role));
    }
  }

  // ---- What a synchronization leaves ----

  /** WRITE implies READ: every privilege is in the read rule, in order. */
  function Roles(privileges: seq<Privilege>, access: AccessType): seq<string> {
    if privileges == [] then []
    else
      (if access.Read? || privileges[0].value.WriteValue? then [ToGeoServerRole(privileges[0].role)] else [])
      + Roles(privileges[1..], access)
  }

  /** The rule of one access type: replaced, or removed when no role is left. */
  function WithRule(acl: Acl, key: string, roles: seq<string>): Acl {
    if roles == [] then acl - {key} else acl[key := Join(",", roles)]
  }

  function Synced(acl: Acl, workspace: string, layer: string, privileges: seq<Privilege>): Acl {
    var name := LayerName(workspace, layer);
    WithRule(WithRule(acl, RuleKey(name, Read), Roles(privileges, Read)), RuleKey(name, Write),
      Roles(privileges, Write))
  }

  /** The privileges that grant writing, in order. */
  function Writers(privileges: seq<Privilege>): seq<Privilege> {
    if privileges == [] then []
    else
      var last := privileges[|privileges| - 1];
      Writers(privileges[..|privileges| - 1]) + (if last.value == WriteValue then [last] else [])
  }

  /** The roles that privileges name, under the names GeoServer knows. */
  function Mapped(privileges: seq<Privilege>): (roles: seq<string>)
    ensures |roles| == |privileges|
    ensures forall i :: 0 <= i < |roles| ==> roles[i] == ToGeoServerRole(privileges[i].role)
  {
    seq(|privileges|, i requires 0 <= i < |privileges| => ToGeoServerRole(privileges[i].role))
  }

  /** There is such a rule, with the roles of these privileges, unless there are none: then there is no rule. */
  predicate RuleIs(acl: Acl, key: string, privileges: seq<Privilege>) {
    if privileges == [] then key !in acl else key in acl && acl[key] == Join(",", Mapped(privileges))
  }

  /**
   The read rule names everyone with a privilege, and the write rule those who may write. A layer has the
   rules of nobody else.
   */
  predicate InSync(acl: Acl, workspace: string, layer: string, privileges: seq<Privilege>) {
    && RuleIs(acl, workspace + "." + layer + ".r", privileges)
    && RuleIs(acl, workspace + "." + layer + ".w", Writers(privileges))
  }

  lemma {:induction false} MappedConcat(a: seq<Privilege>, b: seq<Privilege>)
    ensures Mapped(a + b) == Mapped(a) + Mapped(b)
  {
  }

  lemma {:induction false} WritersConcat(a: seq<Privilege>, b: seq<Privilege>)
    ensures Writers(a + b) == Writers(a) + Writers(b)
  {
    if b == [] {
      assert a + b == a;
    } else {
      var init, last := b[..|b| - 1], b[|b| - 1];
      assert (a + b)[..|a + b| - 1] == a + init && (a + b)[|a + b| - 1] == last;
      WritersConcat(a, init);
      Associates(Writers(a), Writers(init), if last.value == WriteValue then [last] else []);
    }
  }

  lemma WritersOfOne(p: Privilege)
    ensures Writers([p]) == if p.value == WriteValue then [p] else []
  {
    assert [p][..0] == [];
  }

  /** What the synchronization computes, role by role, is what the rules are to say. */
  lemma {:induction false} RolesAre(privileges: seq<Privilege>)
    ensures Roles(privileges, Read) == Mapped(privileges)
    ensures Roles(privileges, Write) == Mapped(Writers(privileges))
  {
    if privileges != [] {
      hide *;
      var head, rest := [privileges[0]], privileges[1..];
      RolesAre(rest);
      HeadAndTail(privileges);
      RolesOfHead(privileges[0], rest, Read);
      RolesOfHead(privileges[0], rest, Write);
      MappedConcat(head, rest);
      WritersConcat(head, rest);
      WritersOfOne(privileges[0]);
      MappedConcat(Writers(head), Writers(rest));
      MappedOfOne(privileges[0]);
    }
  }

  lemma RolesOfHead(p: Privilege, rest: seq<Privilege>, access: AccessType)
    ensures Roles([p] + rest, access)
      == (if access.Read? || p.value.WriteValue? then [ToGeoServerRole(p.role)] else []) + Roles(rest, access)
  {
    TailOf(p, rest);
  }

  lemma MappedOfOne(p: Privilege)
    ensures Mapped([p]) == [ToGeoServerRole(p.role)] && Mapped([]) == []
  {
  }

  /** Who is in the write rule: the roles with a WRITE privilege, and nobody else. */
  lemma {:induction false} WriteRolesExactly(privileges: seq<Privilege>)
    ensures forall role ::
      role in Roles(privileges, Write)
      <==> exists i :: 0 <= i < |privileges| && privileges[i].value.WriteValue?
                       && ToGeoServerRole(privileges[i].role) == role
  {
    if privileges != [] {
      var rest := privileges[1..];
      WriteRolesExactly(rest);
      forall role
        ensures role in Roles(privileges, Write)
           <==> exists i :: 0 <= i < |privileges| && privileges[i].value.WriteValue?
                            && ToGeoServerRole(privileges[i].role) == role
      {
        if i :| 0 <= i < |privileges| && privileges[i].value.WriteValue?
                && ToGeoServerRole(privileges[i].role) == role {
          if i > 0 { assert rest[i - 1] == privileges[i]; }
        }
        if i :| 0 <= i < |rest| && rest[i].value.WriteValue? && ToGeoServerRole(rest[i].role) == role {
          assert privileges[i + 1] == rest[i];
        }
      }
    }
  }

  /** A role name, whatever is around it: upper case, and the prefix unless it has it. */
  lemma RoleIs(before: string, name: string, after: string)
    requires forall i :: 0 <= i < |before| ==> IsWhiteSpace(before[i])
    requires forall i :: 0 <= i < |after| ==> IsWhiteSpace(after[i])
    requires IsStripped(name) && before + name + after != "*"
    ensures
      var role := ToGeoServerRole(before + name + after);
      role == (if "ROLE_" <= Upper(name) then "" else "ROLE_") + Upper(name)
  {
    StripIs(IsWhiteSpace, before, name, after);
  }

  lemma KeysDiffer(layerName: string)
    ensures RuleKey(layerName, Read) != RuleKey(layerName, Write)
  {
    assert RuleKey(layerName, Read)[|layerName| + 1] == 'r';
    assert RuleKey(layerName, Write)[|layerName| + 1] == 'w';
  }

  /** After a synchronization the layer has its rules, and no other rule has changed. */
  lemma SyncedIsInSync(acl: Acl, workspace: string, layer: string, privileges: seq<Privilege>)
    ensures InSync(Synced(acl, workspace, layer, privileges), workspace, layer, privileges)
    ensures forall key ::
      key != RuleKey(LayerName(workspace, layer), Read) && key != RuleKey(LayerName(workspace, layer), Write) ==>
      (key in Synced(acl, workspace, layer, privileges) <==> key in acl)
      && (key in acl ==> Synced(acl, workspace, layer, privileges)[key] == acl[key])
  {
    var name := LayerName(workspace, layer);
    KeysDiffer(name);
    RuleIsSet(acl, RuleKey(name, Read), Roles(privileges, Read));
    RuleIsSet(WithRule(acl, RuleKey(name, Read), Roles(privileges, Read)), RuleKey(name, Write),
      Roles(privileges, Write));
    RolesAre(privileges);
    KeyText(workspace, layer);
  }

  lemma KeyText(workspace: string, layer: string)
    ensures RuleKey(LayerName(workspace, layer), Read) == workspace + "." + layer + ".r"
    ensures RuleKey(LayerName(workspace, layer), Write) == workspace + "." + layer + ".w"
  {
  }

  lemma RuleIsSet(acl: Acl, key: string, roles: seq<string>)
    ensures if roles == [] then key !in WithRule(acl, key, roles)
            else key in WithRule(acl, key, roles) && WithRule(acl, key, roles)[key] == Join(",", roles)
    ensures forall other :: other != key ==>
      (other in WithRule(acl, key, roles) <==> other in acl)
        && (other in acl ==> WithRule(acl, key, roles)[other] == acl[other])
  {
  }

  /** Whoever may write may read, and a rule exists exactly when it has a role. */
  lemma {:induction false} WritersAreReaders(privileges: seq<Privilege>)
    ensures forall role :: role in Roles(privileges, Write) ==> role in Roles(privileges, Read)
    ensures Roles(privileges, Read) == [] <==> privileges == []
    ensures forall role :: role in Roles(privileges, Read) <==>
      exists i | 0 <= i < |privileges| :: ToGeoServerRole(privileges[i].role) == role
  {
    if privileges != [] {
      WritersAreReaders(privileges[1..]);
      forall role ensures role in Roles(privileges, Read) <==>
        exists i | 0 <= i < |privileges| :: ToGeoServerRole(privileges[i].role) == role
      {
        if i :| 0 <= i < |privileges| && ToGeoServerRole(privileges[i].role) == role {
          if i > 0 { assert privileges[1..][i - 1] == privileges[i]; }
        }
        if i :| 0 <= i < |privileges[1..]| && ToGeoServerRole(privileges[1..][i].role) == role {
          assert privileges[i + 1] == privileges[1..][i];
        }
      }
    }
  }

  /** Rules of different layers have different keys, as long as workspaces hold no dot. */
  lemma LayersHaveTheirOwnKeys(
    ws1: string, layer1: string, access1: AccessType, ws2: string, layer2: string, access2: AccessType)
    requires '.' !in ws1 && '.' !in ws2
    requires RuleKey(LayerName(ws1, layer1), access1) == RuleKey(LayerName(ws2, layer2), access2)
    ensures ws1 == ws2 && layer1 == layer2 && access1 == access2
  {
    var key := RuleKey(LayerName(ws1, layer1), access1);
    assert key[|key| - 1] == AccessName(access1)[0] == AccessName(access2)[0];
    assert key[..|key| - 2] == LayerName(ws1, layer1) == LayerName(ws2, layer2);
    var name := LayerName(ws1, layer1);
    assert name[|ws1|] == '.' && name[|ws2|] == '.';
    assert forall i :: 0 <= i < |ws1| ==> name[i] == ws1[i] && name[i] != '.';
    assert forall i :: 0 <= i < |ws2| ==> name[i] == ws2[i] && name[i] != '.';
    assert |ws1| == |ws2|;
    assert name[..|ws1|] == ws1 && name[..|ws2|] == ws2;
    assert name[|ws1| + 1..] == layer1 && name[|ws2| + 1..] == layer2;
  }

  // ---- Reading a rule back ----

  function StripEach(parts: seq<string>): (r: seq<string>)
    ensures |r| == |parts|
    ensures forall i :: 0 <= i < |r| ==> r[i] == Strip(IsWhiteSpace, parts[i])
  {
    seq(|parts|, i requires 0 <= i < |parts| => Strip(IsWhiteSpace, parts[i]))
  }

  /** How `acl_layer_get` reads the roles of a rule. */
  function ReadRoles(text: string): seq<string> { StripEach(Split(text, ',')) }

  function Count(s: string, c: char): nat {
    if s == "" then 0 else (if s[0] == c then 1 else 0) + Count(s[1..], c)
  }

  lemma {:induction false} CountConcat(a: string, b: string, c: char)
    ensures Count(a + b, c) == Count(a, c) + Count(b, c)
  {
    if a == "" {
      assert a + b == b;
    } else {
      CountConcat(a[1..], b, c);
      FirstOff(a, b);
    }
  }

  lemma {:induction false} SplitCounts(s: string, c: char)
    ensures |Split(s, c)| == Count(s, c) + 1
  {
    if s != "" { SplitCounts(s[1..], c); }
  }

  lemma {:induction false} NoneToCount(s: string, c: char)
    ensures Count(s, c) == 0 <==> c !in s
  {
    if s != "" {
      NoneToCount(s[1..], c);
      assert s == [s[0]] + s[1..];
    }
  }

  lemma {:induction false} JoinCounts(parts: seq<string>)
    requires parts != []
    ensures Count(Join(",", parts), ',') >= |parts| - 1
    ensures Count(Join(",", parts), ',') == |parts| - 1 <==> forall i :: 0 <= i < |parts| ==> ',' !in parts[i]
  {
    NoneToCount(parts[0], ',');
    if |parts| > 1 {
      var rest := parts[1..];
      JoinCounts(rest);
      CountConcat(parts[0] + ",", Join(",", rest), ',');
      CountConcat(parts[0], ",", ',');
      assert ","[1..] == "" && Count("", ',') == 0;
      assert forall i :: 0 <= i < |rest| ==> rest[i] == parts[i + 1];
      assert (forall i :: 0 <= i < |parts| ==> ',' !in parts[i]) <==>
        ',' !in parts[0] && forall i :: 0 <= i < |rest| ==> ',' !in rest[i] by {
        assert forall i :: 0 < i < |parts| ==> parts[i] == rest[i - 1];
      }
    }
  }

  /** A rule reads back as the roles it was written with exactly when no role holds a comma. */
  lemma RolesReadBackExactly(roles: seq<string>)
    requires roles != [] && forall i :: 0 <= i < |roles| ==> IsStripped(roles[i])
    ensures ReadRoles(Join(",", roles)) == roles <==> forall i :: 0 <= i < |roles| ==> ',' !in roles[i]
  {
    JoinCounts(roles);
    SplitCounts(Join(",", roles), ',');
    if forall i :: 0 <= i < |roles| ==> ',' !in roles[i] {
      SplitJoin(roles, ',');
      forall i | 0 <= i < |roles| {
        StrippedStays(roles[i]);
      }
    }
  }

  // ---- The server ----

  datatype Reply = Done | Status(code: nat)

  class AclServer {
    var acl: Acl
    ghost var faults: nat // requests that failed for a reason of the server's own

    constructor (acl: Acl)
      ensures this.acl == acl && faults == 0
    {
      this.acl, faults := acl, 0;
    }

    /** POST: inserts a rule; 409 when there is one already. */
    method Post(key: string, roles: string) returns (reply: Reply)
      modifies this
      ensures reply.Done? ==> key !in old(acl) && acl == old(acl)[key := roles]
      ensures reply.Status? ==> reply.code >= 400 && acl == old(acl)
      ensures reply == Status(409) ==> key in old(acl)
      ensures faults == old(faults) + (if reply.Status? && reply != Status(409) then 1 else 0)
    {
      var failure: bool := *;
      if failure {
        faults := faults + 1;
        return Status(500);
      }
      if key in acl {
        return Status(409);
      }
      acl := acl[key := roles];
      return Done;
    }

    /** PUT: replaces a rule; an error when there is none. */
    method Put(key: string, roles: string) returns (reply: Reply)
      modifies this
      ensures reply.Done? ==> key in old(acl) && acl == old(acl)[key := roles]
      ensures reply.Status? ==> reply.code >= 400 && acl == old(acl)
      ensures faults == old(faults) + (if reply.Status? && key in old(acl) then 1 else 0)
    {
      if key !in acl {
        return Status(422);
      }
      var failure: bool := *;
      if failure {
        faults := faults + 1;
        return Status(500);
      }
      acl := acl[key := roles];
      return Done;
    }

    /** DELETE: 404 when there is no such rule. */
    method Delete(key: string) returns (reply: Reply)
      modifies this
      ensures reply.Done? ==> key in old(acl) && acl == old(acl) - {key}
      ensures reply.Status? ==> reply.code >= 400 && acl == old(acl)
      ensures reply == Status(404) ==> key !in old(acl)
      ensures faults == old(faults) + (if reply.Status? && reply != Status(404) then 1 else 0)
    {
      var failure: bool := *;
      if failure {
        faults := faults + 1;
        return Status(500);
      }
      if key !in acl {
        return Status(404);
      }
      acl := acl - {key};
      return Done;
    }

    /** GET: the roles of a rule, or an error. */
    method Get(key: string) returns (reply: Result<Option<seq<string>>, nat>)
      modifies this`faults
      ensures reply.Ok? ==> reply.value == if key in acl then Some(ReadRoles(acl[key])) else None
      ensures faults == old(faults) + (if reply.Err? then 1 else 0)
    {
      var failure: bool := *;
      if failure {
        faults := faults + 1;
        return Err(500);
      }
      return Ok(if key in acl then Some(ReadRoles(acl[key])) else None);
    }
  }

  /** `acl_layer_set_rule`: insert, and replace when there is a rule already. */
  method SetRule(server: AclServer, key: string, roles: seq<string>) returns (error: Option<nat>)
    modifies server
    ensures error.None? ==> server.acl == old(server.acl)[key := Join(",", roles)]
    ensures error.Some? ==> server.acl == old(server.acl)
    ensures server.faults == old(server.faults) + (if error.Some? then 1 else 0)
  {
    var reply := server.Post(key, Join(",", roles));
    if reply == Status(409) {
      reply := server.Put(key, Join(",", roles));
    }
    return if reply.Done? then None else Some(reply.code);
  }

  /** One turn of the loop of `sync_layer_acl`. */
  method SyncRule(server: AclServer, key: string, roles: seq<string>) returns (error: Option<nat>)
    modifies server
    ensures error.None? ==> server.acl == WithRule(old(server.acl), key, roles)
    ensures error.Some? ==> server.acl == old(server.acl)
    ensures server.faults == old(server.faults) + (if error.Some? then 1 else 0)
  {
    if roles != [] {
      error := SetRule(server, key, roles);
    } else {
      var reply := server.Delete(key);
      if reply.Status? && reply.code != 404 {
        return Some(reply.code);
      }
      assert reply.Status? ==> server.acl == old(server.acl) - {key};
      return None;
    }
  }

  /**
   `sync_layer_acl`. It fails only when a request does. When that is between its two rules, the read
   rule may be new and the write rule old; other rules are never touched.
   */
  method SyncLayerAcl(server: AclServer, workspace: string, layer: string, privileges: seq<Privilege>)
    returns (error: Option<nat>)
    modifies server
    ensures error.None? ==> server.acl == Synced(old(server.acl), workspace, layer, privileges)
    ensures error.None? ==> InSync(server.acl, workspace, layer, privileges)
    ensures server.faults == old(server.faults) + (if error.Some? then 1 else 0)
    ensures forall key | key != workspace + "." + layer + ".r" && key != workspace + "." + layer + ".w" ::
      (key in server.acl <==> key in old(server.acl)) && (key in server.acl ==> server.acl[key] == old(server.acl)[key])
  {
    var name := LayerName(workspace, layer);
    KeyText(workspace, layer);
    SyncedIsInSync(server.acl, workspace, layer, privileges);
    error := SyncRule(server, RuleKey(name, Read), Roles(privileges, Read));
    if error.Some? {
      return;
    }
    error := SyncRule(server, RuleKey(name, Write), Roles(privileges, Write));
  }
}
