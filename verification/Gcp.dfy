/** GCP principals of internal/collector/gcp.go: parsing, merging roles over policies, and normalizing. */
module Gcp {
  import opened Wire
  import opened Sets
  import opened Chains
  import Text
  import opened SortedText

  datatype Binding = Binding(role: string, members: seq<string>)

  type Policy = seq<Binding>

  datatype Reply = Failed | Listed(policies: seq<Policy>, next: string)

  type Vendor = (nat, string) -> Reply

  datatype Principal = Principal(kind: string, email: string, id: string, roles: set<string>)

  // ---------------------------------------------------------------- parsing

  const DELETED := "deleted:"

  predicate HasPrefix(s: string, prefix: string) { prefix <= s }

  /** The first place where `part` occurs in `s`. */
  function Index(s: string, part: string): (r: Option<nat>)
    ensures r.Some? ==> r.value + |part| <= |s|
  {
    if part <= s then Some(0)
    else if s == "" then None
    else
      var rest := Index(s[1..], part);
      if rest.Some? then Some(rest.value + 1) else None
  }

  /** The text before the first `part`, or all of it. */
  function Before(s: string, part: string): string {
    var at := Index(s, part);
    if at.Some? then s[..at.value] else s
  }

  function Value(member: string): string {
    if HasPrefix(member, DELETED) then member[|DELETED|..] else member
  }

  function ParsePrincipal(member: string): Option<Principal> {
    var value := Value(member);
    var colon := Index(value, ":");
    if colon.None? then None
    else
      var kind, email := value[..colon.value], value[colon.value + 1..];
      if (kind != "user" && kind != "serviceAccount") || email == "" then None
      else
        var clean := Before(email, "?uid=");
        if clean == "" then None
        else Some(Principal(kind, clean, (if HasPrefix(member, DELETED) then DELETED else "") + value, {}))
  }

  /** The id of a principal is the member text it was parsed from. */
  lemma ParsedId(member: string)
    ensures ParsePrincipal(member).Some? ==> ParsePrincipal(member).value.id == member
    ensures ParsePrincipal(member).Some? ==> member != ""
  {
  }

  lemma {:induction false} IndexIs(s: string, part: string)
    ensures Index(s, part).Some? ==> part <= s[Index(s, part).value..]
    ensures forall i | 0 <= i < |s| && part <= s[i..] :: Index(s, part).Some? && Index(s, part).value <= i
  {
    if s != "" && !(part <= s) {
      IndexIs(s[1..], part);
      forall i | 0 <= i < |s| && part <= s[i..]
        ensures Index(s, part).Some? && Index(s, part).value <= i
      {
        assert s[i..] == s[1..][i - 1..];
      }
      if Index(s, part).Some? {
        assert s[Index(s, part).value..] == s[1..][Index(s[1..], part).value..];
      }
    }
  }

  /** A leading "deleted:" is set aside. */
  lemma ValueMeans(text: string)
    ensures Value("deleted:" + text) == text
    ensures !("deleted:" <= text) ==> Value(text) == text
  {
  }

  /** The text after an optional "deleted:" is a known kind, a colon, an email and perhaps a "?uid=" part. */
  ghost predicate Reads(value: string, kind: string, email: string, tail: string) {
    && value == kind + ":" + (email + tail)
    && (kind == "user" || kind == "serviceAccount") && email != ""
    && (tail == "" || "?uid=" <= tail)
    && forall i | 0 <= i < |email| :: !("?uid=" <= (email + tail)[i..])
  }

  /** Kind and email are the one way to read the text, and every text that can be read is parsed. */
  lemma ParseReads(member: string, kind: string, email: string, tail: string)
    requires Reads(Value(member), kind, email, tail)
    ensures ParsePrincipal(member) == Some(Principal(kind, email, member, {}))
  {
    var value, rest := Value(member), email + tail;
    KindPlain(kind);
    FirstColon(kind, rest);
    assert value[..|kind|] == kind && value[|kind| + 1..] == rest;
    IndexIs(rest, "?uid=");
    if tail != "" {
      assert rest[|email|..] == tail;
    } else {
      assert rest == email;
    }
    assert Before(rest, "?uid=") == email;
    ParsedId(member);
  }

  lemma KindPlain(kind: string)
    requires kind == "user" || kind == "serviceAccount"
    ensures ':' !in kind
  {
  }

  lemma {:induction false} FirstColon(kind: string, rest: string)
    requires ':' !in kind
    ensures Index(kind + ":" + rest, ":") == Some(|kind|)
  {
    var value := kind + ":" + rest;
    if kind == "" {
      assert ":" <= value;
    } else {
      assert value[0] == kind[0] && value[0] != ":"[0];
      assert value[1..] == kind[1..] + ":" + rest;
      FirstColon(kind[1..], rest);
    }
  }

  lemma BeforeReads(rest: string) returns (tail: string)
    ensures rest == Before(rest, "?uid=") + tail && (tail == "" || "?uid=" <= tail)
    ensures forall i | 0 <= i < |Before(rest, "?uid=")| :: !("?uid=" <= rest[i..])
  {
    IndexIs(rest, "?uid=");
    tail := rest[|Before(rest, "?uid=")|..];
  }

  lemma ParsedReads(member: string) returns (tail: string)
    requires ParsePrincipal(member).Some?
    ensures Reads(Value(member), ParsePrincipal(member).value.kind, ParsePrincipal(member).value.email, tail)
  {
    var value := Value(member);
    IndexIs(value, ":");
    var colon := Index(value, ":").value;
    assert value == value[..colon] + ":" + value[colon + 1..];
    tail := BeforeReads(value[colon + 1..]);
  }

  // ---------------------------------------------------------------- facts

  /** A principal named in a binding, with the role bound there. */
  datatype Fact = Fact(member: string, role: string)

  function MemberFacts(role: string, member: string): set<Fact> {
    if Parses(member) then {Fact(member, role)} else {}
  }

  function BindingFacts(role: string, members: seq<string>): set<Fact> {
    if members == [] then {}
    else BindingFacts(role, members[..|members| - 1]) + MemberFacts(role, members[|members| - 1])
  }

  function PolicyFacts(policy: Policy): set<Fact> {
    if policy == [] then {}
    else
      var last := policy[|policy| - 1];
      PolicyFacts(policy[..|policy| - 1]) + BindingFacts(last.role, last.members)
  }

  /** The facts of policies: which principal has which role, wherever it says so. */
  function FactsOf(policies: seq<Policy>): set<Fact> {
    if policies == [] then {} else FactsOf(policies[..|policies| - 1]) + PolicyFacts(policies[|policies| - 1])
  }

  ghost predicate States(policies: seq<Policy>, member: string, role: string) {
    exists i, j, k ::
      && 0 <= i < |policies| && 0 <= j < |policies[i]| && 0 <= k < |policies[i][j].members|
      && policies[i][j].members[k] == member && policies[i][j].role == role
  }

  lemma {:induction false} BindingFactsAre(role: string, members: seq<string>, fact: Fact)
    ensures fact in BindingFacts(role, members) <==>
        fact.role == role && Parses(fact.member) && fact.member in members
  {
    if members != [] {
      BindingFactsAre(role, members[..|members| - 1], fact);
    }
  }

  lemma {:induction false} PolicyFactAt(policy: Policy, j: nat, fact: Fact)
    requires j < |policy| && fact in BindingFacts(policy[j].role, policy[j].members)
    ensures fact in PolicyFacts(policy)
  {
    if j < |policy| - 1 {
      PolicyFactAt(policy[..|policy| - 1], j, fact);
    }
  }

  lemma {:induction false} PolicyFactFrom(policy: Policy, fact: Fact) returns (j: nat)
    requires fact in PolicyFacts(policy)
    ensures j < |policy| && fact in BindingFacts(policy[j].role, policy[j].members)
  {
    j := |policy| - 1;
    if fact !in BindingFacts(policy[j].role, policy[j].members) {
      j := PolicyFactFrom(policy[..j], fact);
    }
  }

  lemma {:induction false} FactAt(policies: seq<Policy>, i: nat, fact: Fact)
    requires i < |policies| && fact in PolicyFacts(policies[i])
    ensures fact in FactsOf(policies)
  {
    if i < |policies| - 1 {
      FactAt(policies[..|policies| - 1], i, fact);
    }
  }

  lemma {:induction false} FactFrom(policies: seq<Policy>, fact: Fact) returns (i: nat)
    requires fact in FactsOf(policies)
    ensures i < |policies| && fact in PolicyFacts(policies[i])
  {
    i := |policies| - 1;
    if fact !in PolicyFacts(policies[i]) {
      i := FactFrom(policies[..i], fact);
    }
  }

  /** Neither the order nor the split over pages, policies and bindings shows in the facts. */
  lemma FactsAre(policies: seq<Policy>, fact: Fact)
    ensures fact in FactsOf(policies) <==> Parses(fact.member) && States(policies, fact.member, fact.role)
  {
    if fact in FactsOf(policies) {
      var i := FactFrom(policies, fact);
      var j := PolicyFactFrom(policies[i], fact);
      BindingFactsAre(policies[i][j].role, policies[i][j].members, fact);
      var k :| 0 <= k < |policies[i][j].members| && policies[i][j].members[k] == fact.member;
    } else if Parses(fact.member) && States(policies, fact.member, fact.role) {
      var i, j, k :|
        && 0 <= i < |policies| && 0 <= j < |policies[i]| && 0 <= k < |policies[i][j].members|
        && policies[i][j].members[k] == fact.member && policies[i][j].role == fact.role;
      BindingFactsAre(policies[i][j].role, policies[i][j].members, fact);
      PolicyFactAt(policies[i], j, fact);
      FactAt(policies, i, fact);
    }
  }

  function Members(facts: set<Fact>): set<string> { set f | f in facts :: f.member }

  function Roles(facts: set<Fact>, member: string): set<string> {
    set f | f in facts && f.member == member && f.role != "" :: f.role
  }

  lemma FactAdded(facts: set<Fact>, member: string, role: string)
    ensures Members(facts + {Fact(member, role)}) == Members(facts) + {member}
    ensures forall id ::
        Roles(facts + {Fact(member, role)}, id) ==
        Roles(facts, id) + (if id == member && role != "" then {role} else {})
    ensures member !in Members(facts) ==> Roles(facts, member) == {}
  {
    var more := facts + {Fact(member, role)};
    assert Fact(member, role) in more;
    forall id
      ensures Roles(more, id) == Roles(facts, id) + if id == member && role != "" then {role} else {}
    {
      assert forall r | r in Roles(facts, id) :: Fact(id, r) in more;
      assert id == member && role != "" ==> Fact(id, role) in more;
    }
    assert forall f | f in facts :: f.member in Members(facts);
  }

  /** What merging makes of a set of facts, for the principals that parsing yields. */
  ghost predicate Merged(principals: map<string, Principal>, facts: set<Fact>, parsed: string -> Principal) {
    && principals.Keys == Members(facts)
    && forall id | id in principals :: principals[id] == parsed(id).(roles := Roles(facts, id))
  }

  predicate Parses(member: string) { ParsePrincipal(member).Some? }

  function Parsed(member: string): Principal {
    if Parses(member) then ParsePrincipal(member).value else Principal("", "", member, {})
  }

  /** One round of the innermost loop. */
  function Merge(
      principals: map<string, Principal>, member: string, role: string, initial: Principal): map<string, Principal> {
    var current := if member in principals then principals[member] else initial;
    principals[member := current.(roles := current.roles + if role != "" then {role} else {})]
  }

  lemma MergeFact(
      principals: map<string, Principal>, facts: set<Fact>, member: string, role: string, parsed: string -> Principal)
    requires Merged(principals, facts, parsed) && parsed(member).roles == {}
    ensures Merged(Merge(principals, member, role, parsed(member)), facts + {Fact(member, role)}, parsed)
  {
    FactAdded(facts, member, role);
  }

  // ---------------------------------------------------------------- normalizing

  const SERVICE := "service account"
  // The middle dot is the two bytes C2 B7 of UTF-8.
  const SERVICE_AND := SERVICE + " " + [0xC2 as char, 0xB7 as char] + " "

  function PlainText(kind: string, roles: seq<string>): string {
    var joined := Text.Join(roles, ", ");
    if kind != "serviceAccount" then joined
    else if joined == "" then SERVICE
    else SERVICE_AND + joined
  }

  function RoleText(kind: string, roles: seq<string>): string {
    if |PlainText(kind, roles)| <= 500 then PlainText(kind, roles)
    else (if kind == "serviceAccount" then SERVICE_AND else "") + (Text.Decimal(|roles|) + " direct IAM roles")
  }

  ghost function MemberOf(principal: Principal): Member {
    Member(StringPointer(principal.id), StringPointer(principal.email), StringPointer(principal.email), None,
           if HasPrefix(principal.id, DELETED) then "deactivated" else "active",
           StringPointer(RoleText(principal.kind, SortedSet(principal.roles))), None, None, None)
  }

  /** The members that a set of facts amounts to: one per principal, in the order of their ids. */
  ghost predicate Listing(members: seq<Member>, facts: set<Fact>, parsed: string -> Principal) {
    var ids := SortedSet(Members(facts));
    && |members| == |ids|
    && forall k | 0 <= k < |ids| :: members[k] == MemberOf(parsed(ids[k]).(roles := Roles(facts, ids[k])))
  }

  /** Nothing but the facts decides the output. */
  lemma ListingUnique(a: seq<Member>, b: seq<Member>, facts: set<Fact>, parsed: string -> Principal)
    requires Listing(a, facts, parsed) && Listing(b, facts, parsed)
    ensures a == b
  {
  }

  method NormalizedRole(kind: string, roles: seq<string>) returns (role: string)
    ensures role == RoleText(kind, roles)
  {
    role := Text.Join(roles, ", ");
    if kind == "serviceAccount" {
      role := if role == "" then SERVICE else SERVICE_AND + role;
    }
    assert role == PlainText(kind, roles);
    if |role| > 500 {
      role := Text.Decimal(|roles|) + " direct IAM roles";
      if kind == "serviceAccount" {
        role := SERVICE_AND + role;
      }
    }
  }

  /** normalizeGCPPrincipals. */
  method Normalize(principals: map<string, Principal>, ghost facts: set<Fact>, ghost parsed: string -> Principal)
    returns (members: seq<Member>)
    requires Merged(principals, facts, parsed)
    ensures Listing(members, facts, parsed)
  {
    var keys := SortedKeys(principals.Keys);
    members := NormalizeKeys(principals, keys);
    ListingOf(members, keys, principals, facts, parsed);
  }

  ghost predicate Known(principals: map<string, Principal>, keys: seq<string>) {
    forall k | 0 <= k < |keys| :: keys[k] in principals
  }

  ghost function Recorded(principals: map<string, Principal>, keys: seq<string>): (members: seq<Member>)
    requires Known(principals, keys)
    ensures |members| == |keys|
  {
    if keys == [] then []
    else Recorded(principals, keys[..|keys| - 1]) + [MemberOf(principals[keys[|keys| - 1]])]
  }

  lemma {:induction false} RecordedAt(principals: map<string, Principal>, keys: seq<string>, k: nat)
    requires Known(principals, keys) && k < |keys|
    ensures Recorded(principals, keys)[k] == MemberOf(principals[keys[k]])
  {
    if k < |keys| - 1 {
      RecordedAt(principals, keys[..|keys| - 1], k);
    }
  }

  method NormalizeKeys(principals: map<string, Principal>, keys: seq<string>) returns (members: seq<Member>)
    requires Known(principals, keys)
    ensures members == Recorded(principals, keys)
  {
    members := [];
    for k := 0 to |keys|
      invariant members == Recorded(principals, keys[..k])
    {
      assert keys[..k + 1][..k] == keys[..k];
      var member := Normalized(principals[keys[k]]);
      members := members + [member];
    }
    assert keys[..|keys|] == keys;
  }

  lemma ListingOf(
      members: seq<Member>, keys: seq<string>, principals: map<string, Principal>, facts: set<Fact>,
      parsed: string -> Principal)
    requires Merged(principals, facts, parsed) && keys == SortedSet(principals.Keys) && Known(principals, keys)
    requires members == Recorded(principals, keys)
    ensures Listing(members, facts, parsed)
  {
    forall k | 0 <= k < |keys|
      ensures members[k] == MemberOf(parsed(keys[k]).(roles := Roles(facts, keys[k])))
    {
      RecordedAt(principals, keys, k);
    }
  }

  method Normalized(principal: Principal) returns (member: Member)
    ensures member == MemberOf(principal)
  {
    var roles := SortedKeys(principal.roles);
    var status := "active";
    if HasPrefix(principal.id, DELETED) {
      status := "deactivated";
    }
    var role := NormalizedRole(principal.kind, roles);
    member := Member(StringPointer(principal.id), StringPointer(principal.email), StringPointer(principal.email), None,
                     status, StringPointer(role), None, None, None);
  }

  // ---------------------------------------------------------------- what a listing says

  lemma FactsParse(policies: seq<Policy>)
    ensures forall f | f in FactsOf(policies) :: Parses(f.member)
  {
    forall f | f in FactsOf(policies)
      ensures Parses(f.member)
    {
      FactsAre(policies, f);
    }
  }

  /** One member per principal named in the policies, strictly ascending by id, with the union of its roles. */
  lemma ListingIds(members: seq<Member>, policies: seq<Policy>)
    requires Listing(members, FactsOf(policies), Parsed)
    ensures |members| == |Members(FactsOf(policies))|
    ensures forall id, role | Parses(id) && States(policies, id, role) ::
        exists k :: 0 <= k < |members| && members[k].id == Some(id)
    ensures forall i, j | 0 <= i < j < |members| ::
        members[i].id.Some? && members[j].id.Some? && Text.Less(members[i].id.value, members[j].id.value)
    ensures forall id | id in Members(FactsOf(policies)) ::
        exists k :: 0 <= k < |members| && members[k].id == Some(id)
          && members[k].role == StringPointer(RoleText(Parsed(id).kind, SortedSet(Roles(FactsOf(policies), id))))
  {
    var facts := FactsOf(policies);
    var ids := SortedSet(Members(facts));
    FactsParse(policies);
    InSortedSet(Members(facts));
    SortedSetIs(Members(facts));
    forall id, role | Parses(id) && States(policies, id, role)
      ensures id in Members(facts)
    {
      FactsAre(policies, Fact(id, role));
    }
    forall k | 0 <= k < |ids|
      ensures members[k].id == Some(ids[k])
      ensures members[k].role == StringPointer(RoleText(Parsed(ids[k]).kind, SortedSet(Roles(facts, ids[k]))))
    {
      ParsedId(ids[k]);
    }
    forall i, j | 0 <= i < j < |members|
      ensures Text.Less(ids[i], ids[j])
    {
      Ascending(Members(facts), i, j);
    }
  }

  /** The role of a member; an empty text is left out. */
  function RoleIn(kind: string, roles: seq<string>): Option<string> { StringPointer(RoleText(kind, roles)) }

  /** The role text of a kind with some roles; none of these is empty. */
  lemma RoleTextMeans(kind: string, roles: seq<string>)
    requires kind == "user" || kind == "serviceAccount"
    requires forall i | 0 <= i < |roles| :: roles[i] != ""
    ensures var service := "service account " + [0xC2 as char, 0xB7 as char] + " ";
      var joined := Text.Join(roles, ", ");
      var text := if kind == "user" then joined else if roles == [] then "service account" else service + joined;
      RoleIn(kind, roles) ==
        if text == "" then None
        else if |text| <= 500 then Some(text)
        else Some((if kind == "user" then "" else service) + (Text.FormatInt(|roles|) + " direct IAM roles"))
  {
    assert SERVICE_AND == "service account " + [0xC2 as char, 0xB7 as char] + " ";
    assert roles != [] ==> Text.Join(roles, ", ") != "" by {
      if roles != [] {
        assert roles[0] != "";
      }
    }
  }

  /** The member made of a principal. */
  lemma FieldsOf(p: Principal)
    requires p.id != "" && p.email != ""
    ensures var m := MemberOf(p);
      && m.id == Some(p.id) && m.email == m.name == Some(p.email) && m.username == None
      && m.status == (if "deleted:" <= p.id then "deactivated" else "active")
      && m.role == RoleIn(p.kind, SortedSet(p.roles))
      && m.createdAt == None && m.lastLoginAt == None && m.billable == None
  {
  }

  /** How a text that parses is made up. */
  lemma PrincipalReads(id: string) returns (deleted: bool, tail: string)
    requires Parses(id)
    ensures deleted <==> "deleted:" <= id
    ensures var p := Parsed(id);
      && p.id == id && p.email != "" && (p.kind == "user" || p.kind == "serviceAccount")
      && id == (if deleted then "deleted:" else "") + (p.kind + ":" + (p.email + tail))
      && (tail == "" || "?uid=" <= tail)
      && forall i | 0 <= i < |p.email| :: !("?uid=" <= (p.email + tail)[i..])
  {
    ParsedId(id);
    tail := ParsedReads(id);
    deleted := "deleted:" <= id;
    assert deleted ==> id == "deleted:" + id[|"deleted:"|..];
  }

  /** Each listed member is a principal named in the policies. */
  lemma ListedPrincipal(members: seq<Member>, policies: seq<Policy>, k: nat) returns (id: string)
    requires Listing(members, FactsOf(policies), Parsed) && k < |members|
    ensures Parses(id) && members[k] == MemberOf(Parsed(id).(roles := Roles(FactsOf(policies), id)))
    ensures exists role :: States(policies, id, role)
  {
    var facts := FactsOf(policies);
    FactsParse(policies);
    InSortedSet(Members(facts));
    id := SortedSet(Members(facts))[k];
    assert id in Members(facts);
    var fact :| fact in facts && fact.member == id;
    FactsAre(policies, fact);
  }

  /** The sorted roles of a principal. */
  lemma RolesListed(policies: seq<Policy>, id: string) returns (roles: seq<string>)
    requires Parses(id)
    ensures roles == SortedSet(Roles(FactsOf(policies), id))
    ensures forall role :: role in roles <==> role != "" && States(policies, id, role)
    ensures forall i, j | 0 <= i < j < |roles| :: Text.Less(roles[i], roles[j])
  {
    var stated := Roles(FactsOf(policies), id);
    roles := SortedSet(stated);
    RolesStated(policies, id);
    InSortedSet(stated);
    forall i, j | 0 <= i < j < |roles|
      ensures Text.Less(roles[i], roles[j])
    {
      Ascending(stated, i, j);
    }
  }

  /**
   Who is listed: a text that the policies name, read as a kind, an email and perhaps a "?uid=" part after an
   optional "deleted:".
  */
  lemma ListingReads(members: seq<Member>, policies: seq<Policy>, k: nat) returns (kind: string, tail: string)
    requires Listing(members, FactsOf(policies), Parsed) && k < |members|
    ensures members[k].id.Some? && members[k].email.Some? && members[k].email.value != ""
    ensures exists role :: States(policies, members[k].id.value, role)
    ensures members[k].id.value ==
        (if members[k].status == "deactivated" then "deleted:" else "")
        + (kind + ":" + (members[k].email.value + tail))
    ensures (kind == "user" || kind == "serviceAccount") && (tail == "" || "?uid=" <= tail)
    ensures forall i | 0 <= i < |members[k].email.value| :: !("?uid=" <= (members[k].email.value + tail)[i..])
  {
    var id := ListedPrincipal(members, policies, k);
    var deleted;
    deleted, tail := PrincipalReads(id);
    kind := Parsed(id).kind;
    var roles := RolesListed(policies, id);
    FieldsOf(Parsed(id).(roles := Roles(FactsOf(policies), id)));
  }

  /** How it is listed: exactly the roles named with it, in their order, make the role text. */
  lemma ListingRole(members: seq<Member>, policies: seq<Policy>, k: nat) returns (kind: string, roles: seq<string>)
    requires Listing(members, FactsOf(policies), Parsed) && k < |members|
    ensures members[k].id.Some? && members[k].name == members[k].email && members[k].username == None
    ensures Parses(members[k].id.value) && Parsed(members[k].id.value).kind == kind
    ensures forall role :: role in roles <==> role != "" && States(policies, members[k].id.value, role)
    ensures forall i, j | 0 <= i < j < |roles| :: Text.Less(roles[i], roles[j])
    ensures members[k].status == if "deleted:" <= members[k].id.value then "deactivated" else "active"
    ensures members[k].role == RoleIn(kind, roles)
  {
    var id := ListedPrincipal(members, policies, k);
    roles := RolesListed(policies, id);
    kind := Parsed(id).kind;
    ParsedId(id);
    FieldsOf(Parsed(id).(roles := Roles(FactsOf(policies), id)));
  }

  lemma RolesStated(policies: seq<Policy>, id: string)
    requires Parses(id)
    ensures forall role :: role in Roles(FactsOf(policies), id) <==> role != "" && States(policies, id, role)
  {
    forall role
      ensures Fact(id, role) in FactsOf(policies) <==> States(policies, id, role)
    {
      FactsAre(policies, Fact(id, role));
    }
    assert forall role | Fact(id, role) in FactsOf(policies) && role != "" :: role in Roles(FactsOf(policies), id);
  }

  /**
   The output depends on nothing but which principal is said to have which role: not on how often,
   nor on the order or the split over pages, policies and bindings.
  */
  lemma SameFactsSameOutput(a: seq<Policy>, b: seq<Policy>, listA: seq<Member>, listB: seq<Member>)
    requires forall member, role | Parses(member) :: States(a, member, role) <==> States(b, member, role)
    requires Listing(listA, FactsOf(a), Parsed) && Listing(listB, FactsOf(b), Parsed)
    ensures listA == listB
  {
    forall fact
      ensures fact in FactsOf(a) <==> fact in FactsOf(b)
    {
      FactsAre(a, fact);
      FactsAre(b, fact);
    }
    assert FactsOf(a) == FactsOf(b);
    ListingUnique(listA, listB, FactsOf(a), Parsed);
  }

  /** A role text has at most 500 bytes, whatever the roles are. */
  lemma RoleTextShort(kind: string, roles: seq<string>)
    requires |roles| < 0x8000_0000_0000_0000
    ensures |RoleText(kind, roles)| <= 500
  {
    assert Text.Pow10(5) == 10_0000;
    assert Text.Pow10(10) == 10_0000 * 10_0000;
    assert Text.Pow10(15) == 10_0000 * 10_0000 * 10_0000;
    assert Text.Pow10(19) == 10_0000 * 10_0000 * 10_0000 * 1_0000;
    Text.DecimalLength(|roles|, 19);
  }

  /** Unless they are only counted, the roles can be read back from the text. */
  lemma RoleTextReadable(kind: string, a: set<string>, b: set<string>)
    requires Text.Plain(SortedSet(a)) && Text.Plain(SortedSet(b))
    requires |PlainText(kind, SortedSet(a))| <= 500 && |PlainText(kind, SortedSet(b))| <= 500
    ensures RoleText(kind, SortedSet(a)) == RoleText(kind, SortedSet(b)) <==> a == b
  {
    if RoleText(kind, SortedSet(a)) == RoleText(kind, SortedSet(b)) {
      SamePlainText(kind, SortedSet(a), SortedSet(b));
      InSortedSet(a);
      InSortedSet(b);
    }
  }

  lemma SamePlainText(kind: string, a: seq<string>, b: seq<string>)
    requires Text.Plain(a) && Text.Plain(b) && PlainText(kind, a) == PlainText(kind, b)
    ensures a == b
  {
    var left, right := Text.Join(a, ", "), Text.Join(b, ", ");
    assert left == right by {
      if kind == "serviceAccount" {
        assert left != "" ==> (SERVICE_AND + left)[|SERVICE_AND|..] == left;
        assert right != "" ==> (SERVICE_AND + right)[|SERVICE_AND|..] == right;
      }
    }
    Text.ListInjective(a, b);
  }

  // ---------------------------------------------------------------- the loops

  function ViewOf(reply: Reply): View<Policy, string> {
    if reply.Failed? then Bad
    else if reply.next == "" then Last(reply.policies)
    else More(reply.policies, reply.next)
  }

  /** A page by its fields: without a next cursor it is the last one. */
  lemma ViewMeans(reply: Reply, items: seq<Policy>, next: string)
    ensures ViewOf(reply) == Last(items) <==> reply == Listed(items, "")
    ensures ViewOf(reply) == More(items, next) <==> reply == Listed(items, next) && next != ""
  {
  }

  function SourceOf(vendor: Vendor): Source<Policy, string> {
    (k: nat, cursor) => ViewOf(vendor(k, cursor))
  }

  lemma {:induction false} GatheredPrefix(source: Source<Policy, string>, a: seq<string>, b: seq<string>)
    requires a <= b
    ensures Gathered(source, a) <= Gathered(source, b)
  {
    if a != b {
      GatheredPrefix(source, a, b[..|b| - 1]);
    }
  }

  ghost predicate Few(facts: set<Fact>) { |Members(facts)| <= MAX_MEMBERS }

  /** The chain is accepted and names at most 100000 principals. */
  ghost predicate Fits(vendor: Vendor, cursors: seq<string>) {
    Accepted(SourceOf(vendor), "", cursors) && Few(FactsOf(Gathered(SourceOf(vendor), cursors)))
  }

  lemma TooManyPrincipals(vendor: Vendor, a: seq<string>)
    requires Chain(SourceOf(vendor), "", a) && !Few(FactsOf(Gathered(SourceOf(vendor), a)))
    ensures forall b :: !Fits(vendor, b)
  {
    var source := SourceOf(vendor);
    forall b | Fits(vendor, b)
      ensures false
    {
      EndIsBeyond(source, "", a, b);
      GatheredPrefix(source, a, b);
      var more := Gathered(source, b);
      assert Gathered(source, a) == more[..|Gathered(source, a)|];
      FactsPrefix(more, |Gathered(source, a)|);
      SubsetSize(Members(FactsOf(Gathered(source, a))), Members(FactsOf(Gathered(source, b))));
    }
  }

  /**
   GCP succeeds exactly when its page chain is accepted and names at most 100000 principals, and the
   output is the listing of the facts of all policies.
  */
  method Collect(vendor: Vendor) returns (r: Outcome<seq<Member>, CollectError>, ghost requests: seq<string>)
    ensures r.Ok? <==> exists cursors :: Fits(vendor, cursors)
    ensures r.Ok? ==>
        && Fits(vendor, requests)
        && Listing(r.value, FactsOf(Gathered(SourceOf(vendor), requests)), Parsed)
    ensures Followed(SourceOf(vendor), "", requests)
  {
    ghost var source := SourceOf(vendor);
    var principals: map<string, Principal> := map[];
    var cursor := "";
    ghost var cursors := [cursor];
    requests := [];
    var seen: set<string> := {};
    ghost var policies: seq<Policy> := [];
    assert MergedAll(principals, policies);
    for page := 0 to MAX_PAGES
      invariant |cursors| == page + 1 && cursors[page] == cursor && AtPage(source, "", cursors, policies, seen)
      invariant MergedAll(principals, policies)
      invariant page > 0 ==> Followed(source, "", requests)
    {
      requests := cursors;
      var reply := vendor(page, cursor);
      assert Page(source, requests) == ViewOf(reply);
      if reply.Failed? {
        NoAcceptedEnd(source, "", requests);
        return Err(VendorFailed), requests;
      }
      var few;
      few, principals := MergePage(principals, policies, reply.policies);
      if !few {
        TooManyPrincipals(vendor, requests);
        return Err(MemberLimit), requests;
      }
      if reply.next == "" {
        var members := ListAll(principals, policies + reply.policies);
        assert Fits(vendor, requests);
        return Ok(members), requests;
      }
      if reply.next in seen {
        SeenPage(source, "", requests, policies, seen);
        return Err(RepeatedCursor), requests;
      }
      NextPage(source, "", requests, policies, seen);
      policies := policies + reply.policies;
      seen, cursor, cursors := seen + {reply.next}, reply.next, cursors + [reply.next];
    }
    NoAcceptedEnd(source, "", cursors);
    return Err(PaginationLimit), requests;
  }

  /** The principals are those of all these policies, merged. */
  ghost predicate MergedAll(principals: map<string, Principal>, policies: seq<Policy>) {
    Merged(principals, FactsOf(policies), Parsed) && |principals| <= MAX_MEMBERS
  }

  method MergePage(principals: map<string, Principal>, ghost earlier: seq<Policy>, policies: seq<Policy>)
    returns (few: bool, merged: map<string, Principal>)
    requires MergedAll(principals, earlier)
    ensures few == Few(FactsOf(earlier + policies))
    ensures few ==> MergedAll(merged, earlier + policies)
  {
    few, merged := MergePolicies(principals, FactsOf(earlier), policies);
    FactsSplit(earlier, policies);
  }

  method ListAll(principals: map<string, Principal>, ghost policies: seq<Policy>) returns (members: seq<Member>)
    requires MergedAll(principals, policies)
    ensures Listing(members, FactsOf(policies), Parsed)
  {
    members := Normalize(principals, FactsOf(policies), Parsed);
  }

  lemma {:induction false} FactsSplit(a: seq<Policy>, b: seq<Policy>)
    ensures FactsOf(a + b) == FactsOf(a) + FactsOf(b)
  {
    if b == [] {
      assert a + b == a;
    } else {
      assert (a + b)[..|a + b| - 1] == a + b[..|b| - 1];
      FactsSplit(a, b[..|b| - 1]);
    }
  }

  /** The loop over the policies of a page. */
  method MergePolicies(principals: map<string, Principal>, ghost facts: set<Fact>, policies: seq<Policy>)
    returns (few: bool, merged: map<string, Principal>)
    requires Merged(principals, facts, Parsed) && |principals| <= MAX_MEMBERS
    ensures few == Few(facts + FactsOf(policies))
    ensures few ==> Merged(merged, facts + FactsOf(policies), Parsed) && |merged| <= MAX_MEMBERS
  {
    merged := principals;
    ghost var known := facts;
    assert facts + FactsOf(policies[..0]) == facts;
    for i := 0 to |policies|
      invariant Merged(merged, known, Parsed) && |merged| <= MAX_MEMBERS
      invariant known == facts + FactsOf(policies[..i])
    {
      few, merged := MergePolicy(merged, known, policies[i]);
      PoliciesStep(facts, policies, i);
      known := known + PolicyFacts(policies[i]);
      if !few {
        return;
      }
    }
    assert policies[..|policies|] == policies;
    few := true;
  }

  lemma FactsNext(policies: seq<Policy>, i: nat)
    requires i < |policies|
    ensures FactsOf(policies[..i + 1]) == FactsOf(policies[..i]) + PolicyFacts(policies[i])
  {
    assert policies[..i + 1][..i] == policies[..i];
  }

  lemma {:induction false} FactsPrefix(policies: seq<Policy>, i: nat)
    requires i <= |policies|
    ensures FactsOf(policies[..i]) <= FactsOf(policies)
    decreases |policies| - i
  {
    if i < |policies| {
      FactsNext(policies, i);
      FactsPrefix(policies, i + 1);
    } else {
      assert policies[..i] == policies;
    }
  }

  lemma PolicyFactsNext(policy: Policy, j: nat)
    requires j < |policy|
    ensures PolicyFacts(policy[..j + 1]) == PolicyFacts(policy[..j]) + BindingFacts(policy[j].role, policy[j].members)
  {
    assert policy[..j + 1][..j] == policy[..j];
  }

  lemma {:induction false} PoliciesStep(facts: set<Fact>, policies: seq<Policy>, i: nat)
    requires i < |policies|
    ensures facts + FactsOf(policies[..i]) + PolicyFacts(policies[i]) == facts + FactsOf(policies[..i + 1])
    ensures Few(facts + FactsOf(policies)) ==> Few(facts + FactsOf(policies[..i + 1]))
  {
    FactsNext(policies, i);
    FactsPrefix(policies, i + 1);
    PartNext(facts, FactsOf(policies[..i]), PolicyFacts(policies[i]), FactsOf(policies[..i + 1]), FactsOf(policies));
  }

  /** One more part of what is to be merged. */
  lemma PartNext(facts: set<Fact>, part: set<Fact>, more: set<Fact>, next: set<Fact>, whole: set<Fact>)
    requires next == part + more && next <= whole
    ensures facts + part + more == facts + next
    ensures Few(facts + whole) ==> Few(facts + next)
  {
    SubsetSize(Members(facts + next), Members(facts + whole));
  }

  lemma {:induction false} PolicyFactsGrow(policy: Policy, j: nat)
    requires j <= |policy|
    ensures PolicyFacts(policy[..j]) <= PolicyFacts(policy)
    decreases |policy| - j
  {
    if j < |policy| {
      PolicyFactsNext(policy, j);
      PolicyFactsGrow(policy, j + 1);
    } else {
      assert policy[..j] == policy;
    }
  }

  /** The loop over the bindings of a policy. */
  method MergePolicy(principals: map<string, Principal>, ghost facts: set<Fact>, policy: Policy)
    returns (few: bool, merged: map<string, Principal>)
    requires Merged(principals, facts, Parsed) && |principals| <= MAX_MEMBERS
    ensures few == Few(facts + PolicyFacts(policy))
    ensures few ==> Merged(merged, facts + PolicyFacts(policy), Parsed) && |merged| <= MAX_MEMBERS
  {
    merged := principals;
    ghost var known := facts;
    assert facts + PolicyFacts(policy[..0]) == facts;
    for j := 0 to |policy|
      invariant Merged(merged, known, Parsed) && |merged| <= MAX_MEMBERS
      invariant known == facts + PolicyFacts(policy[..j])
    {
      few, merged := MergeBinding(merged, known, policy[j]);
      PolicyStep(facts, policy, j);
      known := known + BindingFacts(policy[j].role, policy[j].members);
      if !few {
        return;
      }
    }
    assert policy[..|policy|] == policy;
    few := true;
  }

  lemma {:induction false} PolicyStep(facts: set<Fact>, policy: Policy, j: nat)
    requires j < |policy|
    ensures facts + PolicyFacts(policy[..j]) + BindingFacts(policy[j].role, policy[j].members)
        == facts + PolicyFacts(policy[..j + 1])
    ensures Few(facts + PolicyFacts(policy)) ==> Few(facts + PolicyFacts(policy[..j + 1]))
  {
    PolicyFactsNext(policy, j);
    PolicyFactsGrow(policy, j + 1);
    PartNext(facts, PolicyFacts(policy[..j]), BindingFacts(policy[j].role, policy[j].members),
             PolicyFacts(policy[..j + 1]), PolicyFacts(policy));
  }

  lemma {:induction false} BindingFactsGrow(role: string, members: seq<string>, k: nat)
    requires k <= |members|
    ensures BindingFacts(role, members[..k]) <= BindingFacts(role, members)
    decreases |members| - k
  {
    if k < |members| {
      assert members[..k + 1][..k] == members[..k];
      BindingFactsGrow(role, members, k + 1);
    } else {
      assert members[..k] == members;
    }
  }

  /** The innermost loop, over the members of a binding. */
  method MergeBinding(principals: map<string, Principal>, ghost facts: set<Fact>, binding: Binding)
    returns (few: bool, merged: map<string, Principal>)
    requires Merged(principals, facts, Parsed) && |principals| <= MAX_MEMBERS
    ensures few == Few(facts + BindingFacts(binding.role, binding.members))
    ensures few ==>
        Merged(merged, facts + BindingFacts(binding.role, binding.members), Parsed) && |merged| <= MAX_MEMBERS
  {
    merged := principals;
    ghost var known := facts;
    assert facts + BindingFacts(binding.role, binding.members[..0]) == facts;
    for k := 0 to |binding.members|
      invariant Merged(merged, known, Parsed) && |merged| <= MAX_MEMBERS
      invariant known == facts + BindingFacts(binding.role, binding.members[..k])
    {
      few, merged := MergeMember(merged, known, binding.members[k], binding.role);
      BindingStep(facts, binding.role, binding.members, k);
      known := known + MemberFacts(binding.role, binding.members[k]);
      if !few {
        return;
      }
    }
    assert binding.members[..|binding.members|] == binding.members;
    few := true;
  }

  lemma {:induction false} BindingStep(facts: set<Fact>, role: string, members: seq<string>, k: nat)
    requires k < |members|
    ensures facts + BindingFacts(role, members[..k]) + MemberFacts(role, members[k])
        == facts + BindingFacts(role, members[..k + 1])
    ensures Few(facts + BindingFacts(role, members)) ==> Few(facts + BindingFacts(role, members[..k + 1]))
  {
    assert members[..k + 1][..k] == members[..k];
    BindingFactsGrow(role, members, k + 1);
    PartNext(facts, BindingFacts(role, members[..k]), MemberFacts(role, members[k]),
             BindingFacts(role, members[..k + 1]), BindingFacts(role, members));
  }

  /** One round of the innermost loop. */
  method MergeMember(principals: map<string, Principal>, ghost facts: set<Fact>, member: string, role: string)
    returns (few: bool, merged: map<string, Principal>)
    requires Merged(principals, facts, Parsed) && |principals| <= MAX_MEMBERS
    ensures few == Few(facts + MemberFacts(role, member))
    ensures few ==> Merged(merged, facts + MemberFacts(role, member), Parsed) && |merged| <= MAX_MEMBERS
  {
    merged := principals;
    var parsed := ParsePrincipal(member);
    if parsed.None? {
      assert facts + {} == facts;
      return true, merged;
    }
    ParsedId(member);
    FactAdded(facts, member, role);
    var principal := parsed.value;
    if principal.id !in merged && |merged| >= MAX_MEMBERS {
      return false, merged;
    }
    MergeFact(merged, facts, member, role, Parsed);
    merged := Merge(merged, principal.id, role, principal);
    few := true;
  }
}
