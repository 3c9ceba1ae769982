/** Vercel of internal/collector/vercel.go: a timestamp cursor, and invitations on the first page only. */
module Vercel {
  import opened Wire
  import opened Chains
  import opened Sequences

  datatype TeamMember = TeamMember(
    uid: string, email: string, username: string, name: string, role: string, confirmed: bool, createdAt: int)

  datatype Invitation = Invitation(id: string, email: string, role: string, createdAt: int, expired: bool)

  datatype Account = Team(member: TeamMember) | Invited(invitation: Invitation)

  /** A decoded reply; `Failed` covers every unusable one, a missing member list included. */
  datatype Reply =
    | Failed
    | Listed(members: seq<TeamMember>, invitations: seq<Invitation>, hasNext: bool, next: int)

  type Vendor = (nat, int) -> Reply

  /** strings.ToLower, and the RFC 3339 text of a number of milliseconds. */
  datatype Library = Library(lower: string -> string, millis: int -> string)

  const LAST_MILLIS := 253402300799999

  function UnixMillis(milliseconds: int, library: Library): Option<string> {
    if milliseconds <= 0 || milliseconds > LAST_MILLIS then None else Some(library.millis(milliseconds))
  }

  function NormalizedRole(role: string, library: Library): string {
    var known := ["owner", "member", "developer", "security", "billing", "viewer", "viewer_for_plus", "contributor"];
    if library.lower(role) in known then library.lower(role) else "member"
  }

  function MemberOf(account: Account, library: Library): Member {
    match account
    case Team(m) =>
      Member(StringPointer(m.uid), StringPointer(m.email), StringPointer(m.name), StringPointer(m.username),
             if m.confirmed then "active" else "pending", StringPointer(NormalizedRole(m.role, library)),
             UnixMillis(m.createdAt, library), None, None)
    case Invited(i) =>
      Member(StringPointer(i.id), StringPointer(i.email), None, None, "pending",
             StringPointer(NormalizedRole(i.role, library)), UnixMillis(i.createdAt, library), None, None)
  }

  function Teams(members: seq<TeamMember>): seq<Account> {
    if members == [] then [] else Teams(members[..|members| - 1]) + [Team(members[|members| - 1])]
  }

  /** The invitations that have not expired. */
  function Outstanding(invitations: seq<Invitation>): seq<Account> {
    if invitations == [] then []
    else
      var last := invitations[|invitations| - 1];
      Outstanding(invitations[..|invitations| - 1]) + if last.expired then [] else [Invited(last)]
  }

  lemma {:induction false} TeamsAt(members: seq<TeamMember>, k: nat)
    ensures |Teams(members)| == |members|
    ensures k < |members| ==> Teams(members)[k] == Team(members[k])
  {
    if members != [] {
      TeamsAt(members[..|members| - 1], k);
    }
  }

  function Unexpired(invitations: seq<Invitation>): seq<nat> {
    if invitations == [] then []
    else
      var n := |invitations| - 1;
      Unexpired(invitations[..n]) + if invitations[n].expired then [] else [n]
  }

  lemma {:induction false} UnexpiredAre(invitations: seq<Invitation>)
    ensures forall i :: i in Unexpired(invitations) <==> 0 <= i < |invitations| && !invitations[i].expired
    ensures forall j, k | 0 <= j < k < |Unexpired(invitations)| ::
        Unexpired(invitations)[j] < Unexpired(invitations)[k]
  {
    if invitations != [] {
      var n := |invitations| - 1;
      var before := Unexpired(invitations[..n]);
      UnexpiredAre(invitations[..n]);
      assert forall k | 0 <= k < |before| :: before[k] in before;
      assert Unexpired(invitations) == before + if invitations[n].expired then [] else [n];
    }
  }

  /** The positions of the invitations that are listed: all that have not expired, in their order. */
  lemma {:induction false} OutstandingAre(invitations: seq<Invitation>) returns (positions: seq<nat>)
    ensures positions == Unexpired(invitations)
    ensures forall i :: i in positions <==> 0 <= i < |invitations| && !invitations[i].expired
    ensures forall j, k | 0 <= j < k < |positions| :: positions[j] < positions[k]
    ensures |Outstanding(invitations)| == |positions|
    ensures forall k | 0 <= k < |positions| ::
        positions[k] < |invitations| && Outstanding(invitations)[k] == Invited(invitations[positions[k]])
  {
    UnexpiredAre(invitations);
    positions := Unexpired(invitations);
    if invitations != [] {
      var _ := OutstandingAre(invitations[..|invitations| - 1]);
    }
  }

  /** The accounts of a page. */
  function Accounts(reply: Reply, until: int): seq<Account>
    requires reply.Listed?
  {
    if until == 0 then Teams(reply.members) + Outstanding(reply.invitations) else Teams(reply.members)
  }

  function ViewOf(reply: Reply, until: int): View<Account, int> {
    if reply.Failed? then Bad
    else if !reply.hasNext then Last(Accounts(reply, until))
    else if reply.next <= 0 then Bad
    else More(Accounts(reply, until), reply.next)
  }

  /** A page by its fields; only the request without a timestamp brings invitations. */
  lemma ViewMeans(reply: Reply, until: int, items: seq<Account>, next: int)
    ensures ViewOf(reply, until) == Last(items) <==>
        && reply.Listed? && !reply.hasNext
        && items == Teams(reply.members) + (if until == 0 then Outstanding(reply.invitations) else [])
    ensures ViewOf(reply, until) == More(items, next) <==>
        && reply.Listed? && reply.hasNext && reply.next == next > 0
        && items == Teams(reply.members) + (if until == 0 then Outstanding(reply.invitations) else [])
  {
  }

  /** The records of a member and of an invitation, field by field. */
  lemma MemberMeans(m: TeamMember, i: Invitation, library: Library)
    ensures var member, invited := MemberOf(Team(m), library), MemberOf(Invited(i), library);
      && member.id == (if m.uid == "" then None else Some(m.uid))
      && member.email == (if m.email == "" then None else Some(m.email))
      && member.name == (if m.name == "" then None else Some(m.name))
      && member.username == (if m.username == "" then None else Some(m.username))
      && (member.status == "active" <==> m.confirmed) && member.status in {"active", "pending"}
      && invited.id == (if i.id == "" then None else Some(i.id))
      && invited.email == (if i.email == "" then None else Some(i.email))
      && invited.name == None && invited.username == None && invited.status == "pending"
      && member.lastLoginAt == None && member.billable == None
      && invited.lastLoginAt == None && invited.billable == None
  {
  }

  /** Roles and creation times: an unknown role reads "member", and a time after the year 9999 is left out. */
  lemma RoleAndTimeMean(account: Account, library: Library)
    ensures var role, createdAt :=
        if account.Team? then account.member.role else account.invitation.role,
        if account.Team? then account.member.createdAt else account.invitation.createdAt;
      var member := MemberOf(account, library);
      && member.role == Some(
          if library.lower(role) in {
            "owner", "developer", "security", "billing", "viewer", "viewer_for_plus", "contributor"}
          then library.lower(role) else "member")
      && member.createdAt ==
          (if 0 < createdAt <= 253_402_300_799_999 then Some(library.millis(createdAt)) else None)
  {
  }

  function SourceOf(vendor: Vendor): Source<Account, int> {
    (k: nat, until) => ViewOf(vendor(k, until), until)
  }

  // ---------------------------------------------------------------- invitations

  /** The team members of the pages after the first. */
  function LaterTeams(vendor: Vendor, cursors: seq<int>): seq<Account> {
    if |cursors| <= 1 then []
    else
      var page := vendor(|cursors| - 1, cursors[|cursors| - 1]);
      LaterTeams(vendor, cursors[..|cursors| - 1]) + if page.Listed? then Teams(page.members) else []
  }

  lemma ChainPrefix(source: Source<Account, int>, cursors: seq<int>)
    requires Chain(source, 0, cursors) && |cursors| > 1
    ensures Chain(source, 0, cursors[..|cursors| - 1]) && Page(source, cursors[..|cursors| - 1]).More?
    ensures Page(source, cursors[..|cursors| - 1]).next == cursors[|cursors| - 1]
  {
    var shorter := cursors[..|cursors| - 1];
    assert Leads(source, cursors, |cursors| - 2);
    forall i | 0 <= i < |shorter| - 1
      ensures Leads(source, shorter, i)
    {
      assert Leads(source, cursors, i);
    }
  }

  /**
   Every unexpired invitation of the first page is listed once, right after that page's members, and
   no invitation of a later page is listed.
  */
  lemma {:induction false} InvitationsOnce(vendor: Vendor, cursors: seq<int>)
    requires Chain(SourceOf(vendor), 0, cursors) && !Page(SourceOf(vendor), cursors).Bad?
    ensures vendor(0, 0).Listed?
    ensures Gathered(SourceOf(vendor), cursors) ==
        Teams(vendor(0, 0).members) + Outstanding(vendor(0, 0).invitations) + LaterTeams(vendor, cursors)
  {
    if |cursors| > 1 {
      var shorter := cursors[..|cursors| - 1];
      ChainPrefix(SourceOf(vendor), cursors);
      InvitationsOnce(vendor, shorter);
      var teams := LaterPage(vendor, cursors);
      Associative(
        Teams(vendor(0, 0).members) + Outstanding(vendor(0, 0).invitations), LaterTeams(vendor, shorter), teams);
    } else {
      assert cursors == [0];
      FirstPage(vendor);
    }
  }

  lemma FirstPage(vendor: Vendor)
    requires !Page(SourceOf(vendor), [0]).Bad?
    ensures vendor(0, 0).Listed?
    ensures Gathered(SourceOf(vendor), [0]) == Teams(vendor(0, 0).members) + Outstanding(vendor(0, 0).invitations)
  {
    assert Page(SourceOf(vendor), [0]) == ViewOf(vendor(0, 0), 0);
    assert Gathered(SourceOf(vendor), [0][..0]) == [];
  }

  /** A later page adds its members and nothing else. */
  lemma LaterPage(vendor: Vendor, cursors: seq<int>) returns (teams: seq<Account>)
    requires Chain(SourceOf(vendor), 0, cursors) && |cursors| > 1 && !Page(SourceOf(vendor), cursors).Bad?
    ensures Gathered(SourceOf(vendor), cursors) == Gathered(SourceOf(vendor), cursors[..|cursors| - 1]) + teams
    ensures LaterTeams(vendor, cursors) == LaterTeams(vendor, cursors[..|cursors| - 1]) + teams
  {
    var until := cursors[|cursors| - 1];
    var reply := vendor(|cursors| - 1, until);
    ghost var previous := cursors[|cursors| - 2];
    assert Leads(SourceOf(vendor), cursors, |cursors| - 2);
    assert until == ViewOf(vendor(|cursors| - 2, previous), previous).next;
    assert Page(SourceOf(vendor), cursors) == ViewOf(reply, until);
    teams := Teams(reply.members);
  }

  // ---------------------------------------------------------------- the loop

  /** As Linear: the records of exactly the collectable chain, or no list at all. */
  method Collect(vendor: Vendor, library: Library)
    returns (r: Outcome<seq<Member>, CollectError>, ghost requests: seq<int>)
    ensures r.Ok? <==> exists cursors :: Collectable(SourceOf(vendor), 0, cursors)
    ensures r.Ok? ==>
        var accounts := Gathered(SourceOf(vendor), requests);
        && Collectable(SourceOf(vendor), 0, requests) && |r.value| == |accounts|
        && forall k | 0 <= k < |accounts| :: r.value[k] == MemberOf(accounts[k], library)
    ensures Followed(SourceOf(vendor), 0, requests)
  {
    var record := account => MemberOf(account, library);
    r, requests := Follow(vendor, record);
    if r.Ok? {
      ghost var accounts := Gathered(SourceOf(vendor), requests);
      forall k | 0 <= k < |accounts|
        ensures r.value[k] == MemberOf(accounts[k], library)
      {
        RecordsAt(accounts, record, k);
      }
    }
  }

  method Follow(vendor: Vendor, record: Account -> Member)
    returns (r: Outcome<seq<Member>, CollectError>, ghost requests: seq<int>)
    ensures r.Ok? <==> exists cursors :: Collectable(SourceOf(vendor), 0, cursors)
    ensures r.Ok? ==>
        && Collectable(SourceOf(vendor), 0, requests)
        && r.value == Records(Gathered(SourceOf(vendor), requests), record)
    ensures Followed(SourceOf(vendor), 0, requests)
  {
    ghost var source := SourceOf(vendor);
    var members: seq<Member> := [];
    var until := 0;
    ghost var cursors := [until];
    requests := [];
    var seen: set<int> := {};
    ghost var accounts: seq<Account> := [];
    for page := 0 to MAX_PAGES
      invariant |cursors| == page + 1 && cursors[page] == until && AtPage(source, 0, cursors, accounts, seen)
      invariant members == Records(accounts, record)
      invariant page > 0 ==> Followed(source, 0, requests)
    {
      requests := cursors;
      var reply := vendor(page, until);
      assert Page(source, requests) == ViewOf(reply, until);
      var step := TakePage(reply, until, members, accounts, record);
      if step.Stop? {
        NoCollectableEnd(source, 0, requests);
        return Err(step.error), requests;
      }
      if step.Done? {
        assert Collectable(source, 0, requests);
        return Ok(step.records), requests;
      }
      if step.next in seen {
        SeenPage(source, 0, requests, accounts, seen);
        return Err(RepeatedCursor), requests;
      }
      NextPage(source, 0, requests, accounts, seen);
      accounts := accounts + Accounts(reply, until);
      members, seen, until, cursors := step.records, seen + {step.next}, step.next, cursors + [step.next];
    }
    NoAcceptedEnd(source, 0, cursors);
    return Err(PaginationLimit), requests;
  }

  lemma {:induction false} TeamsLength(members: seq<TeamMember>)
    ensures |Teams(members)| == |members|
  {
    if members != [] {
      TeamsLength(members[..|members| - 1]);
    }
  }

  /** The size of a page, counted before anything is appended. */
  method Incoming(reply: Reply, until: int) returns (incoming: nat)
    requires reply.Listed?
    ensures incoming == |Accounts(reply, until)|
  {
    incoming := |reply.members|;
    TeamsLength(reply.members);
    if until == 0 {
      for i := 0 to |reply.invitations|
        invariant incoming == |reply.members| + |Outstanding(reply.invitations[..i])|
      {
        assert reply.invitations[..i + 1][..i] == reply.invitations[..i];
        if !reply.invitations[i].expired {
          incoming := incoming + 1;
        }
      }
      assert reply.invitations[..|reply.invitations|] == reply.invitations;
    }
  }

  method TakePage(
      reply: Reply, until: int, members: seq<Member>, ghost accounts: seq<Account>, record: Account -> Member)
    returns (step: Step<Member, int>)
    requires members == Records(accounts, record)
    ensures StepFor(ViewOf(reply, until), accounts, step, record)
    ensures step.Go? ==> step.next > 0
  {
    if reply.Failed? {
      return Stop(VendorFailed);
    }
    var incoming := Incoming(reply, until);
    if !MemberPageFits(|members|, incoming) {
      return Stop(MemberLimit);
    }
    var longer := Append(reply, until, members, accounts, record);
    if !reply.hasNext {
      return Done(longer);
    }
    if reply.next <= 0 {
      return Stop(VendorFailed);
    }
    return Go(longer, reply.next);
  }

  /** The two inner loops. */
  method Append(reply: Reply, until: int, members: seq<Member>, ghost accounts: seq<Account>, record: Account -> Member)
    returns (longer: seq<Member>)
    requires reply.Listed? && members == Records(accounts, record)
    ensures longer == Records(accounts + Accounts(reply, until), record)
  {
    longer := AppendTeams(reply.members, members, accounts, record);
    if until == 0 {
      longer := AppendInvitations(reply.invitations, longer, accounts + Teams(reply.members), record);
      assert accounts + Teams(reply.members) + Outstanding(reply.invitations) == accounts + Accounts(reply, until);
    }
  }

  lemma TeamsNext(accounts: seq<Account>, members: seq<TeamMember>, i: nat)
    requires i < |members|
    ensures accounts + Teams(members[..i + 1]) == accounts + Teams(members[..i]) + [Team(members[i])]
  {
    assert members[..i + 1][..i] == members[..i];
  }

  method AppendTeams(
      team: seq<TeamMember>, members: seq<Member>, ghost accounts: seq<Account>, record: Account -> Member)
    returns (longer: seq<Member>)
    requires members == Records(accounts, record)
    ensures longer == Records(accounts + Teams(team), record)
  {
    longer := members;
    assert accounts + Teams(team[..0]) == accounts;
    for i := 0 to |team|
      invariant longer == Records(accounts + Teams(team[..i]), record)
    {
      TeamsNext(accounts, team, i);
      RecordsOne(accounts + Teams(team[..i]), Team(team[i]), record);
      longer := longer + [record(Team(team[i]))];
    }
    assert team[..|team|] == team;
  }

  lemma OutstandingNext(accounts: seq<Account>, invitations: seq<Invitation>, i: nat)
    requires i < |invitations|
    ensures accounts + Outstanding(invitations[..i + 1]) ==
        if invitations[i].expired then accounts + Outstanding(invitations[..i])
        else accounts + Outstanding(invitations[..i]) + [Invited(invitations[i])]
  {
    assert invitations[..i + 1][..i] == invitations[..i];
  }

  method AppendInvitations(
      invitations: seq<Invitation>, members: seq<Member>, ghost accounts: seq<Account>, record: Account -> Member)
    returns (longer: seq<Member>)
    requires members == Records(accounts, record)
    ensures longer == Records(accounts + Outstanding(invitations), record)
  {
    longer := members;
    assert accounts + Outstanding(invitations[..0]) == accounts;
    for i := 0 to |invitations|
      invariant longer == Records(accounts + Outstanding(invitations[..i]), record)
    {
      OutstandingNext(accounts, invitations, i);
      if invitations[i].expired {
        continue;
      }
      RecordsOne(accounts + Outstanding(invitations[..i]), Invited(invitations[i]), record);
      longer := longer + [record(Invited(invitations[i]))];
    }
    assert invitations[..|invitations|] == invitations;
  }
}
