/** Zoom of internal/collector/zoom.go: one cursor loop for each of three statuses, without a member limit. */
module Zoom {
  import opened Wire
  import opened Chains
  import opened Sequences

  datatype User = User(
    id: string, email: string, firstName: string, lastName: string, status: string, roleName: string,
    kind: int, createdAt: string, lastLoginTime: string)

  datatype Reply = Failed | Listed(users: seq<User>, next: string)

  /** The reply to the request for a status: by number and cursor. */
  type Vendor = (string, nat, string) -> Reply

  const STATUSES := ["active", "inactive", "pending"]

  /** `trim` stands for strings.TrimSpace. */
  function MemberOf(user: User, trim: string -> string): Member {
    Member(StringPointer(user.id), StringPointer(user.email),
           StringPointer(trim(user.firstName + " " + user.lastName)), None,
           if user.status == "inactive" then "deactivated"
           else if user.status == "pending" then "pending"
           else "active",
           StringPointer(if user.roleName == "" then "member" else user.roleName),
           StringPointer(user.createdAt), StringPointer(user.lastLoginTime), Some(user.kind != 1))
  }

  function ViewOf(reply: Reply): View<User, string> {
    if reply.Failed? then Bad
    else if reply.next == "" then Last(reply.users)
    else More(reply.users, reply.next)
  }

  /** A page by its fields: without a next cursor it is the last one. */
  lemma ViewMeans(reply: Reply, items: seq<User>, next: string)
    ensures ViewOf(reply) == Last(items) <==> reply == Listed(items, "")
    ensures ViewOf(reply) == More(items, next) <==> reply == Listed(items, next) && next != ""
  {
  }

  /** The record of a user, field by field. */
  lemma MemberMeans(user: User, trim: string -> string)
    ensures var m, name := MemberOf(user, trim), trim(user.firstName + " " + user.lastName);
      && m.id == (if user.id == "" then None else Some(user.id))
      && m.email == (if user.email == "" then None else Some(user.email))
      && m.name == (if name == "" then None else Some(name)) && m.username == None
      && (m.status == "deactivated" <==> user.status == "inactive")
      && (m.status == "pending" <==> user.status == "pending") && m.status in {"active", "deactivated", "pending"}
      && m.role == Some(if user.roleName == "" then "member" else user.roleName)
      && m.createdAt == (if user.createdAt == "" then None else Some(user.createdAt))
      && m.lastLoginAt == (if user.lastLoginTime == "" then None else Some(user.lastLoginTime))
      && m.billable == Some(user.kind != 1)
  {
  }

  function SourceOf(vendor: Vendor, status: string): Source<User, string> {
    (k: nat, cursor) => ViewOf(vendor(status, k, cursor))
  }

  /** The users of one accepted chain after the other. */
  function AllUsers(vendor: Vendor, requests: seq<seq<string>>): seq<User>
    requires |requests| <= |STATUSES|
  {
    if requests == [] then []
    else
      var k := |requests| - 1;
      AllUsers(vendor, requests[..k]) + Gathered(SourceOf(vendor, STATUSES[k]), requests[k])
  }

  ghost predicate Reaches(vendor: Vendor, status: string) {
    exists cursors :: Accepted(SourceOf(vendor, status), "", cursors)
  }

  ghost predicate AllAccepted(vendor: Vendor, requests: seq<seq<string>>) {
    && |requests| <= |STATUSES|
    && forall k | 0 <= k < |requests| :: Accepted(SourceOf(vendor, STATUSES[k]), "", requests[k])
  }

  /**
   Zoom succeeds exactly when all three chains are accepted, and then returns the records of the
   active users, the inactive ones and the pending ones, each in the order of their pages.
  */
  method Collect(vendor: Vendor, trim: string -> string)
    returns (r: Outcome<seq<Member>, CollectError>, ghost requests: seq<seq<string>>)
    ensures r.Ok? <==> forall status | status in STATUSES :: Reaches(vendor, status)
    ensures r.Ok? ==>
        && |requests| == 3 && AllAccepted(vendor, requests)
        && var users := AllUsers(vendor, requests);
           && |r.value| == |users| && forall k | 0 <= k < |users| :: r.value[k] == MemberOf(users[k], trim)
    ensures r.Ok? ==>
        AllUsers(vendor, requests) ==
          Gathered(SourceOf(vendor, "active"), requests[0]) + Gathered(SourceOf(vendor, "inactive"), requests[1])
          + Gathered(SourceOf(vendor, "pending"), requests[2])
  {
    var record := user => MemberOf(user, trim);
    var members: seq<Member> := [];
    requests := [];
    for k := 0 to |STATUSES|
      invariant |requests| == k && AllAccepted(vendor, requests)
      invariant forall j | 0 <= j < k :: Reaches(vendor, STATUSES[j])
      invariant members == Records(AllUsers(vendor, requests), record)
    {
      ghost var cursors;
      r, cursors := Follow(vendor, STATUSES[k], members, AllUsers(vendor, requests), record);
      if r.Err? {
        assert STATUSES[k] in STATUSES && !Reaches(vendor, STATUSES[k]);
        return;
      }
      assert (requests + [cursors])[..k] == requests;
      requests := requests + [cursors];
      members := r.value;
    }
    r := Ok(members);
    ThreeChains(vendor, requests);
    ghost var users := AllUsers(vendor, requests);
    forall k | 0 <= k < |users|
      ensures r.value[k] == MemberOf(users[k], trim)
    {
      RecordsAt(users, record, k);
    }
  }

  lemma ThreeChains(vendor: Vendor, requests: seq<seq<string>>)
    requires |requests| == 3
    ensures AllUsers(vendor, requests) ==
        Gathered(SourceOf(vendor, "active"), requests[0]) + Gathered(SourceOf(vendor, "inactive"), requests[1])
        + Gathered(SourceOf(vendor, "pending"), requests[2])
  {
    assert requests[..2][..1] == requests[..1] && requests[..1][..0] == [];
    assert AllUsers(vendor, requests[..1]) == Gathered(SourceOf(vendor, STATUSES[0]), requests[0]);
  }

  /** The pages of one status. */
  method Follow(vendor: Vendor, status: string, before: seq<Member>, ghost earlier: seq<User>, record: User -> Member)
    returns (r: Outcome<seq<Member>, CollectError>, ghost requests: seq<string>)
    requires before == Records(earlier, record)
    ensures r.Ok? <==> Reaches(vendor, status)
    ensures r.Ok? ==>
        && Accepted(SourceOf(vendor, status), "", requests)
        && r.value == Records(earlier + Gathered(SourceOf(vendor, status), requests), record)
    ensures Followed(SourceOf(vendor, status), "", requests)
  {
    ghost var source := SourceOf(vendor, status);
    var members := before;
    var cursor := "";
    ghost var cursors := [cursor];
    requests := [];
    var seen: set<string> := {};
    ghost var users: seq<User> := [];
    assert earlier + users == earlier;
    for page := 0 to MAX_PAGES
      invariant |cursors| == page + 1 && cursors[page] == cursor && AtPage(source, "", cursors, users, seen)
      invariant members == Records(earlier + users, record)
      invariant page > 0 ==> Followed(source, "", requests)
    {
      requests := cursors;
      var reply := vendor(status, page, cursor);
      assert Page(source, requests) == ViewOf(reply);
      if reply.Failed? {
        NoAcceptedEnd(source, "", requests);
        return Err(VendorFailed), requests;
      }
      members := AppendRecords(members, earlier + users, reply.users, record);
      Associative(earlier, users, reply.users);
      if reply.next == "" {
        assert Accepted(source, "", requests);
        return Ok(members), requests;
      }
      if reply.next in seen {
        SeenPage(source, "", requests, users, seen);
        return Err(RepeatedCursor), requests;
      }
      NextPage(source, "", requests, users, seen);
      users := users + reply.users;
      seen, cursor, cursors := seen + {reply.next}, reply.next, cursors + [reply.next];
    }
    NoAcceptedEnd(source, "", cursors);
    return Err(PaginationLimit), requests;
  }
}
