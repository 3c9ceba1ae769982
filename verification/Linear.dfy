/** Linear of internal/collector/linear.go: the cursor loop in its fullest form. */
module Linear {
  import opened Wire
  import opened Chains

  datatype User = User(
    id: string, name: string, displayName: string, email: string, active: Option<bool>,
    owner: bool, admin: bool, guest: bool, createdAt: string, lastSeen: string)

  /** A decoded reply; `Failed` covers an unreachable vendor, a bad status and a body that is no JSON. */
  datatype Reply =
    | Failed
    | QueryErrors
    | NoUsers
    | Users(nodes: seq<User>, hasNextPage: bool, endCursor: Option<string>)

  type Vendor = (nat, string) -> Reply

  function Role(user: User): string {
    if user.owner then "owner" else if user.admin then "admin" else if user.guest then "guest" else "member"
  }

  /** `timestamp` stands for normalizedRFC3339Pointer. */
  function MemberOf(user: User, timestamp: string -> Option<string>): Member {
    Member(StringPointer(user.id), StringPointer(user.email),
           StringPointer(if user.name == "" then user.displayName else user.name), StringPointer(user.displayName),
           if user.active == Some(false) then "deactivated" else "active", StringPointer(Role(user)),
           timestamp(user.createdAt), timestamp(user.lastSeen), None)
  }

  ghost predicate AllStated(nodes: seq<User>) {
    forall i | 0 <= i < |nodes| :: nodes[i].active.Some?
  }

  /** What a reply is worth: a user without `active`, or a next page without a cursor, makes it bad. */
  ghost function ViewOf(reply: Reply): View<User, string> {
    if !reply.Users? || !AllStated(reply.nodes) then Bad
    else if !reply.hasNextPage then Last(reply.nodes)
    else if reply.endCursor.None? || reply.endCursor.value == "" then Bad
    else More(reply.nodes, reply.endCursor.value)
  }

  /** A page by its fields: it ends the chain or names the next cursor, and is bad in every other case. */
  lemma ViewMeans(reply: Reply, items: seq<User>, next: string)
    ensures ViewOf(reply) == Last(items) <==>
        && (reply == Users(items, false, None) || exists cursor :: reply == Users(items, false, Some(cursor)))
        && forall i | 0 <= i < |items| :: items[i].active.Some?
    ensures ViewOf(reply) == More(items, next) <==>
        reply == Users(items, true, Some(next)) && next != "" && forall i | 0 <= i < |items| :: items[i].active.Some?
  {
    if reply.Users? && reply.endCursor.Some? {
      assert reply == Users(reply.nodes, reply.hasNextPage, Some(reply.endCursor.value));
    }
  }

  /** The record of a user, field by field. */
  lemma MemberMeans(user: User, timestamp: string -> Option<string>)
    ensures var m := MemberOf(user, timestamp);
      && m.id == (if user.id == "" then None else Some(user.id))
      && m.email == (if user.email == "" then None else Some(user.email))
      && m.username == (if user.displayName == "" then None else Some(user.displayName))
      && m.name == (if user.name != "" then Some(user.name) else m.username)
      && (m.status == "deactivated" <==> user.active == Some(false)) && m.status in {"active", "deactivated"}
      && m.role.Some? && (m.role.value == "owner" <==> user.owner)
      && (m.role.value == "admin" <==> user.admin && !user.owner)
      && (m.role.value == "guest" <==> user.guest && !user.owner && !user.admin)
      && (m.role.value == "member" <==> !user.owner && !user.admin && !user.guest)
      && m.createdAt == timestamp(user.createdAt) && m.lastLoginAt == timestamp(user.lastSeen) && m.billable == None
  {
  }

  ghost function SourceOf(vendor: Vendor): Source<User, string> {
    (k: nat, cursor) => ViewOf(vendor(k, cursor))
  }

  /**
   Linear succeeds exactly when the chain from the first page is collectable, and then returns one
   record for each of its users, in order; otherwise it returns no list at all.
  */
  method Collect(vendor: Vendor, timestamp: string -> Option<string>)
    returns (r: Outcome<seq<Member>, CollectError>, ghost requests: seq<string>)
    ensures r.Ok? <==> exists cursors :: Collectable(SourceOf(vendor), "", cursors)
    ensures r.Ok? ==>
        var users := Gathered(SourceOf(vendor), requests);
        && Collectable(SourceOf(vendor), "", requests) && |r.value| == |users|
        && forall k | 0 <= k < |users| :: r.value[k] == MemberOf(users[k], timestamp)
    ensures Followed(SourceOf(vendor), "", requests)
  {
    var record := user => MemberOf(user, timestamp);
    r, requests := Follow(vendor, record);
    if r.Ok? {
      ghost var users := Gathered(SourceOf(vendor), requests);
      forall k | 0 <= k < |users|
        ensures r.value[k] == MemberOf(users[k], timestamp)
      {
        RecordsAt(users, record, k);
      }
    }
  }

  /** The cursor loop, for any way to record a user. */
  method Follow(vendor: Vendor, record: User -> Member)
    returns (r: Outcome<seq<Member>, CollectError>, ghost requests: seq<string>)
    ensures r.Ok? <==> exists cursors :: Collectable(SourceOf(vendor), "", cursors)
    ensures r.Ok? ==>
        && Collectable(SourceOf(vendor), "", requests)
        && r.value == Records(Gathered(SourceOf(vendor), requests), record)
    ensures Followed(SourceOf(vendor), "", requests)
  {
    ghost var source := SourceOf(vendor);
    var members: seq<Member> := [];
    var cursor := "";
    ghost var cursors := [cursor];
    requests := [];
    var seen: set<string> := {};
    ghost var users: seq<User> := [];
    for page := 0 to MAX_PAGES
      invariant |cursors| == page + 1 && cursors[page] == cursor && AtPage(source, "", cursors, users, seen)
      invariant members == Records(users, record)
      invariant page > 0 ==> Followed(source, "", requests)
    {
      requests := cursors;
      var reply := vendor(page, cursor);
      assert Page(source, requests) == ViewOf(reply);
      var step := TakePage(reply, members, users, record);
      if step.Stop? {
        NoCollectableEnd(source, "", requests);
        return Err(step.error), requests;
      }
      if step.Done? {
        assert Collectable(source, "", requests);
        return Ok(step.records), requests;
      }
      if step.next in seen {
        SeenPage(source, "", requests, users, seen);
        return Err(RepeatedCursor), requests;
      }
      NextPage(source, "", requests, users, seen);
      users := users + reply.nodes;
      members, seen, cursor, cursors := step.records, seen + {step.next}, step.next, cursors + [step.next];
    }
    NoAcceptedEnd(source, "", cursors);
    return Err(PaginationLimit), requests;
  }

  /** One page: its checks in their order, and its users. */
  method TakePage(reply: Reply, members: seq<Member>, ghost users: seq<User>, record: User -> Member)
    returns (step: Step<Member, string>)
    requires members == Records(users, record)
    ensures StepFor(ViewOf(reply), users, step, record)
    ensures step.Go? ==> step.next != ""
  {
    if !reply.Users? {
      return Stop(VendorFailed);
    }
    if !MemberPageFits(|members|, |reply.nodes|) {
      return Stop(MemberLimit);
    }
    var stated, longer := Append(members, users, reply.nodes, record);
    if !stated {
      return Stop(VendorFailed);
    }
    if !reply.hasNextPage {
      return Done(longer);
    }
    if reply.endCursor.None? || reply.endCursor.value == "" {
      return Stop(VendorFailed);
    }
    return Go(longer, reply.endCursor.value);
  }

  /** The inner loop: appends the users of one page, until one of them lacks `active`. */
  method Append(members: seq<Member>, ghost users: seq<User>, nodes: seq<User>, record: User -> Member)
    returns (stated: bool, longer: seq<Member>)
    requires members == Records(users, record)
    ensures stated == AllStated(nodes)
    ensures stated ==> longer == Records(users + nodes, record)
  {
    longer := members;
    assert users + nodes[..0] == users;
    for i := 0 to |nodes|
      invariant forall j | 0 <= j < i :: nodes[j].active.Some?
      invariant longer == Records(users + nodes[..i], record)
    {
      if nodes[i].active.None? {
        return false, longer;
      }
      RecordsAppend(users, nodes, i, record);
      longer := longer + [record(nodes[i])];
    }
    assert nodes[..|nodes|] == nodes;
    stated := true;
  }
}
