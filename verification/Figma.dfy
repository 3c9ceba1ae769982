/** Figma of internal/collector/figma.go: SCIM users by offset. */
module Figma {
  import opened Wire
  import opened Chains
  import opened Scim

  /** The `primary` attribute, which vendors write as a boolean or as text. */
  datatype Primary = Flag(value: bool) | Written(text: string) | Other

  datatype Email = Email(value: string, primary: Primary)

  datatype User = User(
    id: string, userName: string, displayName: string, active: Option<bool>, emails: seq<Email>,
    roles: seq<(string, string)>, created: string, admin: bool)

  /** Case folding of text, and normalizedRFC3339Pointer. */
  datatype Library = Library(
    equalFold: (string, string) -> bool, lower: string -> string, timestamp: string -> Option<string>)

  predicate IsPrimary(email: Email, library: Library) {
    match email.primary
    case Flag(value) => value
    case Written(text) => library.equalFold(text, "true")
    case Other => false
  }

  /** The first primary address, else the first one, else the user name. */
  method UserEmail(user: User, library: Library) returns (value: string)
    ensures value == EmailOf(user, library)
  {
    for i := 0 to |user.emails|
      invariant FirstPrimary(user.emails, library) == FirstPrimary(user.emails[i..], library)
    {
      if IsPrimary(user.emails[i], library) {
        return user.emails[i].value;
      }
    }
    if |user.emails| > 0 {
      return user.emails[0].value;
    }
    return user.userName;
  }

  function FirstPrimary(emails: seq<Email>, library: Library): Option<string> {
    if emails == [] then None
    else if IsPrimary(emails[0], library) then Some(emails[0].value)
    else FirstPrimary(emails[1..], library)
  }

  function EmailOf(user: User, library: Library): string {
    var primary := FirstPrimary(user.emails, library);
    if primary.Some? then primary.value
    else if user.emails != [] then user.emails[0].value
    else user.userName
  }

  lemma {:induction false} FirstPrimaryAt(emails: seq<Email>, library: Library, i: nat)
    requires i <= |emails| && forall j | 0 <= j < i :: !IsPrimary(emails[j], library)
    ensures FirstPrimary(emails, library) == FirstPrimary(emails[i..], library)
  {
    if i > 0 {
      FirstPrimaryAt(emails[1..], library, i - 1);
      assert emails[1..][i - 1..] == emails[i..];
    }
  }

  /** The address by position: the first one marked primary, as a boolean or as text, else the first of all. */
  lemma EmailMeans(user: User, library: Library, i: nat)
    requires i <= |user.emails|
    requires forall j | 0 <= j < i ::
        && user.emails[j].primary != Flag(true)
        && (user.emails[j].primary.Written? ==> !library.equalFold(user.emails[j].primary.text, "true"))
    ensures i < |user.emails| && user.emails[i].primary == Flag(true) ==>
        EmailOf(user, library) == user.emails[i].value
    ensures i < |user.emails| && user.emails[i].primary.Written? ==>
        library.equalFold(user.emails[i].primary.text, "true") ==>
          EmailOf(user, library) == user.emails[i].value
    ensures i == |user.emails| > 0 ==> EmailOf(user, library) == user.emails[0].value
    ensures user.emails == [] ==> EmailOf(user, library) == user.userName
  {
    FirstPrimaryAt(user.emails, library, i);
  }

  /** The first seat type that names a known seat. */
  function SeatOf(roles: seq<(string, string)>, library: Library): string {
    if roles == [] then "member"
    else if
      && library.equalFold(roles[0].0, "seatType") && roles[0].1 != ""
      && library.lower(roles[0].1) in ["full", "dev", "collab", "view"]
    then
      library.lower(roles[0].1)
    else SeatOf(roles[1..], library)
  }

  /** The seat by position: the first role of type seatType, in any case, with a known value, else "member". */
  lemma {:induction false} SeatMeans(roles: seq<(string, string)>, library: Library, i: nat)
    requires i <= |roles|
    requires forall j | 0 <= j < i ::
        !library.equalFold(roles[j].0, "seatType") || roles[j].1 == ""
        || library.lower(roles[j].1) !in {"full", "dev", "collab", "view"}
    ensures i == |roles| ==> SeatOf(roles, library) == "member"
    ensures i < |roles| && library.equalFold(roles[i].0, "seatType") && roles[i].1 != "" ==>
        library.lower(roles[i].1) in {"full", "dev", "collab", "view"} ==>
          SeatOf(roles, library) == library.lower(roles[i].1)
  {
    if i > 0 {
      SeatMeans(roles[1..], library, i - 1);
    }
  }

  /** The record of a user, field by field. */
  lemma MemberMeans(user: User, library: Library)
    ensures var m, email, role :=
        MemberOf(user, library), EmailOf(user, library), if user.admin then "admin" else SeatOf(user.roles, library);
      && m.id == (if user.id == "" then None else Some(user.id))
      && m.email == (if email == "" then None else Some(email))
      && m.name == (if user.displayName == "" then None else Some(user.displayName))
      && m.username == (if user.userName == "" then None else Some(user.userName))
      && (m.status == "deactivated" <==> user.active == Some(false)) && m.status in {"active", "deactivated"}
      && m.role == Some(role) && m.createdAt == library.timestamp(user.created)
      && m.lastLoginAt == None && m.billable == None
  {
    SeatNotEmpty(user.roles, library);
  }

  lemma {:induction false} SeatNotEmpty(roles: seq<(string, string)>, library: Library)
    ensures SeatOf(roles, library) in {"full", "dev", "collab", "view", "member"}
  {
    if roles != [] {
      SeatNotEmpty(roles[1..], library);
    }
  }

  function MemberOf(user: User, library: Library): Member {
    Member(StringPointer(user.id), StringPointer(EmailOf(user, library)),
           StringPointer(user.displayName), StringPointer(user.userName),
           if user.active == Some(false) then "deactivated" else "active",
           StringPointer(if user.admin then "admin" else SeatOf(user.roles, library)),
           library.timestamp(user.created), None, None)
  }

  /** The records of exactly the collectable chain of pages, or no list at all. */
  method Collect(vendor: Vendor<User>, library: Library)
    returns (r: Outcome<seq<Member>, CollectError>, ghost requests: seq<int>)
    ensures r.Ok? <==> exists cursors :: Collectable(SourceOf(vendor, true), 1, cursors)
    ensures r.Ok? ==>
        var users := Gathered(SourceOf(vendor, true), requests);
        && Collectable(SourceOf(vendor, true), 1, requests) && |r.value| == |users|
        && forall k | 0 <= k < |users| :: r.value[k] == MemberOf(users[k], library)
    ensures Followed(SourceOf(vendor, true), 1, requests)
  {
    var record := user => MemberOf(user, library);
    r, requests := Follow(vendor, record);
    if r.Ok? {
      ghost var users := Gathered(SourceOf(vendor, true), requests);
      forall k | 0 <= k < |users|
        ensures r.value[k] == MemberOf(users[k], library)
      {
        RecordsAt(users, record, k);
      }
    }
  }

  method Follow(vendor: Vendor<User>, record: User -> Member)
    returns (r: Outcome<seq<Member>, CollectError>, ghost requests: seq<int>)
    ensures r.Ok? <==> exists cursors :: Collectable(SourceOf(vendor, true), 1, cursors)
    ensures r.Ok? ==>
        && Collectable(SourceOf(vendor, true), 1, requests)
        && r.value == Records(Gathered(SourceOf(vendor, true), requests), record)
    ensures Followed(SourceOf(vendor, true), 1, requests)
  {
    ghost var source := SourceOf(vendor, true);
    var members: seq<Member> := [];
    var startIndex := 1;
    ghost var cursors := [startIndex];
    requests := [];
    ghost var users: seq<User> := [];
    for page := 0 to MAX_PAGES
      invariant |cursors| == page + 1 && cursors[page] == startIndex && AtOffset(source, cursors, users)
      invariant members == Records(users, record)
      invariant page > 0 ==> Followed(source, 1, requests)
    {
      requests := cursors;
      var reply := vendor(page, startIndex);
      assert Page(source, requests) == CappedViewOf(reply, startIndex, true);
      var step := TakePage(reply, startIndex, members, users, record);
      StepDecides(source, requests, users, step, record);
      if step.Stop? {
        return Err(step.error), requests;
      }
      if step.Done? {
        return Ok(step.records), requests;
      }
      NextOffset(vendor, true, requests, users);
      users := users + reply.resources;
      members, startIndex, cursors := step.records, step.next, cursors + [step.next];
    }
    NoAcceptedEnd(source, 1, cursors);
    return Err(PaginationLimit), requests;
  }

  /** One page: its checks in their order, and its users. */
  method TakePage(
      reply: Reply<User>, startIndex: int, members: seq<Member>, ghost users: seq<User>, record: User -> Member)
    returns (step: Step<Member, int>)
    requires members == Records(users, record)
    ensures StepFor(CappedViewOf(reply, startIndex, true), users, step, record)
  {
    if reply.Failed? || reply.totalResults < 0 {
      return Stop(VendorFailed);
    }
    if reply.totalResults > MAX_MEMBERS || !MemberPageFits(|members|, |reply.resources|) {
      return Stop(MemberLimit);
    }
    var longer := AppendRecords(members, users, reply.resources, record);
    var nextIndex := startIndex + |reply.resources|;
    if nextIndex > reply.totalResults {
      return Done(longer);
    }
    if |reply.resources| == 0 {
      return Stop(VendorFailed);
    }
    return Go(longer, nextIndex);
  }
}
