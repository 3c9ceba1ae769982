/** Canva of internal/collector/canva.go: the same SCIM pages with another stop test. */
module Canva {
  import opened Wire
  import opened Chains
  import opened Scim

  datatype Email = Email(value: string, primary: bool)

  datatype User = User(
    id: string, userName: string, displayName: string, active: bool, role: string, created: string, emails: seq<Email>)

  const DESIGNERS := [
    "Teacher", "Staff", "Admin", "Template-designer", "Aide", "Administrator", "School administrator", "School",
    "Tenant", "Faculty"]

  /** The email loop: the first primary address, else the first that is not empty. */
  method UserEmail(emails: seq<Email>) returns (email: string)
    ensures email == EmailOf(emails)
  {
    email := "";
    for i := 0 to |emails|
      invariant EmailOf(emails) == (if FirstPrimary(emails[i..]).Some? then FirstPrimary(emails[i..]).value
                                    else if email != "" then email else FirstFilled(emails[i..]))
    {
      var candidate := emails[i];
      if email == "" || candidate.primary {
        email := candidate.value;
      }
      if candidate.primary {
        break;
      }
    }
  }

  function FirstPrimary(emails: seq<Email>): Option<string> {
    if emails == [] then None
    else if emails[0].primary then Some(emails[0].value)
    else FirstPrimary(emails[1..])
  }

  function FirstFilled(emails: seq<Email>): string {
    if emails == [] then ""
    else if emails[0].value != "" then emails[0].value
    else FirstFilled(emails[1..])
  }

  function EmailOf(emails: seq<Email>): string {
    if FirstPrimary(emails).Some? then FirstPrimary(emails).value else FirstFilled(emails)
  }

  lemma {:induction false} FirstPrimaryAt(emails: seq<Email>, i: nat)
    requires i <= |emails| && forall j | 0 <= j < i :: !emails[j].primary
    ensures FirstPrimary(emails) == FirstPrimary(emails[i..])
  {
    if i > 0 {
      FirstPrimaryAt(emails[1..], i - 1);
      assert emails[1..][i - 1..] == emails[i..];
    }
  }

  lemma {:induction false} FirstFilledAt(emails: seq<Email>, i: nat)
    requires i <= |emails| && forall j | 0 <= j < i :: emails[j].value == ""
    ensures FirstFilled(emails) == FirstFilled(emails[i..])
  {
    if i > 0 {
      FirstFilledAt(emails[1..], i - 1);
      assert emails[1..][i - 1..] == emails[i..];
    }
  }

  /** The address by position: the first primary one, even an empty one, else the first that is not empty. */
  lemma EmailMeans(emails: seq<Email>, i: nat)
    requires i <= |emails|
    ensures i < |emails| && emails[i].primary && (forall j | 0 <= j < i :: !emails[j].primary) ==>
        EmailOf(emails) == emails[i].value
    ensures (forall j | 0 <= j < |emails| :: !emails[j].primary) && (forall j | 0 <= j < i :: emails[j].value == "") ==>
        && (i < |emails| && emails[i].value != "" ==> EmailOf(emails) == emails[i].value)
        && (i == |emails| ==> EmailOf(emails) == "")
  {
    if forall j | 0 <= j < i :: !emails[j].primary {
      FirstPrimaryAt(emails, i);
    }
    if forall j | 0 <= j < |emails| :: !emails[j].primary {
      FirstPrimaryAt(emails, |emails|);
    }
    if forall j | 0 <= j < i :: emails[j].value == "" {
      FirstFilledAt(emails, i);
    }
  }

  /** The record of a user, field by field. */
  lemma MemberMeans(user: User, timestamp: string -> Option<string>)
    ensures var m, email := MemberOf(user, timestamp), EmailOf(user.emails);
      && m.id == (if user.id == "" then None else Some(user.id))
      && m.email == (if email == "" then None else Some(email))
      && m.name == (if user.displayName == "" then None else Some(user.displayName))
      && m.username == (if user.userName == "" then None else Some(user.userName))
      && (m.status == "active" <==> user.active) && m.status in {"active", "deactivated"}
      && m.role == Some(
          if user.role in {"Teacher", "Staff", "Admin", "Template-designer", "Aide", "Administrator",
                           "School administrator", "School", "Tenant", "Faculty"}
          then "brand designer" else "member")
      && m.createdAt == timestamp(user.created) && m.lastLoginAt == None && m.billable == None
  {
  }

  function MemberOf(user: User, timestamp: string -> Option<string>): Member {
    Member(StringPointer(user.id), StringPointer(EmailOf(user.emails)),
           StringPointer(user.displayName), StringPointer(user.userName),
           if user.active then "active" else "deactivated",
           StringPointer(if user.role in DESIGNERS then "brand designer" else "member"),
           timestamp(user.created), None, None)
  }

  /** The records of exactly the collectable chain of pages, or no list at all. */
  method Collect(vendor: Vendor<User>, timestamp: string -> Option<string>)
    returns (r: Outcome<seq<Member>, CollectError>, ghost requests: seq<int>)
    ensures r.Ok? <==> exists cursors :: Collectable(SourceOf(vendor, false), 1, cursors)
    ensures r.Ok? ==>
        var users := Gathered(SourceOf(vendor, false), requests);
        && Collectable(SourceOf(vendor, false), 1, requests) && |r.value| == |users|
        && forall k | 0 <= k < |users| :: r.value[k] == MemberOf(users[k], timestamp)
    ensures Followed(SourceOf(vendor, false), 1, requests)
  {
    var record := user => MemberOf(user, timestamp);
    r, requests := Follow(vendor, record);
    if r.Ok? {
      ghost var users := Gathered(SourceOf(vendor, false), requests);
      forall k | 0 <= k < |users|
        ensures r.value[k] == MemberOf(users[k], timestamp)
      {
        RecordsAt(users, record, k);
      }
    }
  }

  method Follow(vendor: Vendor<User>, record: User -> Member)
    returns (r: Outcome<seq<Member>, CollectError>, ghost requests: seq<int>)
    ensures r.Ok? <==> exists cursors :: Collectable(SourceOf(vendor, false), 1, cursors)
    ensures r.Ok? ==>
        && Collectable(SourceOf(vendor, false), 1, requests)
        && r.value == Records(Gathered(SourceOf(vendor, false), requests), record)
    ensures Followed(SourceOf(vendor, false), 1, requests)
  {
    ghost var source := SourceOf(vendor, false);
    var members: seq<Member> := [];
    var startIndex := 1;
    ghost var cursors := [startIndex];
    requests := [];
    ghost var users: seq<User> := [];
    for page := 0 to MAX_PAGES
      invariant |cursors| == page + 1 && cursors[page] == startIndex && AtOffset(source, cursors, users)
      invariant members == Records(users, record)
      invariant page > 0 ==> Followed(source, 1, requests)
    {
      requests := cursors;
      var reply := vendor(page, startIndex);
      assert Page(source, requests) == CappedViewOf(reply, startIndex, false);
      var step := TakePage(reply, startIndex, members, users, record);
      StepDecides(source, requests, users, step, record);
      if step.Stop? {
        return Err(step.error), requests;
      }
      if step.Done? {
        return Ok(step.records), requests;
      }
      NextOffset(vendor, false, requests, users);
      users := users + reply.resources;
      members, startIndex, cursors := step.records, step.next, cursors + [step.next];
    }
    NoAcceptedEnd(source, 1, cursors);
    return Err(PaginationLimit), requests;
  }

  /** One page: its checks in their order, and its users. */
  method TakePage(
      reply: Reply<User>, startIndex: int, members: seq<Member>, ghost users: seq<User>, record: User -> Member)
    returns (step: Step<Member, int>)
    requires members == Records(users, record) && startIndex == 1 + |members|
    ensures StepFor(CappedViewOf(reply, startIndex, false), users, step, record)
  {
    if reply.Failed? || reply.totalResults < 0 {
      return Stop(VendorFailed);
    }
    if !MemberPageFits(|members|, |reply.resources|) {
      return Stop(MemberLimit);
    }
    var longer := AppendRecords(members, users, reply.resources, record);
    // Figma's test, startIndex + |resources| > totalResults, stops at the same page.
    if |longer| >= reply.totalResults {
      return Done(longer);
    }
    if |reply.resources| == 0 {
      return Stop(VendorFailed);
    }
    return Go(longer, startIndex + |reply.resources|);
  }
}
