/** cloudflareMemberRole of internal/collector/cloudflare.go: which role names a member record shows. */
module Cloudflare {
  import opened Wire
  import opened Sets
  import Text
  import Sorting

  const MAX_NAME := 120
  const MAX_NAMES := 32
  const SHOWN := 4

  datatype Policy = Policy(access: string, groups: seq<string>)

  datatype Account = Account(roles: seq<string>, policies: seq<Policy>)

  /** strings.TrimSpace, strings.ToLower and strings.EqualFold. */
  datatype Library = Library(trim: string -> string, lower: string -> string, equalFold: (string, string) -> bool)

  // ---------------------------------------------------------------- collecting names

  predicate Usable(value: string) { value != "" && |value| <= MAX_NAME }

  /** The `add` closure. */
  function Add(names: set<string>, value: string, library: Library): set<string> {
    var trimmed := library.trim(value);
    if !Usable(trimmed) || |names| >= MAX_NAMES then names else names + {trimmed}
  }

  /** The names that a member's roles and the policies that do not deny offer, in their order. */
  function Offered(account: Account, library: Library): seq<string> {
    account.roles + Allowed(account.policies, library)
  }

  function Allowed(policies: seq<Policy>, library: Library): seq<string> {
    if policies == [] then []
    else
      var last := policies[|policies| - 1];
      Allowed(policies[..|policies| - 1], library) + if library.equalFold(last.access, "deny") then [] else last.groups
  }

  function Kept(offered: seq<string>, library: Library): set<string> {
    if offered == [] then {} else Add(Kept(offered[..|offered| - 1], library), offered[|offered| - 1], library)
  }

  /** All usable names, without a bound on their number. */
  function UsableNames(offered: seq<string>, library: Library): set<string> {
    set i | 0 <= i < |offered| && Usable(library.trim(offered[i])) :: library.trim(offered[i])
  }

  lemma UsableNext(offered: seq<string>, library: Library)
    requires offered != []
    ensures var last := library.trim(offered[|offered| - 1]);
      UsableNames(offered, library) ==
        UsableNames(offered[..|offered| - 1], library) + if Usable(last) then {last} else {}
  {
    var shorter := offered[..|offered| - 1];
    forall name | name in UsableNames(shorter, library)
      ensures name in UsableNames(offered, library)
    {
      var i :| 0 <= i < |shorter| && Usable(library.trim(shorter[i])) && library.trim(shorter[i]) == name;
      assert offered[i] == shorter[i];
    }
  }

  /** The kept names are the first distinct usable ones: all of them, or 32 that a prefix offers. */
  lemma {:induction false} KeptAre(offered: seq<string>, library: Library) returns (p: nat)
    ensures p <= |offered| && Kept(offered, library) == UsableNames(offered[..p], library)
    ensures |Kept(offered, library)| <= 32
    ensures p == |offered| || |Kept(offered, library)| == 32
  {
    if offered == [] {
      return 0;
    }
    var shorter := offered[..|offered| - 1];
    p := KeptAre(shorter, library);
    assert shorter[..p] == offered[..p];
    if p == |shorter| && |Kept(shorter, library)| < MAX_NAMES {
      UsableNext(offered, library);
      assert offered[..|offered|] == offered && shorter[..p] == shorter;
      p := |offered|;
    }
  }

  /** Every usable name is kept exactly when there are no more than 32. */
  lemma AllKept(offered: seq<string>, library: Library)
    ensures Kept(offered, library) == UsableNames(offered, library) <==> |UsableNames(offered, library)| <= 32
    ensures forall name :: name in UsableNames(offered, library) <==>
        name != "" && |name| <= 120 && exists i :: 0 <= i < |offered| && library.trim(offered[i]) == name
  {
    var p := KeptAre(offered, library);
    forall name | name in UsableNames(offered[..p], library)
      ensures name in UsableNames(offered, library)
    {
      var i :| 0 <= i < p && Usable(library.trim(offered[..p][i])) && library.trim(offered[..p][i]) == name;
      assert offered[i] == offered[..p][i];
    }
    SubsetSize(Kept(offered, library), UsableNames(offered, library));
    assert offered[..|offered|] == offered;
  }

  /** What is offered: the roles, and the groups of the policies that do not deny. */
  lemma OfferedAre(account: Account, library: Library, name: string)
    ensures account.roles <= Offered(account, library)
    ensures name in Offered(account, library) <==>
        || name in account.roles
        || exists i :: 0 <= i < |account.policies| && !library.equalFold(account.policies[i].access, "deny")
                       && name in account.policies[i].groups
  {
    AllowedAre(account.policies, library, name);
  }

  /** The roles are offered first, and then the groups policy by policy. */
  lemma GroupsInOrder(account: Account, library: Library, i: nat)
    requires i < |account.policies|
    ensures GroupsFollow(account, i, library)
  {
    AllowedUpTo(account.policies, i + 1, library);
    assert account.policies[..i + 1][..i] == account.policies[..i];
  }

  /** The groups of policy i come right after what the policies before it offer. */
  ghost predicate GroupsFollow(account: Account, i: nat, library: Library)
    requires i < |account.policies|
  {
    var earlier := Offered(account.(policies := account.policies[..i]), library);
    !library.equalFold(account.policies[i].access, "deny") ==>
      earlier + account.policies[i].groups <= Offered(account, library)
  }

  lemma {:induction false} AllowedAre(policies: seq<Policy>, library: Library, name: string)
    ensures name in Allowed(policies, library) <==>
        exists i :: 0 <= i < |policies| && !library.equalFold(policies[i].access, "deny") && name in policies[i].groups
  {
    if policies != [] {
      var last := |policies| - 1;
      AllowedAre(policies[..last], library, name);
      assert forall i | 0 <= i < last :: policies[..last][i] == policies[i];
    }
  }

  lemma {:induction false} AllowedUpTo(policies: seq<Policy>, n: nat, library: Library)
    requires n <= |policies|
    ensures Allowed(policies[..n], library) <= Allowed(policies, library)
  {
    if n < |policies| {
      AllowedUpTo(policies[..|policies| - 1], n, library);
      assert policies[..|policies| - 1][..n] == policies[..n];
    } else {
      assert policies[..n] == policies;
    }
  }

  // ---------------------------------------------------------------- order

  /** strings.Contains. */
  predicate Contains(s: string, part: string) {
    part <= s || (s != "" && Contains(s[1..], part))
  }

  function Privilege(name: string, library: Library): (rank: nat)
    ensures rank <= 3
  {
    var value := library.lower(name);
    if Contains(value, "super administrator") then 0
    else if Contains(value, "administrator") || Contains(value, "owner") then 1
    else if Contains(value, " write") || Contains(value, " edit") then 2
    else 3
  }

  /** The part stands somewhere in the text. */
  ghost predicate Has(text: string, part: string) {
    exists k :: 0 <= k <= |text| - |part| && StandsAt(text, part, k)
  }

  predicate StandsAt(text: string, part: string, k: nat)
    requires k + |part| <= |text|
  {
    text[k..k + |part|] == part
  }

  lemma {:induction false} ContainsMeans(text: string, part: string)
    ensures Contains(text, part) <==> Has(text, part)
  {
    if part <= text {
      assert StandsAt(text, part, 0);
    } else if text != "" {
      ContainsMeans(text[1..], part);
      forall k: nat | k + |part| <= |text[1..]|
        ensures StandsAt(text[1..], part, k) <==> StandsAt(text, part, k + 1)
      {
        assert text[1..][k..k + |part|] == text[k + 1..k + 1 + |part|];
      }
      if Has(text, part) {
        var k :| 0 <= k <= |text| - |part| && StandsAt(text, part, k);
        assert k == 0 ==> part <= text;
        assert StandsAt(text[1..], part, k - 1);
      }
    }
  }

  ghost predicate SuperAdministrator(value: string) { Has(value, "super administrator") }

  ghost predicate Administrator(value: string) { Has(value, "administrator") || Has(value, "owner") }

  ghost predicate Editor(value: string) { Has(value, " write") || Has(value, " edit") }

  /** The lower-cased name a is in a higher one of the four classes than b. */
  ghost predicate Higher(a: string, b: string) {
    || (SuperAdministrator(a) && !SuperAdministrator(b))
    || (Administrator(a) && !Administrator(b) && !SuperAdministrator(b))
    || (Editor(a) && !Editor(b) && !Administrator(b) && !SuperAdministrator(b))
  }

  /** Name a comes before b: it is in a higher class, or in the same and earlier in byte order. */
  ghost predicate Ahead(a: string, b: string, library: Library) {
    || Higher(library.lower(a), library.lower(b))
    || (!Higher(library.lower(b), library.lower(a)) && exists k: nat :: Text.EarlierAt(a, b, k))
  }

  lemma PrivilegeMeans(name: string, library: Library)
    ensures var value := library.lower(name);
      Privilege(name, library) ==
        if SuperAdministrator(value) then 0 else if Administrator(value) then 1 else if Editor(value) then 2 else 3
  {
    var value := library.lower(name);
    ContainsMeans(value, "super administrator");
    ContainsMeans(value, "administrator");
    ContainsMeans(value, "owner");
    ContainsMeans(value, " write");
    ContainsMeans(value, " edit");
  }

  lemma OutranksMeans(a: string, b: string, library: Library)
    ensures Outranks(a, b, PrivilegeOf(library)) <==> Ahead(a, b, library)
  {
    PrivilegeMeans(a, library);
    PrivilegeMeans(b, library);
    Text.LessMeans(a, b);
  }

  function PrivilegeOf(library: Library): string -> nat { name => Privilege(name, library) }

  /** The comparator of the sort. */
  predicate Outranks(a: string, b: string, privilege: string -> nat) {
    if privilege(a) != privilege(b) then privilege(a) < privilege(b) else Text.Less(a, b)
  }

  function Order(privilege: string -> nat): (string, string) -> bool {
    (a, b) => Outranks(a, b, privilege)
  }

  /** The comparator is a strict total order on distinct names. */
  lemma StrictTotalOrder(a: string, b: string, c: string, privilege: string -> nat)
    ensures !Outranks(a, a, privilege)
    ensures a != b ==> (Outranks(a, b, privilege) <==> !Outranks(b, a, privilege))
    ensures Outranks(a, b, privilege) && Outranks(b, c, privilege) ==> Outranks(a, c, privilege)
  {
    Text.CompareFlips(a, a);
    Text.CompareFlips(a, b);
    if Text.Less(a, b) && Text.Less(b, c) {
      Text.LessTransitive(a, b, c);
    }
  }

  lemma OrderIsTotal(privilege: string -> nat)
    ensures Sorting.StrictWeak(Order(privilege))
    ensures forall a, b :: !Order(privilege)(a, b) && !Order(privilege)(b, a) ==> a == b
  {
    forall a, b
      ensures Order(privilege)(a, b) ==> !Order(privilege)(b, a)
      ensures !Order(privilege)(a, b) && !Order(privilege)(b, a) ==> a == b
    {
      StrictTotalOrder(a, b, a, privilege);
    }
    forall a, b, c | Order(privilege)(a, b)
      ensures Order(privilege)(a, c) || Order(privilege)(c, b)
    {
      StrictTotalOrder(c, a, b, privilege);
      StrictTotalOrder(a, c, b, privilege);
      StrictTotalOrder(c, b, a, privilege);
    }
  }

  // ---------------------------------------------------------------- the shown names

  /** These are the least of the names, at most four, in order. */
  ghost predicate Best(shown: seq<string>, names: set<string>, privilege: string -> nat) {
    && |shown| == (if |names| < SHOWN then |names| else SHOWN)
    && (forall i | 0 <= i < |shown| :: shown[i] in names)
    && (forall i, j | 0 <= i < j < |shown| :: Outranks(shown[i], shown[j], privilege))
    && forall i, name | 0 <= i < |shown| && name in names && name !in shown :: Outranks(shown[i], name, privilege)
  }

  /** The shown names: at most four, in order, each ahead of every name that is not shown. */
  ghost predicate Shown(shown: seq<string>, names: set<string>, library: Library) {
    && |shown| == (if |names| < 4 then |names| else 4)
    && (forall i | 0 <= i < |shown| :: shown[i] in names)
    && (forall i, j | 0 <= i < j < |shown| :: Ahead(shown[i], shown[j], library))
    && forall i, name | 0 <= i < |shown| && name in names && name !in shown :: Ahead(shown[i], name, library)
  }

  lemma BestIsShown(shown: seq<string>, names: set<string>, library: Library)
    requires Best(shown, names, PrivilegeOf(library))
    ensures Shown(shown, names, library)
  {
    forall a, b
      ensures Outranks(a, b, PrivilegeOf(library)) <==> Ahead(a, b, library)
    {
      OutranksMeans(a, b, library);
    }
  }

  /** A name is shown only if all names of higher classes are, and then after them. */
  lemma HigherComeFirst(shown: seq<string>, names: set<string>, library: Library, a: string, b: string)
    requires Shown(shown, names, library) && a in names && b in shown
    requires Higher(library.lower(a), library.lower(b))
    ensures exists i, j | 0 <= i < j < |shown| :: shown[i] == a && shown[j] == b
  {
    HigherNotBehind(a, b, library);
    var j :| 0 <= j < |shown| && shown[j] == b;
    assert a in shown;
    var i :| 0 <= i < |shown| && shown[i] == a;
    assert i < j;
  }

  lemma HigherNotBehind(a: string, b: string, library: Library)
    requires Higher(library.lower(a), library.lower(b))
    ensures !Ahead(b, a, library) && a != b
  {
  }

  /** With a super administrator among the kept names one is shown, and first. */
  lemma SuperAdministratorFirst(shown: seq<string>, names: set<string>, library: Library, name: string)
    requires Shown(shown, names, library) && name in names && Has(library.lower(name), "super administrator")
    ensures shown != [] && Has(library.lower(shown[0]), "super administrator")
  {
    assert names != {};
    if !SuperAdministrator(library.lower(shown[0])) {
      HigherComeFirst(shown, names, library, name, shown[0]);
    }
  }

  lemma NotEarlier(a: seq<string>, b: seq<string>, names: set<string>, privilege: string -> nat, k: nat)
    requires Best(a, names, privilege) && Best(b, names, privilege) && k < |a| && a[..k] == b[..k]
    ensures !Outranks(a[k], b[k], privilege)
  {
    StrictTotalOrder(a[k], b[k], a[k], privilege);
    forall m | 0 <= m < k
      ensures a[m] == b[m]
    {
      assert a[m] == a[..k][m] && b[m] == b[..k][m];
    }
  }

  /** There is only one such list, so the text does not depend on the order the map is walked in. */
  lemma {:induction false} BestUnique(
      a: seq<string>, b: seq<string>, names: set<string>, privilege: string -> nat, k: nat)
    requires Best(a, names, privilege) && Best(b, names, privilege) && k <= |a|
    ensures a[..k] == b[..k]
  {
    if k > 0 {
      BestUnique(a, b, names, privilege, k - 1);
      NotEarlier(a, b, names, privilege, k - 1);
      NotEarlier(b, a, names, privilege, k - 1);
      StrictTotalOrder(a[k - 1], b[k - 1], a[k - 1], privilege);
      assert a[..k] == a[..k - 1] + [a[k - 1]] && b[..k] == b[..k - 1] + [b[k - 1]];
    }
  }

  function Cut(sorted: seq<string>): seq<string> { if |sorted| > SHOWN then sorted[..SHOWN] else sorted }

  lemma CutIsBest(sorted: seq<string>, names: set<string>, privilege: string -> nat)
    requires Sorting.Sorted(sorted, Order(privilege)) && multiset(sorted) == multiset(names)
    ensures Best(Cut(sorted), names, privilege)
  {
    var cut := if |sorted| > SHOWN then SHOWN else |sorted|;
    assert |multiset(sorted)| == |sorted| && |multiset(names)| == |names|;
    forall i, j | 0 <= i < j < |sorted|
      ensures Outranks(sorted[i], sorted[j], privilege)
    {
      SortedStrictly(sorted, names, privilege, i, j);
    }
    forall i | 0 <= i < |sorted|
      ensures sorted[i] in names
    {
      assert sorted[i] in multiset(sorted);
    }
    forall i, name | 0 <= i < cut && name in names && name !in Cut(sorted)
      ensures Outranks(sorted[i], name, privilege)
    {
      assert name in multiset(names);
      assert forall j | 0 <= j < cut :: sorted[j] == Cut(sorted)[j];
      var j :| 0 <= j < |sorted| && sorted[j] == name;
    }
  }

  lemma SortedStrictly(sorted: seq<string>, names: set<string>, privilege: string -> nat, i: nat, j: nat)
    requires Sorting.Sorted(sorted, Order(privilege)) && multiset(sorted) == multiset(names) && i < j < |sorted|
    ensures Outranks(sorted[i], sorted[j], privilege)
  {
    if sorted[i] == sorted[j] {
      Sorting.Twice(sorted, i, j);
    }
    assert !Order(privilege)(sorted[j], sorted[i]);
    StrictTotalOrder(sorted[i], sorted[j], sorted[i], privilege);
  }

  /** The most privileged kept name comes first; with more than four, nothing dropped outranks a shown one. */
  lemma BestComesFirst(shown: seq<string>, names: set<string>, privilege: string -> nat)
    requires Best(shown, names, privilege) && names != {}
    ensures forall name | name in names :: name == shown[0] || Outranks(shown[0], name, privilege)
    ensures forall name | name in names :: privilege(shown[0]) <= privilege(name)
  {
  }

  lemma {:induction false} JoinLength(parts: seq<string>, most: nat)
    requires forall i | 0 <= i < |parts| :: |parts[i]| <= most
    ensures parts != [] ==> |Text.Join(parts, ", ")| <= |parts| * (most + 2) - 2
  {
    if |parts| > 1 {
      JoinLength(parts[1..], most);
      assert |parts| * (most + 2) == |parts[1..]| * (most + 2) + (most + 2);
    }
  }

  /** The joined text has at most 486 bytes, below the control plane's 500. */
  lemma TextShort(shown: seq<string>, names: set<string>, privilege: string -> nat)
    requires Best(shown, names, privilege) && forall name | name in names :: Usable(name)
    ensures |Text.Join(shown, ", ")| <= 486
  {
    JoinLength(shown, MAX_NAME);
    assert |shown| * (MAX_NAME + 2) <= SHOWN * (MAX_NAME + 2);
  }

  // ---------------------------------------------------------------- cloudflareMemberRole

  lemma {:induction false} KeptUsable(offered: seq<string>, library: Library)
    ensures forall name | name in Kept(offered, library) :: Usable(name)
  {
    if offered != [] {
      KeptUsable(offered[..|offered| - 1], library);
    }
  }

  method AddAll(names: set<string>, ghost earlier: seq<string>, values: seq<string>, library: Library)
    returns (more: set<string>)
    requires names == Kept(earlier, library)
    ensures more == Kept(earlier + values, library)
  {
    more := names;
    assert earlier + values[..0] == earlier;
    for i := 0 to |values|
      invariant more == Kept(earlier + values[..i], library)
    {
      assert (earlier + values[..i + 1])[..|earlier| + i] == earlier + values[..i];
      more := Add(more, values[i], library);
    }
    assert values[..|values|] == values;
  }

  method CollectNames(account: Account, library: Library) returns (names: set<string>)
    ensures names == Kept(Offered(account, library), library)
  {
    names := AddAll({}, [], account.roles, library);
    ghost var known := account.roles;
    assert [] + account.roles == account.roles;
    assert account.roles + Allowed(account.policies[..0], library) == account.roles;
    for i := 0 to |account.policies|
      invariant names == Kept(known, library) && known == account.roles + Allowed(account.policies[..i], library)
    {
      var policy := account.policies[i];
      AllowedNext(account, i, library);
      if library.equalFold(policy.access, "deny") {
        continue;
      }
      names := AddAll(names, known, policy.groups, library);
      known := known + policy.groups;
    }
    assert account.policies[..|account.policies|] == account.policies;
  }

  lemma AllowedNext(account: Account, i: nat, library: Library)
    requires i < |account.policies|
    ensures account.roles + Allowed(account.policies[..i + 1], library) ==
        if library.equalFold(account.policies[i].access, "deny") then
          account.roles + Allowed(account.policies[..i], library)
        else account.roles + Allowed(account.policies[..i], library) + account.policies[i].groups
  {
    assert account.policies[..i + 1][..i] == account.policies[..i];
  }

  /** The role text of an account; `shown` are the names in it. */
  method MemberRole(account: Account, library: Library) returns (role: Option<string>, ghost shown: seq<string>)
    ensures Best(shown, Kept(Offered(account, library), library), PrivilegeOf(library))
    ensures Shown(shown, Kept(Offered(account, library), library), library)
    ensures role == Some(if shown == [] then "member" else Text.Join(shown, ", "))
    ensures |role.value| <= 486
  {
    var names := CollectNames(account, library);
    KeptUsable(Offered(account, library), library);
    role, shown := RoleText(names, library);
  }

  method RoleText(names: set<string>, library: Library) returns (role: Option<string>, ghost shown: seq<string>)
    requires forall name | name in names :: Usable(name)
    ensures Best(shown, names, PrivilegeOf(library)) && Shown(shown, names, library)
    ensures role == Some(if shown == [] then "member" else Text.Join(shown, ", "))
    ensures |role.value| <= 486
  {
    var privilege := PrivilegeOf(library);
    shown := [];
    if names == {} {
      return StringPointer("member"), shown;
    }
    var roles := Least(names, privilege);
    TextShort(roles, names, privilege);
    BestIsShown(roles, names, library);
    shown := roles;
    role := StringPointer(Text.Join(roles, ", "));
  }

  /** Sorting the names, and cutting the list at four. */
  method Least(names: set<string>, privilege: string -> nat) returns (roles: seq<string>)
    ensures Best(roles, names, privilege)
  {
    roles := SortNames(names, privilege);
    CutIsBest(roles, names, privilege);
    roles := Cut(roles);
  }

  method SortNames(names: set<string>, privilege: string -> nat) returns (sorted: seq<string>)
    ensures Sorting.Sorted(sorted, Order(privilege)) && multiset(sorted) == multiset(names)
  {
    var listed := Sorting.RangeKeys(names);
    OrderIsTotal(privilege);
    sorted := Sorting.SortSlice(listed, Order(privilege));
  }
}
