/** Chains of steps that each go to something newer, and when such a chain can come back. */
module Returns {
  /** Step i goes to something newer. */
  predicate RisesAt<T>(items: seq<T>, newer: (T, T) -> bool, i: nat)
    requires i + 1 < |items|
  {
    newer(items[i + 1], items[i])
  }

  /** Step i leaves something that is newer than where it goes. */
  predicate FallsAt<T>(items: seq<T>, newer: (T, T) -> bool, i: nat)
    requires i + 1 < |items|
  {
    newer(items[i], items[i + 1])
  }

  ghost predicate Rising<T>(items: seq<T>, newer: (T, T) -> bool) {
    forall i | 0 <= i < |items| - 1 :: RisesAt(items, newer, i)
  }

  predicate Strictly<T>(newer: (T, T) -> bool, a: T, b: T) { newer(b, a) && !newer(a, b) }

  ghost predicate StrictlyTransitive<T(!new)>(newer: (T, T) -> bool) {
    forall a, b, c | Strictly(newer, a, b) && Strictly(newer, b, c) :: Strictly(newer, a, c)
  }

  lemma {:induction false} StrictlyRises<T(!new)>(items: seq<T>, newer: (T, T) -> bool, i: nat, j: nat)
    requires StrictlyTransitive(newer) && Rising(items, newer) && i < j < |items|
    requires forall k | i <= k < j :: !FallsAt(items, newer, k)
    ensures Strictly(newer, items[i], items[j])
  {
    assert RisesAt(items, newer, j - 1) && !FallsAt(items, newer, j - 1);
    assert items[j - 1 + 1] == items[j] && Strictly(newer, items[j - 1], items[j]);
    if i < j - 1 {
      StrictlyRises(items, newer, i, j - 1);
    }
  }

  /** Step i stays or goes to something newer. */
  predicate MovesAt<T(==)>(items: seq<T>, newer: (T, T) -> bool, i: nat)
    requires i + 1 < |items|
  {
    items[i + 1] == items[i] || newer(items[i + 1], items[i])
  }

  /** Step i is between two items that are each newer than the other. */
  predicate MutualAt<T>(items: seq<T>, newer: (T, T) -> bool, i: nat)
    requires i + 1 < |items|
  {
    RisesAt(items, newer, i) && FallsAt(items, newer, i)
  }

  /** With steps that may stay the chain as a whole stays or rises, and it rises if a step does. */
  lemma {:induction false} StaysOrRises<T(!new)>(items: seq<T>, newer: (T, T) -> bool, i: nat, j: nat)
    requires StrictlyTransitive(newer) && i <= j < |items|
    requires forall k | i <= k < j :: MovesAt(items, newer, k) && !MutualAt(items, newer, k)
    ensures items[i] == items[j] || Strictly(newer, items[i], items[j])
    ensures (exists k :: i <= k < j && RisesAt(items, newer, k)) ==> Strictly(newer, items[i], items[j])
  {
    if i < j {
      StaysOrRises(items, newer, i, j - 1);
      assert MovesAt(items, newer, j - 1) && !MutualAt(items, newer, j - 1);
      assert items[j - 1 + 1] == items[j];
      assert RisesAt(items, newer, j - 1) ==> Strictly(newer, items[j - 1], items[j]);
      assert Strictly(newer, items[i], items[j - 1]) && Strictly(newer, items[j - 1], items[j]) ==>
          Strictly(newer, items[i], items[j]);
    }
  }

  /** A rising chain through a set of items that is twice at the same one. */
  ghost predicate ComesBack<T>(all: set<T>, items: seq<T>, newer: (T, T) -> bool, i: nat, j: nat) {
    && Rising(items, newer) && (forall k | 0 <= k < |items| :: items[k] in all)
    && i < j < |items| && items[i] == items[j]
  }

  lemma FallsSomewhere<T(!new)>(items: seq<T>, newer: (T, T) -> bool, i: nat, j: nat) returns (k: nat)
    requires StrictlyTransitive(newer) && Rising(items, newer) && i < j < |items| && items[i] == items[j]
    ensures i <= k < j && RisesAt(items, newer, k) && FallsAt(items, newer, k)
  {
    if forall n | i <= n < j :: !FallsAt(items, newer, n) {
      StrictlyRises(items, newer, i, j);
    }
    k :| i <= k < j && FallsAt(items, newer, k);
  }

  /** A chain can come back exactly when two of the items are each newer than the other. */
  lemma ReturnNeedsMutual<T(!new)>(all: set<T>, newer: (T, T) -> bool)
    requires StrictlyTransitive(newer)
    ensures (exists items: seq<T>, i: nat, j: nat :: ComesBack(all, items, newer, i, j)) <==>
        exists a, b :: a in all && b in all && newer(a, b) && newer(b, a)
  {
    if items: seq<T>, i: nat, j: nat :| ComesBack(all, items, newer, i, j) {
      var k := FallsSomewhere(items, newer, i, j);
      assert items[k] in all && items[k + 1] in all;
    }
    if a, b :| a in all && b in all && newer(a, b) && newer(b, a) {
      var items := [a, b, a];
      assert RisesAt(items, newer, 0) && RisesAt(items, newer, 1);
      assert ComesBack(all, items, newer, 0, 2);
    }
  }
}

/**
 Version parsing and comparison of internal/upgrade/upgrade.go, set against the precedence of
 section 11 of Semantic Versioning 2.0.0.
*/
module Versions {
  import opened Wire
  import opened Returns
  import Text

  const UINT64 := 0x1_0000_0000_0000_0000

  // ---------------------------------------------------------------- parsing

  /** strings.SplitN(s, "-", 2): the text before the first hyphen and, if there is one, the rest. */
  function Cut(s: string): (r: (string, Option<string>))
    ensures s == r.0 + (if r.1.Some? then "-" + r.1.value else "")
    ensures '-' !in r.0
  {
    if s == "" then ("", None)
    else if s[0] == '-' then ("", Some(s[1..]))
    else
      var (head, rest) := Cut(s[1..]);
      ([s[0]] + head, rest)
  }

  function TrimV(version: string): string {
    if version != "" && version[0] == 'v' then version[1..] else version
  }

  function CoreText(version: string): seq<string> { Text.Split(Cut(TrimV(version)).0, '.') }

  function PreText(version: string): string {
    match Cut(TrimV(version)).1 case Some(text) => text case None => ""
  }

  predicate PrereleaseChar(c: char) {
    '0' <= c <= '9' || 'A' <= c <= 'Z' || 'a' <= c <= 'z' || c == '.' || c == '-'
  }

  /** The pattern of release versions: vX.Y.Z with an optional non-empty prerelease. */
  predicate ReleaseVersion(version: string) {
    && version != "" && version[0] == 'v'
    && |CoreText(version)| == 3
    && (forall i | 0 <= i < 3 :: CoreText(version)[i] != "" && Text.AllDigits(CoreText(version)[i]))
    && (Cut(TrimV(version)).1.Some? ==> PreText(version) != "")
    && forall i | 0 <= i < |PreText(version)| :: PrereleaseChar(PreText(version)[i])
  }

  /** What scanUint reads: digits that fit in 64 bits. */
  function Scan(text: string): Option<nat> {
    if text != "" && Text.AllDigits(text) && Text.Value(text) < UINT64 then Some(Text.Value(text)) else None
  }

  method ScanUint(value: string) returns (ok: bool, output: nat)
    ensures ok <==> Scan(value).Some?
    ensures ok ==> output == Scan(value).value
    ensures ok <==> value != "" && Text.AllDigits(value) && Text.Value(value) < 0x1_0000_0000_0000_0000
    ensures ok ==> output == Text.Value(value)
  {
    output := 0;
    if value == "" {
      return false, 0;
    }
    var number := 0;
    for i := 0 to |value|
      invariant Text.AllDigits(value[..i]) && number == Text.Value(value[..i])
    {
      if value[i] < '0' || value[i] > '9' {
        assert !Text.IsDigit(value[i]);
        return false, 0;
      }
      assert value[..i + 1][..i] == value[..i];
      number := 10 * number + (value[i] as int - '0' as int);
    }
    assert value[..|value|] == value;
    if number >= UINT64 {
      return false, 0;
    }
    return true, number;
  }

  /** A release version is one line. */
  lemma NoNewline(version: string)
    requires ReleaseVersion(version)
    ensures '\n' !in version
  {
    var core := CoreText(version);
    Text.JoinSplit(Cut(TrimV(version)).0, '.');
    JoinThree(core[0], core[1], core[2]);
    assert core == [core[0], core[1], core[2]];
    assert '\n' !in Cut(TrimV(version)).0;
    assert '\n' !in PreText(version);
    assert version == "v" + TrimV(version);
  }

  lemma JoinThree(a: string, b: string, c: string)
    requires Text.AllDigits(a) && Text.AllDigits(b) && Text.AllDigits(c)
    ensures '\n' !in Text.Join([a, b, c], ".")
  {
    assert [a, b, c][1..] == [b, c] && [b, c][1..] == [c];
    assert Text.Join([b, c], ".") == b + "." + c;
  }

  // ---------------------------------------------------------------- core numbers

  predicate Blank(c: char) { c == ' ' || c == '\t' || c == 0x0b as char || c == 0x0c as char || c == '\r' }

  function SkipBlanks(text: string): string {
    if text != "" && Blank(text[0]) then SkipBlanks(text[1..]) else text
  }

  function LeadingDigits(text: string): (digits: string)
    ensures Text.AllDigits(digits)
  {
    if text != "" && Text.IsDigit(text[0]) then [text[0]] + LeadingDigits(text[1..]) else ""
  }

  /** What Sscanf("%d") leaves in a variable that was zero: a number that does not fit in 64 bits is not stored. */
  function CoreNumber(text: string): nat {
    match Scan(LeadingDigits(SkipBlanks(text))) case Some(n) => n case None => 0
  }

  /** On digits alone that is their value, if it fits. */
  lemma CoreNumberOfDigits(text: string)
    requires text != "" && Text.AllDigits(text)
    ensures CoreNumber(text) == if Text.Value(text) < UINT64 then Text.Value(text) else 0
  {
    AllLeading(text);
  }

  lemma {:induction false} AllLeading(text: string)
    requires Text.AllDigits(text)
    ensures LeadingDigits(text) == text && SkipBlanks(text) == text
  {
    if text != "" {
      AllLeading(text[1..]);
      assert text == [text[0]] + text[1..];
    }
  }

  method Sscanf(text: string) returns (number: nat)
    ensures number == CoreNumber(text)
  {
    var from := 0;
    while from < |text| && Blank(text[from])
      invariant 0 <= from <= |text| && SkipBlanks(text) == SkipBlanks(text[from..])
    {
      assert text[from..][1..] == text[from + 1..];
      from := from + 1;
    }
    var digits := TakeDigits(text[from..]);
    var ok, value := ScanUint(digits);
    number := if ok then value else 0;
  }

  method TakeDigits(text: string) returns (digits: string)
    ensures digits == LeadingDigits(text)
  {
    var i := 0;
    while i < |text| && Text.IsDigit(text[i])
      invariant 0 <= i <= |text| && LeadingDigits(text) == text[..i] + LeadingDigits(text[i..])
    {
      assert text[i..][1..] == text[i + 1..];
      i := i + 1;
    }
    assert LeadingDigits(text[i..]) == "";
    digits := text[..i];
  }

  /** The three core numbers; a missing one is zero. */
  function CoreNumbers(version: string): (r: seq<nat>)
    ensures |r| == 3
  {
    var parts := CoreText(version);
    seq(3, i requires 0 <= i < 3 => if i < |parts| then CoreNumber(parts[i]) else 0)
  }

  /** versionParts; a fourth core part would be stored outside the array, which is an index panic. */
  method VersionParts(version: string) returns (core: array<nat>, pre: string)
    requires |CoreText(version)| <= 3
    ensures fresh(core) && core[..] == CoreNumbers(version)
    ensures pre == PreText(version)
  {
    var (coreText, preText) := Cut(TrimV(version));
    var parts := Text.Split(coreText, '.');
    core := new nat[3](_ => 0);
    for index := 0 to |parts|
      invariant forall i | 0 <= i < index :: core[i] == CoreNumber(parts[i])
      invariant forall i | index <= i < 3 :: core[i] == 0
    {
      core[index] := Sscanf(parts[index]);
    }
    pre := match preText case Some(text) => text case None => "";
  }

  // ---------------------------------------------------------------- comparison

  function CompareNumbers(a: nat, b: nat): int { if a < b then -1 else if a > b then 1 else 0 }

  /** comparePrereleaseIdentifier. Numbers of equal value but different text come out as greater. */
  function CompareIdentifier(left: string, right: string): int {
    if left == right then 0
    else match (Scan(left), Scan(right))
      case (Some(l), Some(r)) => if l < r then -1 else 1
      case (Some(_), None) => -1
      case (None, Some(_)) => 1
      case (None, None) => Text.Compare(left, right)
  }

  method ComparePrereleaseIdentifier(left: string, right: string) returns (r: int)
    ensures r == CompareIdentifier(left, right)
  {
    if left == right {
      return 0;
    }
    var leftNumeric, leftNumber := ScanUint(left);
    var rightNumeric, rightNumber := ScanUint(right);
    if leftNumeric && rightNumeric {
      if leftNumber < rightNumber {
        return -1;
      }
      return 1;
    }
    if leftNumeric {
      return -1;
    }
    if rightNumeric {
      return 1;
    }
    return Text.Compare(left, right);
  }

  function CompareIdentifiers(left: seq<string>, right: seq<string>): int {
    if left == [] && right == [] then 0
    else if left == [] then -1
    else if right == [] then 1
    else
      var c := CompareIdentifier(left[0], right[0]);
      if c != 0 then c else CompareIdentifiers(left[1..], right[1..])
  }

  function CompareCores(left: seq<nat>, right: seq<nat>): int {
    if left == [] || right == [] then 0
    else
      var c := CompareNumbers(left[0], right[0]);
      if c != 0 then c else CompareCores(left[1..], right[1..])
  }

  function ComparePre(left: string, right: string): int {
    if left == "" && right != "" then 1
    else if left != "" && right == "" then -1
    else CompareIdentifiers(Text.Split(left, '.'), Text.Split(right, '.'))
  }

  function Compare(left: string, right: string): int {
    var core := CompareCores(CoreNumbers(left), CoreNumbers(right));
    if core != 0 then core else ComparePre(PreText(left), PreText(right))
  }

  method CompareVersions(left: string, right: string) returns (r: int)
    requires |CoreText(left)| <= 3 && |CoreText(right)| <= 3
    ensures r == Compare(left, right)
  {
    var leftCore, leftPre := VersionParts(left);
    var rightCore, rightPre := VersionParts(right);
    ghost var lc, rc := CoreNumbers(left), CoreNumbers(right);
    for index := 0 to 3
      invariant CompareCores(lc, rc) == CompareCores(lc[index..], rc[index..])
    {
      assert leftCore[..][index] == lc[index] && rightCore[..][index] == rc[index];
      if leftCore[index] < rightCore[index] {
        return -1;
      }
      if leftCore[index] > rightCore[index] {
        return 1;
      }
      assert lc[index..][1..] == lc[index + 1..] && rc[index..][1..] == rc[index + 1..];
    }
    r := ComparePrereleases(leftPre, rightPre);
  }

  /** The second half of compareVersions. */
  method ComparePrereleases(leftPre: string, rightPre: string) returns (r: int)
    ensures r == ComparePre(leftPre, rightPre)
  {
    if leftPre == "" && rightPre != "" {
      return 1;
    }
    if leftPre != "" && rightPre == "" {
      return -1;
    }
    var ls, rs := Text.Split(leftPre, '.'), Text.Split(rightPre, '.');
    var index := 0;
    while index < |ls| && index < |rs|
      invariant 0 <= index <= |ls| && index <= |rs|
      invariant CompareIdentifiers(ls, rs) == CompareIdentifiers(ls[index..], rs[index..])
    {
      var comparison := ComparePrereleaseIdentifier(ls[index], rs[index]);
      if comparison != 0 {
        return comparison;
      }
      assert ls[index..][1..] == ls[index + 1..] && rs[index..][1..] == rs[index + 1..];
      index := index + 1;
    }
    if |ls| < |rs| {
      return -1;
    }
    if |ls| > |rs| {
      return 1;
    }
    return 0;
  }

  // ---------------------------------------------------------------- section 11 of SemVer 2.0.0

  datatype Identifier = Numeric(n: nat) | Alphanumeric(text: string)

  /** A parsed version; no prerelease identifiers means a normal version. */
  datatype SemVer = SemVer(core: seq<nat>, pre: seq<Identifier>)

  /** 11.4.1 to 11.4.3. */
  predicate IdentifierPrecedes(a: Identifier, b: Identifier) {
    match (a, b)
    case (Numeric(m), Numeric(n)) => m < n
    case (Numeric(_), Alphanumeric(_)) => true
    case (Alphanumeric(_), Numeric(_)) => false
    case (Alphanumeric(s), Alphanumeric(t)) => Text.Less(s, t)
  }

  /** Left to right until a difference is found; 11.4.4: running out first is lower. */
  ghost predicate FieldsPrecede<T(!new)>(a: seq<T>, b: seq<T>, precedes: (T, T) -> bool) {
    exists k: nat :: DifferAt(a, b, k, precedes)
  }

  ghost predicate DifferAt<T(!new)>(a: seq<T>, b: seq<T>, k: nat, precedes: (T, T) -> bool) {
    && k <= |a| && k < |b| && a[..k] == b[..k]
    && (k == |a| || precedes(a[k], b[k]))
  }

  predicate Below(m: nat, n: nat) { m < n }

  /** 11.2 and 11.3. */
  ghost predicate Precedes(a: SemVer, b: SemVer) {
    if a.core != b.core then FieldsPrecede(a.core, b.core, Below)
    else if a.pre == [] || b.pre == [] then a.pre != [] && b.pre == []
    else FieldsPrecede(a.pre, b.pre, IdentifierPrecedes)
  }

  /** An identifier of digits only is a number. */
  function IdentifierOf(text: string): Identifier {
    if text != "" && Text.AllDigits(text) then Numeric(Text.Value(text)) else Alphanumeric(text)
  }

  /** How the code sees it: digits beyond 64 bits are text. */
  function Classify(text: string): Identifier {
    match Scan(text) case Some(n) => Numeric(n) case None => Alphanumeric(text)
  }

  function Map<A, B>(s: seq<A>, f: A -> B): (r: seq<B>)
    ensures |r| == |s| && forall i | 0 <= i < |s| :: r[i] == f(s[i])
  {
    seq(|s|, i requires 0 <= i < |s| => f(s[i]))
  }

  /** The number that a text of digits spells. */
  function Spelled(text: string): nat { if Text.AllDigits(text) then Text.Value(text) else 0 }

  /** The version the way a reader of identifiers sees it: the numbers between the dots, in their order. */
  function Parse(version: string, read: string -> Identifier): SemVer {
    SemVer(Map(CoreText(version), Spelled),
           if PreText(version) == "" then [] else Map(Text.Split(PreText(version), '.'), read))
  }

  // ---------------------------------------------------------------- the order on well written versions

  /** No leading zeros, and the three core numbers fit in 64 bits. */
  predicate WellWritten(version: string) {
    && ReleaseVersion(version)
    && (forall i | 0 <= i < 3 :: Text.Canonical(CoreText(version)[i]) && Text.Value(CoreText(version)[i]) < UINT64)
    && forall text | text in Text.Split(PreText(version), '.') ::
        text != "" && Text.AllDigits(text) ==> Text.Canonical(text)
  }

  predicate CanonicalIfNumeric(text: string) {
    text != "" && Text.AllDigits(text) ==> Text.Canonical(text)
  }

  /** Different identifiers without leading zeros are seen as different. */
  lemma ClassifyInjective(a: string, b: string)
    requires CanonicalIfNumeric(a) && CanonicalIfNumeric(b) && Classify(a) == Classify(b)
    ensures a == b
  {
    if Scan(a).Some? {
      Text.DecimalOfValue(a);
      Text.DecimalOfValue(b);
    }
  }

  lemma IdentifierAgrees(a: string, b: string)
    requires CanonicalIfNumeric(a) && CanonicalIfNumeric(b)
    ensures CompareIdentifier(a, b) < 0 <==> IdentifierPrecedes(Classify(a), Classify(b))
    ensures CompareIdentifier(a, b) == 0 <==> a == b
    ensures CompareIdentifier(a, b) == -CompareIdentifier(b, a)
  {
    Text.CompareFlips(a, b);
    if Classify(a) == Classify(b) {
      ClassifyInjective(a, b);
    }
  }

  ghost predicate AllCanonical(texts: seq<string>) {
    forall i | 0 <= i < |texts| :: CanonicalIfNumeric(texts[i])
  }

  lemma {:induction false} IdentifiersAgree(a: seq<string>, b: seq<string>)
    requires AllCanonical(a) && AllCanonical(b)
    ensures CompareIdentifiers(a, b) < 0 <==> FieldsPrecede(Map(a, Classify), Map(b, Classify), IdentifierPrecedes)
    ensures CompareIdentifiers(a, b) == 0 <==> a == b
    ensures CompareIdentifiers(a, b) == -CompareIdentifiers(b, a)
  {
    var ma, mb := Map(a, Classify), Map(b, Classify);
    if a == [] || b == [] {
      if a == [] && b != [] {
        assert DifferAt(ma, mb, 0, IdentifierPrecedes);
      }
    } else {
      IdentifierAgrees(a[0], b[0]);
      assert AllCanonical(a[1..]) && AllCanonical(b[1..]);
      IdentifiersAgree(a[1..], b[1..]);
      assert a == [a[0]] + a[1..] && b == [b[0]] + b[1..];
      assert Map(a[1..], Classify) == ma[1..] && Map(b[1..], Classify) == mb[1..];
      assert CompareIdentifier(a[0], b[0]) > 0 ==> Classify(a[0]) != Classify(b[0]);
      FieldsStep(ma, mb, IdentifierPrecedes);
    }
  }

  /** The first fields decide, or else the rest do. */
  lemma FieldsStep<T(!new)>(a: seq<T>, b: seq<T>, precedes: (T, T) -> bool)
    requires a != [] && b != [] && !precedes(a[0], a[0])
    ensures FieldsPrecede(a, b, precedes) <==>
        precedes(a[0], b[0]) || (a[0] == b[0] && FieldsPrecede(a[1..], b[1..], precedes))
  {
    if FieldsPrecede(a, b, precedes) {
      FieldsForward(a, b, precedes);
    }
    if precedes(a[0], b[0]) {
      assert DifferAt(a, b, 0, precedes);
    }
    if a[0] == b[0] && FieldsPrecede(a[1..], b[1..], precedes) {
      var k: nat :| DifferAt(a[1..], b[1..], k, precedes);
      assert a[..k + 1] == [a[0]] + a[1..][..k] && b[..k + 1] == [b[0]] + b[1..][..k];
      assert DifferAt(a, b, k + 1, precedes);
    }
  }

  lemma FieldsForward<T(!new)>(a: seq<T>, b: seq<T>, precedes: (T, T) -> bool)
    requires a != [] && b != [] && FieldsPrecede(a, b, precedes)
    ensures precedes(a[0], b[0]) || (a[0] == b[0] && FieldsPrecede(a[1..], b[1..], precedes))
  {
    var k: nat :| DifferAt(a, b, k, precedes);
    if k > 0 {
      assert a[0] == a[..k][0] == b[..k][0] == b[0];
      assert a[1..][..k - 1] == a[..k][1..] && b[1..][..k - 1] == b[..k][1..];
      assert DifferAt(a[1..], b[1..], k - 1, precedes);
    }
  }

  lemma {:induction false} CoresAgree(a: seq<nat>, b: seq<nat>)
    requires |a| == |b|
    ensures CompareCores(a, b) < 0 <==> FieldsPrecede(a, b, Below)
    ensures CompareCores(a, b) == 0 <==> a == b
    ensures CompareCores(a, b) == -CompareCores(b, a)
  {
    if a != [] {
      CoresAgree(a[1..], b[1..]);
      assert a == [a[0]] + a[1..] && b == [b[0]] + b[1..];
      FieldsStep(a, b, Below);
    }
  }

  lemma CoreDetermines(a: string, b: string)
    requires WellWritten(a) && WellWritten(b) && CoreNumbers(a) == CoreNumbers(b)
    ensures CoreText(a) == CoreText(b)
  {
    forall i | 0 <= i < 3
      ensures CoreText(a)[i] == CoreText(b)[i]
    {
      assert CoreNumbers(a)[i] == CoreNumbers(b)[i];
      CoreNumberOfDigits(CoreText(a)[i]);
      CoreNumberOfDigits(CoreText(b)[i]);
      Text.DecimalOfValue(CoreText(a)[i]);
      Text.DecimalOfValue(CoreText(b)[i]);
    }
  }

  lemma CoreIsSpelled(version: string)
    requires WellWritten(version)
    ensures CoreNumbers(version) == Map(CoreText(version), Spelled)
  {
    forall i | 0 <= i < 3
      ensures CoreNumbers(version)[i] == Spelled(CoreText(version)[i])
    {
      CoreNumberOfDigits(CoreText(version)[i]);
    }
  }

  /** The parts of a release version give the text back. */
  lemma PartsDetermine(a: string, b: string)
    requires ReleaseVersion(a) && ReleaseVersion(b)
    requires CoreText(a) == CoreText(b) && PreText(a) == PreText(b)
    ensures a == b
  {
    Text.JoinSplit(Cut(TrimV(a)).0, '.');
    Text.JoinSplit(Cut(TrimV(b)).0, '.');
    assert a == "v" + TrimV(a) && b == "v" + TrimV(b);
  }

  lemma SplitDetermines(a: string, b: string)
    ensures Text.Split(a, '.') == Text.Split(b, '.') <==> a == b
  {
    Text.JoinSplit(a, '.');
    Text.JoinSplit(b, '.');
  }

  /** On well written versions the comparison is antisymmetric, zero only on equal strings, and Precedes. */
  lemma CompareAgrees(a: string, b: string)
    requires WellWritten(a) && WellWritten(b)
    ensures Compare(a, b) < 0 <==> Precedes(Parse(a, Classify), Parse(b, Classify))
    ensures Compare(a, b) == 0 <==> a == b
    ensures Compare(a, b) == -Compare(b, a)
  {
    var ca, cb := CoreNumbers(a), CoreNumbers(b);
    CoreIsSpelled(a);
    CoreIsSpelled(b);
    CoresAgree(ca, cb);
    CoresAgree(cb, ca);
    if ca == cb {
      CoreDetermines(a, b);
      var ia, ib := Text.Split(PreText(a), '.'), Text.Split(PreText(b), '.');
      IdentifiersAgree(ia, ib);
      IdentifiersAgree(ib, ia);
      SplitDetermines(PreText(a), PreText(b));
      if PreText(a) == PreText(b) {
        PartsDetermine(a, b);
      }
    }
  }

  // ---------------------------------------------------------------- transitivity

  lemma FieldsTransitive<T(!new)>(a: seq<T>, b: seq<T>, c: seq<T>, precedes: (T, T) -> bool)
    requires FieldsPrecede(a, b, precedes) && FieldsPrecede(b, c, precedes)
    requires forall x, y, z :: precedes(x, y) && precedes(y, z) ==> precedes(x, z)
    ensures FieldsPrecede(a, c, precedes)
  {
    var j: nat :| DifferAt(a, b, j, precedes);
    var k: nat :| DifferAt(b, c, k, precedes);
    var m := if j < k then j else k;
    assert a[..m] == a[..j][..m] == b[..m] == b[..k][..m] == c[..m];
    assert j < k ==> b[j] == b[..k][j] == c[j];
    assert k < j ==> a[k] == a[..j][k] == b[k];
    assert DifferAt(a, c, m, precedes);
  }

  lemma IdentifiersTransitive()
    ensures forall x, y, z :: IdentifierPrecedes(x, y) && IdentifierPrecedes(y, z) ==> IdentifierPrecedes(x, z)
    ensures forall x :: !IdentifierPrecedes(x, x)
  {
    forall x, y, z | IdentifierPrecedes(x, y) && IdentifierPrecedes(y, z)
      ensures IdentifierPrecedes(x, z)
    {
      if x.Alphanumeric? && y.Alphanumeric? && z.Alphanumeric? {
        Text.LessTransitive(x.text, y.text, z.text);
      }
    }
  }

  lemma FieldsIrreflexive<T(!new)>(a: seq<T>, precedes: (T, T) -> bool)
    requires forall x :: !precedes(x, x)
    ensures !FieldsPrecede(a, a, precedes)
  {
  }

  lemma PrecedesTransitive(a: SemVer, b: SemVer, c: SemVer)
    requires Precedes(a, b) && Precedes(b, c)
    ensures Precedes(a, c)
  {
    IdentifiersTransitive();
    if a.core != b.core && b.core != c.core {
      FieldsTransitive(a.core, b.core, c.core, Below);
      FieldsIrreflexive(a.core, Below);
    } else if a.core == b.core == c.core && a.pre != [] && b.pre != [] && c.pre != [] {
      FieldsTransitive(a.pre, b.pre, c.pre, IdentifierPrecedes);
    }
  }

  /** A total order: with CompareAgrees, transitivity completes it. */
  lemma CompareTransitive(a: string, b: string, c: string)
    requires WellWritten(a) && WellWritten(b) && WellWritten(c)
    requires Compare(a, b) < 0 && Compare(b, c) < 0
    ensures Compare(a, c) < 0
  {
    CompareAgrees(a, b);
    CompareAgrees(b, c);
    CompareAgrees(a, c);
    PrecedesTransitive(Parse(a, Classify), Parse(b, Classify), Parse(c, Classify));
  }

  ghost predicate NumbersFit(texts: seq<string>) {
    forall i | 0 <= i < |texts| && Text.AllDigits(texts[i]) :: Text.Value(texts[i]) < UINT64
  }

  lemma SameReading(version: string)
    requires NumbersFit(Text.Split(PreText(version), '.'))
    ensures Parse(version, IdentifierOf) == Parse(version, Classify)
  {
    var texts := Text.Split(PreText(version), '.');
    forall i | 0 <= i < |texts|
      ensures IdentifierOf(texts[i]) == Classify(texts[i])
    {
    }
    assert Map(texts, IdentifierOf) == Map(texts, Classify);
  }

  /** When the numeric identifiers fit in 64 bits too, the order is SemVer precedence. */
  lemma CompareIsSemVer(a: string, b: string)
    requires WellWritten(a) && WellWritten(b)
    requires NumbersFit(Text.Split(PreText(a), '.')) && NumbersFit(Text.Split(PreText(b), '.'))
    ensures Compare(a, b) < 0 <==> Precedes(Parse(a, IdentifierOf), Parse(b, IdentifierOf))
    ensures Compare(a, b) > 0 <==> Precedes(Parse(b, IdentifierOf), Parse(a, IdentifierOf))
  {
    SameReading(a);
    SameReading(b);
    CompareAgrees(a, b);
    CompareAgrees(b, a);
  }

  // ---------------------------------------------------------------- versions as they are written

  /** A version put together from its parts. */
  datatype Written = Written(major: string, minor: string, patch: string, identifiers: seq<string>) {
    predicate Valid() {
      && Digits(major) && Digits(minor) && Digits(patch) && identifiers != [""]
      && forall i | 0 <= i < |identifiers| :: '.' !in identifiers[i] && PlainPrerelease(identifiers[i])
    }

    function Core(): string { major + "." + minor + "." + patch }

    function Tail(): string { if identifiers == [] then "" else "-" + Text.Join(identifiers, ".") }

    function Full(): string { "v" + (Core() + Tail()) }

    /** As section 11 reads it. */
    function Read(): SemVer
      requires Valid()
    {
      SemVer([Text.Value(major), Text.Value(minor), Text.Value(patch)], Map(identifiers, IdentifierOf))
    }

    /** No number has leading zeros, and all of them fit in 64 bits. */
    predicate Ordinary()
      requires Valid()
    {
      && Text.Canonical(major) && Text.Canonical(minor) && Text.Canonical(patch)
      && Text.Value(major) < UINT64 && Text.Value(minor) < UINT64 && Text.Value(patch) < UINT64
      && forall i | 0 <= i < |identifiers| && identifiers[i] != "" && Text.AllDigits(identifiers[i]) ::
          Text.Canonical(identifiers[i]) && Text.Value(identifiers[i]) < UINT64
    }
  }

  predicate Digits(text: string) { text != "" && Text.AllDigits(text) }

  predicate PlainPrerelease(text: string) { forall i | 0 <= i < |text| :: PrereleaseChar(text[i]) }

  lemma {:induction false} CutFirst(head: string, rest: string)
    requires '-' !in head
    ensures Cut(head + "-" + rest) == (head, Some(rest)) && Cut(head) == (head, None)
  {
    if head == "" {
      assert (head + "-" + rest)[1..] == rest;
    } else {
      CutFirst(head[1..], rest);
      assert (head + "-" + rest)[1..] == head[1..] + "-" + rest;
      assert head == [head[0]] + head[1..];
    }
  }

  lemma CoreSplits(w: Written)
    requires w.Valid()
    ensures '-' !in w.Core() && Text.Split(w.Core(), '.') == [w.major, w.minor, w.patch]
  {
    Text.SplitNone(w.patch, '.');
    Text.SplitFirst(w.minor, w.patch, '.');
    assert w.minor + "." + w.patch == w.minor + ['.'] + w.patch;
    Text.SplitFirst(w.major, w.minor + "." + w.patch, '.');
    assert w.Core() == w.major + ['.'] + (w.minor + "." + w.patch);
  }

  lemma TrimsV(text: string)
    ensures TrimV("v" + text) == text
  {
  }

  lemma TextCut(w: Written)
    requires w.Valid()
    ensures Cut(TrimV(w.Full())) ==
        (w.Core(), if w.identifiers == [] then None else Some(Text.Join(w.identifiers, ".")))
  {
    CoreSplits(w);
    TrimsV(w.Core() + w.Tail());
    var core, pre := w.Core(), Text.Join(w.identifiers, ".");
    CutFirst(core, pre);
    if w.identifiers == [] {
      assert core + w.Tail() == core;
    } else {
      assert core + w.Tail() == core + "-" + pre;
    }
  }

  /** The code finds the parts that a version was put together from. */
  lemma PartsFound(w: Written)
    requires w.Valid()
    ensures CoreText(w.Full()) == [w.major, w.minor, w.patch]
    ensures PreText(w.Full()) == Text.Join(w.identifiers, ".") && (w.identifiers != [] <==> PreText(w.Full()) != "")
    ensures w.identifiers != [] ==> Text.Split(PreText(w.Full()), '.') == w.identifiers
    ensures Cut(TrimV(w.Full())).1.Some? <==> w.identifiers != []
  {
    CoreSplits(w);
    TextCut(w);
    if w.identifiers != [] {
      Text.SplitJoin(w.identifiers, '.');
      Text.SplitNone("", '.');
    }
  }

  /** A core number as Sscanf stores it. */
  function Stored(text: string): nat
    requires Text.AllDigits(text)
  {
    if Text.Value(text) < UINT64 then Text.Value(text) else 0
  }

  lemma CoreNumbersOf(version: string, a: string, b: string, c: string)
    requires CoreText(version) == [a, b, c] && Digits(a) && Digits(b) && Digits(c)
    ensures CoreNumbers(version) == [Stored(a), Stored(b), Stored(c)]
  {
    CoreNumberOfDigits(a);
    CoreNumberOfDigits(b);
    CoreNumberOfDigits(c);
  }

  /** versionParts finds major, minor and patch, in this order. */
  lemma CoreNumbersFound(w: Written)
    requires w.Valid()
    ensures CoreNumbers(w.Full()) == [Stored(w.major), Stored(w.minor), Stored(w.patch)]
  {
    PartsFound(w);
    CoreNumbersOf(w.Full(), w.major, w.minor, w.patch);
  }

  predicate Greater(a: (nat, nat, nat), b: (nat, nat, nat)) {
    a.0 > b.0 || (a.0 == b.0 && (a.1 > b.1 || (a.1 == b.1 && a.2 > b.2)))
  }

  /** Versions of three numbers compare by major, then minor, then patch; a number of more than 64 bits counts as 0. */
  lemma NormalVersions(a: string, b: string, c: string, x: string, y: string, z: string)
    requires Digits(a) && Digits(b) && Digits(c) && Digits(x) && Digits(y) && Digits(z)
    ensures Compare("v" + (a + "." + b + "." + c), "v" + (x + "." + y + "." + z)) > 0 <==>
        || Stored(a) > Stored(x)
        || (Stored(a) == Stored(x) && Stored(b) > Stored(y))
        || (Stored(a) == Stored(x) && Stored(b) == Stored(y) && Stored(c) > Stored(z))
    ensures forall part | Text.AllDigits(part) ::
        Stored(part) == if Text.Value(part) < 0x1_0000_0000_0000_0000 then Text.Value(part) else 0
  {
    var none: seq<string> := [];
    assert none != [""];
    var left, right := Written(a, b, c, none), Written(x, y, z, none);
    assert left.Core() + left.Tail() == a + "." + b + "." + c;
    assert right.Core() + right.Tail() == x + "." + y + "." + z;
    NormalParts(left);
    NormalParts(right);
    NormalCompare(left.Full(), right.Full());
    ThreeNumbers(Stored(a), Stored(b), Stored(c), Stored(x), Stored(y), Stored(z));
  }

  lemma NormalParts(w: Written)
    requires w.Valid() && w.identifiers == []
    ensures CoreNumbers(w.Full()) == [Stored(w.major), Stored(w.minor), Stored(w.patch)] && PreText(w.Full()) == ""
  {
    CoreNumbersFound(w);
    PartsFound(w);
  }

  lemma {:induction false} NormalCompare(left: string, right: string)
    requires PreText(left) == "" && PreText(right) == ""
    ensures Compare(left, right) == CompareCores(CoreNumbers(left), CoreNumbers(right))
  {
    Text.SplitNone("", '.');
    SelfZero([""]);
  }

  lemma ThreeNumbers(a: nat, b: nat, c: nat, x: nat, y: nat, z: nat)
    ensures CompareCores([a, b, c], [x, y, z]) > 0 <==> Greater((a, b, c), (x, y, z))
    ensures CompareCores([a, b, c], [x, y, z]) == 0 <==> a == x && b == y && c == z
  {
    assert [a, b, c][1..] == [b, c] && [x, y, z][1..] == [y, z];
    assert [b, c][1..] == [c] && [y, z][1..] == [z];
    assert CompareCores([c], [z]) == CompareNumbers(c, z);
    assert CompareCores([b, c], [y, z]) == if b != y then CompareNumbers(b, y) else CompareCores([c], [z]);
    assert CompareCores([a, b, c], [x, y, z]) == if a != x then CompareNumbers(a, x) else CompareCores([b, c], [y, z]);
  }

  /** Every version the release pattern accepts is put together like this, and nothing else is. */
  lemma ReleasePattern(version: string)
    ensures ReleaseVersion(version) <==> exists w: Written :: w.Valid() && w.Full() == version
    ensures forall c :: PrereleaseChar(c) <==>
        'a' <= c <= 'z' || 'A' <= c <= 'Z' || '0' <= c <= '9' || c in {'.', '-'}
  {
    if ReleaseVersion(version) {
      var w := TakenApart(version);
    }
    if w: Written :| w.Valid() && w.Full() == version {
      PartsFound(w);
      JoinedPlain(w.identifiers);
    }
  }

  lemma {:induction false} JoinedPlain(identifiers: seq<string>)
    requires forall i | 0 <= i < |identifiers| :: PlainPrerelease(identifiers[i])
    ensures PlainPrerelease(Text.Join(identifiers, "."))
  {
    if |identifiers| > 1 {
      JoinedPlain(identifiers[1..]);
    }
  }

  lemma JoinIsThree(a: string, b: string, c: string)
    ensures Text.Join([a, b, c], ".") == a + "." + b + "." + c
  {
    assert [a, b, c][1..] == [b, c] && [b, c][1..] == [c];
    assert Text.Join([b, c], ".") == b + "." + c;
  }

  lemma TakenApart(version: string) returns (w: Written)
    requires ReleaseVersion(version)
    ensures w.Valid() && w.Full() == version
  {
    var core, pre := CoreText(version), PreText(version);
    Text.JoinSplit(Cut(TrimV(version)).0, '.');
    Text.JoinSplit(pre, '.');
    Text.SplitParts(pre, '.');
    var identifiers := if pre == "" then [] else Text.Split(pre, '.');
    w := Written(core[0], core[1], core[2], identifiers);
    assert core == [core[0], core[1], core[2]];
    JoinIsThree(core[0], core[1], core[2]);
    assert w.Core() == Cut(TrimV(version)).0;
    assert version == "v" + TrimV(version);
  }

  /**
   Section 11 on the written texts: the comparison of two versions put together from numbers without leading
   zeros and below 2^64 and from identifiers is that of their parts.
  */
  lemma WrittenPrecedence(a: Written, b: Written)
    requires a.Valid() && b.Valid() && a.Ordinary() && b.Ordinary()
    ensures Compare(a.Full(), b.Full()) < 0 <==> Precedes(a.Read(), b.Read())
    ensures Compare(a.Full(), b.Full()) > 0 <==> Precedes(b.Read(), a.Read())
    ensures Compare(a.Full(), b.Full()) == 0 <==> a.Full() == b.Full()
  {
    OrdinaryIsWellWritten(a);
    OrdinaryIsWellWritten(b);
    ParseIsRead(a);
    ParseIsRead(b);
    CompareIsSemVer(a.Full(), b.Full());
    CompareAgrees(a.Full(), b.Full());
  }

  lemma OrdinaryIsWellWritten(w: Written)
    requires w.Valid() && w.Ordinary()
    ensures WellWritten(w.Full()) && NumbersFit(Text.Split(PreText(w.Full()), '.'))
  {
    PartsFound(w);
    FullIsRelease(w);
    Text.SplitNone("", '.');
  }

  lemma FullIsRelease(w: Written)
    requires w.Valid()
    ensures ReleaseVersion(w.Full())
  {
    ReleasePattern(w.Full());
  }

  lemma ParseIsRead(w: Written)
    requires w.Valid()
    ensures Parse(w.Full(), IdentifierOf) == w.Read()
  {
    PartsFound(w);
    assert Map([w.major, w.minor, w.patch], Spelled) == w.Read().core;
  }

  /** Numbers by value, numbers before text, text by its bytes. */
  ghost predicate IdentifierBefore(p: string, q: string) {
    if Text.AllDigits(p) && Text.AllDigits(q) then Text.Value(p) < Text.Value(q)
    else if Text.AllDigits(p) || Text.AllDigits(q) then Text.AllDigits(p)
    else exists k: nat :: Text.EarlierAt(p, q, k)
  }

  lemma BeforeMeans(p: string, q: string)
    ensures Text.AllDigits(p) && Text.AllDigits(q) ==> (IdentifierBefore(p, q) <==> Text.Value(p) < Text.Value(q))
    ensures Text.AllDigits(p) != Text.AllDigits(q) ==> (IdentifierBefore(p, q) <==> Text.AllDigits(p))
    ensures !Text.AllDigits(p) && !Text.AllDigits(q) ==>
        (IdentifierBefore(p, q) <==>
          exists k: nat :: k <= |p| && k < |q| && p[..k] == q[..k] && (k == |p| || p[k] < q[k]))
  {
    if k: nat :| k <= |p| && k < |q| && p[..k] == q[..k] && (k == |p| || p[k] < q[k]) {
      assert Text.EarlierAt(p, q, k);
    }
  }

  lemma PrecedesIsBefore(p: string, q: string)
    requires p != "" && q != ""
    ensures IdentifierPrecedes(IdentifierOf(p), IdentifierOf(q)) <==> IdentifierBefore(p, q)
  {
    Text.LessMeans(p, q);
  }

  /** The version with just this prerelease identifier. */
  function With(w: Written, p: string): Written { w.(identifiers := [p]) }

  /** One identifier each after the same core decides; and a normal version comes after its prereleases. */
  lemma OneIdentifier(w: Written, p: string, q: string)
    requires With(w, p).Valid() && With(w, p).Ordinary() && With(w, q).Valid() && With(w, q).Ordinary()
    ensures Compare(With(w, p).Full(), With(w, q).Full()) < 0 <==> IdentifierBefore(p, q)
  {
    WrittenPrecedence(With(w, p), With(w, q));
    OneField(With(w, p).Read().pre, With(w, q).Read().pre);
    PrecedesIsBefore(p, q);
  }

  lemma NormalIsLast(w: Written)
    requires w.Valid() && w.Ordinary() && w.identifiers != []
    ensures Compare(w.Full(), w.(identifiers := []).Full()) < 0
  {
    WrittenPrecedence(w, w.(identifiers := []));
  }

  lemma OneField(a: seq<Identifier>, b: seq<Identifier>)
    requires |a| == |b| == 1
    ensures FieldsPrecede(a, b, IdentifierPrecedes) <==> IdentifierPrecedes(a[0], b[0])
  {
    if IdentifierPrecedes(a[0], b[0]) {
      assert DifferAt(a, b, 0, IdentifierPrecedes);
    }
  }

  // ---------------------------------------------------------------- leading zeros

  /** The identifiers agree up to k, and there both are numbers of one value written differently. */
  ghost predicate SameNumberAt(a: seq<string>, b: seq<string>, k: nat) {
    && k < |a| && k < |b| && a[..k] == b[..k] && a[k] != b[k]
    && Scan(a[k]).Some? && Scan(a[k]) == Scan(b[k])
  }

  lemma SameHead(a: seq<string>, b: seq<string>, k: nat)
    requires SameNumberAt(a, b, k) && k > 0
    ensures a[0] == b[0]
  {
    assert a[..k][0] == b[..k][0];
  }

  lemma {:induction false} MutuallyGreater(a: seq<string>, b: seq<string>)
    ensures CompareIdentifiers(a, b) > 0 && CompareIdentifiers(b, a) > 0 <==> exists k: nat :: SameNumberAt(a, b, k)
  {
    if a != [] && b != [] {
      Text.CompareFlips(a[0], b[0]);
      MutuallyGreater(a[1..], b[1..]);
      if a[0] == b[0] {
        if k: nat :| SameNumberAt(a[1..], b[1..], k) {
          assert a[..k + 1] == [a[0]] + a[1..][..k] && b[..k + 1] == [b[0]] + b[1..][..k];
          assert SameNumberAt(a, b, k + 1);
        }
        if k: nat :| SameNumberAt(a, b, k) {
          assert k > 0;
          assert a[1..][..k - 1] == a[..k][1..] && b[1..][..k - 1] == b[..k][1..];
          assert SameNumberAt(a[1..], b[1..], k - 1);
        }
      } else {
        if Scan(a[0]).Some? && Scan(a[0]) == Scan(b[0]) {
          assert SameNumberAt(a, b, 0);
        }
        if k: nat :| SameNumberAt(a, b, k) {
          if k > 0 {
            SameHead(a, b, k);
          }
        }
      }
    }
  }

  lemma {:induction false} SelfZero(a: seq<string>)
    ensures CompareIdentifiers(a, a) == 0
  {
    if a != [] {
      SelfZero(a[1..]);
    }
  }

  /** Each is newer than the other. */
  predicate Mutual(a: string, b: string) { Compare(a, b) > 0 && Compare(b, a) > 0 }

  lemma PrereleasesMutuallyGreater(a: string, b: string)
    ensures ComparePre(a, b) > 0 && ComparePre(b, a) > 0 <==>
        a != "" && b != "" && exists k: nat :: SameNumberAt(Text.Split(a, '.'), Text.Split(b, '.'), k)
  {
    MutuallyGreater(Text.Split(a, '.'), Text.Split(b, '.'));
    if a == "" || b == "" {
      SelfZero(Text.Split(a, '.'));
      assert !(ComparePre(a, b) > 0 && ComparePre(b, a) > 0);
    } else {
      assert ComparePre(a, b) == CompareIdentifiers(Text.Split(a, '.'), Text.Split(b, '.'));
      assert ComparePre(b, a) == CompareIdentifiers(Text.Split(b, '.'), Text.Split(a, '.'));
    }
  }

  /**
   Two versions are each newer than the other exactly when their cores are numerically
   equal, both are prereleases, and the first identifiers to differ are one number written twice.
  */
  lemma MutuallyNewer(a: string, b: string)
    ensures Mutual(a, b) <==>
        && CoreNumbers(a) == CoreNumbers(b)
        && PreText(a) != "" && PreText(b) != ""
        && exists k: nat :: SameNumberAt(Text.Split(PreText(a), '.'), Text.Split(PreText(b), '.'), k)
  {
    CoresAgree(CoreNumbers(a), CoreNumbers(b));
    PrereleasesMutuallyGreater(PreText(a), PreText(b));
  }

  /** A leading zero is enough to go round in a circle of "newer" versions. */
  lemma LeadingZeroCycle() returns (a: string, b: string)
    ensures a == "v1.0.0-1" && b == "v1.0.0-01"
    ensures ReleaseVersion(a) && ReleaseVersion(b)
    ensures Mutual(a, b)
  {
    a, b := "v1.0.0-" + "1", "v1.0.0-" + "01";
    Example("1");
    Example("01");
    OneTwice();
    assert SameNumberAt(Text.Split(PreText(a), '.'), Text.Split(PreText(b), '.'), 0);
    assert CoreNumbers(a) == CoreNumbers(b);
    MutuallyNewer(a, b);
  }

  lemma OneTwice()
    ensures SameNumberAt(Text.Split("1", '.'), Text.Split("01", '.'), 0)
  {
    Text.SplitNone("1", '.');
    Text.SplitNone("01", '.');
    assert "1"[..0] == "" && "0"[..0] == "" && "01"[..1] == "0";
    assert Text.Value("1") == 1 && Text.Value("0") == 0 && Text.Value("01") == 1;
  }

  lemma Example(pre: string)
    requires pre != "" && forall i | 0 <= i < |pre| :: PrereleaseChar(pre[i])
    ensures var v := "v1.0.0-" + pre; ReleaseVersion(v) && CoreText(v) == ["1", "0", "0"] && PreText(v) == pre
  {
    var v := "v1.0.0-" + pre;
    assert TrimV(v) == "1.0.0" + "-" + pre;
    CutFirst("1.0.0", pre);
    ExampleCore();
    assert CoreText(v) == ["1", "0", "0"] && PreText(v) == pre;
  }

  lemma ExampleCore()
    ensures Text.Split("1.0.0", '.') == ["1", "0", "0"]
  {
    Text.SplitNone("0", '.');
    Text.SplitFirst("0", "0", '.');
    Text.SplitFirst("1", "0.0", '.');
    assert "0" + "." + "0" == "0.0" && "1" + "." + "0.0" == "1.0.0";
  }

  // ---------------------------------------------------------------- chains of upgrades

  predicate Newer(b: string, a: string) { Compare(b, a) > 0 }

  /** Each version was newer than the one it replaced, as Run demands. */
  ghost predicate UpgradeChain(versions: seq<string>) { Rising(versions, Newer) }

  lemma NotNewerThanItself(version: string)
    ensures !Newer(version, version)
  {
    CoresAgree(CoreNumbers(version), CoreNumbers(version));
    SelfZero(Text.Split(PreText(version), '.'));
  }

  predicate ClassPrecedes(a: string, b: string) { IdentifierPrecedes(Classify(a), Classify(b)) }

  /** a is older than b on the numbers and texts that the code sees, whatever zeros are written. */
  ghost predicate Older(a: string, b: string) {
    if CoreNumbers(a) != CoreNumbers(b) then FieldsPrecede(CoreNumbers(a), CoreNumbers(b), Below)
    else if PreText(a) == "" || PreText(b) == "" then PreText(a) != "" && PreText(b) == ""
    else FieldsPrecede(Text.Split(PreText(a), '.'), Text.Split(PreText(b), '.'), ClassPrecedes)
  }

  lemma {:induction false} IdentifiersStrict(a: seq<string>, b: seq<string>)
    ensures FieldsPrecede(a, b, ClassPrecedes) <==> CompareIdentifiers(b, a) > 0 && CompareIdentifiers(a, b) <= 0
    ensures FieldsPrecede(a, b, ClassPrecedes) ==> CompareIdentifiers(a, b) < 0
  {
    if a == [] && b != [] {
      assert DifferAt(a, b, 0, ClassPrecedes);
    } else if a != [] && b != [] {
      IdentifiersTransitive();
      Text.CompareFlips(a[0], b[0]);
      IdentifiersStrict(a[1..], b[1..]);
      FieldsStep(a, b, ClassPrecedes);
    }
  }

  /** Newer and not newer the other way round: that is Older, from the other side. */
  lemma OlderIsStrict(a: string, b: string)
    ensures Older(a, b) <==> Compare(b, a) > 0 && !Mutual(a, b)
    ensures Older(a, b) ==> Compare(a, b) < 0
  {
    CoresAgree(CoreNumbers(a), CoreNumbers(b));
    CoresAgree(CoreNumbers(b), CoreNumbers(a));
    IdentifiersStrict(Text.Split(PreText(a), '.'), Text.Split(PreText(b), '.'));
  }

  lemma OlderTransitive(a: string, b: string, c: string)
    requires Older(a, b) && Older(b, c)
    ensures Older(a, c)
  {
    IdentifiersTransitive();
    var m, n, o := CoreNumbers(a), CoreNumbers(b), CoreNumbers(c);
    if m != n && n != o {
      FieldsTransitive(m, n, o, Below);
      FieldsIrreflexive(m, Below);
    } else if m == n == o && PreText(a) != "" && PreText(b) != "" && PreText(c) != "" {
      FieldsTransitive(
        Text.Split(PreText(a), '.'), Text.Split(PreText(b), '.'), Text.Split(PreText(c), '.'), ClassPrecedes);
    }
  }

  lemma NewerIsStrictlyTransitive()
    ensures StrictlyTransitive(Newer)
  {
    forall a, b, c | Strictly(Newer, a, b) && Strictly(Newer, b, c)
      ensures Strictly(Newer, a, c)
    {
      OlderIsStrict(a, b);
      OlderIsStrict(b, c);
      OlderTransitive(a, b, c);
      OlderIsStrict(a, c);
    }
  }

  /**
   Along a chain of upgrades versions strictly increase, and so none comes back, unless some step
   is between two versions that are each newer than the other.
  */
  lemma ChainIncreases(versions: seq<string>, i: nat, j: nat)
    requires UpgradeChain(versions) && i < j < |versions|
    requires forall k | i <= k < j :: !FallsAt(versions, Newer, k)
    ensures Newer(versions[j], versions[i]) && !Newer(versions[i], versions[j]) && versions[i] != versions[j]
  {
    NewerIsStrictlyTransitive();
    StrictlyRises(versions, Newer, i, j);
  }

  /** Versions without leading zeros never are each newer than the other. */
  lemma WellWrittenNotMutual(a: string, b: string)
    requires WellWritten(a) && WellWritten(b)
    ensures !Mutual(a, b)
  {
    CompareAgrees(a, b);
  }

  /** Upgrades through a set of releases can come back to a version exactly when two of them are mutually newer. */
  lemma RepeatCondition(releases: set<string>)
    ensures (exists versions: seq<string>, i: nat, j: nat :: ComesBack(releases, versions, Newer, i, j)) <==>
        exists a, b :: a in releases && b in releases && Mutual(a, b)
  {
    NewerIsStrictlyTransitive();
    ReturnNeedsMutual(releases, Newer);
    assert forall a, b :: Newer(a, b) && Newer(b, a) <==> Mutual(a, b);
  }
}
