/**
 Owned secret buffers of internal/vault/types.go, and importSecrets of internal/app/app.go, which
 overlays imported credentials on the opened vault, saves it and erases every buffer.
*/
module Secrets {
  import opened Heaps
  import opened Wire
  import opened VaultData
  import Sorting

  const ZERO := 0 as char

  ghost predicate Erased(b: array<char>)
    reads b
  {
    forall i | 0 <= i < b.Length :: b[i] == ZERO
  }

  /** NewSecret: an owned copy of the text. */
  method NewSecret(heap: Ledger<char>, value: string) returns (secret: array<char>)
    modifies heap
    ensures fresh(secret) && secret[..] == value
    ensures heap.buffers == old(heap.buffers) + {secret} && heap.held == old(heap.held) + [value]
  {
    secret := heap.Allocate(value);
  }

  /** Secret.Destroy. */
  method Destroy(secret: array<char>)
    modifies secret
    ensures Erased(secret)
  {
    for index := 0 to secret.Length
      invariant forall i | 0 <= i < index :: secret[i] == ZERO
    {
      secret[index] := ZERO;
    }
  }

  type Buffers = map<string, map<string, array<char>>>

  /** The integrations with one credential set. */
  function Put(
      values: map<string, Credentials>, integration: string, name: string, value: string): map<string, Credentials> {
    var credentials := if integration in values then values[integration] else map[];
    values[integration := credentials[name := value]]
  }

  function PutBuffer(m: Buffers, integration: string, name: string, value: array<char>): Buffers {
    var credentials: map<string, array<char>> := if integration in m then m[integration] else map[];
    m[integration := credentials[name := value]]
  }

  predicate Has(m: Buffers, i: string, n: string) { i in m && n in m[i] }

  ghost predicate Refers(m: Buffers, key: array<char>, b: array<char>) {
    b == key || exists i, n :: Has(m, i, n) && m[i][n] == b
  }

  lemma KeyReplaced(
      m: Buffers, key: array<char>, owned: set<array<char>>, value: array<char>, values: map<string, Credentials>)
    requires Consistent(m, key, owned) && Erased(key) && value !in owned
    requires values.Keys == m.Keys && forall i | i in m :: values[i].Keys == m[i].Keys
    requires forall i, n | Has(m, i, n) :: m[i][n][..] == values[i][n]
    ensures Consistent(m, value, owned + {value}) && Texts(m, value, owned + {value}) == values
  {
    assert forall b | Refers(m, key, b) && b != key :: Refers(m, value, b);
    assert Separate(m, value, owned + {value});
    TextsAre(m, value, owned + {value}, values);
  }

  /** All secrets are owned, and no two of them share a buffer. */
  ghost predicate Separate(m: Buffers, key: array<char>, owned: set<array<char>>) {
    && key in owned
    && (forall i, n | Has(m, i, n) :: m[i][n] in owned && m[i][n] != key)
    && (forall i, n, j, o | Has(m, i, n) && Has(m, j, o) && m[i][n] == m[j][o] :: i == j && n == o)
  }

  lemma PutSeparate(m: Buffers, key: array<char>, owned: set<array<char>>, i: string, n: string, value: array<char>)
    requires Separate(m, key, owned) && value !in owned
    ensures Separate(PutBuffer(m, i, n, value), key, owned + {value})
    ensures forall b | Refers(m, key, b) && !Refers(PutBuffer(m, i, n, value), key, b) :: Has(m, i, n) && b == m[i][n]
    ensures Refers(PutBuffer(m, i, n, value), key, value)
  {
    var t := PutBuffer(m, i, n, value);
    assert forall j, o :: Has(t, j, o) <==> (j == i && o == n) || Has(m, j, o);
    assert forall j, o | Has(m, j, o) && !(j == i && o == n) :: t[j][o] == m[j][o];
    assert Has(t, i, n) && t[i][n] == value;
  }

  /** What the buffers hold, as text. */
  function Texts(m: Buffers, ghost key: array<char>, ghost owned: set<array<char>>): map<string, Credentials>
    requires Separate(m, key, owned)
    reads owned
  {
    map i | i in m :: map n | n in m[i] && Has(m, i, n) :: m[i][n][..]
  }

  lemma TextsAre(m: Buffers, key: array<char>, owned: set<array<char>>, values: map<string, Credentials>)
    requires Separate(m, key, owned) && values.Keys == m.Keys
    requires forall i | i in m :: values[i].Keys == m[i].Keys
    requires forall i, n | Has(m, i, n) :: m[i][n][..] == values[i][n]
    ensures Texts(m, key, owned) == values
  {
    forall i | i in m
      ensures Texts(m, key, owned)[i] == values[i]
    {
      assert forall n | n in m[i] :: Has(m, i, n);
      assert Texts(m, key, owned)[i].Keys == m[i].Keys;
    }
  }

  /** The secrets are separate, and a buffer that is no longer referenced has been erased. */
  ghost predicate Consistent(m: Buffers, key: array<char>, owned: set<array<char>>)
    reads owned
  {
    && Separate(m, key, owned)
    && forall b | b in owned && !Refers(m, key, b) :: Erased(b)
  }

  lemma PutConsistent(m: Buffers, key: array<char>, owned: set<array<char>>, i: string, n: string, value: array<char>)
    requires Consistent(m, key, owned) && value !in owned
    requires Has(m, i, n) ==> Erased(m[i][n])
    ensures Consistent(PutBuffer(m, i, n, value), key, owned + {value})
  {
    PutSeparate(m, key, owned, i, n, value);
  }

  lemma PutTexts(
      m: Buffers, key: array<char>, owned: set<array<char>>, i: string, n: string, value: array<char>,
      before: map<string, Credentials>)
    requires Separate(m, key, owned) && value !in owned
    requires before.Keys == m.Keys && forall j | j in m :: before[j].Keys == m[j].Keys
    requires forall j, o | Has(m, j, o) && !(j == i && o == n) :: m[j][o][..] == before[j][o]
    ensures Separate(PutBuffer(m, i, n, value), key, owned + {value})
    ensures Texts(PutBuffer(m, i, n, value), key, owned + {value}) == Put(before, i, n, value[..])
  {
    PutSeparate(m, key, owned, i, n, value);
    var t, after := PutBuffer(m, i, n, value), Put(before, i, n, value[..]);
    forall j, o | Has(t, j, o)
      ensures t[j][o][..] == after[j][o]
    {
      if !(j == i && o == n) {
        assert Has(m, j, o);
      }
    }
    TextsAre(t, key, owned + {value}, after);
  }

  /** The decrypted vault in memory: every secret is a buffer that the vault owns. */
  class Memory {
    var plane: ControlPlane
    var signingKey: array<char>
    var integrations: Buffers
    /** Every buffer the vault has owned since it was opened. */
    ghost var owned: set<array<char>>

    ghost predicate Valid()
      reads this, owned
    {
      Consistent(integrations, signingKey, owned)
    }

    /** The credentials as text, as Save encodes them. */
    function Values(): map<string, Credentials>
      requires Valid()
      reads this, owned
    {
      Texts(integrations, signingKey, owned)
    }

    lemma ValuesKeys()
      requires Valid()
      ensures Values().Keys == integrations.Keys
    {
    }

    function Contents(): Data
      requires Valid()
      reads this, owned
    {
      Data(plane.(signingPrivateKey := signingKey[..]), Some(Values()))
    }

    constructor (heap: Ledger<char>, controlPlane: ControlPlane)
      modifies heap
      ensures Valid() && fresh(owned) && heap.buffers == old(heap.buffers) + owned
      ensures heap.held == old(heap.held) + [controlPlane.signingPrivateKey]
      ensures Contents() == Data(controlPlane, Some(map[]))
    {
      var key := NewSecret(heap, controlPlane.signingPrivateKey);
      plane := controlPlane.(signingPrivateKey := "");
      signingKey, integrations, owned := key, map[], {key};
    }

    /** `data.Integrations[integration] = make(vault.Credentials)`. */
    method AddIntegration(integration: string)
      requires Valid() && integration !in integrations
      modifies this
      ensures Valid() && owned == old(owned)
      ensures Values() == old(Values())[integration := map[]]
      ensures plane == old(plane) && signingKey == old(signingKey)
    {
      ghost var was, after := integrations, Values()[integration := map[]];
      integrations := integrations[integration := map[]];
      assert forall i, n :: Has(integrations, i, n) <==> Has(was, i, n);
      assert forall b :: Refers(integrations, signingKey, b) <==> Refers(was, signingKey, b);
      TextsAre(integrations, signingKey, owned, after);
    }

    /** SetSigningPrivateKey: the old key is erased, the new one is owned. */
    method SetSigningKey(value: array<char>)
      requires Valid() && value !in owned
      modifies this, signingKey
      ensures Valid() && owned == old(owned) + {value} && signingKey == value
      ensures Erased(old(signingKey)) && value[..] == old(value[..])
      ensures Values() == old(Values()) && plane == old(plane)
    {
      ghost var before, was, own := Values(), signingKey, owned;
      Destroy(signingKey);
      signingKey, owned := value, owned + {value};
      KeyReplaced(integrations, was, own, value, before);
    }

    /** The secret that is about to be replaced, if there is one. */
    method ErasePrevious(integration: string, name: string)
      requires Valid()
      modifies owned
      ensures Valid() && (Has(integrations, integration, name) ==> Erased(integrations[integration][name]))
      ensures forall i, n | Has(integrations, i, n) && !(i == integration && n == name) ::
          integrations[i][n][..] == old(Values())[i][n]
      ensures forall b |
          b in owned && !(Has(integrations, integration, name) && b == integrations[integration][name]) ::
          b[..] == old(b[..])
    {
      if integration in integrations && name in integrations[integration] {
        assert Has(integrations, integration, name);
        Destroy(integrations[integration][name]);
      }
    }

    /** Credentials.Set on an integration, which is created if it is missing; a replaced secret is erased. */
    method Set(integration: string, name: string, value: array<char>)
      requires Valid() && value !in owned
      modifies this, owned
      ensures Valid() && owned == old(owned) + {value}
      ensures value[..] == old(value[..])
      ensures Values() == Put(old(Values()), integration, name, old(value[..]))
      ensures plane == old(plane) && signingKey == old(signingKey) && signingKey[..] == old(signingKey[..])
    {
      ghost var before, was, own := Values(), integrations, owned;
      ErasePrevious(integration, name);
      integrations, owned := PutBuffer(integrations, integration, name, value), owned + {value};
      PutConsistent(was, signingKey, own, integration, name, value);
      PutTexts(was, signingKey, own, integration, name, value, before);
    }

    /** Data.Destroy: every buffer the vault ever owned ends erased. */
    method DestroyAll()
      requires Valid()
      modifies this, owned
      ensures owned == old(owned) && forall b | b in owned :: Erased(b)
      ensures integrations == map[]
    {
      ghost var loose := set b | b in owned && !Refers(integrations, signingKey, b);
      Destroy(signingKey);
      var all := integrations;
      var names := Names(all.Keys);
      assert forall i, n | i in all && n in all[i] :: Has(all, i, n);
      ghost var done := DestroyEach(all, names, owned, loose + {signingKey});
      AllDone(all, signingKey, names, loose, owned, done);
      integrations := integrations - all.Keys;
    }
  }

  /** The loop over the integrations. */
  method DestroyEach(all: Buffers, names: seq<string>, ghost owned: set<array<char>>, ghost done: set<array<char>>)
    returns (ghost erased: set<array<char>>)
    requires forall name | name in names :: name in all
    requires forall i, n | Has(all, i, n) :: all[i][n] in owned
    requires done <= owned && forall b | b in done :: Erased(b)
    modifies owned
    ensures done <= erased <= owned && forall b | b in erased :: Erased(b)
    ensures forall j, n | 0 <= j < |names| && Has(all, names[j], n) :: all[names[j]][n] in erased
  {
    erased := done;
    for k := 0 to |names|
      invariant done <= erased <= owned && forall b | b in erased :: Erased(b)
      invariant forall j, n | 0 <= j < k && Has(all, names[j], n) :: all[names[j]][n] in erased
    {
      assert forall n | n in all[names[k]] :: Has(all, names[k], n);
      erased := DestroyCredentials(all[names[k]], owned, erased);
    }
  }

  lemma AllDone(
      m: Buffers, key: array<char>, names: seq<string>, loose: set<array<char>>, owned: set<array<char>>,
      done: set<array<char>>)
    requires forall b | b in owned && b !in loose :: Refers(m, key, b)
    requires loose <= done && key in done && forall i | i in m :: i in names
    requires forall j, n | 0 <= j < |names| && Has(m, names[j], n) :: m[names[j]][n] in done
    ensures owned <= done
  {
    forall b | b in owned
      ensures b in done
    {
      if b !in loose && b != key {
        var i, n :| Has(m, i, n) && m[i][n] == b;
        var j :| 0 <= j < |names| && names[j] == i;
        assert Has(m, names[j], n);
      }
    }
  }

  /** `range` over a Go map. */
  method Names(keys: set<string>) returns (names: seq<string>)
    ensures forall n :: n in names <==> n in keys
    ensures forall i | 0 <= i < |names| :: names[i] in keys
    ensures forall i, j | 0 <= i < j < |names| :: names[i] != names[j]
  {
    names := Sorting.RangeKeys(keys);
    assert forall n :: n in names <==> n in multiset(names);
    assert forall n :: n in keys <==> n in multiset(keys);
  }

  /** Credentials.Destroy. */
  method DestroyCredentials(
      credentials: map<string, array<char>>, ghost owned: set<array<char>>, ghost done: set<array<char>>)
    returns (ghost erased: set<array<char>>)
    requires done <= owned && (forall n | n in credentials :: credentials[n] in owned)
    requires forall b | b in done :: Erased(b)
    modifies owned
    ensures done <= erased <= owned && forall b | b in erased :: Erased(b)
    ensures forall n | n in credentials :: credentials[n] in erased
  {
    erased := done;
    var names := Names(credentials.Keys);
    for k := 0 to |names|
      invariant done <= erased <= owned && forall b | b in erased :: Erased(b)
      invariant forall j | 0 <= j < k :: credentials[names[j]] in erased
    {
      Destroy(credentials[names[k]]);
      erased := erased + {credentials[names[k]]};
    }
  }
}

/** importSecrets of internal/app/app.go. */
module ImportSecrets {
  import opened Wire
  import opened Disks
  import opened AtomicWrites
  import opened Heaps
  import opened VaultData
  import opened VaultStore
  import opened Secrets
  import Configure
  import Text

  const MAX_ENTRIES := 256
  const MAX_VALUE := 256 * 0x400
  const NUL := 0 as char

  datatype Item = Item(integration: string, name: string, value: string)

  datatype Payload = Payload(version: int, secrets: seq<Item>)

  // ---------------------------------------------------------------- validation

  predicate Lower(c: char) { 'a' <= c <= 'z' }

  predicate Letter(c: char) { Lower(c) || 'A' <= c <= 'Z' }

  predicate Mark(c: char) { c == '_' || c == '-' }

  /** ^[a-z0-9][a-z0-9_-]{0,63}$ */
  predicate IntegrationName(s: string) {
    && 1 <= |s| <= 64 && !Mark(s[0])
    && forall i | 0 <= i < |s| :: Lower(s[i]) || Text.IsDigit(s[i]) || Mark(s[i])
  }

  /** ^[A-Za-z][A-Za-z0-9_-]{0,63}$ */
  predicate CredentialName(s: string) {
    && 1 <= |s| <= 64 && Letter(s[0])
    && forall i | 0 <= i < |s| :: Letter(s[i]) || Text.IsDigit(s[i]) || Mark(s[i])
  }

  function JoinedKey(item: Item): string { item.integration + [NUL] + item.name }

  /** Under the name patterns the joined key stands for the pair. */
  lemma JoinedKeyIsPair(a: Item, b: Item)
    requires IntegrationName(a.integration) && IntegrationName(b.integration)
    ensures JoinedKey(a) == JoinedKey(b) <==> a.integration == b.integration && a.name == b.name
  {
    if JoinedKey(a) == JoinedKey(b) {
      Text.FirstSeparator(a.integration, a.name, b.integration, b.name, NUL);
    }
  }

  predicate ItemFits(item: Item) {
    IntegrationName(item.integration) && CredentialName(item.name) && item.value != "" && |item.value| <= MAX_VALUE
  }

  /** The name patterns and the limits of a value, character by character. */
  lemma ItemFitsMeans(item: Item)
    ensures ItemFits(item) <==>
        && 1 <= |item.integration| <= 64 && 1 <= |item.name| <= 64 && 1 <= |item.value| <= 262_144
        && (forall c | c in item.integration :: 'a' <= c <= 'z' || '0' <= c <= '9' || c == '_' || c == '-')
        && item.integration[0] != '_' && item.integration[0] != '-'
        && (forall c | c in item.name ::
            'a' <= c <= 'z' || 'A' <= c <= 'Z' || '0' <= c <= '9' || c == '_' || c == '-')
        && ('a' <= item.name[0] <= 'z' || 'A' <= item.name[0] <= 'Z')
  {
    assert forall i | 0 <= i < |item.integration| :: item.integration[i] in item.integration;
    assert forall i | 0 <= i < |item.name| :: item.name[i] in item.name;
  }

  predicate SamePair(a: Item, b: Item) { a.integration == b.integration && a.name == b.name }

  ghost predicate DistinctPairs(items: seq<Item>) {
    forall i, j | 0 <= i < j < |items| :: !SamePair(items[i], items[j])
  }

  ghost predicate Acceptable(payload: Payload) {
    && payload.version == 1 && 1 <= |payload.secrets| <= MAX_ENTRIES
    && (forall i | 0 <= i < |payload.secrets| :: ItemFits(payload.secrets[i]))
    && DistinctPairs(payload.secrets)
  }

  /** Each item that fits has its pair told from the others by its joined key. */
  ghost predicate KeyTells(fits: Item -> bool) {
    forall a, b | fits(a) && fits(b) :: JoinedKey(a) == JoinedKey(b) <==> SamePair(a, b)
  }

  method CheckPayload(payload: Payload) returns (ok: bool)
    ensures ok <==> Acceptable(payload)
    ensures ok <==>
        && payload.version == 1 && 1 <= |payload.secrets| <= 256
        && (forall i | 0 <= i < |payload.secrets| :: ItemFits(payload.secrets[i]))
        && forall i, j | 0 <= i < j < |payload.secrets| ::
          payload.secrets[i].integration != payload.secrets[j].integration
          || payload.secrets[i].name != payload.secrets[j].name
  {
    if payload.version != 1 || |payload.secrets| == 0 || |payload.secrets| > MAX_ENTRIES {
      return false;
    }
    var fits := item => ItemFits(item);
    forall a, b | fits(a) && fits(b)
      ensures JoinedKey(a) == JoinedKey(b) <==> SamePair(a, b)
    {
      JoinedKeyIsPair(a, b);
    }
    ok := CheckItems(payload.secrets, fits);
  }

  /** The loop over the items, with the set of joined keys seen so far. */
  method CheckItems(items: seq<Item>, fits: Item -> bool) returns (ok: bool)
    requires KeyTells(fits)
    ensures ok <==> (forall i | 0 <= i < |items| :: fits(items[i])) && DistinctPairs(items)
  {
    var seen: set<string> := {};
    for k := 0 to |items|
      invariant forall i | 0 <= i < k :: fits(items[i]) && JoinedKey(items[i]) in seen
      invariant forall i, j | 0 <= i < j < k :: !SamePair(items[i], items[j])
      invariant forall key | key in seen :: exists i :: 0 <= i < k && JoinedKey(items[i]) == key
    {
      if !fits(items[k]) {
        return false;
      }
      var key := JoinedKey(items[k]);
      if key in seen {
        return false;
      }
      seen := seen + {key};
    }
    return true;
  }

  // ---------------------------------------------------------------- overlay

  /** The credentials after setting every item in turn. */
  function Overlay(values: map<string, Credentials>, items: seq<Item>): map<string, Credentials> {
    if items == [] then values
    else
      var last := items[|items| - 1];
      Put(Overlay(values, items[..|items| - 1]), last.integration, last.name, last.value)
  }

  function Lookup(values: map<string, Credentials>, integration: string, name: string): Option<string> {
    if integration in values && name in values[integration] then Some(values[integration][name]) else None
  }

  ghost predicate Names(items: seq<Item>, integration: string, name: string) {
    exists k :: 0 <= k < |items| && items[k].integration == integration && items[k].name == name
  }

  lemma PutLookup(values: map<string, Credentials>, item: Item, integration: string, name: string)
    ensures Lookup(Put(values, item.integration, item.name, item.value), integration, name) ==
        if item.integration == integration && item.name == name then Some(item.value)
        else Lookup(values, integration, name)
    ensures Put(values, item.integration, item.name, item.value).Keys == values.Keys + {item.integration}
  {
  }

  /** An overlay holds the items of the payload, and everything else as it was. */
  lemma {:induction false} OverlayHolds(
      values: map<string, Credentials>, items: seq<Item>, integration: string, name: string)
    requires DistinctPairs(items)
    ensures forall k | 0 <= k < |items| && items[k].integration == integration && items[k].name == name ::
        Lookup(Overlay(values, items), integration, name) == Some(items[k].value)
    ensures !Names(items, integration, name) ==>
        Lookup(Overlay(values, items), integration, name) == Lookup(values, integration, name)
  {
    if items != [] {
      var shorter, last := items[..|items| - 1], items[|items| - 1];
      OverlayHolds(values, shorter, integration, name);
      PutLookup(Overlay(values, shorter), last, integration, name);
      assert forall k | 0 <= k < |shorter| :: !SamePair(items[k], last) && shorter[k] == items[k];
    }
  }

  /** An import adds the integrations it names and no others. */
  lemma {:induction false} OverlayIntegrations(values: map<string, Credentials>, items: seq<Item>, integration: string)
    ensures integration in Overlay(values, items) <==>
        integration in values || exists k :: 0 <= k < |items| && items[k].integration == integration
  {
    if items != [] {
      var shorter, last := items[..|items| - 1], items[|items| - 1];
      OverlayIntegrations(values, shorter, integration);
      PutLookup(Overlay(values, shorter), last, integration, last.name);
      assert forall k | 0 <= k < |shorter| :: shorter[k] == items[k];
    }
  }

  // ---------------------------------------------------------------- import

  /** The store of an opened vault and the data it held. */
  ghost predicate Opened(
      base: Config, keys: (string, string) -> Option<KeyWrapper>, found: Found<Blob>, target: Config, data: Data) {
    && keys(target.provider, target.keyName) == Some(target.wrapper)
    && target == base.(provider := target.provider, keyName := target.keyName, wrapper := target.wrapper)
    && Loads(target, found, data)
  }

  /** The vault owns every buffer that was made meanwhile. */
  ghost predicate Grown(heap: Ledger<char>, memory: Memory, buffers: set<array<char>>, owned: set<array<char>>)
    reads heap, memory
  {
    owned <= memory.owned && heap.buffers == buffers + (memory.owned - owned)
  }

  /** Since `from` a buffer was made with this text. */
  ghost predicate Held(held: seq<string>, from: nat, text: string) {
    exists i :: from <= i < |held| && held[i] == text
  }

  lemma HeldLonger(held: seq<string>, longer: seq<string>, from: nat, text: string)
    requires Held(held, from, text) && held <= longer
    ensures Held(longer, from, text)
  {
    var i :| from <= i < |held| && held[i] == text;
    assert longer[i] == text;
  }

  /** Since `from` a buffer was made for each of these credentials. */
  ghost predicate CredentialsHeld(held: seq<string>, from: nat, credentials: Credentials) {
    forall n | n in credentials :: Held(held, from, credentials[n])
  }

  lemma CredentialsHeldLonger(held: seq<string>, longer: seq<string>, from: nat, earlier: nat, credentials: Credentials)
    requires CredentialsHeld(held, from, credentials) && held <= longer && earlier <= from
    ensures CredentialsHeld(longer, earlier, credentials)
  {
    forall n | n in credentials
      ensures Held(longer, earlier, credentials[n])
    {
      HeldLonger(held, longer, from, credentials[n]);
    }
  }

  /** Since `from` a buffer was made for every secret of the data. */
  ghost predicate DataHeld(held: seq<string>, from: nat, data: Data) {
    && Held(held, from, data.controlPlane.signingPrivateKey)
    && forall i | i in Normalized(data).integrations.value ::
        CredentialsHeld(held, from, Normalized(data).integrations.value[i])
  }

  lemma DataHeldLonger(held: seq<string>, longer: seq<string>, from: nat, data: Data)
    requires DataHeld(held, from, data) && held <= longer
    ensures DataHeld(longer, from, data)
  {
    HeldLonger(held, longer, from, data.controlPlane.signingPrivateKey);
    forall i | i in Normalized(data).integrations.value
      ensures CredentialsHeld(longer, from, Normalized(data).integrations.value[i])
    {
      CredentialsHeldLonger(held, longer, from, from, Normalized(data).integrations.value[i]);
    }
  }

  /** One credential is set to a new secret. */
  method SetText(heap: Ledger<char>, memory: Memory, integration: string, name: string, text: string)
    requires memory.Valid()
    modifies heap, memory, memory.owned
    ensures memory.Valid() && Grown(heap, memory, old(heap.buffers), old(memory.owned))
    ensures fresh(memory.owned - old(memory.owned))
    ensures memory.Contents() ==
        old(memory.Contents()).(integrations := Some(Put(old(memory.Values()), integration, name, text)))
    ensures heap.held == old(heap.held) + [text]
  {
    var value := NewSecret(heap, text);
    memory.Set(integration, name, value);
  }

  /** Since `from` a buffer was made for the key and for the credentials of the first k integrations. */
  ghost predicate PartHeld(held: seq<string>, from: nat, data: Data, names: seq<string>, k: nat)
    requires k <= |names| && forall n | n in names :: n in Normalized(data).integrations.value
  {
    && Held(held, from, data.controlPlane.signingPrivateKey)
    && forall j | 0 <= j < k :: CredentialsHeld(held, from, Normalized(data).integrations.value[names[j]])
  }

  lemma PartHeldNext(held: seq<string>, longer: seq<string>, from: nat, data: Data, names: seq<string>, k: nat)
    requires k < |names| && forall n | n in names :: n in Normalized(data).integrations.value
    requires PartHeld(held, from, data, names, k) && held <= longer && from <= |held|
    requires CredentialsHeld(longer, |held|, Normalized(data).integrations.value[names[k]])
    ensures PartHeld(longer, from, data, names, k + 1)
  {
    HeldLonger(held, longer, from, data.controlPlane.signingPrivateKey);
    var values := Normalized(data).integrations.value;
    forall j | 0 <= j < k
      ensures CredentialsHeld(longer, from, values[names[j]])
    {
      CredentialsHeldLonger(held, longer, from, from, values[names[j]]);
    }
    CredentialsHeldLonger(longer, longer, |held|, from, values[names[k]]);
  }

  /** Decoding a vault: every secret becomes a buffer, and the vault owns all that are made. */
  method Decoded(heap: Ledger<char>, data: Data) returns (memory: Memory)
    modifies heap
    ensures fresh(memory) && fresh(memory.owned) && memory.Valid() && memory.Contents() == Normalized(data)
    ensures heap.buffers == old(heap.buffers) + memory.owned
    ensures old(heap.held) <= heap.held && DataHeld(heap.held, |old(heap.held)|, data)
  {
    ghost var from := |heap.held|;
    var values := Normalized(data).integrations.value;
    memory := new Memory(heap, data.controlPlane);
    assert heap.held[from] == data.controlPlane.signingPrivateKey;
    var names := Secrets.Names(values.Keys);
    for k := 0 to |names|
      invariant fresh(memory) && fresh(memory.owned) && memory.Valid()
      invariant heap.buffers == old(heap.buffers) + memory.owned
      invariant memory.Contents() == Data(data.controlPlane, Some(Part(values, names[..k])))
      invariant old(heap.held) <= heap.held && PartHeld(heap.held, from, data, names, k)
    {
      ghost var held := heap.held;
      DecodeNext(heap, memory, values, names, k);
      PartHeldNext(held, heap.held, from, data, names, k);
    }
    assert names[..|names|] == names;
    PartAll(values, names);
    assert memory.Contents() == Normalized(data);
  }

  /** The entries of a map under some of its keys. */
  function Part<T>(values: map<string, T>, names: seq<string>): map<string, T> {
    if names == [] then map[]
    else
      var last := names[|names| - 1];
      if last in values then Part(values, names[..|names| - 1])[last := values[last]] else map[]
  }

  lemma {:induction false} PartIs<T>(values: map<string, T>, names: seq<string>)
    requires forall n | n in names :: n in values
    ensures forall n :: n in Part(values, names) <==> n in names
    ensures forall n | n in names :: Part(values, names)[n] == values[n]
  {
    if names != [] {
      assert names == names[..|names| - 1] + [names[|names| - 1]];
      PartIs(values, names[..|names| - 1]);
    }
  }

  lemma PartAll<T>(values: map<string, T>, names: seq<string>)
    requires forall n :: n in names <==> n in values
    ensures Part(values, names) == values
  {
    PartIs(values, names);
  }

  lemma PutPart(
      values: map<string, Credentials>, integration: string, credentials: Credentials, names: seq<string>, k: nat)
    requires k < |names| && names[k] in credentials
    ensures Put(values[integration := Part(credentials, names[..k])], integration, names[k], credentials[names[k]])
        == values[integration := Part(credentials, names[..k + 1])]
  {
    assert names[..k + 1][..k] == names[..k];
  }

  method DecodeNext(heap: Ledger<char>, memory: Memory, values: map<string, Credentials>, names: seq<string>, k: nat)
    requires k < |names| && (forall n | n in names :: n in values) && names[k] !in names[..k]
    requires memory.Valid() && memory.Values() == Part(values, names[..k])
    modifies heap, memory, memory.owned
    ensures memory.Valid() && Grown(heap, memory, old(heap.buffers), old(memory.owned))
    ensures fresh(memory.owned - old(memory.owned))
    ensures memory.Contents() == old(memory.Contents()).(integrations := Some(Part(values, names[..k + 1])))
    ensures old(heap.held) <= heap.held && CredentialsHeld(heap.held, |old(heap.held)|, values[names[k]])
  {
    assert names[..k + 1][..k] == names[..k];
    PartIs(values, names[..k]);
    memory.ValuesKeys();
    DecodeCredentials(heap, memory, names[k], values[names[k]]);
  }

  method DecodeCredentials(heap: Ledger<char>, memory: Memory, integration: string, credentials: Credentials)
    requires memory.Valid() && integration !in memory.integrations
    modifies heap, memory, memory.owned
    ensures memory.Valid() && Grown(heap, memory, old(heap.buffers), old(memory.owned))
    ensures fresh(memory.owned - old(memory.owned))
    ensures memory.Values() == old(memory.Values())[integration := credentials]
    ensures memory.Contents() == old(memory.Contents()).(integrations := Some(memory.Values()))
    ensures old(heap.held) <= heap.held && CredentialsHeld(heap.held, |old(heap.held)|, credentials)
  {
    ghost var before := memory.Values();
    memory.AddIntegration(integration);
    SetCredentials(heap, memory, before, integration, credentials);
  }

  /** The loop over the credentials of a new integration. */
  method SetCredentials(
      heap: Ledger<char>, memory: Memory, ghost before: map<string, Credentials>, integration: string,
      credentials: Credentials)
    requires memory.Valid() && memory.Values() == before[integration := map[]]
    modifies heap, memory, memory.owned
    ensures memory.Valid() && Grown(heap, memory, old(heap.buffers), old(memory.owned))
    ensures fresh(memory.owned - old(memory.owned))
    ensures memory.Values() == before[integration := credentials]
    ensures memory.Contents() == old(memory.Contents()).(integrations := Some(memory.Values()))
    ensures old(heap.held) <= heap.held && CredentialsHeld(heap.held, |old(heap.held)|, credentials)
  {
    ghost var start := heap.held;
    var names := Secrets.Names(credentials.Keys);
    for k := 0 to |names|
      invariant memory.Valid() && Grown(heap, memory, old(heap.buffers), old(memory.owned))
      invariant fresh(memory.owned - old(memory.owned))
      invariant memory.Values() == before[integration := Part(credentials, names[..k])]
      invariant memory.Contents() == old(memory.Contents()).(integrations := Some(memory.Values()))
      invariant heap.held == start + InTurn(credentials, names, k)
    {
      DecodeCredential(heap, memory, before, start, integration, credentials, names, k);
    }
    AllDecoded(start, credentials, names);
  }

  /** After the last name the part is the whole, and every credential has had its buffer. */
  lemma AllDecoded(start: seq<string>, credentials: Credentials, names: seq<string>)
    requires forall n :: n in names <==> n in credentials
    ensures Part(credentials, names[..|names|]) == credentials
    ensures CredentialsHeld(start + InTurn(credentials, names, |names|), |start|, credentials)
  {
    assert names[..|names|] == names;
    PartAll(credentials, names);
    HeldInTurn(start, credentials, names);
  }

  /** The values under the first k names. */
  function InTurn(credentials: Credentials, names: seq<string>, k: nat): seq<string>
    requires k <= |names| && forall n | n in names :: n in credentials
  {
    seq(k, j requires 0 <= j < k => credentials[names[j]])
  }

  method DecodeCredential(
      heap: Ledger<char>, memory: Memory, ghost before: map<string, Credentials>, ghost start: seq<string>,
      integration: string, credentials: Credentials, names: seq<string>, k: nat)
    requires memory.Valid() && k < |names| && (forall n | n in names :: n in credentials)
    requires heap.held == start + InTurn(credentials, names, k)
    requires memory.Values() == before[integration := Part(credentials, names[..k])]
    modifies heap, memory, memory.owned
    ensures memory.Valid() && Grown(heap, memory, old(heap.buffers), old(memory.owned))
    ensures fresh(memory.owned - old(memory.owned))
    ensures memory.Values() == before[integration := Part(credentials, names[..k + 1])]
    ensures memory.Contents() == old(memory.Contents()).(integrations := Some(memory.Values()))
    ensures heap.held == start + InTurn(credentials, names, k + 1)
  {
    assert start + InTurn(credentials, names, k) + [credentials[names[k]]] == start + InTurn(credentials, names, k + 1);
    PutPart(before, integration, credentials, names, k);
    SetText(heap, memory, integration, names[k], credentials[names[k]]);
  }

  lemma HeldInTurn(start: seq<string>, credentials: Credentials, names: seq<string>)
    requires forall n :: n in names <==> n in credentials
    ensures CredentialsHeld(start + InTurn(credentials, names, |names|), |start|, credentials)
  {
    forall n | n in credentials
      ensures Held(start + InTurn(credentials, names, |names|), |start|, credentials[n])
    {
      var j :| 0 <= j < |names| && names[j] == n;
      assert (start + InTurn(credentials, names, |names|))[|start| + j] == credentials[n];
    }
  }

  /** openVault: metadata, its key provider (`keys` has the key file as it is), and the data in owned buffers. */
  method OpenVault(
      heap: Ledger<char>, bytes: Ledger<Byte>, base: Config, keys: (string, string) -> Option<KeyWrapper>,
      found: Found<Blob>)
    returns (target: Config, memory: Option<Memory>, ghost data: Data)
    modifies heap, bytes
    ensures memory.Some? ==>
        && Opened(base, keys, found, target, data)
        && fresh(memory.value) && fresh(memory.value.owned)
        && memory.value.Valid() && memory.value.Contents() == Normalized(data)
        && heap.buffers == old(heap.buffers) + memory.value.owned
        && old(heap.held) <= heap.held && DataHeld(heap.held, |old(heap.held)|, data)
    ensures memory.None? ==> heap.buffers == old(heap.buffers) && forall t, d :: !Opened(base, keys, found, t, d)
    ensures WipedSince(bytes, old(bytes.buffers))
  {
    target, memory, data := base, None, Configure.EmptyData();
    var metadata := ReadEnvelope(found);
    if metadata.Err? {
      return;
    }
    var wrapper := keys(metadata.value.provider, metadata.value.keyName);
    if wrapper.None? {
      return;
    }
    target := base.(provider := metadata.value.provider, keyName := metadata.value.keyName, wrapper := wrapper.value);
    var loaded := Load(bytes, target, found);
    if loaded.Err? {
      return;
    }
    var decoded := Decoded(heap, loaded.value);
    memory, data := Some(decoded), loaded.value;
  }

  /** The values of the first k items. */
  function ValuesOf(items: seq<Item>, k: nat): seq<string>
    requires k <= |items|
  {
    seq(k, j requires 0 <= j < k => items[j].value)
  }

  lemma ValuesHeld(held: seq<string>, items: seq<Item>, from: nat)
    requires from <= |held|
    ensures forall j | 0 <= j < |items| :: Held(held + ValuesOf(items, |items|), from, items[j].value)
  {
    forall j | 0 <= j < |items|
      ensures Held(held + ValuesOf(items, |items|), from, items[j].value)
    {
      assert (held + ValuesOf(items, |items|))[|held| + j] == items[j].value;
    }
  }

  /** The Set loop of importSecrets. */
  method SetAll(heap: Ledger<char>, memory: Memory, items: seq<Item>)
    requires memory.Valid()
    modifies heap, memory, memory.owned
    ensures memory.Valid() && Grown(heap, memory, old(heap.buffers), old(memory.owned))
    ensures fresh(memory.owned - old(memory.owned))
    ensures memory.Contents() ==
        old(memory.Contents()).(integrations := Some(Overlay(old(memory.Values()), items)))
    ensures heap.held == old(heap.held) + ValuesOf(items, |items|)
  {
    ghost var before, start := memory.Values(), heap.held;
    for k := 0 to |items|
      invariant memory.Valid() && Grown(heap, memory, old(heap.buffers), old(memory.owned))
      invariant fresh(memory.owned - old(memory.owned))
      invariant memory.Contents() == old(memory.Contents()).(integrations := Some(Overlay(before, items[..k])))
      invariant heap.held == start + ValuesOf(items, k)
    {
      SetItem(heap, memory, before, start, items, k);
    }
    assert items[..|items|] == items;
  }

  method SetItem(
      heap: Ledger<char>, memory: Memory, ghost before: map<string, Credentials>, ghost start: seq<string>,
      items: seq<Item>, k: nat)
    requires memory.Valid() && k < |items| && memory.Values() == Overlay(before, items[..k])
    requires heap.held == start + ValuesOf(items, k)
    modifies heap, memory, memory.owned
    ensures memory.Valid() && Grown(heap, memory, old(heap.buffers), old(memory.owned))
    ensures fresh(memory.owned - old(memory.owned))
    ensures memory.Contents() == old(memory.Contents()).(integrations := Some(Overlay(before, items[..k + 1])))
    ensures heap.held == start + ValuesOf(items, k + 1)
  {
    assert items[..k + 1][..k] == items[..k];
    assert start + ValuesOf(items, k) + [items[k].value] == start + ValuesOf(items, k + 1);
    SetText(heap, memory, items[k].integration, items[k].name, items[k].value);
  }

  /** What a successful import would save. */
  ghost function Imported(data: Data, payload: Payload): Data {
    data.(integrations := Some(Overlay(Normalized(data).integrations.value, payload.secrets)))
  }

  /**
   The vault that an import saves: its control plane as it was, each item's value under its integration and
   name, every other credential as it was, and no integration but the old ones and those of the items.
  */
  lemma ImportedMeans(data: Data, payload: Payload, integration: string, name: string)
    requires Acceptable(payload)
    ensures var before := if data.integrations.Some? then data.integrations.value else map[];
      var after := Imported(data, payload);
      && after.controlPlane == data.controlPlane && after.integrations.Some?
      && (integration in after.integrations.value <==>
          || integration in before
          || exists k :: 0 <= k < |payload.secrets| && payload.secrets[k].integration == integration)
      && (forall k | 0 <= k < |payload.secrets| && payload.secrets[k].integration == integration
            && payload.secrets[k].name == name ::
          && integration in after.integrations.value && name in after.integrations.value[integration]
          && after.integrations.value[integration][name] == payload.secrets[k].value)
      && ((forall k | 0 <= k < |payload.secrets| ::
            payload.secrets[k].integration != integration || payload.secrets[k].name != name) ==>
          if integration in before && name in before[integration] then
            && integration in after.integrations.value && name in after.integrations.value[integration]
            && after.integrations.value[integration][name] == before[integration][name]
          else integration in after.integrations.value ==> name !in after.integrations.value[integration])
  {
    var before := if data.integrations.Some? then data.integrations.value else map[];
    OverlayHolds(before, payload.secrets, integration, name);
    OverlayIntegrations(before, payload.secrets, integration);
  }

  /** How the Save of the data ended. */
  ghost predicate Stored(start: Disk<Blob>, disk: Disk<Blob>, target: Config, saved: Data, draw: Draw, ok: bool) {
    && ok == Saves(target, saved, draw)
    && if ok then Configure.Committed(disk, target, saved, draw)
       else Configure.Unfinished(start, disk, target, saved, draw)
  }

  /** Since `from` a buffer was made for every secret of the vault and of the payload. */
  ghost predicate AllHeld(held: seq<string>, from: nat, data: Data, payload: Payload) {
    DataHeld(held, from, data) && forall j | 0 <= j < |payload.secrets| :: Held(held, from, payload.secrets[j].value)
  }

  /** Since `before` every new buffer has been erased. */
  ghost predicate ErasedSince(heap: Ledger<char>, before: set<array<char>>)
    reads heap, heap.buffers
  {
    before <= heap.buffers && forall b | b in heap.buffers - before :: Erased(b)
  }

  /**
   importSecrets; an absent payload stands for input that is no single, well-typed JSON object. A
   rejected payload changes nothing and opens nothing. Once the vault was opened, the old data
   overlaid with the payload is saved. However the Save fared, every buffer that was made for a secret,
   a key or a plaintext is erased in the end.
  */
  method Import(
      fs: FileSystem<Blob>, heap: Ledger<char>, bytes: Ledger<Byte>, base: Config,
      keys: (string, string) -> Option<KeyWrapper>, payload: Option<Payload>, draw: Draw)
    returns (ok: bool, target: Config, memory: Option<Memory>, ghost data: Data)
    requires WellFormed(fs.disk) && draw.temporary !in fs.disk.entries && draw.temporary != base.path
    requires |draw.key| == KEY_SIZE && |draw.nonce| == NONCE_SIZE
    modifies fs, heap, bytes
    ensures WellFormed(fs.disk)
    ensures payload.None? || !Acceptable(payload.value) ==> memory.None?
    ensures memory.None? ==> !ok && fs.disk == old(fs.disk)
    ensures memory.None? && payload.Some? && Acceptable(payload.value) ==>
        forall t, d :: !Opened(base, keys, Read(old(fs.disk), base.path), t, d)
    ensures memory.Some? ==>
        && Opened(base, keys, Read(old(fs.disk), base.path), target, data)
        && Stored(old(fs.disk), fs.disk, target, Imported(data, payload.value), draw, ok)
        && memory.value.integrations == map[] && AllHeld(heap.held, |old(heap.held)|, data, payload.value)
    ensures ok ==> payload.Some? && forall found ::
        Survives(fs.disk, base.path, found) <==> found == Whole(SavedBlob(target, Imported(data, payload.value), draw))
    ensures ErasedSince(heap, old(heap.buffers)) && WipedSince(bytes, old(bytes.buffers))
  {
    ok, target, memory, data := false, base, None, Configure.EmptyData();
    if payload.None? {
      return;
    }
    var acceptable := CheckPayload(payload.value);
    if !acceptable {
      return;
    }
    ok, target, memory, data := ImportItems(fs, heap, bytes, base, keys, payload.value, draw);
  }

  /** importSecrets with an acceptable payload. */
  method ImportItems(
      fs: FileSystem<Blob>, heap: Ledger<char>, bytes: Ledger<Byte>, base: Config,
      keys: (string, string) -> Option<KeyWrapper>, payload: Payload, draw: Draw)
    returns (ok: bool, target: Config, memory: Option<Memory>, ghost data: Data)
    requires WellFormed(fs.disk) && draw.temporary !in fs.disk.entries && draw.temporary != base.path
    requires |draw.key| == KEY_SIZE && |draw.nonce| == NONCE_SIZE
    modifies fs, heap, bytes
    ensures WellFormed(fs.disk)
    ensures memory.None? ==>
        !ok && fs.disk == old(fs.disk) && forall t, d :: !Opened(base, keys, Read(fs.disk, base.path), t, d)
    ensures memory.Some? ==>
        && Opened(base, keys, Read(old(fs.disk), base.path), target, data)
        && Stored(old(fs.disk), fs.disk, target, Imported(data, payload), draw, ok)
        && memory.value.integrations == map[] && AllHeld(heap.held, |old(heap.held)|, data, payload)
    ensures ErasedSince(heap, old(heap.buffers)) && WipedSince(bytes, old(bytes.buffers))
  {
    ok := false;
    target, memory, data := OpenVault(heap, bytes, base, keys, Read(fs.disk, base.path));
    if memory.None? {
      return;
    }
    ghost var held := heap.held;
    ok := Overwrite(fs, heap, bytes, target, memory.value, payload.secrets, draw);
    DataHeldLonger(held, heap.held, |old(heap.held)|, data);
    ValuesHeld(held, payload.secrets, |old(heap.held)|);
  }

  /** Setting, saving and erasing: what the vault owned and what it came to own ends erased. */
  method Overwrite(
      fs: FileSystem<Blob>, heap: Ledger<char>, bytes: Ledger<Byte>, target: Config, memory: Memory, items: seq<Item>,
      draw: Draw)
    returns (ok: bool)
    requires WellFormed(fs.disk) && draw.temporary !in fs.disk.entries && draw.temporary != target.path
    requires |draw.key| == KEY_SIZE && |draw.nonce| == NONCE_SIZE && memory.Valid()
    modifies fs, heap, bytes, memory, memory.owned
    ensures WellFormed(fs.disk) && memory.integrations == map[]
    ensures Grown(heap, memory, old(heap.buffers), old(memory.owned)) && forall b | b in memory.owned :: Erased(b)
    ensures heap.held == old(heap.held) + ValuesOf(items, |items|)
    ensures WipedSince(bytes, old(bytes.buffers))
    ensures var saved := old(memory.Contents()).(integrations := Some(Overlay(old(memory.Values()), items)));
      Stored(old(fs.disk), fs.disk, target, saved, draw, ok)
  {
    SetAll(heap, memory, items);
    ok := Configure.Commit(fs, bytes, target, memory.Contents(), draw);
    memory.DestroyAll();
  }
}
