/**
 configure, nonInteractiveSetup and validateSetup of internal/app/app.go: creating a vault, moving
 it to another key provider, and enrolling. The terminal, the control plane, the key providers and
 the text patterns are parameters.
*/
module Configure {
  import opened Wire
  import opened Disks
  import opened AtomicWrites
  import opened Heaps
  import opened VaultData
  import opened VaultStore
  import opened KeyFiles
  import Utf8

  const CANONICAL_URL := "https://beacon.iamly.io"

  datatype Options = Options(
    provider: string, providerExplicit: bool, nonInteractive: bool, keyName: string, name: string, tokenFromStdin: bool)

  datatype Setup = Setup(provider: string, keyName: string, data: Data, token: string)

  /** What the setup form returns: an error, a cancel, or its (trimmed) fields. */
  datatype Form = FormFailed | FormCancelled | Submitted(keyName: string, name: string, token: string)

  /** What enrolling returns, with the key pair generated for it. */
  datatype Enrolled = Enrolled(beaconID: string, beaconName: string, privateKey: string, publicKey: string)

  /** The text patterns; `displayName` is the negation of invalidDisplayText at 80 bytes. */
  datatype Rules = Rules(
    trim: string -> string, googleKey: string -> bool, awsKey: string -> bool,
    displayName: string -> bool, beaconID: string -> bool, token: string -> bool,
    completeIdentity: ControlPlane -> bool, versionOk: bool)

  /**
   Everything outside: the cloud key providers, input, and what the control plane answers to an enrollment with
   a Beacon name and a token; and of the local key its path,
   the randomness it draws, the key that would be made, and whether an existing file is refused (as no
   regular file, for its permissions, or by a failing call) for the vault that is there and for the new setup.
  */
  datatype World = World(
    cloud: (string, string) -> Option<KeyWrapper>, form: Form, stdinToken: Option<string>,
    identity: bool, enroll: (string, string) -> Option<Enrolled>, probe: Draw, draw: Draw,
    keyPath: string, nonces: nat -> Bytes, newKey: Bytes, keyFaults: KeyFaults,
    oldKeyRefused: bool, newKeyRefused: bool)

  datatype Event = SelfTested(ok: bool) | EnrollCalled | SaveCalled

  datatype Ending = Done | Cancelled | Failed

  function EmptyData(): Data { Data(ControlPlane("", "", "", "", ""), Some(map[])) }

  // ---------------------------------------------------------------- setup

  /** The options fit the provider, and a token that is to come from stdin comes. */
  predicate OptionsFit(options: Options, initial: Setup, stdinToken: Option<string>) {
    && options.name != ""
    && (if initial.provider == PROVIDER_LOCAL then options.keyName == ""
        else options.keyName != "" || initial.keyName != "")
    && (options.tokenFromStdin ==> stdinToken.Some?)
  }

  /** Key name, Beacon name and token are taken from the options, the rest is as it was. */
  ghost predicate TakenFrom(options: Options, initial: Setup, stdinToken: Option<string>, result: Setup) {
    && result.provider == initial.provider
    && result.keyName == (if options.keyName != "" then options.keyName else initial.keyName)
    && result.data == initial.data.(controlPlane := initial.data.controlPlane.(beaconName := options.name))
    && (if options.tokenFromStdin then stdinToken == Some(result.token) else result.token == initial.token)
  }

  method NonInteractiveSetup(options: Options, initial: Setup, stdinToken: Option<string>) returns (r: Option<Setup>)
    ensures r.Some? <==> OptionsFit(options, initial, stdinToken)
    ensures r.Some? ==> TakenFrom(options, initial, stdinToken, r.value)
  {
    if options.name == "" {
      return None;
    }
    if initial.provider != PROVIDER_LOCAL && options.keyName == "" && initial.keyName == "" {
      return None;
    }
    if initial.provider == PROVIDER_LOCAL && options.keyName != "" {
      return None;
    }
    var result := initial;
    if options.keyName != "" {
      result := result.(keyName := options.keyName);
    }
    result := result.(data := result.data.(controlPlane := result.data.controlPlane.(beaconName := options.name)));
    if options.tokenFromStdin {
      if stdinToken.None? {
        return None;
      }
      result := result.(token := stdinToken.value);
    }
    return Some(result);
  }

  /** tui.Setup: only key name, Beacon name and token come from the form. */
  function FormSetup(initial: Setup, form: Form): Setup
    requires form.Submitted?
  {
    Setup(initial.provider,
          if initial.provider != PROVIDER_LOCAL then form.keyName else LOCAL_KEY_NAME,
          Normalized(initial.data).(controlPlane := initial.data.controlPlane.(beaconName := form.name)),
          form.token)
  }

  ghost predicate KeyNameFits(provider: string, keyName: string, rules: Rules) {
    || (provider == PROVIDER_LOCAL && keyName == LOCAL_KEY_NAME)
    || (provider == PROVIDER_GOOGLE && rules.googleKey(keyName))
    || (provider == PROVIDER_AWS && rules.awsKey(keyName))
  }

  /** Without a token the Beacon must already be enrolled, and keeps its name. */
  ghost predicate ValidSetup(result: Setup, initial: Setup, hasVault: bool, rules: Rules) {
    && KeyNameFits(result.provider, result.keyName, rules)
    && result.data.controlPlane.url == CANONICAL_URL
    && rules.displayName(rules.trim(result.data.controlPlane.beaconName)) && rules.versionOk
    && (if result.token != "" then rules.token(result.token)
        else hasVault && rules.completeIdentity(initial.data.controlPlane)
             && rules.trim(result.data.controlPlane.beaconName) == initial.data.controlPlane.beaconName)
  }

  method ValidateSetup(result: Setup, initial: Setup, hasVault: bool, rules: Rules) returns (ok: bool)
    ensures ok <==> ValidSetup(result, initial, hasVault, rules)
  {
    if result.provider == PROVIDER_LOCAL {
      if result.keyName != LOCAL_KEY_NAME {
        return false;
      }
    } else if result.provider == PROVIDER_GOOGLE {
      if !rules.googleKey(result.keyName) {
        return false;
      }
    } else if result.provider == PROVIDER_AWS {
      if !rules.awsKey(result.keyName) {
        return false;
      }
    } else {
      return false;
    }
    if result.data.controlPlane.url != CANONICAL_URL {
      return false;
    }
    var name := rules.trim(result.data.controlPlane.beaconName);
    if !rules.displayName(name) {
      return false;
    }
    if !rules.versionOk {
      return false;
    }
    if result.token != "" {
      return rules.token(result.token);
    }
    if !hasVault || !rules.completeIdentity(initial.data.controlPlane) {
      return false;
    }
    return name == initial.data.controlPlane.beaconName;
  }

  /** The key provider gives a fresh probe back. */
  predicate GivesBack(keyName: string, wrapper: KeyWrapper, probe: Draw) {
    && wrapper.wrap(keyName, probe.key, probe.seed).Some?
    && wrapper.unwrap(keyName, wrapper.wrap(keyName, probe.key, probe.seed).value) == Some(probe.key)
  }

  method SelfTest(keyName: string, wrapper: KeyWrapper, probe: Draw) returns (ok: bool)
    ensures ok <==> GivesBack(keyName, wrapper, probe)
    ensures ok <==> exists wrapped ::
        && wrapper.wrap(keyName, probe.key, probe.seed) == Some(wrapped)
        && wrapper.unwrap(keyName, wrapped) == Some(probe.key)
  {
    var wrapped := wrapper.wrap(keyName, probe.key, probe.seed);
    if wrapped.None? {
      return false;
    }
    var unwrapped := wrapper.unwrap(keyName, wrapped.value);
    if unwrapped.None? {
      return false;
    }
    return unwrapped.value == probe.key;
  }

  // ---------------------------------------------------------------- configure

  /** The state of the vault before: absent, or loaded under its own provider and key. */
  datatype Before = Before(hasVault: bool, provider: string, keyName: string, data: Data)

  /** OpenLocalKey: the key in a file that is not refused and has the size of one. */
  function LocalKey(file: Found<Blob>, refused: bool): Option<Bytes> {
    if file.Whole? && !refused && file.blob.raw.Some? && |file.blob.raw.value| == VaultData.KEY_SIZE then file.blob.raw
    else None
  }

  /** keyWrapper, once there is a key file if there is to be one. */
  function Provider(
      world: World, provider: string, keyName: string, keyFile: Found<Blob>, refused: bool): Option<KeyWrapper> {
    if provider != PROVIDER_LOCAL then world.cloud(provider, keyName)
    else match LocalKey(keyFile, refused)
      case None => None
      case Some(key) => Some(LocalWrapper(key, world.nonces))
  }

  /** The provider of the vault that a disk holds; a local key is the one in the key file that is found there. */
  function OldProvider(world: World, disk: Disk<Blob>, before: Before): Option<KeyWrapper> {
    Provider(world, before.provider, before.keyName, Read(disk, world.keyPath), world.oldKeyRefused)
  }

  ghost predicate OpenedFrom(base: Config, world: World, disk: Disk<Blob>, before: Before) {
    var found := Read(disk, base.path);
    if !before.hasVault then found == Missing && before == Before(false, "", "", EmptyData())
    else
      var wrapper := OldProvider(world, disk, before);
      wrapper.Some?
      && var store := base.(provider := before.provider, keyName := before.keyName, wrapper := wrapper.value);
         Loads(store, found, before.data)
  }

  /** A file is opened in one way only. */
  lemma OpenedOnce(base: Config, world: World, disk: Disk<Blob>, a: Before, b: Before)
    requires OpenedFrom(base, world, disk, a) && OpenedFrom(base, world, disk, b)
    ensures a == b
  {
  }

  /** The opening: metadata, its key provider, and the data; no vault is fine, an unreadable one is not. */
  method OpenExisting(heap: Ledger<Byte>, base: Config, world: World, disk: Disk<Blob>) returns (before: Option<Before>)
    modifies heap
    ensures before.Some? ==> OpenedFrom(base, world, disk, before.value)
    ensures before.None? ==> forall other :: !OpenedFrom(base, world, disk, other)
    ensures WipedSince(heap, old(heap.buffers))
  {
    var found := Read(disk, base.path);
    var metadata := ReadEnvelope(found);
    if metadata.Err? {
      if metadata.error == NotFound {
        return Some(Before(false, "", "", EmptyData()));
      }
      return None;
    }
    var opening := Before(true, metadata.value.provider, metadata.value.keyName, EmptyData());
    var wrapper := OldProvider(world, disk, opening);
    if wrapper.None? {
      return None;
    }
    var store := base.(provider := opening.provider, keyName := opening.keyName, wrapper := wrapper.value);
    var loaded := Load(heap, store, found);
    if loaded.Err? {
      return None;
    }
    return Some(opening.(data := loaded.value));
  }

  /** The provider and key name the setup starts from. */
  function InitialSetup(options: Options, before: Before): Setup {
    var provider :=
      if options.providerExplicit then options.provider
      else if before.provider == "" then PROVIDER_LOCAL
      else before.provider;
    var keyName :=
      if provider == PROVIDER_LOCAL then LOCAL_KEY_NAME
      else if before.hasVault && provider != before.provider then ""
      else before.keyName;
    Setup(provider, keyName, Retained(before.data), "")
  }

  /** The data a token-free configure writes: everything as it was, under the canonical URL. */
  function Retained(data: Data): Data {
    data.(controlPlane := data.controlPlane.(url := CANONICAL_URL))
  }

  /** The identity that an enrollment yields, at the one control plane. */
  ghost predicate NewIdentity(p: ControlPlane, e: Enrolled) {
    && p.url == CANONICAL_URL && p.beaconID == e.beaconID && p.beaconName == e.beaconName
    && p.signingPrivateKey == e.privateKey && p.signingPublicKey == e.publicKey
  }

  // What a run of configure is asked for, by its options or by the form.

  function AskedName(options: Options, world: World): string {
    if options.nonInteractive then options.name else if world.form.Submitted? then world.form.name else ""
  }

  function AskedKey(options: Options, world: World): string {
    if options.nonInteractive then options.keyName else if world.form.Submitted? then world.form.keyName else ""
  }

  function AskedToken(options: Options, world: World): string {
    if !options.nonInteractive then (if world.form.Submitted? then world.form.token else "")
    else if options.tokenFromStdin && world.stdinToken.Some? then world.stdinToken.value
    else ""
  }

  /** The provider of the option, or that of the vault, or the local one if there is neither. */
  ghost predicate ProviderChosen(options: Options, before: Before, provider: string) {
    && (options.providerExplicit ==> provider == options.provider)
    && (!options.providerExplicit ==> provider == if before.hasVault then before.provider else PROVIDER_LOCAL)
  }

  /** The local key under its one name; otherwise the key asked for, or the vault's own if its provider stays. */
  ghost predicate KeyChosen(options: Options, world: World, before: Before, provider: string, keyName: string) {
    if provider == PROVIDER_LOCAL then keyName == LOCAL_KEY_NAME
    else if !options.nonInteractive || AskedKey(options, world) != "" then keyName == AskedKey(options, world)
    else before.hasVault && provider == before.provider && keyName == before.keyName
  }

  /** The integrations are as they were; a vault that never had any has an empty map of them. */
  ghost predicate IntegrationsKept(before: Data, after: Data) {
    (match after.integrations case Some(m) => m case None => map[])
    == match before.integrations case Some(m) => m case None => map[]
  }

  /** What is known of a setup that passed validation. */
  ghost predicate Validated(before: Before, result: Setup, options: Options, world: World) {
    && result.data.controlPlane.url == CANONICAL_URL
    && result.data.controlPlane.beaconName == AskedName(options, world)
    && result.token == AskedToken(options, world)
    && IntegrationsKept(before.data, result.data)
  }

  /** The vault has a complete identity. */
  ghost predicate HasIdentity(data: Data, rules: Rules) {
    rules.completeIdentity(data.controlPlane.(url := CANONICAL_URL))
  }

  /** The name asked for is the one the Beacon has. */
  ghost predicate NameKept(before: Before, options: Options, world: World, rules: Rules) {
    rules.trim(AskedName(options, world)) == before.data.controlPlane.beaconName
  }

  /** The setup that the options or the form ask for. */
  ghost predicate Asked(options: Options, initial: Setup, world: World, result: Setup) {
    if options.nonInteractive then
      OptionsFit(options, initial, world.stdinToken) && TakenFrom(options, initial, world.stdinToken, result)
    else world.form.Submitted? && result == FormSetup(initial, world.form)
  }

  /** What is asked for is complete, and fits the provider and the key name that it comes to. */
  ghost predicate RequestFits(
      options: Options, rules: Rules, world: World, before: Before, provider: string, keyName: string) {
    && ProviderChosen(options, before, provider) && KeyChosen(options, world, before, provider, keyName)
    && KeyNameFits(provider, keyName, rules)
    && rules.displayName(rules.trim(AskedName(options, world))) && rules.versionOk
    && (if AskedToken(options, world) != "" then rules.token(AskedToken(options, world))
        else before.hasVault && HasIdentity(before.data, rules) && NameKept(before, options, world, rules))
    && if !options.nonInteractive then world.form.Submitted?
       else
         && options.name != "" && (provider == PROVIDER_LOCAL ==> options.keyName == "")
         && (options.tokenFromStdin ==> world.stdinToken.Some?)
  }

  /** The vault opens, and what is asked for fits. */
  ghost predicate Prepared(
      base: Config, rules: Rules, options: Options, world: World, disk: Disk<Blob>, before: Before,
      provider: string, keyName: string) {
    OpenedFrom(base, world, disk, before) && RequestFits(options, rules, world, before, provider, keyName)
  }

  /** The setup built from the request is valid exactly when the request fits, and it is what was asked for. */
  lemma SetupIsRequest(
      base: Config, rules: Rules, options: Options, world: World, disk: Disk<Blob>, before: Before, result: Setup)
    requires OpenedFrom(base, world, disk, before) && Asked(options, InitialSetup(options, before), world, result)
    ensures Validated(before, result, options, world)
    ensures ValidSetup(result, InitialSetup(options, before), before.hasVault, rules) <==>
        RequestFits(options, rules, world, before, result.provider, result.keyName)
  {
  }

  /** Without options that fit or a submitted form no request fits. */
  lemma NothingAsked(
      base: Config, rules: Rules, options: Options, world: World, disk: Disk<Blob>, before: Before,
      provider: string, keyName: string)
    requires Prepared(base, rules, options, world, disk, before, provider, keyName)
    ensures if options.nonInteractive then OptionsFit(options, InitialSetup(options, before), world.stdinToken)
            else world.form.Submitted?
  {
  }

  lemma PreparedOnce(
      base: Config, rules: Rules, options: Options, world: World, disk: Disk<Blob>,
      before: Before, result: Setup, otherBefore: Before, provider: string, keyName: string)
    requires OpenedFrom(base, world, disk, before) && Asked(options, InitialSetup(options, before), world, result)
    requires Prepared(base, rules, options, world, disk, otherBefore, provider, keyName)
    ensures otherBefore == before && provider == result.provider && keyName == result.keyName
  {
    OpenedOnce(base, world, disk, before, otherBefore);
  }

  /** configure up to validateSetup: nothing is written or sent. */
  method Prepare(heap: Ledger<Byte>, base: Config, rules: Rules, options: Options, world: World, disk: Disk<Blob>)
    returns (ending: Ending, before: Before, result: Setup)
    modifies heap
    ensures ending == Done ==>
        && Prepared(base, rules, options, world, disk, before, result.provider, result.keyName)
        && Validated(before, result, options, world)
    ensures ending != Done ==>
        forall b, provider, keyName :: !Prepared(base, rules, options, world, disk, b, provider, keyName)
    ensures ending == Cancelled ==> !options.nonInteractive && world.form.FormCancelled?
    ensures WipedSince(heap, old(heap.buffers))
  {
    before := Before(false, "", "", EmptyData());
    result := Setup("", "", EmptyData(), "");
    var existing := OpenExisting(heap, base, world, disk);
    if existing.None? {
      return Failed, before, result;
    }
    before := existing.value;
    var initial := InitialSetup(options, before);
    if !options.nonInteractive {
      if !world.form.Submitted? {
        return if world.form.FormCancelled? then Cancelled else Failed, before, result;
      }
      result := FormSetup(initial, world.form);
    } else {
      var setup := NonInteractiveSetup(options, initial, world.stdinToken);
      if setup.None? {
        forall b, provider, keyName | Prepared(base, rules, options, world, disk, b, provider, keyName)
          ensures false
        {
          OpenedOnce(base, world, disk, before, b);
          NothingAsked(base, rules, options, world, disk, b, provider, keyName);
        }
        return Failed, before, result;
      }
      result := setup.value;
    }
    var valid := ValidateSetup(result, initial, before.hasVault, rules);
    SetupIsRequest(base, rules, options, world, disk, before, result);
    forall b, provider, keyName | Prepared(base, rules, options, world, disk, b, provider, keyName)
      ensures b == before && provider == result.provider && keyName == result.keyName
    {
      PreparedOnce(base, rules, options, world, disk, before, result, b, provider, keyName);
    }
    return if valid then Done else Failed, before, result;
  }

  /** The provider passes its self-test, and an enrollment that is asked for yields a valid identity. */
  predicate Authorized(name: string, token: string, keyName: string, wrapper: KeyWrapper, rules: Rules, world: World) {
    && GivesBack(keyName, wrapper, world.probe)
    && (token != "" ==>
        && world.identity && world.enroll(name, token).Some?
        && var enrolled := world.enroll(name, token).value;
           rules.beaconID(enrolled.beaconID) && rules.displayName(enrolled.beaconName))
  }

  /** The self-test, and then either the enrollment or the retention of the old identity. */
  method Authorize(before: Before, result: Setup, wrapper: KeyWrapper, rules: Rules, world: World)
    returns (data: Option<Data>, events: seq<Event>)
    requires result.data.controlPlane.url == CANONICAL_URL
    ensures data.Some? <==>
        Authorized(result.data.controlPlane.beaconName, result.token, result.keyName, wrapper, rules, world)
    ensures EnrollCalled in events ==> result.token != ""
    ensures data.None? ==>
        events == [SelfTested(false)] || events == [SelfTested(true)] || events == [SelfTested(true), EnrollCalled]
    ensures data.Some? ==> data.value.integrations == result.data.integrations
    ensures data.Some? && result.token == "" ==>
        events == [SelfTested(true)] && data.value.controlPlane == before.data.controlPlane.(url := CANONICAL_URL)
    ensures data.Some? && result.token != "" ==>
        && events == [SelfTested(true), EnrollCalled]
        && var enrolled := world.enroll(result.data.controlPlane.beaconName, result.token);
           && enrolled.Some? && rules.beaconID(enrolled.value.beaconID)
           && NewIdentity(data.value.controlPlane, enrolled.value)
    ensures SelfTested(true) in events <==> GivesBack(result.keyName, wrapper, world.probe)
    ensures data.None? && SelfTested(true) in events ==>
        && result.token != ""
        && var enrolled := world.enroll(result.data.controlPlane.beaconName, result.token);
           !(world.identity && enrolled.Some? && rules.beaconID(enrolled.value.beaconID)
             && rules.displayName(enrolled.value.beaconName))
  {
    var tested := SelfTest(result.keyName, wrapper, world.probe);
    events := [SelfTested(tested)];
    if !tested {
      return None, events;
    }
    var d := result.data;
    if result.token == "" {
      var configuredURL := d.controlPlane.url;
      d := d.(controlPlane := Retained(before.data).controlPlane.(url := configuredURL));
      return Some(d), events;
    }
    if !world.identity {
      return None, events;
    }
    events := events + [EnrollCalled];
    var answer := world.enroll(d.controlPlane.beaconName, result.token);
    if answer.None? {
      return None, events;
    }
    var enrolled := answer.value;
    if !rules.beaconID(enrolled.beaconID) || !rules.displayName(enrolled.beaconName) {
      return None, events;
    }
    d := d.(controlPlane := d.controlPlane.(
      beaconID := enrolled.beaconID, beaconName := enrolled.beaconName,
      signingPrivateKey := enrolled.privateKey, signingPublicKey := enrolled.publicKey));
    return Some(d), events;
  }

  /** A local key file is there or can be made. */
  predicate KeyUsable(disk: Disk<Blob>, world: World, provider: string) {
    provider == PROVIDER_LOCAL && world.keyPath !in disk.entries ==>
      !EarlyFault(world.keyFaults) && !world.keyFaults.open && !LateFault(world.keyFaults)
  }

  /** A local key file is made. */
  predicate KeyMade(disk: Disk<Blob>, world: World, provider: string) {
    provider == PROVIDER_LOCAL && world.keyPath !in disk.entries && KeyUsable(disk, world, provider)
  }

  /** The key file that there is once the provider has been opened. */
  function KeyFound(disk: Disk<Blob>, world: World, provider: string): Found<Blob> {
    if KeyMade(disk, world, provider) then Whole(KeyFile(world.newKey)) else Read(disk, world.keyPath)
  }

  /** The provider of the setup: for the local one with the key of its file, which is made if it is missing. */
  function NewProvider(world: World, disk: Disk<Blob>, provider: string, keyName: string): Option<KeyWrapper> {
    if !KeyUsable(disk, world, provider) then None
    else Provider(world, provider, keyName, KeyFound(disk, world, provider), world.newKeyRefused)
  }

  /**
   Which provider a setup opens: that of the cloud, or the one with the 32 bytes of the key file; a missing
   key file is made, if none of the calls for it fails.
  */
  lemma NewProviderMeans(world: World, disk: Disk<Blob>, provider: string, keyName: string, wrapper: KeyWrapper)
    ensures provider != "local" ==> NewProvider(world, disk, provider, keyName) == world.cloud(provider, keyName)
    ensures provider == "local" && world.keyPath in disk.entries ==>
        (NewProvider(world, disk, provider, keyName) == Some(wrapper) <==>
          KeyIn(Read(disk, world.keyPath), world.newKeyRefused, world.nonces, wrapper))
    ensures provider == "local" && world.keyPath !in disk.entries ==>
        (NewProvider(world, disk, provider, keyName) == Some(wrapper) <==>
          && !EarlyFault(world.keyFaults) && !world.keyFaults.open && !LateFault(world.keyFaults)
          && KeyIn(Whole(KeyFile(world.newKey)), world.newKeyRefused, world.nonces, wrapper))
  {
  }

  /** The provider with the key in this file. */
  ghost predicate KeyIn(file: Found<Blob>, refused: bool, nonces: nat -> Bytes, wrapper: KeyWrapper) {
    exists blob, key: Bytes ::
      && file == Whole(blob) && blob.raw == Some(key) && |key| == 32 && !refused
      && wrapper == LocalWrapper(key, nonces)
  }

  /** Whatever a power loss does, the key file is found as it is. */
  ghost predicate KeySettled(disk: Disk<Blob>, world: World) {
    forall found | Survives(disk, world.keyPath, found) :: found == Read(disk, world.keyPath)
  }

  /** The same file is at the path. */
  ghost predicate SameFile(before: Disk<Blob>, disk: Disk<Blob>, path: string) {
    && path in before.entries && before.entries[path] in before.files
    && path in disk.entries && disk.entries[path] == before.entries[path]
    && before.entries[path] in disk.files && disk.files[disk.entries[path]] == before.files[before.entries[path]]
  }

  /** The local key file is the one that was there, or the one that was made, and then no power loss takes it away. */
  ghost predicate KeyStays(before: Disk<Blob>, disk: Disk<Blob>, world: World, provider: string) {
    provider == PROVIDER_LOCAL ==>
      if KeyMade(before, world, provider) then
        Read(disk, world.keyPath) == Whole(KeyFile(world.newKey)) && KeySettled(disk, world)
      else SameFile(before, disk, world.keyPath)
  }

  /** The key provider of the setup; for the local one a missing key file is created, and nothing else is touched. */
  method OpenProvider(fs: FileSystem<Blob>, world: World, provider: string, keyName: string)
    returns (wrapper: Option<KeyWrapper>)
    requires WellFormed(fs.disk)
    modifies fs
    ensures WellFormed(fs.disk) && old(fs.trace) <= fs.trace
    ensures wrapper == NewProvider(world, old(fs.disk), provider, keyName)
    ensures OthersKept(old(fs.disk), fs.disk, {world.keyPath})
    ensures OnlyHere(fs.trace, |old(fs.trace)|, old(fs.disk), world.keyPath)
    ensures provider != PROVIDER_LOCAL ==> fs.disk == old(fs.disk)
    ensures KeyUsable(old(fs.disk), world, provider) ==> KeyStays(old(fs.disk), fs.disk, world, provider)
  {
    OthersKeptStart(fs.disk, {world.keyPath});
    if provider == PROVIDER_LOCAL && world.keyPath !in fs.disk.entries {
      var made := CreateLocalKey(fs, world.keyPath, KeyFile(world.newKey), world.keyFaults);
      if made == KeyOutcome.KeyFailed {
        return None;
      }
    }
    return Provider(world, provider, keyName, Read(fs.disk, world.keyPath), world.newKeyRefused);
  }

  /** What one configure wrote and where: the store it saved to and the data. */
  ghost predicate Wrote(
      base: Config, rules: Rules, options: Options, world: World, disk: Disk<Blob>, before: Before,
      events: seq<Event>, target: Config, saved: Data) {
    && target == base.(provider := target.provider, keyName := target.keyName, wrapper := target.wrapper)
    && KeyNameFits(target.provider, target.keyName, rules)
    && ProviderChosen(options, before, target.provider)
    && KeyChosen(options, world, before, target.provider, target.keyName)
    && NewProvider(world, disk, target.provider, target.keyName) == Some(target.wrapper)
    && IntegrationsKept(before.data, saved)
    && (EnrollCalled in events <==> AskedToken(options, world) != "")
    && if EnrollCalled in events then
         var enrolled := world.enroll(AskedName(options, world), AskedToken(options, world));
         enrolled.Some? && NewIdentity(saved.controlPlane, enrolled.value)
       else
         && before.hasVault && HasIdentity(before.data, rules) && NameKept(before, options, world, rules)
         && saved.controlPlane == before.data.controlPlane.(url := CANONICAL_URL)
  }

  /** The Save of `saved` to `target` has finished: only its file can be found, now or after power loss. */
  ghost predicate Committed(disk: Disk<Blob>, target: Config, saved: Data, draw: Draw) {
    && target.wrapper.wrap(target.keyName, draw.key, draw.seed).Some?
    && |target.codec.encode(saved)| <= MAX_PLAINTEXT
    && Read(disk, target.path) == Whole(SavedBlob(target, saved, draw)) && disk.history == [disk.entries]
    && forall found :: Survives(disk, target.path, found) <==> found == Whole(SavedBlob(target, saved, draw))
  }

  /** The Save of `saved` failed: the path is untouched, or the whole new file has joined what may be found. */
  ghost predicate Unfinished(base: Disk<Blob>, disk: Disk<Blob>, target: Config, saved: Data, draw: Draw) {
    || Untouched(base, disk, target.path)
    || (target.wrapper.wrap(target.keyName, draw.key, draw.seed).Some?
        && Within(base, disk, target.path, Whole(SavedBlob(target, saved, draw))))
  }

  lemma UnfinishedLater(
      base: Disk<Blob>, between: Disk<Blob>, disk: Disk<Blob>, target: Config, saved: Data, draw: Draw)
    requires Untouched(base, between, target.path) && Unfinished(between, disk, target, saved, draw)
    ensures Unfinished(base, disk, target, saved, draw)
  {
  }

  /** The order of what is done outside: a passed self-test comes before any enrollment and any save. */
  ghost predicate EventOrder(events: seq<Event>) {
    || events == [] || events == [SelfTested(false)] || events == [SelfTested(true)]
    || events == [SelfTested(true), EnrollCalled] || events == [SelfTested(true), SaveCalled]
    || events == [SelfTested(true), EnrollCalled, SaveCalled]
  }

  // ---------------------------------------------------------------- configure as a whole

  /** The provider of a valid setup opens, passes its self-test, and an enrollment that is asked for succeeds. */
  ghost predicate Goes(
      base: Config, rules: Rules, options: Options, world: World, disk: Disk<Blob>, before: Before,
      provider: string, keyName: string) {
    && Prepared(base, rules, options, world, disk, before, provider, keyName)
    && var wrapper := NewProvider(world, disk, provider, keyName);
       && wrapper.Some?
       && Authorized(AskedName(options, world), AskedToken(options, world), keyName, wrapper.value, rules, world)
  }

  /** When configure comes to its Save. */
  ghost predicate ReachesSave(base: Config, rules: Rules, options: Options, world: World, disk: Disk<Blob>) {
    exists before, provider, keyName :: Goes(base, rules, options, world, disk, before, provider, keyName)
  }

  /** Once the request is known, the question is whether it goes. */
  lemma GoesDecides(
      base: Config, rules: Rules, options: Options, world: World, disk: Disk<Blob>, before: Before,
      provider: string, keyName: string)
    requires Prepared(base, rules, options, world, disk, before, provider, keyName)
    ensures ReachesSave(base, rules, options, world, disk) <==>
        Goes(base, rules, options, world, disk, before, provider, keyName)
  {
    if b, p, k :| Goes(base, rules, options, world, disk, b, p, k) {
      OpenedOnce(base, world, disk, before, b);
    }
  }

  /** No two of the paths are the same, and the temporary name is new. */
  ghost predicate PathsApart(disk: Disk<Blob>, base: Config, world: World) {
    && world.keyPath != base.path && world.draw.temporary != base.path && world.draw.temporary != world.keyPath
    && world.draw.temporary !in disk.entries
  }

  /** No Save: the vault has been untouched at every moment since, and at most a key file was made. */
  ghost predicate Refrained(
      start: Disk<Blob>, disk: Disk<Blob>, trace: seq<Disk<Blob>>, from: nat, base: Config, world: World) {
    && OthersKept(start, disk, {world.keyPath}) && Untouched(start, disk, base.path)
    && UntouchedSince(trace, from, start, base.path)
  }

  /** The Save was called, with what was to be written, and returned nil or not. */
  ghost predicate Concluded(
      base: Config, rules: Rules, options: Options, world: World, start: Disk<Blob>, disk: Disk<Blob>, before: Before,
      events: seq<Event>, target: Config, saved: Data, done: bool) {
    && OpenedFrom(base, world, start, before)
    && Wrote(base, rules, options, world, start, before, events, target, saved)
    && KeyStays(start, disk, world, target.provider)
    && (done <==> Saves(target, saved, world.draw))
    && if done then Committed(disk, target, saved, world.draw) else Unfinished(start, disk, target, saved, world.draw)
  }

  /**
   configure. It comes to its Save exactly under ReachesSave, and it is done exactly when that Save
   returns nil. Nothing is enrolled or saved before a passed self-test. Without a Save the vault is
   untouched at every moment, and only a local key file may have been made; a failed Save leaves the
   old file or the whole new one. A token-free Save writes the old data under the canonical URL for the
   chosen provider and key, an enrolling one the old integrations with the new identity. The local
   key it is written with is the one in the key file, which is still there, and settled if it was made now.
   However it ends, every buffer it made for keys and plaintexts is wiped.
  */
  method Run(
      fs: FileSystem<Blob>, heap: Ledger<Byte>, base: Config, rules: Rules, options: Options, world: World)
    returns (ending: Ending, events: seq<Event>, before: Before, target: Config, saved: Data)
    requires WellFormed(fs.disk) && PathsApart(fs.disk, base, world)
    requires |world.draw.key| == KEY_SIZE && |world.draw.nonce| == NONCE_SIZE
    modifies fs, heap
    ensures WellFormed(fs.disk) && EventOrder(events) && old(fs.trace) <= fs.trace
    ensures SaveCalled in events <==> ReachesSave(base, rules, options, world, old(fs.disk))
    ensures EnrollCalled in events ==> AskedToken(options, world) != ""
    ensures SaveCalled !in events ==>
        ending != Done && Refrained(old(fs.disk), fs.disk, fs.trace, |old(fs.trace)|, base, world)
    ensures SaveCalled in events ==>
        Concluded(base, rules, options, world, old(fs.disk), fs.disk, before, events, target, saved, ending == Done)
    ensures WipedSince(heap, old(heap.buffers))
  {
    ghost var start := fs.disk;
    target, saved := base, EmptyData();
    var plan: Option<Plan>;
    ending, before, plan, events := Decide(fs, heap, base, rules, options, world);
    if plan.Some? {
      target, saved := plan.value.target, plan.value.data;
      ending, events := Conclude(fs, heap, base, rules, options, world, before, events, target, saved, start);
    }
  }

  /** The call of the closing Save, and what configure makes of it. */
  method Conclude(
      fs: FileSystem<Blob>, heap: Ledger<Byte>, ghost base: Config, ghost rules: Rules, ghost options: Options,
      world: World,
      ghost before: Before, done: seq<Event>, target: Config, saved: Data, ghost start: Disk<Blob>)
    returns (ending: Ending, events: seq<Event>)
    requires WellFormed(start) && WellFormed(fs.disk) && PathsApart(start, base, world)
    requires OthersKept(start, fs.disk, {world.keyPath}) && KeyStays(start, fs.disk, world, target.provider)
    requires OpenedFrom(base, world, start, before)
    requires done == [SelfTested(true)] || done == [SelfTested(true), EnrollCalled]
    requires Wrote(base, rules, options, world, start, before, done + [SaveCalled], target, saved)
    requires |world.draw.key| == KEY_SIZE && |world.draw.nonce| == NONCE_SIZE
    modifies fs, heap
    ensures WellFormed(fs.disk) && old(fs.trace) <= fs.trace && SaveCalled in events && EventOrder(events)
    ensures Concluded(base, rules, options, world, start, fs.disk, before, events, target, saved, ending == Done)
    ensures WipedSince(heap, old(heap.buffers))
  {
    SaveComesLast(done);
    events := done + [SaveCalled];
    assert world.draw.temporary !in fs.disk.entries;
    var ok := Finish(fs, heap, base, rules, options, world, before, events, target, saved, start);
    ending := if ok then Done else Failed;
  }

  /** The closing Save, after a key file may have been made; the key file stays as it was. */
  method Finish(
      fs: FileSystem<Blob>, heap: Ledger<Byte>, ghost base: Config, ghost rules: Rules, ghost options: Options,
      world: World,
      ghost before: Before, ghost events: seq<Event>, target: Config, saved: Data, ghost start: Disk<Blob>)
    returns (ok: bool)
    requires WellFormed(start) && WellFormed(fs.disk) && PathsApart(fs.disk, base, world)
    requires OthersKept(start, fs.disk, {world.keyPath}) && KeyStays(start, fs.disk, world, target.provider)
    requires OpenedFrom(base, world, start, before)
    requires Wrote(base, rules, options, world, start, before, events, target, saved)
    requires |world.draw.key| == KEY_SIZE && |world.draw.nonce| == NONCE_SIZE
    modifies fs, heap
    ensures WellFormed(fs.disk) && old(fs.trace) <= fs.trace
    ensures Concluded(base, rules, options, world, start, fs.disk, before, events, target, saved, ok)
    ensures WipedSince(heap, old(heap.buffers))
  {
    ghost var between := fs.disk;
    ok := Commit(fs, heap, target, saved, world.draw);
    OthersUntouched(start, between, {world.keyPath}, target.path);
    OthersUntouched(between, fs.disk, {target.path, world.draw.temporary}, world.keyPath);
    if !ok {
      UnfinishedLater(start, between, fs.disk, target, saved, world.draw);
    }
  }

  lemma SaveComesLast(events: seq<Event>)
    requires events == [SelfTested(true)] || events == [SelfTested(true), EnrollCalled]
    ensures SaveCalled in events + [SaveCalled] && EventOrder(events + [SaveCalled])
  {
    assert (events + [SaveCalled])[|events|] == SaveCalled;
  }

  /** Since `from` the path has been untouched. */
  ghost predicate UntouchedSince(trace: seq<Disk<Blob>>, from: nat, base: Disk<Blob>, path: string) {
    forall i | from <= i < |trace| :: Untouched(base, trace[i], path)
  }

  lemma HereUntouchesThere(trace: seq<Disk<Blob>>, from: nat, base: Disk<Blob>, here: string, there: string)
    requires WellFormed(base) && OnlyHere(trace, from, base, here) && here != there
    ensures UntouchedSince(trace, from, base, there)
  {
    forall i | from <= i < |trace|
      ensures Untouched(base, trace[i], there)
    {
      OthersUntouched(base, trace[i], {here}, there);
    }
  }

  /** What is to be saved, and where. */
  datatype Plan = Plan(target: Config, data: Data)

  /** configure up to the Save. */
  method Decide(fs: FileSystem<Blob>, heap: Ledger<Byte>, base: Config, rules: Rules, options: Options, world: World)
    returns (ending: Ending, before: Before, plan: Option<Plan>, events: seq<Event>)
    requires WellFormed(fs.disk) && world.keyPath != base.path
    modifies fs, heap
    ensures WellFormed(fs.disk) && old(fs.trace) <= fs.trace
    ensures plan.Some? <==> ReachesSave(base, rules, options, world, old(fs.disk))
    ensures SaveCalled !in events && (plan.None? ==> EventOrder(events) && ending != Done)
    ensures EnrollCalled in events ==> AskedToken(options, world) != ""
    ensures plan.None? ==> Refrained(old(fs.disk), fs.disk, fs.trace, |old(fs.trace)|, base, world)
    ensures plan.Some? ==>
        && OthersKept(old(fs.disk), fs.disk, {world.keyPath})
        && (events == [SelfTested(true)] || events == [SelfTested(true), EnrollCalled])
        && OpenedFrom(base, world, old(fs.disk), before)
        && Wrote(base, rules, options, world, old(fs.disk), before, events + [SaveCalled],
                 plan.value.target, plan.value.data)
        && KeyStays(old(fs.disk), fs.disk, world, plan.value.target.provider)
    ensures WipedSince(heap, old(heap.buffers))
  {
    ghost var start := fs.disk;
    OthersKeptStart(start, {world.keyPath});
    events, plan := [], None;
    var result: Setup;
    ending, before, result := Prepare(heap, base, rules, options, world, fs.disk);
    if ending != Done {
      OthersUntouched(start, fs.disk, {world.keyPath}, base.path);
      return;
    }
    ending := Failed;
    GoesDecides(base, rules, options, world, start, before, result.provider, result.keyName);
    plan, events := Carry(fs, base, rules, options, world, before, result);
    OthersUntouched(start, fs.disk, {world.keyPath}, base.path);
    HereUntouchesThere(fs.trace, |old(fs.trace)|, start, world.keyPath, base.path);
  }

  /** configure from a valid setup to the Save. */
  method Carry(
      fs: FileSystem<Blob>, base: Config, rules: Rules, options: Options, world: World, before: Before, result: Setup)
    returns (plan: Option<Plan>, events: seq<Event>)
    requires WellFormed(fs.disk) && Validated(before, result, options, world)
    requires Prepared(base, rules, options, world, fs.disk, before, result.provider, result.keyName)
    modifies fs
    ensures WellFormed(fs.disk) && old(fs.trace) <= fs.trace
    ensures OthersKept(old(fs.disk), fs.disk, {world.keyPath})
    ensures OnlyHere(fs.trace, |old(fs.trace)|, old(fs.disk), world.keyPath)
    ensures plan.Some? <==>
        Goes(base, rules, options, world, old(fs.disk), before, result.provider, result.keyName)
    ensures SaveCalled !in events && (plan.None? ==> EventOrder(events))
    ensures EnrollCalled in events ==> AskedToken(options, world) != ""
    ensures plan.Some? ==>
        && (events == [SelfTested(true)] || events == [SelfTested(true), EnrollCalled])
        && Wrote(base, rules, options, world, old(fs.disk), before, events + [SaveCalled],
                 plan.value.target, plan.value.data)
        && KeyStays(old(fs.disk), fs.disk, world, plan.value.target.provider)
  {
    events, plan := [], None;
    var wrapper := OpenProvider(fs, world, result.provider, result.keyName);
    if wrapper.None? {
      return;
    }
    var data: Option<Data>;
    data, events := Authorize(before, result, wrapper.value, rules, world);
    if data.None? {
      return;
    }
    var target := base.(provider := result.provider, keyName := result.keyName, wrapper := wrapper.value);
    plan := Some(Plan(target, data.value));
  }

  /** The closing Save. */
  method Commit(fs: FileSystem<Blob>, heap: Ledger<Byte>, target: Config, saved: Data, draw: Draw) returns (ok: bool)
    requires WellFormed(fs.disk) && draw.temporary !in fs.disk.entries && draw.temporary != target.path
    requires |draw.key| == KEY_SIZE && |draw.nonce| == NONCE_SIZE
    modifies fs, heap
    ensures WellFormed(fs.disk) && old(fs.trace) <= fs.trace
    ensures OthersKept(old(fs.disk), fs.disk, {target.path, draw.temporary})
    ensures ok <==> Saves(target, saved, draw)
    ensures ok ==> Committed(fs.disk, target, saved, draw)
    ensures ok ==> forall found ::
        Survives(fs.disk, target.path, found) <==> found == Whole(SavedBlob(target, saved, draw))
    ensures !ok ==> Unfinished(old(fs.disk), fs.disk, target, saved, draw)
    ensures WipedSince(heap, old(heap.buffers))
  {
    ghost var base := fs.disk;
    var failure := Save(fs, heap, target, saved, draw);
    ok := failure.None?;
    match failure
    case None =>
    case Some(WriteFailed) =>
    case Some(WrapFailed) => assert fs.disk == base;
    case Some(PayloadTooLarge) => assert fs.disk == base;
  }

  // ---------------------------------------------------------------- moving to another provider

  /** The bytes at the path have been synced. */
  predicate FileSynced(disk: Disk<Blob>, path: string) {
    path in disk.entries && disk.entries[path] in disk.files && disk.files[disk.entries[path]].synced
  }

  /** After the closing Save the key file is settled exactly when it was made now, or synced before. */
  lemma LocalKeySettles(start: Disk<Blob>, disk: Disk<Blob>, world: World)
    requires KeyStays(start, disk, world, PROVIDER_LOCAL) && disk.history == [disk.entries]
    requires Read(disk, world.keyPath).Whole?
    ensures KeySettled(disk, world) <==> KeyMade(start, world, PROVIDER_LOCAL) || FileSynced(start, world.keyPath)
  {
    if !KeyMade(start, world, PROVIDER_LOCAL) && !FileSynced(start, world.keyPath) {
      assert Leads(disk, disk.history[0], world.keyPath, Torn);
      assert Survives(disk, world.keyPath, Torn);
    }
  }

  /** What is found at the path after some power loss. */
  ghost predicate Lost(disk: Disk<Blob>, lost: Disk<Blob>, path: string) { Survives(disk, path, Read(lost, path)) }

  /** The provider still gives the key back later: the cloud one, or the key file that is found then. */
  ghost predicate StillProvides(start: Disk<Blob>, world: World, later: World, target: Config, draw: Draw) {
    && later.keyPath == world.keyPath
    && if target.provider == PROVIDER_LOCAL then
         && !later.oldKeyRefused && (forall seed: nat :: |world.nonces(seed)| == NONCE_SIZE)
         && (KeyMade(start, world, PROVIDER_LOCAL) || FileSynced(start, world.keyPath))
       else
         && later.cloud(target.provider, target.keyName) == Some(target.wrapper)
         && RoundTrips(target.wrapper, target.keyName)
         && 0 < |target.keyName| <= 3_500_000 && Utf8.ValidText(target.keyName)
         && target.wrapper.wrap(target.keyName, draw.key, draw.seed).Some?
         && 0 < WrappedLength(target.wrapper.wrap(target.keyName, draw.key, draw.seed).value) <= MAX_WRAPPED
  }

  lemma FittingNames(provider: string, keyName: string, rules: Rules)
    requires KeyNameFits(provider, keyName, rules)
    ensures SupportedProvider(provider) && (provider == PROVIDER_LOCAL ==> keyName == LOCAL_KEY_NAME)
  {
  }

  /** A later opening makes a wrapper that unwraps like the one the vault was saved with. */
  lemma FoundProvider(
      start: Disk<Blob>, disk: Disk<Blob>, world: World, later: World, target: Config, draw: Draw, lost: Disk<Blob>)
    returns (wrapper: KeyWrapper)
    requires NewProvider(world, start, target.provider, target.keyName) == Some(target.wrapper)
    requires target.provider == PROVIDER_LOCAL ==> target.keyName == LOCAL_KEY_NAME
    requires KeyStays(start, disk, world, target.provider) && disk.history == [disk.entries]
    requires Lost(disk, lost, world.keyPath) && StillProvides(start, world, later, target, draw)
    requires |draw.key| == KEY_SIZE
    ensures Some(wrapper) ==
        Provider(later, target.provider, target.keyName, Read(lost, later.keyPath), later.oldKeyRefused)
    ensures forall keyName, wrapped :: wrapper.unwrap(keyName, wrapped) == target.wrapper.unwrap(keyName, wrapped)
    ensures RoundTrips(target.wrapper, target.keyName) && 0 < |target.keyName| <= 3_500_000
    ensures Utf8.ValidText(target.keyName)
    ensures target.wrapper.wrap(target.keyName, draw.key, draw.seed).Some?
    ensures 0 < WrappedLength(target.wrapper.wrap(target.keyName, draw.key, draw.seed).value) <= MAX_WRAPPED
  {
    wrapper := target.wrapper;
    if target.provider == PROVIDER_LOCAL {
      var key := LocalKey(KeyFound(start, world, PROVIDER_LOCAL), world.newKeyRefused).value;
      assert Read(disk, world.keyPath) == KeyFound(start, world, PROVIDER_LOCAL);
      LocalKeySettles(start, disk, world);
      wrapper := LocalWrapper(key, later.nonces);
      LocalKeyRoundTrips(key, world.nonces, LOCAL_KEY_NAME);
      assert target.wrapper == LocalWrapper(key, world.nonces);
      Utf8.AsciiIsValid(LOCAL_KEY_NAME);
    }
  }

  /** What loads through one wrapper loads through any that unwraps alike. */
  lemma LoadsAlike(saver: Config, loader: Config, found: Found<Blob>, data: Data)
    requires Loads(saver, found, data) && loader == saver.(wrapper := loader.wrapper)
    requires forall keyName, wrapped ::
        loader.wrapper.unwrap(keyName, wrapped) == saver.wrapper.unwrap(keyName, wrapped)
    ensures Loads(loader, found, data)
  {
  }

  /** Well-formed data under an ASCII URL is well-formed. */
  lemma {:induction false} RetainedReturns(data: Data, saved: Data, url: string)
    requires ValidData(data) && Utf8.Ascii(url)
    requires saved.controlPlane == data.controlPlane.(url := url) && IntegrationsKept(data, saved)
    ensures ValidData(saved)
  {
    assert Normalized(saved).integrations == Normalized(data).integrations;
    Utf8.AsciiIsValid(url);
  }

  /** The saved data, described by what it was made from. */
  ghost predicate OpensAs(target: Config, data: Data, url: string, after: Before) {
    && after.hasVault && after.provider == target.provider && after.keyName == target.keyName
    && after.data.controlPlane == data.controlPlane.(url := url)
    && after.data.integrations.Some? && IntegrationsKept(data, after.data)
  }

  lemma OpensAsSaved(target: Config, data: Data, saved: Data, url: string, after: Before)
    requires saved.controlPlane == data.controlPlane.(url := url) && IntegrationsKept(data, saved)
    ensures OpensAs(target, data, url, after) <==>
        after == Before(true, target.provider, target.keyName, Normalized(saved))
  {
  }

  /** The saved vault, as it is found after a power loss, loads through the wrapper found with it. */
  lemma CommittedLoads(disk: Disk<Blob>, target: Config, saved: Data, draw: Draw, lost: Disk<Blob>, wrapper: KeyWrapper)
    requires Committed(disk, target, saved, draw) && Lost(disk, lost, target.path)
    requires SupportedProvider(target.provider) && |draw.key| == KEY_SIZE && |draw.nonce| == NONCE_SIZE
    requires JsonText(target.jsonText) && Keeps(target.codec, saved) && ValidData(saved)
    requires RoundTrips(target.wrapper, target.keyName) && 0 < |target.keyName| <= 3_500_000
    requires Utf8.ValidText(target.keyName)
    requires 0 < WrappedLength(target.wrapper.wrap(target.keyName, draw.key, draw.seed).value) <= MAX_WRAPPED
    requires forall keyName, wrapped :: wrapper.unwrap(keyName, wrapped) == target.wrapper.unwrap(keyName, wrapped)
    ensures Loads(target.(wrapper := wrapper), Read(lost, target.path), Normalized(saved))
  {
    SavedVaultLoads(target, saved, draw);
    LoadsAlike(target, target.(wrapper := wrapper), Whole(SavedBlob(target, saved, draw)), Normalized(saved));
  }

  /** The opening of a vault that is found as it was saved, with its provider found again. */
  lemma SavedVaultOpens(
      base: Config, target: Config, saved: Data, draw: Draw, later: World, lost: Disk<Blob>, wrapper: KeyWrapper)
    requires target == base.(provider := target.provider, keyName := target.keyName, wrapper := target.wrapper)
    requires Some(wrapper) ==
        Provider(later, target.provider, target.keyName, Read(lost, later.keyPath), later.oldKeyRefused)
    requires Loads(target.(wrapper := wrapper), Read(lost, base.path), Normalized(saved))
    ensures forall after :: OpenedFrom(base, later, lost, after) <==>
        after == Before(true, target.provider, target.keyName, Normalized(saved))
  {
    var opening := Before(true, target.provider, target.keyName, Normalized(saved));
    assert OpenedFrom(base, later, lost, opening);
    forall after | OpenedFrom(base, later, lost, after)
      ensures after == opening
    {
      OpenedOnce(base, later, lost, opening, after);
    }
  }

  lemma UrlIsAscii()
    ensures Utf8.Ascii(CANONICAL_URL)
  {
  }

  /** The data of an opened vault, saved again under an ASCII URL, is found by the next opening. */
  lemma SavedAgainOpens(
      base: Config, world: World, start: Disk<Blob>, disk: Disk<Blob>, data: Data, url: string,
      target: Config, saved: Data, later: World, lost: Disk<Blob>)
    requires target == base.(provider := target.provider, keyName := target.keyName, wrapper := target.wrapper)
    requires SupportedProvider(target.provider)
    requires target.provider == PROVIDER_LOCAL ==> target.keyName == LOCAL_KEY_NAME
    requires NewProvider(world, start, target.provider, target.keyName) == Some(target.wrapper)
    requires KeyStays(start, disk, world, target.provider) && Committed(disk, target, saved, world.draw)
    requires ValidData(data) && Utf8.Ascii(url)
    requires saved.controlPlane == data.controlPlane.(url := url) && IntegrationsKept(data, saved)
    requires |world.draw.key| == KEY_SIZE && |world.draw.nonce| == NONCE_SIZE
    requires Lost(disk, lost, base.path) && Lost(disk, lost, world.keyPath)
    requires StillProvides(start, world, later, target, world.draw)
    requires JsonText(base.jsonText) && Keeps(base.codec, saved)
    ensures forall after :: OpenedFrom(base, later, lost, after) <==> OpensAs(target, data, url, after)
  {
    RetainedReturns(data, saved, url);
    var wrapper := FoundProvider(start, disk, world, later, target, world.draw, lost);
    CommittedLoads(disk, target, saved, world.draw, lost, wrapper);
    SavedVaultOpens(base, target, saved, world.draw, later, lost, wrapper);
    forall after
      ensures OpenedFrom(base, later, lost, after) <==> OpensAs(target, data, url, after)
    {
      OpensAsSaved(target, data, saved, url, after);
    }
  }

  /**
   Whatever a power loss leaves of a disk after a finished token-free configure, the vault found there opens,
   with the local provider through the key in the key file found there, as the old integrations and identity
   with the canonical URL, and as nothing else.
  */
  lemma RewrapPreserves(
      base: Config, rules: Rules, options: Options, world: World, start: Disk<Blob>, disk: Disk<Blob>, before: Before,
      events: seq<Event>, target: Config, saved: Data, later: World, lost: Disk<Blob>)
    requires Concluded(base, rules, options, world, start, disk, before, events, target, saved, true)
    requires EnrollCalled !in events && |world.draw.key| == KEY_SIZE && |world.draw.nonce| == NONCE_SIZE
    requires Lost(disk, lost, base.path) && Lost(disk, lost, world.keyPath)
    requires StillProvides(start, world, later, target, world.draw)
    requires JsonText(base.jsonText) && DecodesText(base.codec) && Keeps(base.codec, saved)
    ensures forall after :: OpenedFrom(base, later, lost, after) <==>
        OpensAs(target, before.data, CANONICAL_URL, after)
  {
    UrlIsAscii();
    FittingNames(target.provider, target.keyName, rules);
    SavedAgainOpens(base, world, start, disk, before.data, CANONICAL_URL, target, saved, later, lost);
  }
}
