# Beacon, verified model

Beacon is a collector that a customer runs next to its own systems. It keeps vendor credentials in an
encrypted vault, polls a control plane for review jobs, collects account inventories from vendors and
uploads them, and upgrades its own binary. This project models the parts of it that are state machines,
orderings, crash protocols or accumulating loops, and proves what they are for:

| file | modules | what it models |
|---|---|---|
| `JobRunner.dfy`, `Protocol.dfy` | `JobRunner`, `Protocol` | the goroutines of one review job, the jobs that are accepted, the retrying uploads |
| `FileSystem.dfy` | `Disks`, `AtomicWrites` | a disk that can lose power, and the atomic vault write on it |
| `Vault.dfy` | `VaultData`, `VaultStore` | the encrypted vault: envelope, limits, save, load, tampering |
| `LocalKeys.dfy` | `LocalKeys`, `KeyFiles`, `LocalKeyDisks` | any number of processes that open or create the local key file, its creation on the disk, and the two together |
| `Configure.dfy` | `Configure` | creating a vault, moving it to another key provider, enrolling |
| `ImportSecrets.dfy` | `Secrets`, `ImportSecrets` | owned secret buffers in the heap, and the credential import |
| `Versions.dfy`, `Upgrade.dfy` | `Returns`, `Versions`, `Upgrade` | version precedence, chains of upgrades, verified downloads, and replacing the binary with rollback |
| `ReleaseTrust.dfy` | `ReleaseTrust` | signed release manifests |
| `DeployKeys.dfy`, `Schedules.dfy` | `DeployKeys`, `Schedules` | the GitHub deploy-key worker pool, and what its schedule can show in the report |
| `Chains.dfy`, `Linear.dfy`, `Vercel.dfy`, `Zoom.dfy` | the same | page chains and the cursor loops that follow them |
| `Scim.dfy`, `Figma.dfy`, `Canva.dfy` | the same | the SCIM offset loops |
| `Gcp.dfy`, `Cloudflare.dfy` | the same | merging roles over policies; choosing the role names to show |
| `Text.dfy`, `Sorting.dfy`, `Wire.dfy`, `Heaps.dfy` | `Text`, `Utf8`, `Sorting`, `SortedText`, `Wire`, `Sums`, `Sets`, `Sequences`, `Heaps` | Go strings, UTF-8 through JSON, sorting and `range` over a map, shared records, counting, the ledger of secret buffers |

Conventions. A Go string is a sequence of bytes, so each character of a Dafny string stands for one byte.
Concurrent code is a relation over single steps, and the claims are about every run of it. The outside
world (HTTP replies, failing system calls, power loss, random keys, what a collector returns, the order in
which Go walks a map or leaves equal elements of a sort) is a parameter or a choice without restriction.
Library routines whose inside does not matter (case folding, trimming, date text, JSON) are function
parameters. Cryptography is ideal and symbolic: a ciphertext or a signature is the term it was made as.

## Where the code does not do what is hoped for

Each of these is a proved statement, with the exact condition.

- The error channel of a job has room for every message only because a job with nothing pending is refused
  when it is polled: for such a job worker 0 and the heartbeat overflow it, and the job never returns
  (`JobRunner.BlockingCondition`, `JobRunner.BlockedForever`).
- A job that has delivered every upload can still return an error: after two failed heartbeats main's own
  `cancel()` fails the one in flight, and that counts as the third (`JobRunner.DeliveredYetFailed`, with the
  exact condition `JobRunner.DeliveredYetFailedCondition`).
- Save does not check what Load will refuse: a provider that returns more than 65536 wrapped bytes, or none,
  an empty or enormous key name, or one that is not UTF-8 (JSON replaces the offending bytes, so the name read
  back is another one), leaves a vault that cannot be opened (`VaultStore.SaveLoadRoundTrip`, with the
  instances `VaultStore.LargeWrapLost` and `VaultStore.StrangeNameLost`).
- Text in the vault data that is not UTF-8 is saved without complaint and comes back changed, and two names that
  differ only in such bytes come back as one (`VaultData.DataKept`, `VaultStore.StrangeTextChanged`).
- For the same reason trust in a signing key whose id is not UTF-8 is worth nothing
  (`ReleaseTrust.VerifyMeansTrust`).
- Two processes can end up with different local keys if a third creates the key file and then fails
  (`LocalKeys.DisagreementCondition`). With just two, one can save a vault under a key that the other has
  written but not yet synced, and that a power loss takes away (`LocalKeys.UnsettledCondition`).
- A finished configure to the local provider survives a power loss exactly when the key file was made by it or
  had been synced before; it does not sync a key file that it finds (`Configure.LocalKeySettles`).
- A configure that is refused later, for instance by the control plane, may already have created the local
  key file; only the vault itself is untouched (`Configure.Run`).
- Numeric prerelease identifiers with leading zeros make two versions newer than each other, and upgrades
  through a set of releases can come back to a version exactly when two of the releases are such a pair
  (`Versions.MutuallyNewer`, `Versions.RepeatCondition`, `Versions.LeadingZeroCycle`). docs/RELEASING.md line 82
  says that only newer targets are accepted, which is then true of both directions.
- If two renames of one binary replacement fail, the older backup can be moved over the only copy of the
  running binary (`Upgrade.ReplaceBinary` with `Loses`, `Upgrade.OneFailureIsHarmless`).
- After a failed second check of an upgraded binary the message says that the previous binary was restored
  whether or not the rename that restores it worked; and a successful restore uses up the backup, because
  the older backup is gone by then (`Upgrade.InstallTail`).
- What sort.Slice promises leaves the order of two different deploy keys open that share repository, name and
  id (`DeployKeys.OneReport`). A stable sort in its place would still let the schedule of the workers show:
  exactly when two repositories contribute keys of one such triple whose lists do not commute, for instance one
  key each and different ones (`Schedules.StableReportCondition`, `Schedules.SingleKeysEntangled`).

## Model

| member | source | states |
|---|---|---|
| Protocol.ValidPlatformList | internal/protocol/client.go:320-335 | accepts exactly the non-empty lists of distinct supported platforms, and returns their set |
| Protocol.PlatformListFits | internal/protocol/client.go:320-323 | the test against the size of the allowlist never decides: distinct supported platforms are never more than the allowlist has |
| Protocol.ValidJob | internal/protocol/client.go:211-253 | accepts exactly the well-formed test jobs and the review jobs whose pending platforms are non-empty, distinct and among the requested ones |
| Protocol.SendWithRetries | internal/protocol/client.go:367-389 | at most three requests with one body; an answer other than 200 is followed by another request exactly when there was none or it is 408, 425, 429 or at least 500, two requests at most came before, and the context lasts; nil exactly when an attempt reached in this way is answered 200 |
| Protocol.Upload | internal/protocol/client.go:353-390 | the same for an upload; nothing is sent for a body that cannot be encoded or is larger than 32 MiB |
| Protocol.UploadIntegrationTest | internal/protocol/client.go:265-318 | the same for a test result, and nothing is sent for an ill-formed job or error code |
| JobRunner.StepInv | internal/app/app.go:712-806 | every step of every worker, the heartbeat and main keeps the invariant that ties messages sent, capacity, close and recorded work together |
| JobRunner.SendsNeverBlock | internal/app/app.go:716-798 | for accepted jobs and every interleaving no goroutine waits at a full error channel and none sends after the close |
| JobRunner.BlockingCondition | internal/app/app.go:716-743 | some interleaving blocks a send exactly when nothing is pending and the job has platforms |
| JobRunner.BlockedForever | internal/app/app.go:727-732 | a heartbeat that waits at a full channel waits in every later state, so the job never returns |
| JobRunner.RunsAreBounded | internal/app/app.go:747-806 | apart from heartbeats and outside cancellation every run has at most 8 steps per platform and 8 more |
| JobRunner.NeverStuck | internal/app/app.go:712-806 | in every reachable unreturned state of an accepted job something can move that brings the end nearer, or an outstanding heartbeat reply does |
| JobRunner.BeatAppended | internal/app/app.go:721-736 | the counter of consecutive failures detects exactly the first three failed heartbeats in a row |
| JobRunner.JobOutcome | internal/app/app.go:747-806 | the job returns nil exactly when all uploads returned nil and no three heartbeats in a row failed, and otherwise the first error that was reported, which tells of one that did not; each pending platform is collected once, its result has members or an error and not both, and a worker gives up only when its result cannot be encoded, on an answer that no retry helps, on the third answer, or when cancelled between two requests |
| JobRunner.DeliversLikeUpload | internal/protocol/client.go:367-389 | a worker that is not cancelled and encodes its result delivers exactly when the retry loop of Upload does on the same answers |
| JobRunner.RetryDelivers | internal/protocol/client.go:367-389 | for every job a run in which every upload is answered 503 and then 200, each worker has sent two requests, and the job returns nil |
| JobRunner.DeliveredYetFailedCondition | internal/app/app.go:721-803 | a job that delivered every upload returns an error exactly when its last three heartbeats failed, and through its own cancel alone exactly when the last of them was answered after that cancel |
| JobRunner.DeliveredYetFailed | internal/app/app.go:795-803 | for every job a reachable return with an error although all uploads were delivered, two heartbeats having failed before main's cancel and one after it |
| DeployKeys.AppendEnabled | internal/collector/github.go:221-234 | a page adds exactly its enabled keys, in order |
| DeployKeys.ScanRepository | internal/collector/github.go:199-247 | a repository counts as scanned exactly when a page with fewer than 100 keys arrives within 1000 pages, all before it being full, and then yields one key for each record on these pages that is not disabled, in page and record order, with the id, title, full name, access, dates and author of that record; otherwise none |
| DeployKeys.StepInv | internal/collector/github.go:192-265 | every step of the feeder, the six workers and main keeps each handed-out repository in exactly one place |
| DeployKeys.ResultsHaveRoom | internal/collector/github.go:193-257 | no worker ever waits for room on the result channel or finds it closed |
| DeployKeys.EveryScheduleFinishes | internal/collector/github.go:192-265 | no schedule gets stuck and all take the same number of steps to the end |
| DeployKeys.AllReceived | internal/collector/github.go:251-265 | when main stops receiving it has received every repository's result exactly once |
| DeployKeys.FlattenPermutation | internal/collector/github.go:259-265 | what is gathered does not depend, as a multiset, on the order of arrival |
| DeployKeys.Gather | internal/collector/github.go:259-280 | the report is a sorted arrangement of the keys of the scanned repositories, with the matching counts, status and message |
| DeployKeys.CoverageComplete | internal/collector/github.go:266-270 | the scanned count reaches the total exactly when every listed repository was scanned |
| DeployKeys.OneReport | internal/collector/github.go:271-280 | what sort.Slice promises of the gathered keys leaves one sequence exactly when no two different keys share repository, name and id |
| DeployKeys.SchedulesAgree | internal/collector/github.go:192-280 | two finished runs of the pool under any two schedules give the same sorted report, when no two different keys share repository, name and id |
| DeployKeys.PagesToReport | internal/collector/github.go:192-280 | under every schedule the report holds one key for each enabled record on the pages of the repositories that can be scanned and nothing else, each made from its record, in order of repository, name and id; and all repositories count as scanned exactly when a short page of each comes within the limit |
| DeployKeys.InventoriedMeans | internal/collector/github.go:192-280 | the report described record by record is the sorted arrangement of what the repositories contribute page by page, and the other way round |
| DeployKeys.PagesDetermineReport | internal/collector/github.go:192-280 | the pages leave one such report exactly when no two different keys made from their records share repository, name and id |
| DeployKeys.GitHubDeployKeys | internal/collector/github.go:192-280 | scanning every repository and gathering the results in any order of arrival gives such a report, counts the repositories that can be scanned, and says complete exactly when all can |
| Schedules.ScheduleShows | internal/collector/github.go:192-270 | two finished runs of the pool can bring the keys of one triple to the sort in different orders exactly when the lists of two repositories for that triple do not commute |
| Schedules.StableReportCondition | internal/collector/github.go:192-280 | if the sort kept the order of equal keys, the report would differ between two runs under exactly the same condition |
| Schedules.SingleKeysEntangled | internal/collector/github.go:271-280 | for repositories with one key each of a triple the condition is that the keys differ |
| Disks.PublishedWithin | internal/vault/vault.go:213-217 | renaming a synced file onto the path adds only that file to what a power loss may bring back |
| Disks.SyncedExactly | internal/vault/vault.go:218-226 | once the directory is synced only the new file can come back |
| AtomicWrites.AtomicWrite | internal/vault/vault.go:186-227 | in every state of the call a power loss leaves what could be found before or the whole new blob; nil means the new blob is durable; after an error the path reads as before or as the new blob; other paths read as before and nothing new can come back there |
| AtomicWrites.SaveSeries | internal/vault/vault.go:186-227 | over any series of saves, with temporary names that are only free when they are picked, in every state on the way a power loss leaves the blob of the last save that had returned nil, or one attempted after it |
| VaultData.LocalKeyRoundTrips | internal/vault/local.go:112-144 | the local key unwraps what it wrapped, in 72 bytes, and wraps under no other key name |
| VaultData.LocalUnwrapMeans | internal/vault/local.go:127-144 | the local key unwraps exactly a nonce of 24 bytes followed by what was sealed under this key and nonce with the local wrapping text, under its own name |
| VaultData.DataKept | internal/vault/types.go:10-69 | vault data comes back from JSON as it was exactly when all its text, names included, is well-formed UTF-8, and what comes back always is |
| VaultData.OtherLocalKeyFails | internal/vault/local.go:127-144 | a data key wrapped by one local key does not unwrap under another |
| VaultData.MetadataInjective | internal/vault/vault.go:182-184 | the authenticated text determines version, supported provider and key name, colons in the key name included |
| VaultData.MetadataText | internal/vault/vault.go:182-184 | that text is the prefix, the decimal version, the provider and the key name, with colons between |
| VaultStore.EnvelopeFits | internal/vault/vault.go:69-109 | an 80 MiB plaintext, 64 KiB of wrapped key and 3,500,000 bytes of key name give a file within the 128 MiB that reading allows |
| VaultStore.EnvelopeLengthIs | internal/vault/vault.go:34-41 | the length that is compared is that of the JSON text with its base64 fields |
| VaultStore.ReadEnvelope | internal/vault/vault.go:141-180 | returns exactly the envelopes of version 1, a known provider, a key name, 1 to 65536 wrapped bytes, a 24 byte nonce and 16 to 83886096 sealed bytes in a file of at most 128 MiB, and reports a missing file as such |
| VaultStore.Load | internal/vault/vault.go:111-139 | succeeds exactly when the file holds data under the store's provider, key name and wrapper, and returns that data; the buffers it makes held the unwrapped key and what that key opens, and every buffer it makes is wiped on every return |
| VaultStore.LoadsMeans | internal/vault/vault.go:111-139 | what a file holds for a store: the data sealed in it under the 32 byte key that the provider unwraps, its nonce, and the text of version, provider and key name |
| VaultStore.Save | internal/vault/vault.go:69-109 | fails before writing exactly on an oversized payload or a failed wrap, leaving the disk alone; otherwise only the sealed file can join what is found; nil makes it the only one; the buffers it makes held the encoded data and the data key, and every buffer it makes is wiped on every return |
| VaultStore.SavedFile | internal/vault/vault.go:84-103 | the envelope that is written, field by field: the encoded data sealed under the fresh key and nonce with the text of version, provider and key name, and that key only as the provider wrapped it |
| VaultStore.SaveLoadRoundTrip | internal/vault/vault.go:69-139 | for every wrapper that round-trips keys a saved vault loads exactly when the key name is UTF-8 and key name, wrapped key and file size pass the reader's limits; it loads as what JSON makes of the data, which is the data saved exactly when that is UTF-8 throughout |
| VaultStore.SavedVaultLoads | internal/vault/vault.go:69-180 | for 1 to 65536 wrapped bytes, data of UTF-8 and a key name of UTF-8 of ordinary length every saved vault loads as it was |
| VaultStore.LargeWrapLost | internal/vault/vault.go:69-180 | a store whose Save returns nil with 65537 wrapped bytes, and whose vault never loads |
| VaultStore.StrangeNameLost | internal/vault/vault.go:104-118 | a store whose Save returns nil under the key name "\xff", and whose vault never loads |
| VaultStore.StrangeTextChanged | internal/vault/vault.go:69-139 | for all data with text that is not UTF-8 a store whose Save returns nil and whose vault loads, but not as the data saved |
| Utf8.JsonKeeps | internal/vault/vault.go:104 | a string comes back from JSON as it was exactly when it is well-formed UTF-8 |
| Utf8.RuneIsEncoded | internal/vault/vault.go:104 | the sequences that are recognized are encodings of characters as in section 3 of RFC 3629 |
| Utf8.EncodedIsRune | internal/vault/vault.go:104 | and every encoding of a character is recognized, whatever follows it |
| Utf8.BadByteReplaced | internal/vault/vault.go:104 | a byte that starts no such sequence becomes U+FFFD and what stands before it stays |
| VaultStore.TamperedNeverLoads | internal/vault/vault.go:111-184 | a file that unwraps to a saved data key loads only with the saved provider, key name, nonce and ciphertext, and as the saved data |
| LocalKeys.StepInv | internal/vault/local.go:27-110 | every system call of every caller keeps the file genuine or a part written by its one live creator |
| LocalKeys.ExistingKeyKept | internal/vault/local.go:49-110 | an existing key file is never overwritten or removed, and whoever gets a key gets it |
| LocalKeys.NeverHalfAKey | internal/vault/local.go:27-64 | whoever gets a key gets the starting one or all of one caller's |
| LocalKeys.KeysAgree | internal/vault/local.go:49-110 | while no created file was taken away all callers with a key have the one in the file |
| LocalKeys.CreatorsSucceedKeysAgree | internal/vault/local.go:66-110 | in runs where no creator fails after its exclusive create all callers with a key agree with the file |
| LocalKeys.CreatesOnce | internal/vault/local.go:49-64 | in every run a caller attempts the exclusive create at most once |
| LocalKeys.FailsOnlyOnSize | internal/vault/local.go:27-64 | as long as no call fails, a caller fails only by reading a file that has not 32 bytes: losing the race for the create is no failure |
| LocalKeys.LateFailureSplits | internal/vault/local.go:81-98 | a run in which a late failure of one creator leaves two callers with different keys |
| LocalKeys.DisagreementCondition | internal/vault/local.go:49-110 | different keys are possible exactly when there was no file, at least three callers run and their random keys are not all equal |
| LocalKeys.QuietKeyIsSettled | internal/vault/local.go:49-110 | when no creator is at work and no caller has failed, a key that somebody has is in the file and safe from power loss |
| LocalKeys.UnsettledCondition | internal/vault/local.go:49-110 | a caller can have a key that a power loss takes away exactly when there was no key file and at least two callers run |
| LocalKeyDisks.StepMatches | internal/vault/local.go:66-110 | every step of every caller, done on a disk that can lose power, keeps the disk and the state of the callers in agreement |
| LocalKeyDisks.SettledIsDurable | internal/vault/local.go:49-110 | in every state of every run the key file reads on the disk as the callers see it, and counts as settled exactly when a power loss can leave nothing but that whole file |
| KeyFiles.CreateLocalKey | internal/vault/local.go:66-110 | only the key path is touched; nil means the whole key is found after any power loss, which no earlier state of the call promises; a failed call leaves no file unless its removal fails, and an existing file is left alone |
| Configure.NonInteractiveSetup | internal/app/app.go:951-979 | accepted exactly when the options fit the provider and a token that is to come from stdin comes, and only key name, Beacon name and token are taken over |
| Configure.ValidateSetup | internal/app/app.go:808-849 | accepts exactly a fitting key name, the canonical URL, a valid name and version, and either a valid token or a complete identity whose name is kept |
| Configure.SelfTest | internal/vault/kms.go:23-44 | passes exactly when the provider gives a fresh probe back |
| Configure.Prepare | internal/app/app.go:448-501 | comes through exactly when the vault is missing or opens and what is asked for fits the provider and key it comes to: the provider of the option, else that of the vault, else the local one; the local key under its one name, else the key asked for, else the vault's own key when its provider stays |
| Configure.OpenProvider | internal/app/app.go:72-98 | the local provider wraps with the key in its key file, as found or as made for a missing one, and fails without a usable one; a key file that is made lasts through power loss; nothing else is touched |
| Configure.Run | internal/app/app.go:448-554 | the save is reached exactly when the vault opens, the request fits the provider and key that it comes to as in Prepare, the key provider opens and passes the self-test, and an enrollment asked for succeeds; it finishes exactly when the save returns nil; an enrollment is asked for exactly with a token, and nothing is enrolled or saved before the self-test; without a save the vault path is untouched in every state and at most a local key file was made; what is saved, where, and with the key of which key file; every buffer made for keys and plaintexts is wiped |
| Configure.LocalKeySettles | internal/app/app.go:496-554 | after the save the local key file lasts through power loss exactly when it was made by this configure or had been synced before |
| Configure.RewrapPreserves | internal/app/app.go:496-554 | after a finished token-free configure, whatever a power loss leaves of vault and key file, the next opening of what is found gives exactly the old integrations and identity with the canonical URL, under the new provider; for the local one through the key in the key file that is found |
| Secrets.NewSecret | internal/vault/types.go:10 | a fresh buffer with the text |
| Secrets.Destroy | internal/vault/types.go:26-30 | every byte of the buffer is zero |
| Secrets.Memory.Set | internal/vault/types.go:36-41 | exactly one credential changes, the replaced buffer is erased, the new one is owned, and no other buffer is touched |
| Secrets.Memory.SetSigningKey | internal/vault/types.go:71-74 | the old key is erased, the new one is owned, no credential changes |
| Secrets.DestroyCredentials | internal/vault/types.go:51-56 | every buffer of a credential set is erased |
| Secrets.Memory.DestroyAll | internal/vault/types.go:80-87 | every buffer the vault ever owned, replaced ones included, is erased and no integration is left |
| ImportSecrets.JoinedKeyIsPair | internal/app/app.go:341-359 | under the integration name pattern two joined keys are equal exactly when integration and name are |
| ImportSecrets.CheckPayload | internal/app/app.go:334-362 | accepts exactly version 1 with 1 to 256 well-formed items of distinct (integration, name) |
| ImportSecrets.OverlayHolds | internal/app/app.go:373-378 | after the import each listed credential has its value of the payload and every other one its old value |
| ImportSecrets.OverlayIntegrations | internal/app/app.go:373-378 | the import adds the integrations it names and no others |
| ImportSecrets.ImportedMeans | internal/app/app.go:364-380 | the data an import saves: the old control plane, each listed value under its integration and name, every other credential and integration as it was |
| ImportSecrets.OpenVault | internal/app/app.go:431-446 | opens exactly what loads under the file's own provider and key name; the vault in memory holds the decoded data and owns every buffer that was made for it |
| ImportSecrets.Overwrite | internal/app/app.go:373-383 | the overlaid data is saved, and all buffers that the vault owned before or came to own are erased, however the save fares |
| ImportSecrets.Import | internal/app/app.go:298-383 | a rejected payload opens and changes nothing; otherwise exactly the overlaid data is saved, with the outcome of the save; buffers were made for every secret of the vault and of the payload, and every buffer made for a secret, a key or a plaintext is erased on return, also after a failed save |
| Versions.ScanUint | internal/upgrade/upgrade.go:284-295 | reads exactly the digit strings that fit in 64 bits, as their value |
| Versions.VersionParts | internal/upgrade/upgrade.go:248-260 | of at most three core parts (a fourth is an index panic) the three numbers as Sscanf reads them, zero where one is missing, is no number or does not fit, and the prerelease text |
| Versions.CoreNumbersFound | internal/upgrade/upgrade.go:248-260 | the three numbers found in a version are those it was put together from, in this order |
| Versions.ReleasePattern | internal/upgrade/upgrade.go:38 | the release versions are exactly the texts put together as "v", three dotted numbers, and optionally a dash and characters of the pattern |
| Versions.ComparePrereleaseIdentifier | internal/upgrade/upgrade.go:262-282 | numbers by value, numbers below text, text by bytes, equal values in different text as greater |
| Versions.CompareVersions | internal/upgrade/upgrade.go:214-246 | the comparison that the order lemmas are about |
| Versions.CompareAgrees | internal/upgrade/upgrade.go:214-295 | on versions without leading zeros the comparison is antisymmetric, zero only on equal strings, and negative exactly on precedence |
| Versions.CompareTransitive | internal/upgrade/upgrade.go:214-295 | and transitive, so a total order |
| Versions.CompareIsSemVer | internal/upgrade/upgrade.go:214-295 | with numeric identifiers below 2^64 it is the precedence of section 11 of Semantic Versioning 2.0.0, of the numbers that the dot-separated parts of the text denote |
| Versions.NormalVersions | internal/upgrade/upgrade.go:214-260 | "v" and three dotted numbers compare by the first, then the second, then the third number, one of more than 64 bits counting as 0 |
| Versions.WrittenPrecedence | internal/upgrade/upgrade.go:214-295 | the same for a version put together from three numbers and a list of identifiers: the comparison is the precedence of the parts it was written from |
| Versions.NormalIsLast | internal/upgrade/upgrade.go:227-232 | a version comes after its own prereleases |
| Versions.OneIdentifier | internal/upgrade/upgrade.go:262-282 | after the same numbers a single identifier decides: numbers by value, numbers before text, text by its first different byte |
| Versions.ChainIncreases | internal/upgrade/upgrade.go:86-93 | along any chain of upgrades without a mutually newer step versions strictly increase and none repeats |
| Versions.MutuallyNewer | internal/upgrade/upgrade.go:214-295 | two versions are newer than each other exactly when their cores are equal as numbers and the first difference of their prereleases is one number written in two ways |
| Versions.RepeatCondition | internal/upgrade/upgrade.go:86-93 | a chain of upgrades through a set of releases can come back to a version exactly when two of the releases are mutually newer |
| Versions.WellWrittenNotMutual | internal/upgrade/upgrade.go:262-282 | versions without leading zeros never are |
| Versions.LeadingZeroCycle | internal/upgrade/upgrade.go:262-282 | v1.0.0-1 and v1.0.0-01 are such a pair |
| Upgrade.Run | internal/upgrade/upgrade.go:65-94 | an install follows exactly when the running version and the target are release versions and the target is newer, the target being the version of the flag, and only without one the latest release; up to date exactly when they are equal |
| Upgrade.LatestVersion | internal/upgrade/upgrade.go:96-130 | the first release of the list that is neither a draft nor any kind of prerelease and has a release version |
| Upgrade.NamesMeans | internal/upgrade/upgrade.go:345-351 | a line names the artifact exactly when it has two fields, the second the artifact with or without a star before it |
| Upgrade.ExpectedChecksum | internal/upgrade/upgrade.go:342-358 | the checksum of the one well-formed line that names the artifact, and nothing when there is none or more than one |
| Upgrade.Fetch | internal/upgrade/upgrade.go:156-182 | a binary comes out exactly when the archive holds one and its hash is the one entry of a checksum file that a trusted key signed for just this version |
| Upgrade.ReplaceBinary | internal/upgrade/upgrade.go:407-435 | success leaves new current and old as backup; in every state the old binary is at the current or backup path, except in one combination of failures; a failed call restores both paths exactly under the stated condition on the failures; when the older backup is still at its temporary path |
| Upgrade.OneFailureIsHarmless | internal/upgrade/upgrade.go:407-435 | with at most one failed rename the old binary is never lost and a failed call restores both paths |
| Upgrade.InstallTail | internal/upgrade/upgrade.go:186-204 | the same through both checks of the new binary: a binary that fails the first check changes neither path, and after a failed second check the old binary is current again exactly when the rollback rename works |
| Upgrade.Upgrade | internal/upgrade/upgrade.go:65-204 | an upgrade succeeds exactly when the target is a newer release, its binary is authentic and reports it in both checks, and no call that matters fails; that binary is then current and the old one its backup; refused or without an authentic binary nothing changes; a failed installation restores both paths exactly under the stated condition; the old binary is kept in every state but for the one combination of failures |
| Upgrade.InstallsWhatWasPublished | internal/upgrade/upgrade.go:156-182 | with an ideal hash and trusted keys that sign published releases only, that binary is the one published for the target, whatever is served |
| Upgrade.UpgradeSeries | internal/upgrade/upgrade.go:65-204 | a series of upgrades, failed ones included, each run by the binary that is current then, ends early only without a current binary; every success makes its target the version reported next, and over a stretch with a success in it and no mutually newer step the version reported is strictly newer and not repeated |
| Upgrade.NeverFalls | internal/upgrade/upgrade.go:86-93 | over any stretch of such a series without a mutually newer step the version reported stays or gets strictly newer |
| Upgrade.NoVersionReturns | internal/upgrade/upgrade.go:86-93 | with no leading zeros in the start or any target, no version that a success has left is reported again |
| ReleaseTrust.MessageInjective | internal/releasetrust/manifest.go:22-30 | a version without newlines and the checksum bytes can be read back from the signed message |
| ReleaseTrust.Sign | internal/releasetrust/manifest.go:32-54 | signs with every key once, in ascending order of key id, or not at all; its result is the envelope as JSON hands it on |
| ReleaseTrust.SignedEntries | internal/releasetrust/manifest.go:32-54 | a signed release has one entry for each key, in ascending order of the ids, with that key's signature over the message |
| ReleaseTrust.Verify | internal/releasetrust/manifest.go:56-78 | accepts exactly when some entry is valid under the trusted key of its id and no id is repeated up to it |
| ReleaseTrust.SignThenVerify | internal/releasetrust/manifest.go:32-78 | with key ids of UTF-8 a signed release verifies exactly when some signing key is trusted under its own id |
| ReleaseTrust.UnreadableID | internal/releasetrust/manifest.go:53-77 | a client that trusts just a signing key whose id is not UTF-8 does not accept the release |
| ReleaseTrust.VerifyMeansTrust | internal/releasetrust/manifest.go:32-78 | verification means trust in a signing key, for all trusted sets, exactly when every key id is UTF-8 |
| ReleaseTrust.TransitionRelease | docs/RELEASING.md:70-79 | a release signed with the old and the new key, their ids being UTF-8, verifies for clients that trust either or both |
| ReleaseTrust.AcceptancePins | docs/RELEASING.md:80-82 | an accepted version and checksum file are those of a release that trusted keys signed |
| Chains.OneEnd | internal/collector/linear.go:53-145 | a vendor's page chain has at most one end, so a collection has at most one result |
| Chains.AcceptedMeans | internal/collector/linear.go:53-145 | an accepted chain page by page: at most 1000 pages, each naming the next cursor, the last one none, and no cursor twice |
| Chains.GatheredParts | internal/collector/linear.go:103-131 | what is gathered, cut at the ends of the pages, is the items of each page in turn |
| Chains.SteadyChainsNeverRepeat | internal/collector/linear.go:134-138 | refusing a repeated cursor loses nothing: a vendor that answers consistently and comes back to a cursor never reaches a last page |
| Chains.CyclicVendorFails | internal/collector/linear.go:134-143 | a consistent vendor whose pages form a cycle never yields a list |
| Linear.Collect | internal/collector/linear.go:49-146 | succeeds exactly when the page chain ends within 1000 pages without a bad page, a repeated cursor or more than 100000 users, and returns its users' records in order; no cursor is requested twice |
| Vercel.Collect | internal/collector/vercel.go:54-155 | the same for timestamp cursors, counting unexpired invitations of the first page against the limit |
| Vercel.InvitationsOnce | internal/collector/vercel.go:105-139 | the accounts are the first page's members, its unexpired invitations once, and the members of the later pages |
| Vercel.OutstandingAre | internal/collector/vercel.go:128-133 | the invitations listed are those at the positions that have not expired, in their order |
| Zoom.Collect | internal/collector/zoom.go:61-134 | succeeds exactly when all three chains are accepted, and returns their users one chain after the other |
| Scim.NextOffset | internal/collector/figma.go:95-150 | startIndex stays one more than the users so far and strictly rises |
| Scim.StableList | internal/collector/canva.go:52-110 | of an unchanging list of n users in pages of c exactly the list is returned if n is at most 1000 c and at most 100000, and nothing otherwise, for Figma and for Canva |
| Figma.UserEmail | internal/collector/figma.go:59-71 | the first primary address, else the first, else the user name |
| Figma.EmailMeans | internal/collector/figma.go:59-71 | the same by position: the first address marked primary as a boolean or as the text "true" in any case, else the first of all |
| Figma.SeatMeans | internal/collector/figma.go:73-88 | the seat by position: the first role of type seatType with a known value, else "member" |
| Figma.Collect | internal/collector/figma.go:91-156 | the records of exactly the collectable offset chain, or no list; no start index is requested twice |
| Canva.UserEmail | internal/collector/canva.go:83-91 | the first primary address, else the first that is not empty |
| Canva.EmailMeans | internal/collector/canva.go:83-91 | the same by position: the first primary address even when it is empty, else the first that is not empty |
| Canva.Collect | internal/collector/canva.go:31-111 | the same chain as Figma's although its stop test is written differently |
| Gcp.ParsedId | internal/collector/gcp.go:98-114 | the id of a principal is the whole member text |
| Gcp.ParseReads | internal/collector/gcp.go:98-114 | every member text that reads as an optional "deleted:", a known kind, a colon, an email and an optional "?uid=" part is parsed to just these |
| Gcp.ParsedReads | internal/collector/gcp.go:98-114 | and nothing else is parsed |
| Gcp.FactsAre | internal/collector/gcp.go:158-178 | the merged facts are exactly the (member, role) pairs stated anywhere in the policies |
| Gcp.Normalize | internal/collector/gcp.go:193-232 | the listing of the merged principals, whatever order the maps are walked in |
| Gcp.Collect | internal/collector/gcp.go:118-191 | succeeds exactly when the page chain is accepted and names at most 100000 principals, and returns the listing of its facts |
| Gcp.SameFactsSameOutput | internal/collector/gcp.go:118-232 | outputs with the same facts are equal, however the facts are repeated, ordered or split over pages, policies and bindings |
| Gcp.ListingIds | internal/collector/gcp.go:193-232 | one member per principal named in the policies, strictly ascending by id, with the text of exactly the union of its roles |
| Gcp.ListingReads | internal/collector/gcp.go:98-232 | who is listed: a text named in the policies that reads as an optional "deleted:", a kind, a colon, the listed email and an optional "?uid=" part, deactivated exactly with the "deleted:" |
| Gcp.ListingRole | internal/collector/gcp.go:158-232 | and with exactly the roles, in ascending order, that the policies name with it |
| Gcp.RoleTextMeans | internal/collector/gcp.go:212-226 | the role text of such roles: their list, for a service account after "service account", and only their number when that is longer than 500 bytes |
| Gcp.RoleTextShort | internal/collector/gcp.go:212-226 | a role text has at most 500 bytes |
| Gcp.RoleTextReadable | internal/collector/gcp.go:212-226 | unless roles are only counted, comma-free roles can be read back from the text |
| Cloudflare.KeptAre | internal/collector/cloudflare.go:116-135 | the kept names are all usable names of some prefix of what is offered, at most 32, and all of them unless 32 are reached |
| Cloudflare.AllKept | internal/collector/cloudflare.go:116-135 | every usable name is kept exactly when there are at most 32 |
| Cloudflare.OfferedAre | internal/collector/cloudflare.go:124-135 | what is offered is the roles and the groups of the policies that do not deny |
| Cloudflare.GroupsInOrder | internal/collector/cloudflare.go:124-135 | the roles are offered first, and then the groups of each policy that does not deny, policy by policy |
| Cloudflare.StrictTotalOrder | internal/collector/cloudflare.go:143-162 | the comparator is irreflexive, transitive and total on distinct names |
| Cloudflare.OutranksMeans | internal/collector/cloudflare.go:143-162 | one name is before another exactly when its class is higher (super administrators, then administrators and owners, then write or edit, then the rest) or the classes are equal and its bytes are lower |
| Cloudflare.BestUnique | internal/collector/cloudflare.go:139-168 | the shown list is determined by the kept names, whatever the order of the map |
| Cloudflare.BestComesFirst | internal/collector/cloudflare.go:143-168 | the most privileged kept name is shown, and first |
| Cloudflare.HigherComeFirst | internal/collector/cloudflare.go:143-168 | a name is shown only if every kept name of a higher class is, and then after it |
| Cloudflare.SuperAdministratorFirst | internal/collector/cloudflare.go:143-168 | with a super administrator among the kept names the first name shown is one |
| Cloudflare.TextShort | internal/collector/cloudflare.go:163-168 | the joined text has at most 486 bytes |
| Cloudflare.MemberRole | internal/collector/cloudflare.go:115-169 | the text is the list of the at most four best kept names by class and bytes, none of the others before one of them, or "member" |

## Left out

- HTTP, TLS, retries of vendor requests, JSON and process execution: a reply is a parsed value or a failure.
- The bytes of ciphertexts, signatures and checksums: with finitely many bytes ideal authenticity would be
  contradictory, so ciphertexts and signatures are terms. Whether a key is drawn twice is an assumption
  (`VaultStore.SealedOnceWith`).
- JSON text is not spelled out: a codec is any pair of functions that brings data back as JSON does (`VaultData.Keeps`). Which of two entries stays whose names become one in JSON is left open.
- LocalKeys.StepInv: reading the key file is one atomic step; the file's owner and mode are the `Refuse` action; after a power loss no further steps are modelled, only what it can take away.
- Real time: ticks, timeouts and back-off are events that may happen when they are possible.
- JobRunner.NeverStuck: the progress claim is about single states and bounded runs; that a scheduler lets every goroutine move is assumed.
- `executeIntegrationTestJob`, `run` and the polling loop: one call of collecting and one upload, no shared state.
- Leases, re-claims and idempotent replay belong to the control plane, which is not in the repository.
- The repository inventory of `GitHubDeployKeys` (github.go:150-181) and the member enrichment pool of `GitHub`: the same page loop and the same worker pool again.
- Asana, Notion, OpenAI, Anthropic, Twingate, BambooHR, Google and similar collectors: the cursor loop of Linear again.
- Spend totals, status mappings and connection-probe codes: floating-point sums, and branches that say what they do.
- Asset download and archive extraction of an upgrade: what is served, and what unpacking makes of it, are parameters.
- Versions.VersionParts: Sscanf also skips white space outside ASCII before a number, which no release version contains.
- The setup form, option parsing, help and log output.
- The wiping of the import payload and of `LocalKey`: the payload's strings are immutable in Go, and the key's field is wiped by the same loop as every other secret.
- Strings made from a secret for a vendor call: Go decides how long they live.
