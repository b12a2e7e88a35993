# A verified model of the ARO installer wrapper

The installer wrapper resolves a graph of install assets, edits the bootstrap ignition, persists the
result and deploys it to Azure. This project models the algorithms and protocols in that path and
proves properties of them, for all inputs, all runs and all interleavings.

| module | what it models |
|---|---|
| `AssetGraph` | the memoised depth-first resolver over the asset dependency graph |
| `Encryption` | key rotation in the key vault, the composed cipher, nonce handling |
| `Persistence` | the two-blob write-once protocol with crashes, failed uploads and rotating keys |
| `Executor` | the token-limited concurrent runner of the load test, as interleaved processes |
| `StringOrder`, `ZoneSelection` | zone selection on slices that two SKUs may share, and the VM copy loop |
| `ArmMarshal` | the shadow copy that drops custom marshallers, and the merge of two structs |
| `KeyedList`, `StorageFiles` | replace-or-append on ignition files and units, and the directory walk |
| `Base64`, `McsCerts` | the in-place renewal of the machine-config-server certificate |
| `EtcHosts` | the strip-and-append rewrite of /etc/hosts |
| `Customisation` | the row of edits between resolving the graph and persisting it |
| `Steps` | deployment errors, the retry step, the condition step, the runner |
| `PullSecrets` | merging pull secrets |

Code that changes things step by step is a method, proved equal to a function of its inputs or of the
old state; the theorems are lemmas about those functions. What the code gets from elsewhere is a
parameter: generators' answers, ciphers, JSON and YAML codecs, the outcomes of uploads, durations.
What is assumed of such a parameter is a named predicate (`ReadsOnlyDependencies`, `Correct`,
`RejectsOtherKeys`, `RoundTrips`) that the theorems needing it require.

Where an expected property turned out not to hold of the code, the code was kept and the exact
condition was proved:

* `ExecuteRunners` returns, under fair scheduling, exactly when every `Run` leaves `ProcessState` set;
  a single script that cannot be started keeps the status goroutine, and with it the whole run, going
  for ever.
* The shadow copy prints what native marshalling prints exactly when the value is `Faithful`. The
  arrays of nil pointers that the repository's own test (pkg/util/arm/marshal_test.go:87-95) expects to
  be left out are one of the cases where it does not: native marshalling prints them.
* `MarshalJSON` prints the outer resource over the nested one exactly when each value of the nested one
  that stays is faithful under the tag it gets, and no outer value that wins is an empty list under omitempty.
* A zone selection in basic mode spoils the zone lists for a later one in expanded mode exactly when
  some zone is neither basic nor blank. The zones it returned are slices of the SKUs' own arrays, and
  the later selection changes what they read exactly when some zone is not basic. Zones 1 to 4 are a
  case of both.
* A later run of the hosts script supersedes an earlier one exactly when the hosts file ended in a line
  break or in a line of the script's own, or the earlier configuration was empty; otherwise the second
  run leaves what it would have left had the file's last line never been there.
* Merging pull secrets overlays the second on the first exactly when the second has no null entry for a
  key the first one lacks.
* The flag of `SetRegistryProfiles` is right exactly when no profile is unlike the secret, or one that is
  also stands last of its name. With distinct names it always is right; with a repeated name it can be
  raised over a secret that ends up as it was.
* The customised bootstrap has distinct file paths exactly when the initial and the plainly appended files
  have, and the hosts files' paths are distinct and not taken by any file before them.
* A plain deadline error of the condition step shows that the step's own timeout has passed exactly when
  the outer context has no deadline before it.
* An answer of a deployment is worth a retry after `DeployTemplate` exactly when it was before, but for
  service errors that get wrapped: of those only the wrapped text counts.

## Model

| member | source | states |
|---|---|---|
| AssetGraph.Graph.Resolve | pkg/cluster/graph/graph.go:28-53 | the recursive code does to its map exactly what the function `Dfs` says, in the same generator calls, with the same error |
| AssetGraph.Graph.ResolveEach | pkg/installer/custominstallconfig.go:124-133 | the loop over dependencies, and over the targets, stops at the first error and leaves what `DfsAll` says |
| AssetGraph.DfsRefinesMeaning | pkg/cluster/graph/graph.go:28-53 | on any map of meanings, resolving an asset returns what the memo-free evaluation of that asset returns, value or error, and keeps the map a map of meanings |
| AssetGraph.ResolveComputesMeaning | pkg/installer/custominstallconfig.go:124-133 | a run from the seeds succeeds iff every target has a meaning, and otherwise returns the error of the first target that has none |
| AssetGraph.DfsAllIsTraced | pkg/cluster/graph/graph.go:28-53 | nothing present is overwritten, no type is generated twice, each only after its dependencies, and all calls but a failing last one add their key |
| AssetGraph.AddedEntriesAreClosed | pkg/cluster/graph/graph.go:33-47 | after any run, failed ones included, every added entry has all its dependencies in the map |
| AssetGraph.FinalKeysAreReachable | pkg/cluster/graph/graph.go:28-53 | on success the keys are those there before plus those reachable from a target by a dependency path avoiding them |
| AssetGraph.ResolutionIgnoresOrder | pkg/installer/custominstallconfig.go:124-133 | neither success nor the resulting map depends on the order of targets or of dependency lists |
| AssetGraph.UndeclaredReadsDependOnOrder | pkg/cluster/graph/graph.go:40-45 | generators are handed the whole map: one that reads an undeclared asset makes the result depend on the order |
| AssetGraph.ResolvingAgainIsFree | pkg/cluster/graph/graph.go:29-31 | resolving present targets calls no generator and changes nothing |
| Encryption.OpenUndoesSeal | pkg/util/encryption/xchacha20poly1305.go:35-55 | the opener cuts off exactly the nonce the sealer put in front |
| Encryption.SealingLayout | pkg/util/encryption/xchacha20poly1305.go:46-55 | sealing fails only for want of randomness; the nonce goes in front, unchanged |
| Encryption.OpeningFailsIff | pkg/util/encryption/xchacha20poly1305.go:35-44 | an input too short for what it must hold is refused as such, any other exactly if the cipher refuses it |
| Encryption.GetBase64Secrets | pkg/util/keyvault/keyvault.go:156-176 | the keys of the enabled versions in listing order, or an error iff one cannot be decoded |
| Encryption.NewMulti | pkg/util/encryption/multi.go:19-57 | the sealer holds the current key; the openers hold every enabled key of the secret, then of the legacy secret; any unusable key is an error |
| Encryption.ComposesIff | pkg/util/encryption/multi.go:19-57 | a cipher is composed iff the current version is enabled and every enabled version of either secret holds a key of its cipher's size |
| Encryption.OpenersAreEnabledKeys | pkg/util/encryption/multi.go:34-54 | the openers are exactly the enabled keys of the secret and of the legacy secret, each with its own cipher, the secret's first |
| Encryption.Open | pkg/util/encryption/multi.go:59-68 | the first accepting opener's plaintext, else the last opener's error, and neither when there are no openers |
| Encryption.OpenersFindTheirCiphertext | pkg/util/encryption/multi.go:59-68 | a ciphertext opens to its plaintext iff its cipher and key are among the openers, wherever they stand |
| Encryption.LaterMultiOpens | pkg/util/encryption/multi.go:19-72 | over any rotation history, a later cipher opens what an earlier one sealed if the version current at sealing is still enabled |
| Encryption.LegacySealedOpens | pkg/util/encryption/multi.go:34-68 | over any rotation history, what a key of the legacy secret sealed opens as long as its version is enabled |
| Persistence.Account.Save | pkg/cluster/graph/manager.go:69-95 | succeeds iff every call works, each failure with its own cause; each blob is this graph's once its upload has landed, and success means both are |
| Persistence.Account.PersistGraph | pkg/installer/graph.go:13-24 | a stored graph keeps both blobs through every outcome; without one, success iff every call works, and then graph and ignition belong together |
| Persistence.Account.LoadPersisted | pkg/cluster/graph/manager.go:97-128 | downloads, opens and decodes, with every error exit |
| Persistence.PersistGraphFollowsProtocol | pkg/installer/graph.go:13-24 | every outcome of the code is a path of the protocol, and success means that a graph is stored |
| Persistence.StoredBlobsBelongTogether | pkg/cluster/graph/manager.go:69-95 | in every state of every run with crashes and rotations, a graph blob seals the graph whose bootstrap data the ignition blob holds |
| Persistence.StoredGraphIsFrozen | pkg/installer/graph.go:17-23 | once a graph is stored neither blob ever changes |
| Persistence.LoadReturnsTheStoredGraph | pkg/cluster/graph/manager.go:97-128 | as long as the sealing key version is enabled, loading yields the stored graph, the one whose ignition is stored |
| Executor.TokensBoundConcurrency | hack/installtest/run.go:132-173 | in every state of every interleaving tokens are conserved, no more runners than a positive concurrency are in flight, and no token return blocks |
| Executor.LimitIsReached | hack/installtest/run.go:135-163 | some interleaving has as many runners inside `Run` at once as the concurrency and their number allow, all of them if there is no limit |
| Executor.EachRunnerRunsOnce | hack/installtest/run.go:163-172 | no runner is entered twice, and all have run to their end when the function has returned |
| Executor.EventuallyFinishes | hack/installtest/run.go:132-173 | every fair interleaving reaches the end if every run leaves its process state set |
| Executor.ReturnsIffEveryRunLeavesProcessState | hack/installtest/run.go:145-172 | under fair scheduling the function returns iff every run leaves its process state set |
| Executor.FairExecutionExists | hack/installtest/run.go:132-173 | every configuration, zero runners and limits at or below zero included, has a fair interleaving |
| Executor.UnstartableScriptHangs | hack/installtest/run.go:145-172 | with one runner that leaves no process state there is a fair interleaving that never returns |
| ZoneSelection.DeleteNonBasic | pkg/installer/generateconfig.go:434-443 | compacts the basic zones to the front in order, blanks the freed tail, touches nothing behind |
| ZoneSelection.DetermineAvailabilityZones | pkg/installer/generateconfig.go:418-475 | the slices returned hold the answer on separate copies whether or not the SKUs share their array; they are parts of the SKUs' arrays unless no zone is allowed; and so is fixed what is left in each |
| ZoneSelection.DetermineTwice | pkg/installer/generateconfig.go:418-475 | two calls in a row in one mode give the same answer, and the slices of the first still read as they did |
| ZoneSelection.BasicThenExpanded | pkg/installer/generateconfig.go:418-475 | an expanded-mode call leaves what a slice returned by a basic-mode call reads iff the SKU's zones were all basic, or none was allowed |
| ZoneSelection.ChoosingAgain | pkg/installer/generateconfig.go:418-475 | choosing from what a call left behind is choosing from the original lists |
| ZoneSelection.ChoiceSucceedsIff | pkg/installer/generateconfig.go:449-472 | the choice succeeds iff both lists have none or at least three eligible zones; a failure names the number, the control plane's first |
| ZoneSelection.WorkersGetAll | pkg/installer/generateconfig.go:466-474 | the workers get all eligible zones in order, or no zone if there is none |
| ZoneSelection.BasicModeSpoilsExpandedMode | pkg/installer/generateconfig.go:436-443 | a basic-mode call leaves the expanded-mode list unchanged iff every zone was basic or blank |
| ZoneSelection.ZonesOneToFour | pkg/installer/generateconfig.go:436-443 | of the zones 1 to 4 an expanded-mode call after a basic-mode call sees a blank and then 1 to 3 |
| ZoneSelection.ControlPlaneGetsSmallest | pkg/installer/generateconfig.go:449-456 | no zone, or three sorted zones with everything not chosen at least as large |
| ZoneSelection.ControlPlaneSpreads | pkg/installer/generateconfig.go:449-456 | distinct SKU zones give distinct control-plane zones |
| ZoneSelection.CopyLoopStaysInBounds | pkg/installer/deployresources.go:88-96 | in any region each of the three VM copies gets no zone, or the zone at its copy index, never one out of bounds |
| ArmMarshal.CopyPrintsSameIffFaithful | pkg/util/arm/marshal.go:75-170 | for every value, with fields of one JSON name dropped as encoding/json drops them: the copy prints as the value does natively iff the value is faithful |
| ArmMarshal.FaithfulPrintsSame | pkg/util/arm/marshal.go:85-170 | a faithful value's copy prints natively, whatever its field names |
| ArmMarshal.ZeroBecomesNull | pkg/util/arm/marshal.go:159-164 | a zero number without omitempty is printed as null |
| ArmMarshal.EmptyListAppears | pkg/util/arm/marshal.go:159-164 | an empty list under omitempty is printed |
| ArmMarshal.ArrayOfNilsGoesMissing | pkg/util/arm/marshal.go:159-164 | an array of nil pointers under omitempty is left out |
| ArmMarshal.Merge | pkg/util/arm/marshal.go:27-54 | the two loops with the name index build the merged struct |
| ArmMarshal.MergeIsOverride | pkg/util/arm/marshal.go:39-54 | by name: outer over inner, with the inner value under the outer tag when the outer value is zero |
| ArmMarshal.MergeKeepsOrder | pkg/util/arm/marshal.go:31-54 | inner fields keep their positions, and the new outer fields stand behind them |
| ArmMarshal.NewFieldsAppend | pkg/util/arm/marshal.go:39-54 | the new outer fields are those without an inner field of the name, in their order |
| ArmMarshal.MergeKeepsNamesDistinct | pkg/util/arm/marshal.go:27-60 | no field name occurs twice in the merged struct |
| ArmMarshal.MarshalJSON | pkg/util/arm/marshal.go:14-63 | a struct, behind however many pointers, prints as the outer struct laid over it iff what stays is faithful; anything else is an error |
| ArmMarshal.ResourcePrintsUnderOuterIff | pkg/util/arm/marshal.go:14-63 | the result is the resource's own fields printed natively, non-zero outer fields over them, outer tags on those under zero ones, and the other outer fields after them, iff what stays is faithful under its tag |
| ArmMarshal.NilTagsTakeOuterTag | pkg/util/arm/marshal.go:43-47 | nil tags that the resource prints as null are left out under the outer tag |
| KeyedList.GoSlice.ReplaceOrAppend | pkg/data/bootstrap/util.go:99-131 | the nested loops on the growable array are the fold of replace-or-append |
| KeyedList.GoSlice.ReplaceOrAppendOne | pkg/data/bootstrap/util.go:224-233 | the one-file helper is one step of that fold |
| KeyedList.UpsertAllIsMerged | pkg/data/bootstrap/util.go:99-114 | old positions kept, new paths after them in order of first appearance, the last writer's entry at each path's first position |
| KeyedList.LookupFindsLastWriter | pkg/data/bootstrap/util.go:99-114 | a path holds its last writer's file, or what it held before |
| KeyedList.DistinctnessIsKept | pkg/data/bootstrap/util.go:99-114 | the paths are distinct afterwards iff they were before |
| KeyedList.GrowsByDistinctNewKeys | pkg/data/bootstrap/util.go:99-114 | the list grows by the number of different new paths |
| KeyedList.UpsertAllIsIdempotent | pkg/data/bootstrap/util.go:99-114 | doing it twice is doing it once, for every list, repeated paths included |
| KeyedList.UpsertAllInTwoGoes | pkg/data/bootstrap/util.go:224-233 | adding in two goes is adding once, so folding the one-file helper is the many-file helper |
| StorageFiles.AddStorageFiles | pkg/data/bootstrap/util.go:25-87 | the recursive walk is a left fold over the leaves in listing order, up to the first failure |
| StorageFiles.InstallIsUpsertAll | pkg/data/bootstrap/util.go:37-86 | a walk installs exactly the files before the first failing leaf, and succeeds iff there is none |
| StorageFiles.WalkFindsTheLeaves | pkg/data/bootstrap/util.go:25-65 | the walk meets every leaf of the tree under the path its names make up, and nothing else |
| StorageFiles.ListingOrder | pkg/data/bootstrap/util.go:37-54 | the leaves of earlier directory entries come first |
| StorageFiles.LeafFileMeaning | pkg/data/bootstrap/util.go:62-82 | a file loses one template suffix; its mode and whether it is appended follow from its name and its directory's |
| StorageFiles.WalkInstallsLastLeaf | pkg/data/bootstrap/util.go:25-87 | each leaf's trimmed path holds the last leaf mapping to it, and other paths are untouched |
| StorageFiles.WalkIsIdempotent | pkg/data/bootstrap/util.go:25-87 | walking the same tree again changes nothing, whether the walk succeeds or not |
| StorageFiles.PathsBelowDirectory | pkg/data/bootstrap/util.go:62-63 | below a directory the parent name that decides the mode is the directory's own |
| Base64.DecodeUndoesEncode | pkg/installer/regenerate_mcs_certs.go:114-145 | decoding undoes encoding for every byte string |
| Base64.StandardIsAlphabet | pkg/installer/regenerate_mcs_certs.go:114-145 | the standard alphabet has 64 different digits, neither a comma nor padding among them |
| Base64.StandardRanges | pkg/installer/regenerate_mcs_certs.go:114-145 | the digits are those of the table in section 4 of RFC 4648 |
| Base64.TestVectors | pkg/installer/regenerate_mcs_certs.go:114-145 | one, two and three bytes encode as in section 10 of RFC 4648 |
| Base64.LineBreaksAreSkipped | pkg/installer/regenerate_mcs_certs.go:114-117 | a line break anywhere makes no difference to decoding |
| McsCerts.DecodedUndoesEncoded | pkg/installer/regenerate_mcs_certs.go:36-40 | behind the header with its one comma, the second comma-separated part is the encoded text |
| McsCerts.StandardDecodedUndoesEncoded | pkg/installer/regenerate_mcs_certs.go:32-40 | so reading a data URL undoes writing it, with the alphabet the code uses |
| McsCerts.UpdateMCSCertKey | pkg/installer/regenerate_mcs_certs.go:96-148 | the loop edits the array in place up to the first failure, and not at all without an API address |
| McsCerts.UpdateInstallsOnePair | pkg/installer/regenerate_mcs_certs.go:109-145 | every key, certificate and secret file decodes to one and the same pair; no path, position or other file changes |
| McsCerts.UpdateSucceedsIff | pkg/installer/regenerate_mcs_certs.go:111-128 | the update goes through iff every secret file can be read and written back |
| McsCerts.RenewalOutcome | pkg/installer/regenerate_mcs_certs.go:96-148 | nothing is done without an API address; with one the renewal succeeds iff a pair was generated and every secret file is renewable, and then all three kinds carry it |
| McsCerts.LaterUpdateSupersedes | pkg/installer/regenerate_mcs_certs.go:109-145 | after a successful update a later one ends as it would have without it, leaving nothing of the first pair |
| EtcHosts.RunScript | pkg/installer/etchost/etchosts.go:61-77 | the script leaves the kept text followed by the marked configuration lines |
| EtcHosts.LaterRunSupersedesIff | pkg/installer/etchost/etchosts.go:61-77 | a second run makes the first irrelevant iff the file ended cleanly or the first configuration had no line |
| EtcHosts.GluedLineIsLost | pkg/installer/etchost/etchosts.go:61-77 | otherwise the second run leaves what it would have left without the incomplete last line |
| EtcHosts.IncompleteLineGoesInTwoRuns | pkg/installer/etchost/etchosts.go:61-77 | a file of one incomplete line is only marked lines after two runs |
| EtcHosts.ForeignLinesKeptOwnLinesReplaced | pkg/installer/etchost/etchosts.go:61-77 | unmarked lines stay in order, and the marked lines are exactly the configuration's |
| EtcHosts.HostsCarryTheCluster | pkg/installer/etchost/etchosts.go:46-48 | the marked lines end up as the cluster's api line and gateway line |
| EtcHosts.ClusterIsLookedUp | pkg/installer/etchost/etchosts.go:46-77 | read as a hosts file, comments cut and fields split, the marked lines map the two API names to its address and the domains to the gateway's |
| Customisation.CheckManifests | pkg/installer/custominstallconfig.go:228-257 | the loop with the seen map accepts iff all manifests are readable and no two share an identity |
| Customisation.AppendFilesToCvoOverrides | pkg/installer/custominstallconfig.go:224-292 | fails iff manifests clash or an overrides file cannot be rewritten; the last rewritten text goes over the bootstrap's file at that path |
| Customisation.RewrittenIgnores | pkg/installer/custominstallconfig.go:259-281 | every overrides file, the one that goes into the bootstrap included, lists the manifests' resources last; other files, names and order stay |
| Customisation.ApplyCustomisations | pkg/installer/custominstallconfig.go:135-197 | succeeds iff everything each edit needs is there; then the bootstrap data is the marshalled final config, whose files and units are the initial ones under all the edits in order |
| Customisation.EveryFileHasItsProvider | pkg/installer/custominstallconfig.go:135-197 | each path holds the file of the strongest edit that names it, with the renewed pair in the certificate files |
| Customisation.EveryManifestIsIgnored | pkg/installer/custominstallconfig.go:249-281 | every rewritten overrides file lists the resource of every manifest |
| Customisation.PathsDistinctIff | pkg/installer/custominstallconfig.go:135-197 | final paths are distinct iff initial and plainly appended paths are, and the hosts files' paths are distinct and not among all those before |
| Customisation.TakenPathStaysDouble | pkg/installer/etchost/etchost_assets.go:19-37 | a hosts file at an initial path leaves two files of that path |
| Steps.DeployTemplate | pkg/util/arm/deploy.go:22-67 | no error is lost or invented, authorization failures come out unchanged and are classified as before, no other service error comes out bare, all else is untouched |
| Steps.WaitsIffActive | pkg/util/arm/deploy.go:32-35 | a deployment is waited for iff the answer is a request error by value that says it is active; waiting then decides |
| Steps.WhichErrorsFailToAuthorize | pkg/util/azureerrors/error.go:17-59 | plain and linked authorization failures, error by error |
| Steps.WhichErrorsAreRetried | pkg/util/steps/refreshing.go:72-76 | authorization failures, the wish to refresh, and the two codes anywhere in the text |
| Steps.DeployedIsRetryableIff | pkg/util/azureerrors/error.go:17-90 | what comes out is worth a retry iff the answer was, or, when it was wrapped, iff the wrapped text is |
| Steps.LinkedFailureIsRetriedIff | pkg/util/azureerrors/error.go:23-59 | any linked authorization failure comes out unchanged, and is retried iff its text or a plain failure among its details says so |
| Steps.DeploymentIsRetriedUntilAuthorized | pkg/util/steps/refreshing.go:63-83 | over all answers of the deployment client: authorization failures are retried up to the first answer that is none, which decides the step, unless time is up before |
| Steps.DeploymentIsRetriedUntilTimeIsUp | pkg/util/steps/refreshing.go:63-83 | if they never cease, the step ends when time is up, with the context's error or the failure itself |
| Steps.RunRetrying | pkg/util/steps/refreshing.go:40-84 | the retry step stops at the first call that does not go on; calls and rebuilds strictly alternate, numbered alike |
| Steps.RetryStepMeaning | pkg/util/steps/refreshing.go:63-83 | calls before the last hit retryable errors and were rebuilt successfully; success iff the last call succeeded |
| Steps.RetryableEndsWithTime | pkg/util/steps/refreshing.go:63-83 | a call with a retryable error and a rebuild that works is the last for lack of time only |
| Steps.CallsAreBounded | pkg/util/steps/refreshing.go:44-63 | there are no more calls than intervals fit into the timeout |
| Steps.CallsFollowTicks | pkg/util/steps/refreshing.go:63 | calls do not overlap and come at their ticks, or at once after a call that overran them |
| Steps.RunCondition | pkg/util/steps/condition.go:45-75 | the condition step polls to the first stop and hides its error unless it is told to fail |
| Steps.ConditionStepMeaning | pkg/util/steps/condition.go:58-74 | the last answer decides: met, the condition's own error with a deadline told apart, or the context's |
| Steps.DeadlineMeansNeverMet | pkg/util/steps/condition.go:54-68 | a plain deadline error means that the condition was not met up to a context's deadline, never an error of its own |
| Steps.DeadlineMeansTimeoutIff | pkg/util/steps/condition.go:54-74 | it shows that the step's own timeout has passed iff the outer context has no earlier deadline |
| Steps.Run | pkg/util/steps/runner.go:34-54 | exactly the steps up to the first failing one are executed, and its error is returned |
| PullSecrets.MergeSecrets | pkg/util/pullsecret/pullsecret.go:107-118 | whatever the iteration order, the loop yields the merged secret and the flag |
| PullSecrets.MergeFlagIsExact | pkg/util/pullsecret/pullsecret.go:107-121 | the changed flag is set iff the result differs from the base, null entries included |
| PullSecrets.MergeIsOverlayIff | pkg/util/pullsecret/pullsecret.go:84-118 | the result is the second secret over the first iff no null entry of the second is new |
| PullSecrets.SetProfiles | pkg/util/pullsecret/pullsecret.go:67-78 | the loop sets each profile in turn; the flag says that some profile is unlike the original secret |
| PullSecrets.SecretChangesIff | pkg/util/pullsecret/pullsecret.go:67-78 | the secret changes iff some profile that stands last of its name is unlike it |
| PullSecrets.ProfileFlag | pkg/util/pullsecret/pullsecret.go:67-78 | a difference raises the flag; the flag is right iff no profile is unlike the secret or an unlike one stands last of its name, so always with distinct names |
| PullSecrets.RepeatedNameRaisesFlag | pkg/util/pullsecret/pullsecret.go:67-78 | with a repeated name the flag can be raised over an unchanged secret |
| PullSecrets.BuildPullSecret | pkg/installer/generateconfig.go:50-60 | the secret is merged, given its profiles and stripped of a key, with every error exit |
| PullSecrets.FinalSecretHasOneProvider | pkg/util/pullsecret/pullsecret.go:152-166 | every key but the removed one holds the last profile over the cluster's entry over the environment's |
| PullSecrets.FinalSecretExistsIff | pkg/util/pullsecret/pullsecret.go:152-166 | a pull secret comes out iff both texts are JSON objects, empty text counting as one; malformed text is told apart |
| PullSecrets.FlagsOfTexts | pkg/util/pullsecret/pullsecret.go:51-122 | on texts too, merging's flag says that the result reads differently; that of setting profiles that one of them is unlike what was there |

## Left out

- AddSystemdUnits: the units it adds are a parameter of `Customisation`; it only appends, and its drop-in branch lists the parent directory again.
- Concurrent writers of the graph blob: the check and the upload are not atomic in the source, so one attempt at a time is assumed.
- Deleting a key version: rotation histories add, enable, disable and relist versions; a deleted version is one that is not enabled.
- Slices of one array that overlap in part: two zone lists are the same list or have nothing in common, which is all the SKU cache can produce.
- Embedded structs without a JSON tag, the `string` tag option, and maps with other than plain string keys in the shadow copy: the SDK types that are marshalled have none.
- Named scalars and named byte slices with marshallers of their own: the copy keeps their types, so those marshallers still run; in the model they have none. The same holds for the outer resource's own values, which are not copied.
- Resource values on which reflection panics (a nil resource): not modelled.
- Template execution that panics while a storage file is rendered: reading and parsing failures are modelled.
- The script's failure branch, which uses `continue` outside a loop: the success path is modelled.
- Ticks that a call of a polling step loses, and a timer that fires late: both are part of the arbitrary lag before the next call.
- Races on `ProcessState`: reading it is one atomic step.
- The certificate's contents, x509 and PEM: the new key pair is a parameter of `McsCerts`.
- Pointer ignition configs themselves: `Customisation` takes the user-data files made from them as a parameter.
- Azure clients, environment, proxy, certificate refresher, SAS URLs, logging, licence tool: plumbing, or easy members only.
- Order of NIC and VM resources, disk encryption and networking type in the ARM template: they would add only easy members.
