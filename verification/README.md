# A verified model of Kubernetes Launch Kit

`l8k` turns a description of GPU cluster networking hardware into Kubernetes manifests, deploys them and
cleans them up. This project models the parts of it where branching, state and arithmetic meet, and proves
what they keep over every input, every run and every answer a cluster may give.

* **Deploying** (`Cluster`, `Poll`, `PollSafety`, `PollOutcomes`, `Deploy`, `Phases`, `Loading`, `LoadedBundle`). The cluster is an adversary:
  the answer of every read, write, validation and check, the winner of every select and the clock are arbitrary,
  and a ghost trace records each call with its answer. The poll loop refines a small machine over events; the
  theorems about the machine hold for the loop: what each call leads to, what each outcome rests on and when a
  success has been observed. `Phases.DeployBundle` carries the law every effect of a whole deploy obeys and the only
  reasons for which one may fail. `Loading` shows that a loaded bundle always yields a plan that deploy can take.
* **Configuration files** (`YamlDoc`, `YamlGraph`, `YamlExpand`, `YamlPatch`, `Presence`, `Defaults`). A parsed
  document is a graph of heap nodes, possibly cyclic and shared. What a graph denotes is defined by following
  aliases (section 7.1 of YAML 1.2.2) and merge keys (the YAML 1.1 merge-key type) to some depth; expansion is
  proved to build exactly that as an unshared tree, and patching to change exactly the requested paths.
* **Address blocks** (`Subnets`, `PlanSubnets`). IPv4 blocks as in section 3.1 of RFC 4632, in 32- and 64-bit
  machine words, shared out over render plans.
* **Render planning** (`Text`, `Sequences`, `Identifiers`, `Inventory`, `RenderPlan`, `Renaming`, `SourceAnnotations`,
  `TargetScope`, `NodeSelector`). From the group filter to buckets, Mode A/B, annotations and back to the worker
  nodes a selector must match.
* **Rail topology** (`RailTopology`, `Endpoints`, `EndpointClaims`, `Generation`). Physical functions, NICs, rails and planes, and
  the Spectrum-X endpoints and claims made of them.
* **Cleanup** (`Clean`). Listing, deleting, waiting and sweeping while controllers recreate objects at will.
* **Merges used as fixpoint tests** (`OcpSysctl`, `OcpConfig`, `SubscriptionEnv`) and the streaming archive check
  (`Archive`).

Code that changes things step by step is modelled by methods over classes, arrays and sequences, each proved
against a specification function or predicate; what the system promises is then proved about that specification.
`dafny verify dfyconfig.toml` checks everything.

Five properties one might expect turned out to be false. For each, one lemma states exactly when it holds, and
another gives a concrete input on which it fails:

* success of a poll is an observation past the latest apply: `PollSafety.SuccessIsObserved`, failing in
  `PollSafety.FailedGateReadFallsThrough`;
* every supplied path is recorded as present: `Presence.PresenceIsRight`, failing in `Presence.DottedKeyIsLost` and
  `Presence.EmptyKeyIsLost`;
* validated manual subnets can be reserved in: `PlanSubnets.ManualReservesFailure`, failing in
  `PlanSubnets.ManualSubnetWithoutBlock`;
* Mode B means a strict subset of a bucket: `RenderPlan.ModeBMeansStrictSubset` with a GPU type and
  `RenderPlan.PseudoKeysFollowTheIndex` without one, failing in `RenderPlan.PseudoKeyChangesMode`;
* the planes of an accepted rail have functions of their own: `RailTopology.PlanesApart`, failing in
  `Generation.AcceptedGroupSharesPF`.

## Model

| member | source | states |
|---|---|---|
| Poll.WaitForNextPoll | pkg/networkoperatorplugin/deploy.go:614-624 | A wait ends in the context, in an armed timer whose full window has passed, or in a tick. |
| Poll.ReapplyVanished | pkg/networkoperatorplugin/deploy.go:704-733 | A vanished object is re-applied only after a passing scope check and, for a NicClusterPolicy, a passing ownership check; the gate afterwards is the new apply's. |
| Poll.ObserveGate | pkg/networkoperatorplugin/deploy.go:639-660 | The pass is blocked exactly while the live object still carries the apply's resourceVersion; a failed read falls through with the gate standing. |
| Poll.JudgeVerdict | pkg/networkoperatorplugin/deploy.go:682-741 | Each verdict moves the run as the machine does: what ends it, what opens, keeps or closes the retry window. |
| Poll.CheckLiveScope | pkg/networkoperatorplugin/deploy.go:662-681 | A live-scope failure ends the run, unless it is a known temporary read failure and the context still runs. |
| Poll.PollUntilTerminal | pkg/networkoperatorplugin/deploy.go:523-747 | Whatever the cluster answers, the loop's calls form a run of the poll machine that ends in the returned outcome. |
| PollSafety.GateInvariant | pkg/networkoperatorplugin/deploy.go:639-660 | At every point of every run the gate is the latest gated apply's or some read has superseded it, and a pass gets beyond a standing gate only by a failed read. |
| PollSafety.StandingInvariant | pkg/networkoperatorplugin/deploy.go:639-660 | A gate that stands is the latest one and no read has superseded it, and it still stands in a pass whose gate read failed. |
| PollSafety.SuccessIsObserved | pkg/networkoperatorplugin/deploy.go:626-747 | A success behind a gate has seen a resourceVersion other than that of the latest gated apply if and only if no gate read failed in the last pass. |
| PollSafety.SuccessIsObservedWhenReadsSucceed | pkg/networkoperatorplugin/deploy.go:626-747 | So when all gate reads succeed the observation is unconditional. |
| PollSafety.FailedGateReadFallsThrough | pkg/networkoperatorplugin/deploy.go:644-646 | A concrete run succeeds unobserved after its only gate read failed. |
| PollSafety.TimerInvariant | pkg/networkoperatorplugin/deploy.go:584-604 | The window runs exactly from the first retryable error since the last verdict that closed it, and is off when there is none. |
| PollSafety.TimeoutMeansFullWindow | pkg/networkoperatorplugin/deploy.go:605-624 | A local timeout means a full window since that first error, never restarted or extended by later ones. |
| PollSafety.ErrorWithoutWindowIsFinal | pkg/networkoperatorplugin/deploy.go:694-703 | Kinds without a window fail at the first error, others at the first that is not retryable. |
| PollSafety.WritesAreGuarded | pkg/networkoperatorplugin/deploy.go:704-733 | Every write inside a poll re-applies the desired object itself, for real, directly after the check its kind needs. |
| PollSafety.SuccessIsTheLastVerdict | pkg/networkoperatorplugin/deploy.go:688-693 | A run succeeds exactly at a success verdict on the desired object, and then it ends. |
| PollOutcomes.EndsExactly | pkg/networkoperatorplugin/deploy.go:584-747 | A run ends with an outcome if and only if its last events are those that close it so: a success verdict, an error that is final for its kind, a refused check or write, a live object out of scope, the context, or a full window. |
| PollOutcomes.EachCallLeadsOn | pkg/networkoperatorplugin/deploy.go:626-747 | Whatever the answers, each call of a run is followed by exactly the call the protocol asks for: nothing is skipped and nothing repeated. |
| PollOutcomes.AskedInScope | pkg/networkoperatorplugin/deploy.go:662-687 | The validator is asked about the desired object only, and for a kind with a scope directly after the live object was found in scope. |
| PollOutcomes.RetryableErrorIsWaitedOut | pkg/networkoperatorplugin/deploy.go:694-703 | A retryable error of a kind with a window never ends a run; the next call is a select. |
| Deploy.ApplyAndWait | pkg/networkoperatorplugin/deploy.go:443-497 | The exact shape of an apply's calls: read, ownership check, one write of a copy, and a poll run behind the gate that the moved generation asks for. |
| Deploy.PollRunPromises | pkg/networkoperatorplugin/deploy.go:530-747 | A poll run writes nothing but its object, guarded; its success after a real apply leaves the object healthy. |
| Deploy.ApplyRunPromises | pkg/networkoperatorplugin/deploy.go:443-497 | An apply run writes nothing but its object and, when it succeeds outside a dry run, reconciles it. |
| Deploy.KindsAreGuarded | pkg/networkoperatorplugin/target_scope.go:45-51 | Named kinds: node policies and pools of any version are written only directly after their scope check passed, a NicClusterPolicy only directly after its ownership check. |
| Deploy.ErrorsByKind | pkg/networkoperatorplugin/deploy.go:749-763 | Interface-name templates wait out retryable errors, with a timeout after no less than 300 seconds; every other kind, and every other error, fails at once. |
| Deploy.PolledMeansObserved | pkg/networkoperatorplugin/deploy.go:481-496 | An object counted as polled behind a gate was observed past its latest gated apply if and only if no gate read failed in the last pass. |
| Deploy.WrittenMeansObserved | pkg/networkoperatorplugin/deploy.go:470-496 | A polled object of a self-reporting kind whose latest write moved its generation was seen past exactly that write if and only if no gate read failed in the last pass. |
| Deploy.OthersAreJustPolled | pkg/networkoperatorplugin/deploy.go:626-681 | The other kinds are just polled: one that does not report on itself is never read for a gate, one without a scope never asked for it. |
| Deploy.StaysReconciled | pkg/networkoperatorplugin/deploy.go:279-391 | A reconciled object stays so until it is written again. |
| Deploy.ApplyWithRetry | pkg/networkoperatorplugin/deploy.go:765-784 | A pod is tried until an attempt is accepted, three are spent or a pause between two is cut short, another kind exactly once; all attempts are of the same copy and the answer is the last one's. |
| Deploy.RetryDependentAPI | pkg/networkoperatorplugin/deploy.go:393-427 | While an API is missing, every attempt is a real write of a copy directly after a fresh scope check; giving up names its cause, a timeout only after five minutes. |
| Phases.CheckBeforeEffects | pkg/networkoperatorplugin/deploy.go:204-233 | The calls are exactly the address, scope, operator, ownership and removal checks that the options ask for, in this order, all granted or up to the first refusal; chart values on OpenShift are refused after the first two. |
| Phases.StageCluster | pkg/networkoperatorplugin/deploy.go:239-257 | The calls are exactly chart, preflight, stray removal and operator settings as the options ask, in this order, all granted or up to the first refusal; a failed preflight is one only when nothing is overwritten. |
| Phases.ApplyPolicies | pkg/networkoperatorplugin/deploy.go:279-295 | Policies land one after the other, each only once all earlier ones have. |
| Phases.ApplyOther | pkg/networkoperatorplugin/deploy.go:316-365 | One remaining object: every write directly follows its scope check, in a dry run nothing is persisted, and the recorded gate is the written copy's. |
| Phases.ApplyOthers | pkg/networkoperatorplugin/deploy.go:305-368 | Nothing remaining is written before all policies landed and the API check passed; each written object is recorded with its gate. |
| Phases.VerifyOthers | pkg/networkoperatorplugin/deploy.go:370-388 | Each recorded object is polled to success behind its own gate. |
| Phases.StretchIsLawful | pkg/networkoperatorplugin/deploy.go:193-391 | A stretch of calls that writes only what is due keeps the law of the whole trace and what it rests on, and undoes no other object's reconciliation. |
| Phases.DeployBundle | pkg/networkoperatorplugin/deploy.go:193-391 | Over every run each write comes after every check and staged effect its options ask for was granted, is guarded, in its turn and of the desired object, and a dry run persists nothing; success means all that and every object landed; a failure means the last answer was one that ends a deploy, or refused chart values, or an object left out by a dry run. |
| Phases.WritesArePrepared | pkg/networkoperatorplugin/deploy.go:204-283 | Before each write: all checks granted by name, no values on OpenShift, a granted chart where it is managed, a granted preflight or, when overwriting, a granted removal, granted settings on OpenShift; no staged effect before it failed. |
| Phases.StagesInOrder | pkg/networkoperatorplugin/deploy.go:204-257 | A staged effect follows all the checks; preflight follows the chart, the removal a failed preflight, the settings a settled one. |
| Phases.ClearedMeans | pkg/networkoperatorplugin/deploy.go:204-257 | The same preparation, for a whole run that succeeded. |
| Loading.FromFiles | pkg/bundle/load.go:71-117 | A bundle exists exactly when names are flat and distinct, every file is well-formed and no object is declared twice; its fields are those of the files in name order. |
| Loading.OrderIndependent | pkg/bundle/load.go:82 | The order in which files arrive changes neither acceptance nor the bundle. |
| Loading.PrepareDeploymentObjects | pkg/networkoperatorplugin/deployment_bundle.go:21-60 | Accepted exactly when the allowlist patches are in order and at most one NicClusterPolicy is there; each class holds exactly its documents. |
| Loading.SelectedOnce | pkg/networkoperatorplugin/deployment_bundle.go:43-57 | Together the classes hold each deployment document exactly once. |
| Loading.PreparedPlanFits | pkg/networkoperatorplugin/deployment_bundle.go:43-57 | A loaded and prepared bundle meets every demand the deploy makes of its plan. |
| LoadedBundle.ClassifyMeans | pkg/bundle/load.go:23-40 | Which names are ignored, chart values, misnamed, deployed or only validated, each exactly. |
| LoadedBundle.LoadsExactly | pkg/bundle/load.go:71-117 | A bundle exists if and only if names are plain and different, every file can be read and no object is declared twice; its documents are the files' objects in name order. |
| LoadedBundle.LoadedMeans | pkg/bundle/load.go:83-115 | Exactly the objects of the resource files, each in its file's role, and the values of values.yaml. |
| LoadedBundle.SelectedByKind | pkg/networkoperatorplugin/deployment_bundle.go:43-57 | The class of a deployment object follows from its kind, the operator settings on OpenShift only; validation objects are in none. |
| LoadedBundle.PreparableMeans | pkg/networkoperatorplugin/deployment_bundle.go:21-60 | Preparation fails exactly for a misplaced, blank or unsupported allowlist patch or a second NicClusterPolicy. |
| YamlDoc.MergeMeans | pkg/config/yaml_patch.go:45-69 | Merging yields distinct ordinary keys, each with its last explicit value, else that of the first merge source that has it. |
| YamlDoc.MergeFails | pkg/config/yaml_patch.go:55-58 | Merging fails exactly when a merge value is neither a mapping nor a sequence of mappings. |
| YamlDoc.MergeClean | pkg/config/yaml_patch.go:45-69 | Merging clean entries leaves no merge key, anchor or alias and keeps keys distinct at every depth. |
| YamlDoc.MergeOfPlain | pkg/config/yaml_patch.go:45-69 | Entries without merge keys and with different keys stay as they are. |
| YamlGraph.DenotedClean | pkg/config/yaml_patch.go:16-33 | Whatever a graph denotes has no alias, anchor or merge key and distinct keys in every mapping. |
| YamlGraph.DenoteAtLeast | pkg/config/yaml_patch.go:20-70 | A graph denotes at most one document, the same at every sufficient depth. |
| YamlGraph.CyclicDenotesNothing | pkg/config/yaml_patch.go:24-26 | A node on a cycle of aliases and children denotes nothing at any depth. |
| YamlGraph.RankedDenotes | pkg/config/yaml_patch.go:20-70 | Cycles, missing nodes and bad merge values are the only reasons to denote nothing. |
| YamlGraph.DenotedShape | pkg/config/yaml_patch.go:27-70 | An alias denotes what its target does; any other node keeps kind, tag, value and comment over what its children denote, the fields of a mapping merged. |
| YamlGraph.TreeDenotesItself | pkg/config/yaml_patch.go:20-70 | A tree that is expanded already denotes itself, so expanding twice is expanding once. |
| YamlExpand.PutYamlField | pkg/config/yaml_patch.go:72-82 | Putting a field on the heap is the put on documents: replaced, kept or appended in place. |
| YamlExpand.MergeMapping | pkg/config/yaml_patch.go:45-69 | The merge on heap nodes builds exactly the specified fields, unshared, or fails exactly when the specification does. |
| YamlExpand.ExpandYamlNode | pkg/config/yaml_patch.go:20-70 | Expansion ends on every finite graph, cyclic or not, succeeds exactly when the graph denotes a document, and builds that document as a fresh tree no part of which is shared. |
| YamlDoc.PatchedHere | pkg/config/yaml_patch.go:152-170 | Looking up a patched path gives the new value, under the old comment where it brings none of its own. |
| YamlDoc.PatchedElsewhere | pkg/config/yaml_patch.go:152-170 | Every incomparable path looks up exactly as before. |
| YamlDoc.PatchedAround | pkg/config/yaml_patch.go:152-170 | The mappings above a patched path keep their attributes, their keys and the order of these; a missing field is appended. |
| YamlDoc.PatchedThrough | pkg/config/yaml_patch.go:158-169 | Where a patched path leads through nothing, or through a value that is no mapping, there is a new mapping of just the field on the path. |
| YamlDoc.PatchAllHere | pkg/config/yaml_patch.go:120-133 | After all edits each of them is in effect if the edited paths are pairwise incomparable. |
| YamlDoc.PatchAllElsewhere | pkg/config/yaml_patch.go:120-133 | Paths incomparable with all edits are untouched. |
| YamlDoc.PatchAllClean | pkg/config/yaml_patch.go:120-133 | Edits keep keys distinct and the document clean. |
| YamlPatch.PatchYamlPath | pkg/config/yaml_patch.go:152-170 | Patching in place makes the heap hold exactly the patched document, sharing nothing. |
| YamlPatch.PatchConfigPaths | pkg/config/yaml_patch.go:120-133 | The requested paths are patched in order; it fails exactly when the configuration lacks one of them. |
| YamlPatch.PatchConfigYaml | pkg/config/yaml_patch.go:87-118 | The result stands alone over the source's expanded document with exactly the requested edits; it fails only for an unknown path or a source that denotes nothing. |
| Presence.PathSet.DeletePrefix | pkg/config/input.go:40-46 | Exactly the path and what lies below it are removed. |
| Presence.CollectPresentPaths | pkg/config/input.go:330-365 | The walk changes the set as its specification on documents says. |
| Presence.CollectExactly | pkg/config/input.go:330-369 | For every document: a path is collected exactly if it is nonempty and some leaf supplies it with no null at or above it later in the document. |
| Presence.SuppliesAreLeaves | pkg/config/input.go:330-365 | Whatever the keys, the supplied paths are those of non-null scalars, sequences and empty mappings. |
| Presence.PresenceIsRight | pkg/config/input.go:330-369 | Nothing but leaves is collected; no leaf is lost if and only if each leaf's path is nonempty and has an occurrence with no null at or above it later. |
| Presence.CollectMeans | pkg/config/input.go:330-369 | With plain keys that condition holds: the collected paths are exactly those of the leaves. |
| Presence.DottedKeyIsLost | pkg/config/input.go:346-352 | A concrete document with a dotted key whose supplied leaf is lost. |
| Presence.EmptyKeyIsLost | pkg/config/input.go:341-352 | Concrete documents with an empty key: a leaf there is lost, and a field below it is taken for a field at the top. |
| Defaults.MergeDefaultValue | pkg/config/input.go:371-409 | The value at one place becomes its merge with the default; nothing else in the configuration changes. |
| Defaults.MergedLeaf | pkg/config/input.go:404-408 | A leaf keeps its value if it is present or nonzero and otherwise takes the default. |
| Defaults.ClusterConfigUntouched | pkg/config/input.go:389-392 | Nothing below clusterConfig is filled. |
| Defaults.NotPersistedUntouched | pkg/config/input.go:380-403 | Fields that are not persisted keep their values in every struct. |
| Defaults.MergeTwice | pkg/config/input.go:371-409 | Merging the same defaults again changes nothing. |
| Subnets.StepsFit | pkg/config/config.go:1243-1249 | The overflow test on the last block's first address accepts exactly when the whole last block fits below 2^32. |
| Subnets.NothingWraps | pkg/config/config.go:1250-1260 | No product or sum on the way to an address leaves its machine word. |
| Subnets.GenerateSubnetsWithGateway | pkg/config/config.go:1212-1266 | Accepts exactly the feasible parameters and then yields block i at start + i * offset * size, with its gateway. |
| Subnets.FeasibleMeans | pkg/config/config.go:1212-1250 | Those parameters in addresses: mask 1 to 30, an aligned start, a gateway strictly inside, and each block below 2^32. |
| Subnets.GeneratedBlock | pkg/config/config.go:1212-1266 | Every block is aligned, fits, and has its gateway strictly between network and broadcast. |
| Subnets.GeneratedApart | pkg/config/config.go:1212-1266 | Blocks increase strictly and have no address in common. |
| Subnets.ReservedMeans | pkg/config/config.go:1289-1328 | A reservation is accepted exactly when it leaves an address free, and covers exactly the first and last addresses in disjoint ranges. |
| Subnets.WholeSpaceRefused | pkg/config/config.go:1289-1328 | With prefix length 0 the block size wraps to zero and every reservation is refused. |
| PlanSubnets.ValidateNvIpam | pkg/config/config.go:1389-1448 | Validation accepts exactly the settings whose reserves, blocks and exclusions are in order. |
| PlanSubnets.AcceptedMeans | pkg/config/config.go:1389-1448 | Those settings in addresses: nothing negative, reserves leave an address free in generated and manual blocks, exclusions are ranges inside their block. |
| PlanSubnets.ApplyReservedExclusions | pkg/config/config.go:1335-1349 | Each block gets its first and last addresses as ranges in front of its own exclusions and keeps block and gateway; it fails exactly when some block cannot be reserved in. |
| PlanSubnets.ManualReservesFailure | pkg/config/config.go:1335-1448 | On validated manual subnets, reserving fails exactly when one of them has no block. |
| PlanSubnets.ManualSubnetWithoutBlock | pkg/config/config.go:1413-1447 | Concrete settings that are accepted though their only subnet cannot be reserved in. |
| PlanSubnets.AcceptedReserves | pkg/config/config.go:1389-1412 | Reserve counts that validation accepted can be reserved in every generated block. |
| PlanSubnets.CutPlans | pkg/networkoperatorplugin/render_plan.go:717-722 | The pieces concatenate to the whole, one of the right length for each plan. |
| PlanSubnets.PreallocatePlanSubnets | pkg/networkoperatorplugin/render_plan.go:686-723 | Allocation yields the generated blocks with their reserves, one for each plan or, in multirail, one for each of its east-west functions, in the order of the plans; it leaves alone what is unmanaged and never fails at the reserves of validated settings. |
| PlanSubnets.AllSubnets | pkg/networkoperatorplugin/render_plan.go:733-742 | The plans' slices put together again. |
| PlanSubnets.PlansDisjoint | pkg/networkoperatorplugin/render_plan.go:686-742 | Blocks of different plans have no address in common. |
| RenderPlan.ApplyGroupFilter | pkg/networkoperatorplugin/render_plan.go:286-340 | The groups with the identifier, or whose GPU type matches in any case and with blanks around, or all, in order; an error exactly for exclusive flags, an unknown identifier or a GPU type nobody has. |
| RenderPlan.BucketizeOrdered | pkg/networkoperatorplugin/render_plan.go:195-206 | Each bucket has exactly the groups of its key in order, and the keys come in order of first occurrence. |
| RenderPlan.KeysInOrder | pkg/networkoperatorplugin/render_plan.go:195-206 | A key precedes another only if a group of it precedes all groups of the other. |
| RenderPlan.SourceIdentitySetEqual | pkg/networkoperatorplugin/render_plan.go:219-238 | Sorting and comparing decides equality of the identifier multisets. |
| RenderPlan.BuildBucketMerged | pkg/networkoperatorplugin/render_plan.go:250-265 | A lone source is taken as it is; otherwise workers are united and each rail lists the sources' addresses in order of first occurrence; no source is indexed out of range. |
| RenderPlan.PlanRender | pkg/networkoperatorplugin/render_plan.go:74-140 | One plan for each key of the selection, with its groups stamped by the bucket's name and its mode. |
| RenderPlan.ModeBMeansStrictSubset | pkg/networkoperatorplugin/render_plan.go:84 | With a GPU type, Mode B holds exactly when the filter left out one of the bucket's groups. |
| RenderPlan.PseudoKeysFollowTheIndex | pkg/networkoperatorplugin/render_plan.go:208-214 | Without a GPU type, Mode B is chosen exactly when the filter dropped a group before it, though the bucket is whole. |
| RenderPlan.PseudoKeyChangesMode | pkg/networkoperatorplugin/render_plan.go:208-214 | Two concrete groups and a filter for which a whole bucket gets Mode B. |
| Identifiers.NormalizeAppend | pkg/config/config.go:211-228 | Normalising "s-t" only puts "-t" behind what s has become. |
| Identifiers.NormalizeMeans | pkg/config/config.go:211-228 | A normalised name is lower-case, has no space and no vendor segment left, and is normal already. |
| Identifiers.SanitizeMeans | pkg/config/config.go:190-232 | At most 30 characters: the normalised name, or a beginning of it without trailing separators and six digits of its hash. |
| Identifiers.FittingCandidatesDiffer | pkg/config/config.go:207-232 | Candidate names within the length limit are all different. |
| Renaming.SearchName | pkg/networkoperatorplugin/render_plan.go:161-165 | The search finds the first candidate that is not taken, or has tried its budget of taken ones. |
| Renaming.DisambiguateOCPSameGPUBuckets | pkg/networkoperatorplugin/render_plan.go:145-173 | Afterwards all names differ, unique ones are unchanged, others became the next free candidate with all their sources stamped; the search ends within as many tries as plans unless two of those candidates agree. |
| Renaming.SearchEnds | pkg/networkoperatorplugin/render_plan.go:162-164 | By pigeonhole, a search that finds as many taken candidates as there are plans has two equal ones among them. |
| Renaming.FittingNamesDoNotCollide | pkg/networkoperatorplugin/render_plan.go:161-164 | Candidates that fit the limit never agree. |
| Renaming.OutcomeKeepsSources | pkg/networkoperatorplugin/render_plan.go:166-171 | Renaming keeps each plan's sources, functions, workers and mode; the plan and each of its sources carry the new name. |
| SourceAnnotations.AnnotateTargetSources | pkg/networkoperatorplugin/target_scope.go:318-351 | Accepts exactly trimmed distinct identifiers, an empty one only for a sole source, and yields them sorted. |
| SourceAnnotations.RenderForScope | pkg/networkoperatorplugin/render_plan.go:433-527 | Succeeds exactly when the configured identifiers differ after trimming and each render that produced a file can be annotated; each such render is annotated with its own sources' identifiers. |
| SourceAnnotations.UnitsByMode | pkg/networkoperatorplugin/render_plan.go:484-527 | In a node policy each source of a Mode B plan has a render of its own; every other render has all sources of its plan. |
| SourceAnnotations.RenamedCarries | pkg/networkoperatorplugin/render_plan.go:145-173 | Plans still carry the selection after the OpenShift renaming, in their modes and with their new names stamped, so that all partition results hold there too. |
| SourceAnnotations.SourcesPartitioned | pkg/networkoperatorplugin/render_plan.go:484-527 | In either scope the renders' sources are the selected groups, each exactly once. |
| SourceAnnotations.EveryUnitResolves | pkg/networkoperatorplugin/target_scope.go:71-148 | Over an inventory complete for the selected groups every annotation resolves to exactly the workers of its sources. |
| SourceAnnotations.WorkersApart | pkg/networkoperatorplugin/target_scope.go:71-148 | Worker sets of different renders are disjoint. |
| SourceAnnotations.WorkersCovered | pkg/networkoperatorplugin/target_scope.go:71-148 | Together they are exactly the selected workers. |
| TargetScope.ValidateIdentifiers | pkg/config/config.go:1083-1093 | Accepts exactly identifiers that differ after trimming. |
| TargetScope.ResolveTargetScope | pkg/networkoperatorplugin/target_scope.go:71-148 | The scope is the specified intent: refused, selector-only or the sorted workers of the referenced groups. |
| TargetScope.ResolvableMeans | pkg/networkoperatorplugin/target_scope.go:92-136 | Which identifier lists are refused outright: colliding configurations, a worker listed twice, a repeated, untrimmed, unknown or misplaced empty identifier, a malformed worker; exactly these. |
| TargetScope.IntentMeans | pkg/networkoperatorplugin/target_scope.go:120-148 | Of the others: selector-only exactly when no named group has workers, an inventory exactly when all have, and refused when they mix. |
| TargetScope.IntentWorkers | pkg/networkoperatorplugin/target_scope.go:141-147 | The inventory is sorted and has exactly the workers of the named groups. |
| TargetScope.ChosenWorkersDistinct | pkg/networkoperatorplugin/target_scope.go:95-103 | When no worker is listed twice, different identifiers bring different workers. |
| NodeSelector.MatchTerm | pkg/networkoperatorplugin/target_scope.go:207-228 | A term is a conjunction, and an empty one matches nothing; any invalid requirement is an error. |
| NodeSelector.RequirementMeans | pkg/networkoperatorplugin/target_scope.go:207-248 | Unknown operators, and field requirements on anything but the node's name, are errors; all else is the label library's to judge. |
| NodeSelector.ResourceSelectsNode | pkg/networkoperatorplugin/target_scope.go:188-231 | Terms are a disjunction, a flat map asks for all its labels. |
| NodeSelector.CheckTargetScope | pkg/networkoperatorplugin/target_scope.go:153-186 | Verified exactly when there is an inventory, a nonempty well-formed selector and the picked nodes are precisely the intended workers; selector-only scope is always unverified. |
| NodeSelector.InspectDesired | pkg/networkoperatorplugin/target_scope.go:269-287 | The desired check, from annotation and inventory to nodes, verifies exactly exact scopes. |
| NodeSelector.InspectLive | pkg/networkoperatorplugin/target_scope.go:291-314 | The live object only supplies the selector, never the intent. |
| RailTopology.MasterPFsByNIC | pkg/networkoperatorplugin/templates.go:784-804 | One address for each NIC in first-seen order, the lowest of that NIC. |
| RailTopology.GroupPFsByRail | pkg/networkoperatorplugin/templates.go:766-777 | Each rail's functions in order, and the rails ascending. |
| RailTopology.SpectrumXRailLayout | pkg/networkoperatorplugin/spectrumx_rail_topology.go:100-136 | Yields the layout exactly when metadata are complete, each NIC lies on one rail, rails are dense and even, and planes are a positive multiple of the NICs. |
| RailTopology.RailPciGroups | pkg/networkoperatorplugin/templates.go:630-659 | With rail metadata one list of masters for each rail, without it chunks of the plane count. |
| RailTopology.RailCount | pkg/networkoperatorplugin/templates.go:717-727 | The number of rails, or of full chunks. |
| RailTopology.SpectrumXPfsPerNic | pkg/networkoperatorplugin/templates.go:735-748 | For an accepted layout, functions per NIC times NICs of any rail is the number of planes. |
| RailTopology.PlanesUseEachPF | pkg/networkoperatorplugin/templates.go:661-694 | A rail with enough functions serves its planes with them, in address order. |
| RailTopology.PlanesApart | pkg/networkoperatorplugin/templates.go:661-694 | The planes of a rail of different functions have different ones if and only if there are at least as many functions as planes. |
| RailTopology.DealtOut | pkg/networkoperatorplugin/templates.go:682-693 | Without rail metadata functions are dealt out in order, as many to each rail as it has planes, or one; where one is missing the rail's first stands in. |
| Generation.ValidateSwPlanes | pkg/networkoperatorplugin/spectrumx_rail_topology.go:138-165 | Accepts exactly complete dense rails and nonnegative planes on known ones, zero outside hwplb. |
| Generation.ValidateSpectrumXGeneration | pkg/networkoperatorplugin/spectrumx_rail_topology.go:38-95 | Accepts exactly the declared conditions on profile, platforms, layouts and software planes. |
| Generation.GeneratableMeans | pkg/networkoperatorplugin/spectrumx_rail_topology.go:38-95 | Those conditions by name: software planes and OVS settings only with the doSPCX flow, a naming format, and for each group its platform, devices, layout and planes. |
| Generation.AcceptedGroup | pkg/networkoperatorplugin/spectrumx_rail_topology.go:38-95 | An accepted group has a layout with each NIC on one rail, and its endpoints can be built and cover the profile's planes. |
| Generation.AcceptedGroupSharesPF | pkg/networkoperatorplugin/spectrumx_rail_topology.go:38-95 | A concrete group that generation accepts and two of whose planes share a function. |
| Endpoints.SpectrumXEndpoints | pkg/networkoperatorplugin/spectrumx_endpoints.go:29-86 | The endpoints of every rail in order, every index in bounds; for an accepted layout they have each rail and plane exactly once. |
| Endpoints.Coverage | pkg/networkoperatorplugin/spectrumx_endpoints.go:35-84 | In all modes the endpoints together have each rail and plane exactly once, in order, with the right NIC number. |
| Endpoints.SlotFor | pkg/networkoperatorplugin/spectrumx_endpoints.go:35-84 | Each rail and plane in range has its interface name. |
| Endpoints.NamesDiffer | pkg/networkoperatorplugin/spectrumx_endpoints.go:43-66 | No two endpoints have the same name. |
| Endpoints.VrEndpointsOnOwnNic | pkg/networkoperatorplugin/spectrumx_endpoints.go:58-74 | The two endpoints of a VR rail have known functions on different NICs. |
| Endpoints.SpectrumXClaims | pkg/networkoperatorplugin/spectrumx_endpoints.go:97-110 | One claim for each claim name, in the order in which the endpoints first ask for it, with all its endpoints in order and the first one's attributes. |
| Endpoints.ClaimsConserve | pkg/networkoperatorplugin/spectrumx_endpoints.go:97-110 | Claims lose and duplicate no endpoint. |
| EndpointClaims.SharedClaim | pkg/networkoperatorplugin/spectrumx_endpoints.go:88-110 | Two endpoints of an accepted group share a claim if and only if they are the same or, on VR, on the same rail. |
| EndpointClaims.VrClaims | pkg/networkoperatorplugin/spectrumx_endpoints.go:88-110 | An accepted VR group has four claims, one for each rail in order, each held by two endpoints with known functions on different NICs, for the GPU of the first. |
| EndpointClaims.OwnClaims | pkg/networkoperatorplugin/spectrumx_endpoints.go:88-110 | Elsewhere each endpoint has a claim of its own, in order, for the GPU of its function. |
| EndpointClaims.FunctionOnRail | pkg/networkoperatorplugin/spectrumx_endpoints.go:49-74 | With rail metadata an endpoint's function is one of its rail: in swplb the one of its plane in address order, otherwise the lowest. |
| EndpointClaims.FunctionsApart | pkg/networkoperatorplugin/spectrumx_endpoints.go:49-55 | In swplb the endpoints of a rail have pairwise different functions if and only if there are at least as many as planes. |
| EndpointClaims.VrNumbers | pkg/networkoperatorplugin/spectrumx_endpoints.go:58-74 | On VR a rail's software plane is doubled and its eight planes are split between the two NICs, each with one virtual function and the names of its NIC. |
| EndpointClaims.RailNumbers | pkg/networkoperatorplugin/spectrumx_endpoints.go:43-74 | Elsewhere a rail's endpoints share its software plane and together have as many virtual functions as planes; names, pools and claims count rails, and planes in swplb. |
| EndpointClaims.PoolsDiffer | pkg/networkoperatorplugin/spectrumx_endpoints.go:43-63 | No two endpoints of an accepted group have the same pool. |
| Clean.ListNamespaced | pkg/networkoperatorplugin/clean.go:186-235 | A successful listing asked for each served namespaced kind once and returns exactly what was found, sorted. |
| Clean.ListClusterScoped | pkg/networkoperatorplugin/clean.go:237-259 | Likewise for the fixed cluster-scoped kinds in their order. |
| Clean.VersionMeans | pkg/networkoperatorplugin/clean.go:261-276 | The version asked for is the first both served and stored, else the first served, else none. |
| Clean.NamespacedKindAsked | pkg/networkoperatorplugin/clean.go:199-222 | Every namespaced kind with a served version is listed in the namespace. |
| Clean.OnlyNamespacedAsked | pkg/networkoperatorplugin/clean.go:201-222 | Nothing else is: no cluster-scoped kind and no other namespace. |
| Clean.ClusterKindsAsked | pkg/networkoperatorplugin/clean.go:32-41 | Cluster-wide exactly the five kinds of the operator are listed, by name and in order, the root policy last. |
| Clean.DeleteAllAndWait | pkg/networkoperatorplugin/clean.go:281-327 | All requests are sent before the first wait read; the count is that of granted requests; success ends with a round that found nothing; a failure ends with a refused request, a broken read or the end of the context. |
| Clean.DeleteCustomResources | pkg/networkoperatorplugin/clean.go:135-184 | Every run is a row of passes, each listed in full before its first request and waited out before the next; success ends with a final pair of empty listings, a failure with a failed listing, a refused request, a broken read or the end of the context. |
| Clean.OnlyListedIsDeleted | pkg/networkoperatorplugin/clean.go:135-184 | Every request follows a listing of the same pass that found its object, with no wait in between. |
| Clean.FoundIsRequested | pkg/networkoperatorplugin/clean.go:135-184 | Conversely, the deletion of everything a pass has listed is requested, unless an earlier request was refused. |
| Clean.OwnInOrder | pkg/networkoperatorplugin/clean.go:337-347 | Within a pass the namespaced requests go by kind, namespace and name. |
| Clean.RootPoliciesLast | pkg/networkoperatorplugin/clean.go:32-41 | Requests for the NicClusterPolicy come after all others of a pass. |
| Clean.CleanWithUninstaller | pkg/networkoperatorplugin/clean.go:80-133 | The chart is uninstalled last, once, only after that final pair; success ends so or keeps the chart; a failure ends with a failing answer, or for lack of a namespace or a configuration; the reported count is that of granted requests. |
| OcpSysctl.MergedTextMeans | pkg/networkoperatorplugin/ocp_sysctl.go:47-66 | The old allowlist is a prefix of the new, which has exactly the old and the required entries; merging again changes nothing. |
| OcpSysctl.MergeText | pkg/networkoperatorplugin/ocp_sysctl.go:47-62 | The loops compute that text. |
| OcpConfig.MergeStringList | pkg/networkoperatorplugin/ocp_config.go:212-235 | The union of two string lists in order, or an error exactly when one of them is none. |
| OcpConfig.MergedListMeans | pkg/networkoperatorplugin/ocp_config.go:212-235 | The existing items come first in order, and the result has exactly both lists' items, each once. |
| OcpConfig.MergedNFDKeeps | pkg/networkoperatorplugin/ocp_config.go:169-210 | All but the wanted fields of sources.pci survive in the NFD configuration. |
| OcpConfig.MergedNFDTwice | pkg/networkoperatorplugin/ocp_config.go:169-210 | Merging the NFD configuration again changes nothing. |
| OcpConfig.MergeOCPConfiguration | pkg/networkoperatorplugin/ocp_config.go:130-167 | The live object changes as specified, and not at all when the merge fails. |
| OcpConfig.MergedTwice | pkg/networkoperatorplugin/ocp_config.go:130-167 | For all four kinds a merged object is a fixpoint of the merge. |
| OcpConfig.UnrelatedSurvives | pkg/networkoperatorplugin/ocp_config.go:130-167 | Every field outside the merged part survives. |
| OcpConfig.PluginsAreUnited | pkg/networkoperatorplugin/ocp_config.go:153-166 | For an SriovOperatorConfig the live disablePlugins survive in order and the wanted ones join them, each once; every other wanted field replaces the live one; the merge fails exactly when a side is no list of strings. |
| OcpConfig.ClassesAreUnited | pkg/networkoperatorplugin/ocp_config.go:169-210 | For a NodeFeatureDiscovery the same holds of deviceClassWhitelist and the other fields of sources.pci. |
| OcpConfig.MaintenanceIsReplaced | pkg/networkoperatorplugin/ocp_config.go:153-166 | Every wanted field of a MaintenanceOperatorConfig replaces the live one. |
| OcpConfig.AllowlistIsExtended | pkg/networkoperatorplugin/ocp_sysctl.go:36-66 | The shared allowlist ConfigMap keeps its text and gets exactly the required entries behind it. |
| OcpConfig.ValidateOperatorConfig | pkg/networkoperatorplugin/validate.go:228-251 | Validation succeeds exactly when the merge is defined and changes nothing. |
| OcpConfig.ConfigureExisting | pkg/networkoperatorplugin/ocp_config.go:83-99 | The update sends exactly the merged object, and only if it differs; with MergedTwice, what it sends passes validation. |
| OcpConfig.SuccessMeans | pkg/networkoperatorplugin/validate.go:239-246 | For SR-IOV and maintenance settings success means exactly that the live spec has every wanted field, where disablePlugins of SR-IOV may hold more and has no repetition. |
| OcpConfig.NFDFixpoint | pkg/networkoperatorplugin/ocp_config.go:169-210 | The NFD merge changes nothing exactly when the live text is the encoder's own form of a document that holds the wanted fields of sources.pci. |
| OcpConfig.NFDSuccessMeans | pkg/networkoperatorplugin/validate.go:239-246 | For node feature discovery success means exactly that of the live configuration text. |
| OcpConfig.SysctlSuccessMeans | pkg/networkoperatorplugin/validate.go:239-246 | For the sysctl allowlist success means a required text that is not blank and whose entries are all lines of the live one. |
| SubscriptionEnv.MergeVariable | pkg/networkoperatorplugin/ocp_config.go:254-279 | Every entry of the variable is corrected, one appended if none is there; changed exactly when it was not settled. |
| SubscriptionEnv.OnlyValueChanges | pkg/networkoperatorplugin/ocp_config.go:254-279 | Every entry that names the variable ends with the value and no other source, its other fields as they were; other entries are left alone, and a variable no entry names gets one. |
| SubscriptionEnv.MergeEnv | pkg/networkoperatorplugin/ocp_config.go:242-297 | In any order of variables all end up settled, changes are reported exactly when some were not, so a second merge reports none; other entries keep their place and content. |
| Archive.CheckEntries | pkg/config/spectrumx_archive.go:38-82 | The entry loop accepts exactly entries within the limits, well-formed and pairwise compatible. |
| Archive.MarkParents | pkg/config/spectrumx_archive.go:67-72 | The inner loop marks exactly the ancestors of a name, and stops exactly when one of them is a file. |
| Archive.ValidateArchive | pkg/config/spectrumx_archive.go:19-102 | The verdict is the declarative one on the whole archive. |
| Archive.AcceptableMeans | pkg/config/spectrumx_archive.go:19-102 | That verdict with all its names and numbers: 4096 entries, 32 MiB, directories and readable files inside data, different names, none below a file, the four directories and five files required. |
| Archive.ValidMeans | pkg/config/spectrumx_archive.go:53-57 | A name is accepted exactly when it is data or below it, without empty, dot or dot-dot segments. |
| Archive.OrderIndependent | pkg/config/spectrumx_archive.go:36-102 | Any order of the same entries gets the same verdict. |
| Archive.AcceptedIsTree | pkg/config/spectrumx_archive.go:50-72 | Accepted paths form a tree under data whose inner nodes are all directories. |

## Left out

- Deploy.ApplyAndWait: a failed write is taken to leave the object in memory unchanged.
- Phases.DeployBundle: does not model progress output, logging and phase headers, because they decide nothing.
- Poll.PollUntilTerminal: does not claim that a run ends by itself; the context ends after an arbitrary finite number of ticks, so every finite prefix of a longer run is the prefix of some modelled one.
- Clean.DeleteCustomResources: likewise the context ends after an arbitrary finite number of listings and pauses.
- Renaming.DisambiguateOCPSameGPUBuckets: takes a bound on the names tried for a plan, which the program does not have; it is reached only if two of a plan's candidates agree, which an uninterpreted hash allows.
- SourceAnnotations.RenderForScope: covers hardware kinds with selectors (node policies and pools) only, and states coverage by render; on plain Kubernetes, same-GPU buckets may share result file names.
- RenderPlan.BuildBucketMerged: leaves out the merged capabilities, module lists and node selector.
- RenderPlan.PlanRender: leaves out the machine labels of Mode B and the PCI-conflict flag.
- RenderPlan.ApplyGroupFilter: GPU types are lower-cased as ASCII.
- NodeSelector.MatchTerm: takes the validity and matching of a single requirement from the label library as a parameter.
- Identifiers.FittingCandidatesDiffer: names are taken as ASCII, so characters are bytes and lower-casing is that of ASCII.
- The FNV hash is an arbitrary function to eight digits; nothing is claimed about its collisions.
- YAML, JSON, tar and gzip text: the models start from node graphs, trees and entry lists; a codec is any pair of functions where decoding undoes encoding.
- The Kubernetes, Helm and HTTP calls, the per-kind state validators, preflight checks and address-collision checks: arbitrary answers.
- Reflection: configurations are generic trees of pointers, structs and leaves; comments of a YAML node are one field.
- hasRailPciConflict and validateSpectrumXPlaneBuckets.
- First creation of an operator configuration (no merge runs then), the conflict retries around updates, and the rollout wait of the Subscription.
- The other resource kinds of a render, rendered template text, interface-name prefixes and their placeholders.
- Subnet addresses as text: blocks are numbers, and the printing of addresses is not part of this model.
- Command line, presets, schemas, logging, user interface and release tooling.
