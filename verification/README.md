# Phare operator: a verified model

The Phare operator turns one custom resource, a Phare, into a Deployment or StatefulSet, a
Service, a ConfigMap and up to three routing resources, and keeps them that way. Beside the
controller the repository holds a differ for YAML documents and a validator that asks whether
one YAML document is contained in another. This project models the three and proves what they
do, for all inputs and all runs.

`dafny verify dfyconfig.toml` checks everything.

| part | files |
|---|---|
| YAML values, the differ, its counts, its sizes, its matching | `yaml_value`, `diff_spec`, `diff_engine`, `diff_semantics`, `diff_counts`, `diff_sizes`, `diff_matching`, `diff_pairing` |
| streams of documents | `documents`, `document_matching`, `document_entries` |
| printing a difference | `printer`, `printer_properties`, `printer_views`, `printer_listing` |
| the validator | `validator`, `validator_paths` |
| merging workloads and Services | `workload_merge`, `workloads`, `workload_fields`, `service_spec`, `service_ports` |
| what a Phare asks for, the checksum of its configuration, what a run delivers | `phare`, `config_data`, `phare_fields` |
| the API server, one reconcile step by step, the controller | `cluster`, `reconcile_spec`, `reconciler` |
| all runs: safety, events, ownership, failures | `reconcile_safety`, `reconcile_events`, `reconcile_ownership`, `reconcile_failures` |
| a calm cluster: convergence, and what keeps it from coming to rest | `calm_cluster`, `reconcile_convergence`, `reconcile_loops` |
| servers that fill in what is compared, and what updates clear | `step_frames`, `endless_writes`, `service_updates` |

Code that works step by step is a method or a class here, with the loops of the original, and
is proved equal to a specification function (`DiffOf`, `Chosen`, `Merged`, `StepReconcile`, ...).
The lemmas are about those functions. None of these equalities is a result by itself: each is
what ties the code to the lemmas below it in the table. What a specification function means is in
turn said without it: sizes by the texts themselves, pairings by what earlier children have used,
listings by the lines of their primitives, verdicts by paths of keys, merges by mounts, devices and
names, and the desired objects by the fields of the Phare (`OneReconcileDelivers`).

## What the model takes as given

- Documents come from the decoder: string keys, no key twice in a map (`Decoded`). A scalar is
  its Go type and its printed text. NaN and negative zero do not occur, neither here nor in the
  documents of the validator (in Go a document with `.nan` does not validate against itself).
- `Fits`: the weights of two compared documents stay below `math.MaxInt`. `Weight` is linear in
  the text of the document. Without it the sentinel of the pairing loop could win.
- `sort.Slice` gives any permutation at all, because the comparator it is passed is not an
  order. Ids of documents and the made-up partner ids are all different (`FreshIds`).
- Templates see the metadata of the Phare. `version` stands for the part of it that a status write
  changes (the resource version, the managed fields); the server picks its new value freely.
- Reading the labels of an untyped object gives none when they are stored as a typed Go string
  map. That is what k8s.io/apimachinery v0.28.1 (go.mod:11) does; the library is not part of this
  model. The desired policies are built like that, so their labels read back as none
  (`ReadBackLabels`).
- Template rendering, SHA-256 and error texts are arbitrary functions. That SHA-256 does not
  collide on two given texts is a hypothesis of the lemmas that need it.
- The API server (`Env`) decides for every call whether it works, is refused, or works and
  reports a failure; other clients may change the store before every call; the server may
  change what it stores (`admit`). Each theorem about runs names what it asks of them:
  `NeverTwoWorkloads` asks that others do not hand the Phare a workload and that admission keeps
  the owner; `RemovalsAccountedFor` asks nothing, and `RunRemovesOwnOnly` that others do not put
  an object in the place of one that a Phare controls in one go; the convergence lemmas that the
  cluster is `Calm`: no failures, no other writers, and a server that fills in Services and workloads,
  injects into pods, and stores ConfigMaps and routes as they are sent. `PlainServerIsCalm` shows that there are such clusters.

## Where the obvious statement is false

- A Same verdict of the differ is not equality. Several elements of the first list may match
  one element of the second, so lists are compared as sets and the second document must not
  repeat an element at any depth: that is exactly `SameMeansEqual`. `[1,1]` differs from itself
  and is Same as `[1]` (`RepetitionsBreakReflexivity`).
- A difference of size zero need not be Same. It is of size zero exactly when all its leaves are
  (`ZeroCountAtLeaves`), and `ZeroCountButNotSame` says exactly when a leaf is.
- A list whose children are all Same need not be Same: `DifferingListLooksSameIff` says exactly
  when one differs nevertheless.
- The size of a difference against null depends on the side the null is on, though rarely: exactly
  for a text that is a beginning of "<nil>" or goes on from it (`NullSizesDifferIff`). Otherwise
  sizes of values that are not compared child by child are symmetric (`SizeIsSymmetric`).
- Ports are identified by name, or by protocol and number. For names without a slash that is what
  the key says (`KeyedAlikeIff`); a port named `TCP/80` shares its key with the unnamed TCP port 80
  (`SlashCollides`).
- The README of the repository calls the loop idempotent. From any store one run brings everything
  into line (`OneReconcileConverges`), but four things can make later runs write again:
  - A policy is created with the controller's labels, and the next run strips them, because the
    desired labels read back as none (`PolicyLosesItsLabels`; `RouteWrittenIff` is the exact
    condition of every write). After that it is left alone.
  - The status write changes the version of the Phare. If its templates quote that, the next run
    rewrites the ConfigMap (`SecondRunRewritesConfig`, `SettledIffRendersAlike`);
    `VersionedConfigHappens` gives the input `{a: "{{ .ResourceVersion }}"}`. Two runs are enough
    in any case (`TwoReconcilesRest`).
  - The comparison that decides on a patch tells a nil list from an empty one, and the merge turns
    nil lists into empty ones. A run sends nothing exactly when the object conforms and `NilsAgree`
    (`NoPatchIffConforms`). A server that stores empty lists as nil ones is sent the same patch by
    every run, for ever (`PatchedForever`, `EndlessPatchHappens`).
  - A server that fills in what is compared is written to by every run: assigned node ports under
    the reallocate annotation, omitted target ports (`ServiceWrittenForever`), an omitted part of a
    route (`RouteWrittenForever`).

  Apart from the patch for nil lists, a store at rest is left alone for good (`QuietForever`).
- The comment on the configuration hash claims an unambiguous encoding. A value with a line
  `b=...` in it reads like a further entry (`ContinuationLinesCollide`). Every configuration with
  two entries shares its encoding with another one, since the second entry can be folded into the
  first value; `EncodingIsSharedIff` is the exact condition. Two given configurations with keys
  free of '=' and newlines are told apart unless a value of one has a continuation line that opens
  like a later entry of the other (`EncodeIsInjective`).
- Omitted optional Service fields are kept for the drift check alone. A live value survives a run
  exactly when nothing of the Service has drifted (`OmittedFieldSurvivesIff`);
  `LoadBalancerAddressIsLost` is a run that loses one. With the reallocate annotation on, an
  assigned node port is drift, exactly then (`ReallocationDrifts`), and so is a target port that the
  server fills in, in either case (`FilledTargetPortDrifts`); neither ever ends
  (`ReallocationNeverSettles`, `OmittedTargetPortNeverSettles`).
- Clean-up by ownership is a look followed by a deletion by name. `ForeignRemovedIffSwapped` says
  exactly when it removes somebody else's object: when one is put in the place of the Phare's
  between the two. Over any run, every removal is of the Phare's own object or of one swapped in
  during that reconcile (`RemovalsAccountedFor`). Service and ConfigMap clean-up do not look;
  `ServiceGoesUnchecked` and `ConfigMapGoesUnchecked` say exactly when they remove something.
- A merge conforms, and a second one finds nothing to do, exactly when desired entries of one
  name that are still to be added agree (`MergedConforms`, `MergeTwice`); with unique names the
  second one returns the very same object (`MergeIsIdempotent`).
- A field added to the current document is ignored in nested maps and in maps inside lists
  (`ExtraFieldsIgnored`), not in lists inside lists, which are compared exactly.

## Model

| member | source | states |
|---|---|---|
| `Differ.PerformDiff` | pkg/yamldiff/diff.go:51-66 | the dispatch between maps, lists and primitives computes `DiffOf` at every depth and terminates |
| `Differ.HandleMap` | pkg/yamldiff/diff.go:68-172 | the two passes over the entries give one child a key of either map, whichever order the children are summed in |
| `Differ.HandleArray` | pkg/yamldiff/diff.go:174-299 | first pass, pairing loop and tails together give the list difference of the specification |
| `Differ.FirstMatches` | pkg/yamldiff/diff.go:204-228 | every element of the first list gets its first Same partner, and every comparison the pairing loop will look up is stored |
| `Differ.PairLeftovers` | pkg/yamldiff/diff.go:232-290 | the loop without a condition ends: each round finds a free pair, marks both fresh, and the children are the specified slots |
| `Differ.SmallestFree` | pkg/yamldiff/diff.go:260-284 | one scan returns the lexicographically first of the cheapest free pairs; the sentinel never survives |
| `Differ.HandlePrimitive` | pkg/yamldiff/diff.go:301-378 | status and size of a difference between two primitives |
| `Differ.DifferingLength` | pkg/yamldiff/diff.go:348-375 | the scan for the first differing character gives the length left after the common prefix |
| `DiffSemantics.SameMeansEqual` | pkg/yamldiff/diff.go:51-66 | at any depth: Same if and only if the documents are equal with maps read as finite maps and lists as sets, and the second repeats no element |
| `DiffSemantics.EqualReflexive` | pkg/yamldiff/diff.go:51-66 | that equality is reflexive |
| `DiffSemantics.EqualSymmetric` | pkg/yamldiff/diff.go:51-66 | it is symmetric |
| `DiffSemantics.EqualTransitive` | pkg/yamldiff/diff.go:51-66 | it is transitive |
| `DiffSemantics.RepeatFreeListsAreRearranged` | pkg/yamldiff/diff.go:204-228 | for lists without repetitions it means: one is a permutation of the other |
| `DiffSemantics.KeyOrderInvisible` | pkg/yamldiff/diff.go:99-163 | a document with the entries of its maps rearranged, at any depth, is equal to it and as free of repetitions |
| `DiffSemantics.VerdictIgnoresKeyOrder` | pkg/yamldiff/diff.go:99-163 | so no verdict changes, whichever side is rearranged |
| `DiffSemantics.SameAsItself` | pkg/yamldiff/diff.go:209-223 | a document is Same as itself if and only if it repeats no element |
| `DiffSemantics.SameTurnedRound` | pkg/yamldiff/diff.go:209-223 | a Same verdict may be turned round if and only if the first document repeats no element |
| `DiffSemantics.SameTransitive` | pkg/yamldiff/diff.go:209-228 | Same is transitive on all documents |
| `DiffSemantics.SameRespectsEqual` | pkg/yamldiff/diff.go:99-163 | replacing both documents by equal ones keeps the verdict if and only if, where they are equal to each other, the two right documents repeat elements alike |
| `DiffSemantics.RepetitionsBreakReflexivity` | pkg/yamldiff/diff.go:209-223 | the concrete lists on which reflexivity and symmetry fail |
| `DiffCounts.CountBound` | pkg/yamldiff/diff.go:292-296 | for all inputs the size is non-negative, at most the sum of the weights, and zero for a Same verdict |
| `DiffCounts.SameIsClean` | pkg/yamldiff/diff.go:93-169 | a Same verdict has size zero and only Same children, at every depth |
| `DiffCounts.TotalWithout` | pkg/yamldiff/diff.go:165-169 | a map's size is the sum over its children in any order of visiting them |
| `DiffCounts.ZeroCountButNotSame` | pkg/yamldiff/diff.go:314-375 | exactly when two primitives have a difference of size zero that is not Same |
| `DiffCounts.ZeroCountAtLeaves` | pkg/yamldiff/diff.go:165-169 | for all inputs the size is zero if and only if it is at every leaf of the difference |
| `DiffSizes.SizeOfDifference` | pkg/yamldiff/diff.go:348-375 | for unequal values that are not compared child by child, and any n where the two texts part: the length of the longer text less n |
| `DiffSizes.SizeIsSymmetric` | pkg/yamldiff/diff.go:348-375 | that size does not depend on the order of the two |
| `DiffSizes.SizeAgainstNull` | pkg/yamldiff/diff.go:338-375 | the exact size of a value set against null, by where its text parts from "<nil>" |
| `DiffSizes.SizeOfNullAgainst` | pkg/yamldiff/diff.go:335-375 | the exact size of null set against a value |
| `DiffSizes.NullSizesDifferIff` | pkg/yamldiff/diff.go:335-375 | the exact condition for the two to differ |
| `DiffSizes.SharedKeyChild` | pkg/yamldiff/diff.go:93-163 | entries of two maps under one key are compared with each other |
| `DiffSizes.LoneKeyChild` | pkg/yamldiff/diff.go:93-163 | a key that only one map has is recorded with its value, as missing on the other side, its size being the length of its text; there are no other children |
| `DiffSizes.LevelsAreDepths` | pkg/yamldiff/diff.go:51-66 | the level a difference records is its depth, at every depth |
| `DiffSizes.ValuesAreRecorded` | pkg/yamldiff/diff.go:301-345 | the values are recorded as they are, a missing key as null, and the status says which side is missing |
| `DiffSizes.ListSizeIsSum` | pkg/yamldiff/diff.go:292-296 | the size of a list difference is the sum over its children, Same or not |
| `DiffSizes.ListText` | pkg/yamldiff/diff.go:308-309 | the text of a list is that of its elements, with one blank between any two |
| `DiffSizes.MapText` | pkg/yamldiff/diff.go:308-309 | the same of a map and its entries |
| `DiffMatching.ElementsConserved` | pkg/yamldiff/diff.go:209-290 | each element of the first list is in exactly one child, each of the second in at least one and in at most one that is not Same; the number of children is the length of the first list plus the surplus of unmatched second ones |
| `DiffMatching.PicksGetDearer` | pkg/yamldiff/diff.go:260-289 | successive picks of the pairing loop have non-decreasing sizes |
| `DiffMatching.FreeMeansUnequal` | pkg/yamldiff/diff.go:275-277 | the branch marked as an unexpected case is never taken |
| `DiffPairing.SamePairsComeFirst` | pkg/yamldiff/diff.go:204-221 | first come the Same pairs, in the order of the first list: every element that has a Same partner, with the first one it has; no later pair is Same |
| `DiffPairing.PickIsCheapest` | pkg/yamldiff/diff.go:256-290 | every other pair is at least as cheap as any pair of elements that no earlier child is for, and the first in the order of the lists among the equally cheap ones |
| `DiffPairing.LeftoversComeLast` | pkg/yamldiff/diff.go:232-254 | an element is left over only when every element of the other list is in an earlier child; leftovers are the last children and in the order of their list |
| `DiffMatching.ChildrenAllSameIff` | pkg/yamldiff/diff.go:209-258 | for all lists: all children are Same if and only if the first pass used one list up and left only nulls of the other |
| `DiffMatching.DifferingListLooksSameIff` | pkg/yamldiff/diff.go:225-258 | a list differs although all its children are Same if and only if moreover such nulls were left of exactly one list |
| `DiffMatching.LeftoverNullLooksSame` | pkg/yamldiff/diff.go:235-243 | the smallest example: `[]` against `[null]` |
| `Documents.Do` | pkg/yamldiff/yaml.go:89-106 | for every sort that permutes, the result is the reordered choice among all entries |
| `Documents.Runner.PerformAllDiff` | pkg/yamldiff/yaml.go:115-145 | all pairs, then every document against nothing |
| `Documents.Runner.FindMinimumDiffs` | pkg/yamldiff/yaml.go:147-175 | an entry is kept unless one of its documents is already taken |
| `Documents.Runner.SortResult` | pkg/yamldiff/yaml.go:177-218 | the two passes over the documents give the specified order |
| `DocumentMatching.ChosenAreApart` | pkg/yamldiff/yaml.go:155-170 | kept entries share no document, in whatever order they came |
| `DocumentMatching.EveryDocumentOnce` | pkg/yamldiff/yaml.go:155-218 | each document of either stream is in exactly one entry of the result |
| `DocumentMatching.OrderedByDocument` | pkg/yamldiff/yaml.go:177-218 | first one entry a document of the first stream, in its order, then the unpaired documents of the second in its order, and nothing else |
| `DocumentMatching.OrderedIsRearranged` | pkg/yamldiff/yaml.go:177-218 | the result is a permutation of what the filter kept |
| `DocumentMatching.SamePairsAreMaximal` | pkg/yamldiff/yaml.go:148-170 | with Same entries sorted first, two documents that are Same as each other do not both end in entries that are not Same |
| `DocumentEntries.EntriesIff` | pkg/yamldiff/yaml.go:115-145 | the entries are exactly the comparisons of every pair and of every document against nothing, with their ids |
| `DocumentEntries.EntriesCounted` | pkg/yamldiff/yaml.go:115-145 | there are as many as pairs and documents together |
| `DocumentEntries.ResultCompares` | pkg/yamldiff/yaml.go:89-113 | every entry of the result is the comparison of the documents its ids name, or of one against nothing, whatever the sort did |
| `DocumentEntries.ChosenStepByStep` | pkg/yamldiff/yaml.go:155-170 | an entry is kept exactly when no entry kept before it names one of its documents |
| `Printer.DumpDiff` | pkg/yamldiff/printer.go:118-141 | the lines of a difference, by status and children |
| `Printer.DumpData` | pkg/yamldiff/printer.go:22-71 | the lines of a whole value under one prefix |
| `PrinterListing.EqualListingsOfEquals` | pkg/yamldiff/printer.go:22-116 | for documents with no empty map or list: equal listings are of equal documents, under the same prefix and at the same level |
| `PrinterListing.PrimitiveIsListed` | pkg/yamldiff/printer.go:22-116 | for every path to a primitive there is a line with its key or mark, its depth and its value |
| `PrinterListing.PrimitivesAreApart` | pkg/yamldiff/printer.go:22-116 | different primitives have different lines |
| `PrinterListing.NothingElseIsListed` | pkg/yamldiff/printer.go:22-116 | every line that is not the header of a map or list is that of some primitive |
| `Printer.SortedChildren` | pkg/yamldiff/printer.go:170-216 | the keys in printing order, whatever order the children map is ranged over in; the pass over leftover children finds none |
| `Printer.OrderedKeysExactly` | pkg/yamldiff/printer.go:178-216 | every child is printed exactly once |
| `Printer.PrintingOrder` | pkg/yamldiff/printer.go:178-203 | the first map's keys in its order, then the keys only the second has in its order |
| `PrinterProperties.DiffIsKeyed` | pkg/yamldiff/diff.go:93-163 | every difference the differ builds is one the printer handles, at every depth |
| `PrinterProperties.SamePrintsTheDocument` | pkg/yamldiff/printer.go:118-236 | a Same difference is dumped as the first document itself, every line unmarked, at every depth |
| `PrinterViews.DumpShowsBoth` | pkg/yamldiff/printer.go:118-236 | for all maps and all lists: without its "+" lines the dump is the view of the first document, without its "-" lines that of the second; where lists meet, a view has the elements in matching order and a null for each leftover of the other list |
| `PrinterViews.DumpShowsBothMaps` | pkg/yamldiff/printer.go:170-236 | where no lists meet, the views are the first document as it is and the second in printing order |
| `PrinterViews.LeavesAreShown` | pkg/yamldiff/printer.go:118-141 | documents that are not compared child by child: shown once and unmarked if equal, else each under its mark, a null not at all |
| `Validator.ValidateYaml` | pkg/validator/validator.go:17-34 | true exactly when the filtered current document covers the filtered desired one (or both are empty); the documents it returns |
| `Validator.FilterEmptyFields` | pkg/validator/validator.go:37-62 | deleting while ranging, in any order, gives the filtered document |
| `Validator.CleanMapBasedOnAnother` | pkg/validator/validator.go:65-102 | deleting while ranging, in any order, gives the pruned document |
| `Validator.PrunedEqualsIffCovers` | pkg/validator/validator.go:32-33 | deep equality after pruning is exactly recursive covering |
| `Validator.CoversReflexive` | pkg/validator/validator.go:65-102 | covering is reflexive |
| `Validator.CoversTransitive` | pkg/validator/validator.go:65-102 | covering is transitive |
| `Validator.FilteredTwice` | pkg/validator/validator.go:37-62 | filtering is idempotent |
| `Validator.PrunedTwice` | pkg/validator/validator.go:65-102 | pruning is idempotent |
| `Validator.PutKeepsCovering` | pkg/validator/validator.go:65-102 | covering is blind to a value put at the end of any path, through maps and list items that are maps, that the desired document does not mention |
| `Validator.ExtraFieldsIgnored` | pkg/validator/validator.go:65-102 | so putting any value at any such path, list items included, does not change the verdict on the filtered documents |
| `Validator.ValidatesItself` | pkg/validator/validator.go:17-34 | every document validates against itself |
| `ValidatorPaths.FieldSurvivesIff` | pkg/validator/validator.go:37-62 | a field survives filtering exactly when it is a bool, a list, a non-empty text, a non-zero number, or a map from which keys lead to such a leaf |
| `ValidatorPaths.ValidatesIff` | pkg/validator/validator.go:17-102 | for all mappings: the verdict is true exactly when every value of the desired one that is set, under whatever path of keys, has a value in the current one under the same path that does for it |
| `ValidatorPaths.DifferentScalarNeverValidates` | pkg/validator/validator.go:17-102 | so it is false when the current one has no value there, or a different scalar |
| `ValidatorPaths.CoversIff` | pkg/validator/validator.go:65-102 | covering means agreeing at every path, through maps and list items that are maps |
| `WorkloadMerge.MergeContainersPreservingUnknown` | controllers/workload_merge.go:5-32 | live containers in order, known ones merged with the last desired one of their name, then the desired ones not seen |
| `WorkloadMerge.MergeVolumesRespectingMountedNames` | controllers/workload_merge.go:55-84 | desired volumes, and unknown live ones that are still used |
| `WorkloadMerge.MountedVolumeNames` | controllers/workload_merge.go:86-101 | the names mounted or attached by any container |
| `Workloads.MergeWorkload` | controllers/reconcile_deployment.go:78-91 | the merge assigns the managed fields and no others; claim templates stay |
| `Workloads.MergeKeepsLive` | controllers/workload_merge.go:14-22 | live containers keep place, name and unmanaged fields, unknown ones whole; known ones take the managed fields of a desired one |
| `Workloads.MergedNames` | controllers/workload_merge.go:14-31 | the merged names are the live and the desired ones |
| `Workloads.MergedVolumesExactly` | controllers/workload_merge.go:62-83 | for all lists: a volume is in the result if and only if it is live, unknown and used, or the last desired one of a live name, or desired under a name that is not live |
| `Workloads.MergedVolumesOfUniqueNames` | controllers/workload_merge.go:62-83 | with unique names: if and only if it is desired, or live, unknown and used |
| `Workloads.MergeKeepsClosed` | controllers/reconcile_deployment.go:83-88 | if every mount and device names a volume in the live and in the desired pod, then so it does in the merged pod |
| `WorkloadFields.MergeLeavesNothingDangling` | controllers/workload_merge.go:55-101 | if every mount and every device names a volume in the live pod and in the desired one, so it does in the merged one |
| `WorkloadFields.UndesiredVolumeStaysIff` | controllers/workload_merge.go:73-76 | a live volume that is not desired stays exactly when some merged container or init container mounts it or has it as a device |
| `WorkloadFields.KnownContainerTakes` | controllers/workload_merge.go:34-53 | a live container takes image, environment, mounts and probe of the last desired one of its name |
| `WorkloadFields.MergedContainersInOrder` | controllers/workload_merge.go:5-32 | live names in their order, then exactly the desired containers whose name is not live, in theirs |
| `WorkloadFields.MergedVolumesInOrder` | controllers/workload_merge.go:55-84 | what remains of the live volumes in their order, then exactly the desired ones whose name is not live, in theirs |
| `Workloads.NoPatchIffConforms` | controllers/reconcile_deployment.go:53-66 | for any live object: no patch if and only if the object conforms and no nil list or map becomes an empty one |
| `Workloads.MergedConforms` | controllers/reconcile_deployment.go:78-91 | the merged object conforms if and only if the desired entries still to be added agree with the last of their name |
| `Workloads.MergeTwice` | controllers/reconcile_deployment.go:50-66 | a second merge shows no difference under exactly the same condition |
| `Workloads.MergeIsIdempotent` | controllers/reconcile_deployment.go:78-91 | with unique desired names a second merge returns the very same object |
| `Workloads.UniqueNamesSettle` | controllers/workload_merge.go:24-29 | with unique desired names it always does |
| `Workloads.AdmissionKeepsConforming` | controllers/compare_options.go:10-15 | defaulted ignored fields, injected containers and their volumes do not make a conforming object drift |
| `ServiceSpecs.MergeServiceSpecPreservingImmutable` | controllers/reconcile_service.go:141-174 | the copy with immutable fields and, when asked, node ports taken from the live Service |
| `ServiceSpecs.ServiceSpecsDiffer` | controllers/reconcile_service.go:135-139 | the comparison after merge, normalisation and canonical form |
| `ServiceSpecs.NoDriftIffConforms` | controllers/reconcile_service.go:135-240 | for all Services: no drift if and only if the live one conforms field by field |
| `ServiceSpecs.NoUpdateLoop` | controllers/reconcile_service.go:55-68 | after a create or an update from any live Service, once the server has filled in what was omitted, there is no drift, given preserved ports with unique identities |
| `ServiceSpecs.ReallocationDrifts` | controllers/reconcile_service.go:56-57 | without preservation there is drift if and only if the server assigned a port that was left open |
| `ServiceSpecs.FilledTargetPortDrifts` | controllers/reconcile_service.go:162-170 | a target port that differs is drift, preserved or not |
| `ServiceSpecs.OmittedIsKeptByTheCheckOnly` | controllers/reconcile_service.go:207-240 | each of the nine optional fields, when omitted, counts as unchanged for the check and is written as omitted |
| `ServicePorts.KeyedAlikeIff` | controllers/reconcile_service.go:151-171 | names and protocols being without a slash, two ports share a key exactly when they have the same name, or no name and the same protocol and number |
| `ServicePorts.SlashCollides` | controllers/reconcile_service.go:151-171 | a name with a slash can collide with an unnamed port |
| `ServicePorts.OpenNodePortIsKept` | controllers/reconcile_service.go:151-171 | a node port left open is written as that of the last live port of the same key |
| `ServicePorts.OpenNodePortStaysOpen` | controllers/reconcile_service.go:151-171 | and stays open when there is none |
| `ServicePorts.OnlyNodePortsArePreserved` | controllers/reconcile_service.go:141-174 | nothing else about a port is taken from the live Service |
| `ServicePorts.ImmutableFieldsAreKept` | controllers/reconcile_service.go:141-150 | the fields that a client may not change are written as they are live, and those that decide the Service as desired |
| `ServiceUpdates.OmittedFieldSurvivesIff` | controllers/reconcile_service.go:55-68 | for each of the nine, on a server that stores what it is sent: after the step the live value is what it was if and only if nothing of the Service had drifted or there was none |
| `ServiceUpdates.LoadBalancerAddressIsLost` | controllers/reconcile_service.go:55-68 | a whole run that takes the address away because the labels had drifted |
| `ServiceUpdates.AddressLossHappens` | controllers/reconcile_service.go:55-68 | there is such a server, store and Phare, with the rest of the Service as asked |
| `EndlessWrites.ServiceWrittenForever` | controllers/reconcile_service.go:55-68 | if the server makes a drifting Service of whatever is written, n runs write it exactly n times |
| `EndlessWrites.ReallocationNeverSettles` | controllers/reconcile_service.go:56-57 | a server that assigns open node ports does so, under the reallocate annotation |
| `EndlessWrites.OmittedTargetPortNeverSettles` | controllers/reconcile_service.go:162-170 | a server that fills omitted target ports does so, under either port policy |
| `EndlessWrites.RouteWrittenForever` | controllers/expose_controller.go:41-56 | a route or policy whose spec the server fills in is written exactly n times by n runs |
| `ConfigData.HashInput` | controllers/reconcile_configmap.go:148-162 | the text to be hashed does not depend on the order in which the map is ranged over |
| `ConfigData.AscendingIsUnique` | controllers/reconcile_configmap.go:148-152 | a set of keys has one ascending order |
| `ConfigData.LessIff` | controllers/reconcile_configmap.go:152 | the order of the keys: smaller at the first difference, or a proper beginning |
| `ConfigData.EncodeOfOne` | controllers/reconcile_configmap.go:154-160 | an entry alone is encoded as its line |
| `ConfigData.EncodeAppends` | controllers/reconcile_configmap.go:154-160 | if all keys of one part come before all of the other, the encoding of the whole is that of the one followed by that of the other |
| `ConfigData.EncodeIsInjective` | controllers/reconcile_configmap.go:154-160 | data with clean keys has one encoding if and only if it is the same data, unless a value has a continuation line that opens like a later entry of the other data |
| `ConfigData.EncodingIsSharedIff` | controllers/reconcile_configmap.go:140-160 | data with clean keys shares its encoding with other such data if and only if it has two entries or a value with a continuation line that opens like a later entry |
| `ConfigData.ChecksumFollowsData` | controllers/reconcile_configmap.go:142-163 | for such data, and a hash that does not collide on the two texts, equal checksums mean equal data and the other way round |
| `ConfigData.ContinuationLinesCollide` | controllers/reconcile_configmap.go:140-160 | for any two keys and all texts, a value with a continuation line encodes like two entries |
| `Phares.GenerateData` | controllers/reconcile_configmap.go:91-102 | every value rendered with the whole metadata, one that fails kept as written, in any order of ranging |
| `Phares.NewWorkload` | controllers/reconcile_deployment.go:93-219 | the desired workload, configuration volume, file modes and rendered probe path included, nil lists passed on as nil; nothing when the path does not render |
| `Phares.NewPodIsClosed` | controllers/reconcile_deployment.go:168-210 | every mount and device of the desired pod names one of its volumes if and only if those of the Phare name its own volumes or the configuration volume; with `MergeKeepsClosed` this carries over to what is patched |
| `PhareFields.OneReconcileDelivers` | controllers/phare_controller.go:60-104 | one calm run, from any store, leaves the live ConfigMap, Service, routes, policies and workload with what the fields of the Phare say, field by field, and nothing the Phare does not ask for |
| `PhareFields.MainIsDelivered` | controllers/reconcile_deployment.go:114-131 | the live main container runs image, environment, mounts and rendered probe path of the Phare, the configuration mounted first |
| `PhareFields.VolumesAreDelivered` | controllers/reconcile_deployment.go:168-219 | the configuration volume and the Phare's own ones are there, Secrets and ConfigMaps with mode 0644, and every other live volume is attached somewhere |
| `PhareFields.ClaimsOfTheCreated` | controllers/reconcile_statefulset.go:80-94 | volume claims go into a StatefulSet when it is created and are never changed; a Deployment has none |
| `PhareFields.ReallocatesIff` | controllers/reconcile_service.go:176-190 | node ports are reallocated exactly when the annotation says 1, true, yes or on, in any case, between any white space |
| `Cluster.Api.Replace` | controllers/reconcile_service.go:81-87 | an update or patch: may fail with or without effect, keeps the stored owner |
| `Cluster.Api.Delete` | controllers/tmp_k8s_resources.go:114-119 | a deletion by name removes what has the name by then |
| `Reconcilers.PhareReconciler.Reconcile` | controllers/phare_controller.go:60-81 | one whole run is the function `StepReconcile` of the world before it, for every pattern of failures and interference |
| `Reconcilers.PhareReconciler.ReconcileResources` | controllers/phare_controller.go:84-101 | six sub-reconcilers in order, stopping at the first error |
| `Reconcilers.PhareReconciler.UpdateStatus` | controllers/phare_controller.go:108-119 | the status is written only when it changes |
| `Reconcilers.PhareReconciler.ReconcileConfigMap` | controllers/reconcile_configmap.go:22-70 | create, update, delete or leave alone, with every error path |
| `Reconcilers.PhareReconciler.ReconcileService` | controllers/reconcile_service.go:21-71 | the same for the Service, in the order of the original's checks |
| `Reconcilers.PhareReconciler.DeleteIfOwned` | controllers/tmp_k8s_resources.go:104-142 | look, check the controller, delete; not found is tolerated both times |
| `Reconcilers.PhareReconciler.HandleRoute` | controllers/expose_controller.go:21-263 | the HTTPRoute and the two policies: created with the controller's labels, then compared with and patched to what the desired labels read back as, which for a policy is none |
| `Reconcilers.PhareReconciler.ReconcileMicroService` | controllers/tmp_k8s_resources.go:81-100 | the other kind is cleaned up first; an unknown kind is an error |
| `Reconcilers.PhareReconciler.HashConfigMapData` | controllers/reconcile_configmap.go:142-163 | the hash of the stored data, or an error when it cannot be read |
| `Reconcilers.PhareReconciler.ReconcileWorkload` | controllers/reconcile_deployment.go:23-40 | the desired workload with its checksum is applied |
| `Reconcilers.PhareReconciler.ApplyWorkload` | controllers/reconcile_deployment.go:42-74 | create, patch only on a difference, or leave alone |
| `Reconcilers.RunController` | controllers/phare_controller.go:59-81 | any number of runs is the iterated step |
| `ReconcileSafety.NeverTwoWorkloads` | controllers/tmp_k8s_resources.go:81-121 | over all runs, with any failures and any changes of kind, no state of the store holds a Deployment and a StatefulSet that the Phare controls both |
| `ReconcileSafety.DeleteOwnedClears` | controllers/tmp_k8s_resources.go:104-121 | after a clean-up without error the object is not the Phare's |
| `ReconcileOwnership.CreatedIsControlled` | controllers/expose_controller.go:90 | whatever fails, when nobody else writes: an object of any kind that a run finds absent and leaves present is controlled by the fetched Phare; all others keep their owner or become the Phare's |
| `ReconcileOwnership.AbsentThenOwn` | controllers/expose_controller.go:90 | the same over any number of runs |
| `ReconcileOwnership.WantedIsCreated` | controllers/phare_controller.go:84-104 | a calm run creates every object that is asked for and absent, and the Phare controls it |
| `ReconcileOwnership.DroppedObjectIsGone` | controllers/tmp_k8s_resources.go:104-142 | an object that was absent at first is, whatever n runs made of it, not in the store after the first calm run for a Phare that no longer wants it |
| `ReconcileFailures.SucceedsIff` | controllers/phare_controller.go:60-131 | when nobody else writes: a reconcile returns without an error exactly when every call it makes works and the Phare, if there is one, can be built |
| `ReconcileEvents.ActiveMeansAllSucceeded` | controllers/phare_controller.go:71-80 | a status is written last in a run, Active if and only if all six sub-reconcilers succeeded, Failed if and only if one did not |
| `ReconcileEvents.RemovalsAccountedFor` | controllers/tmp_k8s_resources.go:104-142 | over all runs, whatever fails and whatever others do: each removal of a workload, route or policy belongs to a reconcile whose Phare controls the object, or is of one that another client put in the place of such an object during that reconcile |
| `ReconcileEvents.RunRemovesOwnOnly` | controllers/tmp_k8s_resources.go:104-142 | so without such swaps all runs remove only what the Phare they fetched controls |
| `ReconcileEvents.ForeignRemovedIffSwapped` | controllers/tmp_k8s_resources.go:123-141 | clean-up removes a foreign object if and only if the look shows the Phare's own, the deletion is not refused, and somebody else's has the name by then |
| `ReconcileEvents.ServiceGoesUnchecked` | controllers/reconcile_service.go:35-38 | exactly when Service clean-up removes something, and when that is foreign |
| `ReconcileEvents.ConfigMapGoesUnchecked` | controllers/reconcile_configmap.go:24-38 | exactly when ConfigMap clean-up removes something, and when that is foreign |
| `CalmCluster.ServiceSettles` | controllers/reconcile_service.go:55-68 | a Service just written and filled in conforms, under either port policy |
| `CalmCluster.RouteConverges` | controllers/expose_controller.go:41-56 | a route step leaves the object in line, sends exactly what was not as expected, and touches nothing else |
| `CalmCluster.MicroServiceConverges` | controllers/tmp_k8s_resources.go:81-100 | the same for the workload and the clean-up of the other kind |
| `CalmCluster.ResourcesConverge` | controllers/phare_controller.go:84-101 | from any store the six steps bring everything into line and send exactly what was not, in order |
| `ReconcileConvergence.OneReconcileConverges` | controllers/phare_controller.go:60-101 | one undisturbed run, from any store, leaves everything as the fetched Phare asks and the status Active, and its log is exactly what was out of line |
| `ReconcileConvergence.InLineAlike` | controllers/reconcile_configmap.go:91-102 | what is in line with a Phare is in line with it under another version if and only if its templates render alike |
| `ReconcileConvergence.SettledIffRendersAlike` | controllers/phare_controller.go:78-80 | the store is settled after one run if and only if the version that the status write gave makes no difference to the templates |
| `ReconcileConvergence.SettledLog` | controllers/expose_controller.go:159-168 | a settled store still provokes exactly a patch for each policy with labels and the patch for nil lists |
| `ReconcileConvergence.SettledStaysQuiet` | controllers/phare_controller.go:60-101 | a further run sends exactly those, leaves no policy labelled, and without them changes nothing |
| `ReconcileConvergence.TwoReconcilesRest` | controllers/phare_controller.go:60-101 | two runs bring any store to rest: settled, and no policy labelled |
| `ReconcileConvergence.QuietForever` | controllers/phare_controller.go:60-119 | from rest on, for any number of runs: nothing is created, removed or recorded, at most the one workload patch a run |
| `ReconcileConvergence.RestHappens` | controllers/phare_controller.go:60-101 | there are a calm cluster and a Phare that come to rest |
| `ReconcileLoops.RouteWrittenIff` | controllers/expose_controller.go:159-168 | for all environments: a route step writes if and only if the object is missing, its spec differs, or its labels differ from the controller's (route) or from none (policy) |
| `ReconcileLoops.PolicyLosesItsLabels` | controllers/expose_controller.go:113-168 | a new policy has the controller's labels after the first run, is patched by the second, then has none, and is not written by any of n later runs |
| `ReconcileLoops.SecondRunRewritesConfig` | controllers/reconcile_configmap.go:91-102 | the second run rewrites the ConfigMap if and only if the configuration renders differently under the version that the first run gave the Phare |
| `ReconcileLoops.VersionedConfigIsRewritten` | controllers/phare_controller.go:108-119 | a configuration that every new version changes is unsettled after the first run and written again by the second |
| `ReconcileLoops.VersionedConfigHappens` | pkg/go-templates/go-templates.go:28-40 | a configuration that quotes the resource version is one |
| `ReconcileLoops.NilListIsPatchedEveryRun` | controllers/workload_merge.go:11-31 | a pod at rest that is stored without init containers is patched by the next run |
| `ReconcileLoops.PatchedForever` | controllers/workload_merge.go:11-31 | on a server that stores an empty list as nil, n further runs send that patch exactly n times and nothing else |
| `ReconcileLoops.EndlessPatchHappens` | controllers/workload_merge.go:11-31 | there are such a calm server, a Phare and a store at rest |
| `ReconcileConvergence.ChecksumIsFresh` | controllers/reconcile_deployment.go:29-40 | in a settled store the checksum in the live template is that of the configuration as it renders now, for every hash and configuration |
| `ReconcileConvergence.ChecksumTellsConfigsApart` | controllers/reconcile_deployment.go:29-40 | two such checksums are equal if and only if the rendered configurations are, unless the hash collides on them or a value runs on into a later entry of the other |

## Left out

- HandleRoute: the specs of the three resources are opaque texts; that a kind of resource is not installed counts as not found on clean-up, and as a failed look otherwise.
- DeleteIfOwned: does not return whether something was deleted, which only decides on an event, and does not tell "kind not installed" from "not found", which the original treats alike here.
- GenerateData: the part of the metadata that no write of the controller changes is one opaque field, and a status write changes another one.
- PerformDiff: the options that treat empty and zero values as null, and keys that are not strings, none of which `Diff` uses.
- MergeWorkload: pods, containers and maps are values, so updates in place and sharing of pointers between the fetched Phare and the desired object are not captured; the same holds for the nested maps of the validator and the children of a difference.
- ApplyWorkload: a patch or update stores the modified object; the JSON merge patch, resource versions, conflicts and stale caches are not modelled.
- Conforms: nil and empty are told apart for init containers, volumes and pod annotations, where the merge changes one into the other, and not inside containers or for tolerations.
- Most fields of containers, probes and volumes: one managed, one unmanaged and one ignored representative of each stand for the rest.
- Events, log lines and the warning about changed claim templates.
- Failures of `SetControllerReference`, and the nil objects they lead to.
- Indentation, colours and number formats of the printed text: a line is its prefix, level, head and value.
- YAML parsing, Go templates, JSON marshalling and SHA-256 are functions of the environment.
- Start-up, watches, predicates, leader election, deep copies and the generated API code.
