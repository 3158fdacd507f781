# External config operator: a verified model

The operator reads configuration texts from stores, parses every supported format to a JSON tree, merges the
trees of one claim, prints the result in the format of the target file, and elects one of its pods as leader
through a Kubernetes lease. This project models three parts of it and proves what they promise.

**Configuration trees as key-value pairs.** Properties and env files are flat. Printing flattens a tree to keys
joined by a separator; parsing splits each key and inserts its value into a growing tree, in the arbitrary order of
a hash map. The insertions overwrite values, silently drop keys below a plain value, grow arrays with padding, and
panic on some mixtures. `Keys`, `Rebuild` and `Flatten` hold the operations: the in-place ones are classes and loops
proved against functions on values. `Canonical` describes a partially rebuilt tree without mentioning an order,
`Insertion` says what one insertion reads, writes, pads and panics on, on any tree whatever. `Confluence` shows that insertion keeps that form and that it determines the tree, and `RoundTrip`, `Exactness` and
`Formats` state exactly which trees survive printing and parsing. For the maps that users write, `PanicFreedom` says
exactly when some order of the keys panics and `Agreement` exactly when all orders agree, whatever the keys are;
`EqualParts` reads that off the keys when none has an index part. `PrintedTexts` reads flattened pairs value by value.

**Deep merge.** `Merge` has the in-place merge, its algebra, the fold over a claim's stores and the comparison with
section 2 of RFC 7396 (JSON Merge Patch). `KeyValueMerge`, `FlattenMerge`, `Toml` and `Formatting` say when merging
commutes with rebuilding, with flattening and with the conversions. `Discoverer` composes the files of a claim,
`FileTypes` says which names name which format, and `ParserChain` which parser decides and how a printed file is read back.

**Leader election.** `LeaseApi` has the lease object, the API server's rules for it, and one pod's calls, as methods
of a class. `Election` is the transition system in which every call, clock reading, failure, crash and restart is a
step of its own. `Exclusion` proves that the class's methods are sequences of these steps, and proves mutual
exclusion over whole runs in two regimes. `PodRuns` follows one pod through a run: refreshing that ends, leading that
lasts, claims that fail. `TwoLeaders` has runs with two live leaders, each of which drops one
condition and keeps the others, and `Boundary` turns both regimes into equivalences. `Counterexamples` has concrete inputs on which unconditional laws of the other two
parts fail.

Laws that hold only under a condition are stated as equivalences wherever the condition is known exactly. The
predicates used for conditions are computable from the inputs of the operation.

Assumptions about the surroundings: creating a lease fails when it exists; replacing it fails when it is missing or
was written since it was read; deleting is by name and without precondition; every created object has a new identity;
the pods' clocks agree and do not go back; only this program and the garbage collector touch the lease. `usize` has 64
bits. `convert_case` is modelled only on ASCII letters without two adjacent capitals, where a word starts before each
capital, and on digits.

Where the code and its comments or data differ, the model follows the code. An array under key `k` comes back as an
object whose only member `k` is the array (the remark at `key_value_to_json.rs:58` describes this differently). The
lease states a duration of 20 seconds (`clients.rs:128`) that nothing reads: it expires two minutes after its last
renewal, and never before its first (`clients.rs:149-155`).

## Model

| member | source | states |
|---|---|---|
| Keys.SplitWithEscape | src/controller/utils/parsers/key_value_to_json.rs:97-130 | The character loop, with its lookahead and its escape flag, returns the recursive splitting in which an escape directly before a separator makes that separator literal. |
| Keys.JoinSplitEscaped | src/controller/utils/parsers/key_value_to_json.rs:97-130 | Joining with every separator inside a part escaped undoes escape splitting, for every string, separator and escape character. |
| Keys.SplitJoinEscaped | src/controller/utils/parsers/key_value_to_json.rs:97-130 | With an escape other than the separator, escape splitting undoes that joining exactly when no part but the last ends with the escape. |
| Keys.JoinSplitDoubled | src/controller/utils/parsers/key_value_to_json.rs:97-130 | Joining with the separator doubled inside parts undoes escape splitting, for every string. |
| Keys.SplitJoinDoubled | src/controller/utils/parsers/json_to_key_value.rs:45-52 | Escape splitting undoes that joining exactly when, after the first part, none starts with the separator and none is empty except possibly the last. |
| Keys.JoinSplit | src/controller/utils/parsers/key_value_to_json.rs:150-152 | Joining undoes plain splitting, for every string. |
| Keys.SplitJoin | src/controller/utils/parsers/key_value_to_json.rs:150-152 | Plain splitting undoes joining exactly when no part contains the separator. |
| Decimal.ParseUsizeExactly | src/controller/utils/parsers/key_value_to_json.rs:14 | A part reads as an index if and only if it is one or more digits, with or without a plus sign in front, whose value is below 2^64. |
| Decimal.PrintExactly | src/controller/utils/parsers/json_to_key_value.rs:67 | The text printed for an index is the one text of digits without a needless leading zero that has its value. |
| Decimal.ParsePrint | src/controller/utils/parsers/json_to_key_value.rs:67 | Every index that fits in a `usize` is read back from the text that flattening prints for it. |
| Rebuild.MapRef.InsertIntoMap | src/controller/utils/parsers/key_value_to_json.rs:5-32 | The in-place insertion into an object gives the map, or the panic, of the insertion on values. |
| Rebuild.MapRef.HandleStringPart | src/controller/utils/parsers/key_value_to_json.rs:34-56 | The same for a named part: bind the last part, go deeper into an object, do nothing below anything else. |
| Rebuild.ArrayRef.HandleNumericPart | src/controller/utils/parsers/key_value_to_json.rs:59-88 | The same for an index part: pad with null before a last part and with empty objects before a deeper one, panic when the element is no object. |
| Insertion.InsertReads | src/controller/utils/parsers/key_value_to_json.rs:34-88 | On any map, following the parts of an insertion finds its text afterwards, whatever was there before; when a name on the way is bound to something other than an object, the map is as before. |
| Insertion.ElsewhereAsBefore | src/controller/utils/parsers/key_value_to_json.rs:34-88 | On any map, every spot that the parts do not reach reads as before, except positions that padding creates: null below a last part, an empty object below a deeper one. |
| Insertion.InsertPanicsExactly | src/controller/utils/parsers/key_value_to_json.rs:14-27 | On any map, an insertion panics if and only if an index has no part before it or no array under that part, or goes deeper through an element that is no object. |
| Rebuild.KeyValuePairsToJson | src/controller/utils/parsers/key_value_to_json.rs:132-172 | The whole rebuild inserts all entries in some order that lists every key once; a panic on the way is the result. |
| Confluence.InsertBuilds | src/controller/utils/parsers/key_value_to_json.rs:5-88 | On a well-formed path set, inserting one more path never panics and takes the canonical form for the finished paths to the canonical form for these and the new one. |
| Confluence.BuildsUnique | src/controller/utils/parsers/key_value_to_json.rs:5-88 | The canonical form for all paths fixes the tree. |
| Confluence.RebuildIsConfluent | src/controller/utils/parsers/key_value_to_json.rs:140-169 | Any two iteration orders of a map whose paths are distinct and well formed at every level rebuild the same tree without panic; the form of this fact that the round trips use. |
| PanicFreedom.InsertJustified | src/controller/utils/parsers/key_value_to_json.rs:5-88 | On entries that do not clash, no insertion panics, and every member, element and padding of the tree stays accounted for by some entry. |
| PanicFreedom.ClashPanics | src/controller/utils/parsers/key_value_to_json.rs:15-27 | Of two clashing entries, the second panics right after the first. |
| PanicFreedom.PanicsExactly | src/controller/utils/parsers/key_value_to_json.rs:132-172 | For every key-value map and every way of cutting keys: some order of the keys panics if and only if a key starts with an index or two keys clash. |
| Agreement.StaysPresent | src/controller/utils/parsers/key_value_to_json.rs:34-88 | Where no shorter key blocks the way, what one entry has put into the tree no other entry hides. |
| Agreement.SameTree | src/controller/utils/parsers/key_value_to_json.rs:5-88 | Two trees that show every entry and contain nothing unaccounted for are equal. |
| Agreement.AgreesExactly | src/controller/utils/parsers/key_value_to_json.rs:140-169 | For every key-value map and every way of cutting keys: all orders rebuild one tree without panic if and only if no key starts with an index, no keys clash, and, wherever no shorter key replaces what is below, texts at one spot agree and arrays with objects have no gap below a plain element. |
| EqualParts.EqualPartsAgree | src/controller/utils/parsers/text_to_json.rs:31-35 | For keys without index parts, of which several may be cut into equal parts: all orders agree if and only if keys with equal parts carry equal texts wherever no shorter key replaces them. |
| KeyValueMerge.BuiltLookup | src/controller/utils/parsers/key_value_to_json.rs:34-56 | The canonical tree of paths without indices, read at any path: the text at a minimal path, an object at an inner one, nothing anywhere else. |
| KeyValueMerge.ConflictsResolve | src/controller/utils/parsers/key_value_to_json.rs:34-56 | For keys without index parts, even when one is a prefix of another, every order rebuilds the tree whose plain values are exactly those of the keys with no other key as a proper prefix. |
| Flatten.PairsRef.FlattenJson | src/controller/utils/parsers/json_to_key_value.rs:36-89 | Flattening an object into the shared map, in any order of its members, leaves that map with exactly the object's writes laid over it. |
| Flatten.PairsRef.FlattenMember | src/controller/utils/parsers/json_to_key_value.rs:54-87 | The same for one member: an object goes deeper, an array is written element by element, a plain value as one pair. |
| Flatten.PairsRef.FlattenElement | src/controller/utils/parsers/json_to_key_value.rs:66-81 | The same for an array element: an object goes deeper, anything else, nested arrays included, is one pair. |
| Flatten.JsonToKeyValuePairs | src/controller/utils/parsers/json_to_key_value.rs:10-34 | Flattening succeeds exactly on objects, and then starts from an empty map. |
| Leaves.ObjectWritesAreLeaves | src/controller/utils/parsers/json_to_key_value.rs:36-89 | What flattening writes is one pair per leaf path: the joined, case-converted and escaped path, with the text of that leaf. |
| RoundTrip.FlattenedIsLeaves | src/controller/utils/parsers/json_to_key_value.rs:36-89 | When every printed key splits back into its path, nothing is overwritten: the keys are those of the leaf paths and each holds its leaf's text. |
| PrintedTexts.PairsHoldTexts | src/controller/utils/parsers/json_to_key_value.rs:91-99 | Under faithful printing, the pair of every plain value, at any depth and through arrays of objects, is "true" or "false", "null", the string itself, the number's digits, or the JSON text of an array in an array. |
| PrintedTexts.PairsHoldMembers | src/controller/utils/parsers/json_to_key_value.rs:53-87 | The same, read off the tree by member keys alone, for plain members and for the plain elements of an array. |
| RoundTrip.LeafConservation | src/controller/utils/parsers/json_to_key_value.rs:44-88 | Under the same condition the map has exactly as many pairs as a recursive count finds leaves in the tree, arrays and empty containers allowed. |
| RoundTrip.LeavesGood | src/controller/utils/parsers/json_to_key_value.rs:36-89 | The leaf paths of a tree with named keys and scalars first in every array are a well-formed path set. |
| RoundTrip.WrappedBuilds | src/controller/utils/parsers/key_value_to_json.rs:58-88 | The canonical form of a tree's leaves is the tree with leaves as strings and each array under `k` wrapped as an object with the one member `k`. |
| RoundTrip.RoundTripHolds | src/controller/utils/parsers/key_value_to_json.rs:132-172 | Flattening and rebuilding in any order gives that wrapped tree back, without panic, when keys are named, nothing is hollow and scalars come first. |
| RoundTrip.RoundTripPanics | src/controller/utils/parsers/key_value_to_json.rs:79-83 | For a tree without empty containers in which some array holds an object before a plain element, some order panics. |
| Exactness.InsertSolid | src/controller/utils/parsers/key_value_to_json.rs:5-88 | No insertion leaves an empty container as a member, an index as the key of anything but an array, or an empty object at the end of an array. |
| Exactness.StaysOccupied | src/controller/utils/parsers/key_value_to_json.rs:59-88 | An array slot that holds something other than an object never comes to hold one, whatever is inserted. |
| Exactness.ScalarsMustComeFirst | src/controller/utils/parsers/key_value_to_json.rs:69-83 | An object before a plain element of its array is lost in some order, or that order panics. |
| Exactness.ReturningIsFilled | src/controller/utils/parsers/key_value_to_json.rs:132-172 | Only a tree with named keys and nothing hollow comes back from any flat pairs. |
| Exactness.RoundTripExactly | src/controller/utils/parsers/key_value_to_json.rs:132-172 | Under faithful printing, every order gives the wrapped tree back if and only if keys are named, nothing is hollow, and no array holds an object before a plain element. |
| Formats.PropertiesPartsDiffer | src/controller/utils/parsers/text_to_json.rs:20-21 | Different properties keys always have different parts, so no two overwrite each other at one path. |
| Formats.PropertiesFaithful | src/controller/utils/file_format.rs:120-123 | Dot-free trees print to properties keys that split back into their paths. |
| Formats.RootMustBeNamed | src/controller/utils/parsers/json_to_key_value.rs:48-52 | A tree with an object under the empty root key does not come back from a properties file. |
| Formats.PropertiesRoundTrip | src/controller/utils/file_format.rs:120-136 | For every tree, each order of the properties pairs gives the wrapped tree back if and only if keys are dot-free and named, nothing is hollow, scalars come first in arrays, and no object sits under an empty root key. |
| Formats.CaseRoundTrip | src/controller/utils/parsers/text_to_json.rs:34 | Lower and then camel case undoes upper snake case on camel-case keys and on indices, and the printed part never starts with an underscore. |
| Formats.CasedRoundTrip | src/controller/utils/parsers/text_to_json.rs:27-38 | The env round trip for any two case conversions that leave numbers alone: for keys that they reverse, each order gives the wrapped tree back if and only if keys are named, nothing is hollow and scalars come first in arrays. |
| Formats.EnvFaithful | src/controller/utils/file_format.rs:137-140 | Camel-case trees print to env keys that split back into their paths. |
| Formats.EnvRoundTrip | src/controller/utils/parsers/text_to_json.rs:27-38 | For every tree with camel-case keys, each order of the env pairs gives the wrapped tree back if and only if nothing is hollow and scalars come first in arrays. |
| Merge.ValueRef.MergeJson | src/controller/utils/file_format.rs:192-205 | The in-place merge, whatever order the source's keys are visited in, leaves the merge of the two values. |
| Merge.OnlyObjectsMerge | src/controller/utils/file_format.rs:193 | Unless both sides are objects the target stays as it is. |
| Merge.Idempotent | src/controller/utils/file_format.rs:192-205 | Merging a value into itself changes nothing. |
| Merge.EmptyIsIdentity | src/controller/utils/file_format.rs:192-205 | The empty object is an identity on both sides. |
| Merge.Absorbs | src/controller/utils/file_format.rs:192-205 | Merging the same source twice is merging it once. |
| Merge.CoveredExactly | src/controller/utils/file_format.rs:192-205 | A merge is its source alone if and only if the source binds every path of the target again. |
| Merge.AssociativeExactly | src/controller/utils/file_format.rs:192-205 | Merging is associative on three objects if and only if, wherever an object is followed by a plain value and then an object, the last covers the first. |
| Merge.MergedValueAt | src/controller/utils/file_format.rs:192-205 | A plain value is at a path after a merge if and only if the source puts it there, or the target has it and the source spares the path. |
| Merge.LastWriterWins | src/controller/v1alpha1/configuration_discoverer.rs:76-90 | The fold over n stores has a plain value at a path if and only if some store has it there and every later store binds neither the path nor, to anything but an object, a prefix of it. |
| Merge.ObjectsPersist | src/controller/v1alpha1/configuration_discoverer.rs:76-90 | The same for objects: one is at a path if and only if some store has one there and later stores bind the path and its prefixes to objects only. |
| Merge.PatchExactly | src/controller/utils/file_format.rs:192-205 | On objects the merge is the MergePatch of section 2 of RFC 7396 if and only if the source has no null member outside arrays. |
| KeyValueMerge.MergedBuilds | src/controller/utils/file_format.rs:192-205 | The merge of two canonical trees is the canonical tree of the overlaid entries if and only if no path of the second goes on below a path of the first that the second leaves alone. |
| KeyValueMerge.ExtendVersusMerge | src/controller/utils/file_format.rs:58-67 | Extending one key-value map by another and rebuilding equals merging the two rebuilt trees, in any orders, if and only if that condition holds for their keys. |
| FlattenMerge.LeavesOfMerge | src/controller/utils/file_format.rs:192-205 | The leaves of a merge are the overlaid leaves if and only if nothing that is replaced outright loses a leaf path. |
| FlattenMerge.FlattenCommutesWithMerge | src/controller/utils/parsers/json_to_key_value.rs:36-89 | The pairs of a merged tree are the first tree's pairs extended by the second's if and only if that condition holds. |
| Toml.TomlRef.MergeToml | src/controller/utils/file_format.rs:208-221 | The in-place TOML merge, in any order of keys, leaves the merge of the two values. |
| Toml.ConversionReads | src/controller/utils/file_format.rs:163-168 | Converting a TOML document keeps every value at its place: texts, numbers, booleans, null for a float that is not finite, one private member for a date-time, arrays of the same length, tables with the same keys. |
| Toml.ConversionCommutes | src/controller/utils/file_format.rs:163-168 | Converting merged TOML tables to JSON equals merging the converted tables if and only if, where a date-time meets a table or date-time, the second covers the first. |
| Toml.DatetimeFreeCommutes | src/controller/utils/file_format.rs:208-221 | For tables without date-times outside arrays the two always agree. |
| Formatting.MergeThenConvert | src/controller/utils/file_format.rs:157-188 | For two configurations of one format, converting after `merge_configs` equals merging the converted ones: for TOML if and only if date-times are covered, for flat pairs and for documents that already are JSON values always. |
| Formatting.MergeKeepsType | src/controller/utils/file_format.rs:41-71 | Two configurations merge if and only if they have one type, which the merge keeps; the only failure is that they differ. |
| Formatting.FlatReads | src/controller/utils/file_format.rs:175-186 | Converted pairs have each text under its whole key and nothing else. |
| Formatting.OnlyJsonPrints | src/controller/utils/file_format.rs:154 | Nothing but JSON is printed; every other failure is a serialization error. |
| FileTypes.TypeFromNameExactly | src/controller/utils/file_format.rs:90-101 | A name has a type if and only if it is a non-empty stem, a dot and one of the seven extensions of that type. |
| ParserChain.FirstReaderWins | src/controller/utils/parsers/text_to_json.rs:81-89 | The first format, in the order JSON, JSON5, env, TOML, YAML, properties, that accepts the text decides; env and properties pairs are rebuilt with their own way of cutting keys, and a panic is not caught. |
| ParserChain.NoReaderAccepts | src/controller/utils/parsers/text_to_json.rs:88 | A text that no format accepts is of no supported type. |
| ParserChain.EnvFileComesBack | src/controller/utils/parsers/text_to_json.rs:27-38 | From tree to file to tree: the env file of a filled, scalars-first tree with camel-case keys is parsed to the wrapped tree, when the library reads its lines back and no JSON reader takes it for an object. |
| ParserChain.PropertiesFileComesBack | src/controller/utils/parsers/text_to_json.rs:13-24 | The same for a properties file, under the exact conditions of its round trip, when all earlier readers refuse it. |
| ParserChain.StoreFailureStays | src/controller/v1alpha1/configuration_discoverer.rs:150-152 | A store's own failure is what it contributes. |
| Formatting.ProcessedIsObject | src/controller/v1alpha1/configuration_discoverer.rs:149-155 | Whatever a store contributes is a JSON object, exactly as the parser chain of text_to_json.rs read it. |
| Discoverer.ResourceData.ApplyMergeStrategy | src/controller/v1alpha1/configuration_discoverer.rs:65-101 | The store loop with its early returns leaves the data and the error of the fold: the first failing store or merge ends it, and no stores write nothing. |
| Discoverer.ResourceData.ApplyFallbackStrategy | src/controller/v1alpha1/configuration_discoverer.rs:103-124 | The loop writes the first answering store's text, or fails, as its recursive description says. |
| Discoverer.ResourceData.ComposeFile | src/controller/v1alpha1/configuration_discoverer.rs:42-64 | A claim without strategy falls back; only the one file's entry changes. |
| Discoverer.CreateResourceSpec | src/controller/v1alpha1/crd/claim.rs:131-133 | For any order of the claim's files, success and, on success, the data depend on the claim and the stores' answers only. |
| Discoverer.DesiredExactly | src/controller/v1alpha1/crd/claim.rs:263-265 | The desired data holds exactly the files of the claim that compose to a text, each with that text. |
| Discoverer.FoldKeepsObjects | src/controller/v1alpha1/configuration_discoverer.rs:76-90 | When every store answers, the fold is the object that merging the answers in order gives. |
| Discoverer.MergeFailsOnlyInWriters | src/controller/v1alpha1/configuration_discoverer.rs:73-99 | When every store answers, formats are never incompatible and a type is always known; properties and env files are the lines of the flattened merge, which always exist, and only the JSON, TOML or YAML writer can fail. |
| Discoverer.MergePipeline | src/controller/v1alpha1/configuration_discoverer.rs:76-99 | From the stores' texts to the file: when every text parses, the fold is the ordered merge of the parsed objects and the file is that merge printed as its name asks. |
| Discoverer.FoldFailsExactly | src/controller/v1alpha1/configuration_discoverer.rs:76-90 | The fold fails if and only if some store fails or answers in another format than the first. |
| Discoverer.FirstFailureEndsMerge | src/controller/v1alpha1/configuration_discoverer.rs:77-79 | The first such store ends the merge with its error, whatever comes before and after, and nothing is written. |
| Discoverer.NoStoresNoFile | src/controller/v1alpha1/configuration_discoverer.rs:92-100 | A merge claim without stores succeeds and writes nothing. |
| Discoverer.NoStrategyFallsBack | src/controller/v1alpha1/configuration_discoverer.rs:50-63 | A claim that names no strategy gets the first answering store's tree as JSON, whatever the file's name. |
| Discoverer.MergeStrategyMerges | src/controller/v1alpha1/configuration_discoverer.rs:55-58 | A merge claim gets the ordered merge of its stores, printed as its file's name asks. |
| Discoverer.OnlyThisFile | src/controller/v1alpha1/configuration_discoverer.rs:95 | Composing a file binds that file to its text, if there is one, and leaves the others alone. |
| Discoverer.FallbackIsFirstAnswer | src/controller/v1alpha1/configuration_discoverer.rs:111-122 | A fallback file holds the first answering store's tree, printed as JSON, and fails if that cannot be printed. |
| Discoverer.FallbackNeedsAnAnswer | src/controller/v1alpha1/configuration_discoverer.rs:123 | When no store answers, the fallback is a store error. |
| LeaseApi.LeaseServer.CreateLease | src/contract/clients.rs:50-63 | A create takes effect exactly when no lease exists, with a new identity and no renew time. |
| LeaseApi.LeaseServer.ReplaceLease | src/contract/clients.rs:64-78 | A replace takes effect exactly when the lease is there in the version that was read. |
| LeaseApi.LeaseServer.DeleteLease | src/contract/clients.rs:79-92 | A delete removes whatever lease is there. |
| LeaseApi.LeaseServer.TryCreateLeaseForCurrentPod | src/contract/clients.rs:134-174 | Create, read, expiry delete and holder test, with any call failing, have the effect and the answer of the claim on values. |
| LeaseApi.ClaimJudgesAge | src/contract/clients.rs:149-174 | An undisturbed claim deletes a lease if and only if it was renewed 120 000 001 microseconds ago or more, and succeeds exactly for the pod that holds it, deleted or not. |
| LeaseApi.ClaimTakesFreeLease | src/contract/clients.rs:124-135 | An undisturbed claim on a free lease takes it, unrenewed, at the time of its create call. |
| LeaseApi.LeaseServer.RefreshOnce | src/controller/leader_election/leader_election.rs:79-113 | A refresh round stamps and writes back whatever lease is there, and goes on exactly when both calls succeed. |
| Exclusion.ClaimAloneIsSteps | src/contract/clients.rs:134-174 | A claim attempt that nothing interleaves with, with any of its calls failing, does what its steps in the transition system do. |
| Exclusion.RefreshAloneIsSteps | src/controller/leader_election/leader_election.rs:77-114 | The same for a refresh round. |
| Election.StepKeepsInvariant | src/contract/clients.rs:134-174 | Every step keeps the invariant: leases and their copies name their creator, are no newer than the clock, and an unchanged lease is stamped no earlier than it was. |
| Election.HolderIsCreator | src/contract/clients.rs:124-135 | In every reachable state the lease's holder is the pod that created that incarnation, although refreshes never check the holder. |
| Election.OneWinnerPerIncarnation | src/contract/clients.rs:169-174 | Over a whole run, at most one pod name ever leads by a given incarnation of the lease. |
| Election.RenewTimeNeverDecreases | src/controller/leader_election/leader_election.rs:92-104 | Within one incarnation the renew time never goes back, and holder and acquire time never change, over a whole run. |
| PodRuns.LeadsUntilCrash | src/controller/leader_election/leader_election.rs:53-70 | Over a whole run, a leader leads by the lease it won until it crashes, whatever becomes of that lease. |
| PodRuns.FailedRoundEndsRefresh | src/controller/leader_election/leader_election.rs:86-89 | From its first failed round on, a refused replace, a missing lease or a failed call, a pod leads on and never writes to the server again, until it crashes. |
| PodRuns.FailedCallsMayApply | src/contract/clients.rs:79-92 | A call that fails leaves the server as before, or as after a successful call when it was applied. |
| PodRuns.FailedAttemptEnds | src/contract/clients.rs:137-174 | After a failed attempt, by a failed call, no lease to read, no lease to delete, or another holder, a pod does not lead before it starts the next one. |
| PodRuns.LeadingIsDecided | src/contract/clients.rs:169-174 | A pod comes to lead only by deciding on a lease it read that names it as its holder. |
| PodRuns.LeaseWasCreated | src/contract/clients.rs:124-135 | Every lease in a run goes back to a create call of its holder at its acquire time, when there was none. |
| Exclusion.MutualExclusion | src/contract/clients.rs:137-174 | When claims do not interleave from their read on, no name claims again after leading, and live leaders' leases are never older than the expiry time, every reachable state has at most one live leader, who holds the lease; crashes are allowed. |
| Exclusion.OneLeaderForever | src/contract/clients.rs:149-168 | With interleaving claims but no leader crash and no garbage collection: if a leader's renewed lease is at most R old and a renewed lease is judged at most D after it was read, with R + D within two minutes (or R not positive, or D negative), then no lease is ever found expired, the first lease stays, and one pod leads for the whole run. |
| Boundary.SafeExactly | src/contract/clients.rs:137-174 | For every regime of atomic or interleaving claims, of reclaims allowed or not, and of an age bound on live leaders' leases: every reachable state of every admitted run has at most one leader if and only if claims are whole, no name reclaims and the bound is within the expiry time, or the bound is negative so that nobody renews. |
| Boundary.TimingExactly | src/contract/clients.rs:149-168 | For all bounds R and D as above: no pod ever finds the lease expired in any such run, and one pod leads for the whole of every such run, each if and only if R + D is within the expiry time, R is not positive, or D is negative. |
| Boundary.SlowJudge | src/contract/clients.rs:149-168 | A run for any positive R and non-negative D beyond the expiry time: the leader renews in time throughout, and a slow claimer still deletes its lease and leads beside it. |
| TwoLeaders.InterleavedClaims | src/contract/clients.rs:149-168 | A run with two live leaders in which only atomicity is missing: a slow claimer deletes the lease that a faster one has just taken. |
| TwoLeaders.ReclaimAfterLeading | src/contract/clients.rs:149-174 | A run with two live leaders in which only the no-reclaim condition is missing: a restarted pod deletes its own expired lease and leads without one. |
| TwoLeaders.StaleLeader | src/controller/leader_election/leader_election.rs:71-118 | A run with two live leaders whose leases are never more than one microsecond too old: a pod leads on after its lease has expired and been taken over. |
| Counterexamples.MergeIsNotAssociative | src/controller/utils/file_format.rs:192-205 | An object, a null and an object under one key merge differently in the two groupings. |
| Counterexamples.NullIsStored | src/controller/utils/file_format.rs:200 | A null member is stored where a JSON Merge Patch would delete. |
| Counterexamples.DatetimeIsMerged | src/controller/utils/file_format.rs:163-168 | A date-time and a table under one key merge differently before and after conversion. |
| Counterexamples.ReplacedLeafStays | src/controller/utils/parsers/json_to_key_value.rs:83-86 | A plain value that the merge replaces by an object leaves its own key behind among overlaid pairs. |
| Counterexamples.MixedArrayPanics | src/controller/utils/parsers/key_value_to_json.rs:79-83 | Two keys of an array that mixes an object and a plain value: one order succeeds, the other panics. |
| Counterexamples.ExtendingIsNotMerging | src/controller/utils/parsers/key_value_to_json.rs:49-54 | A key below another key is masked when the maps are extended and wins when the trees are merged. |

## Left out

- Text-level parsing and printing by serde_json, json5, toml, serde_yaml, java_properties and env_file_reader: library code. Parsers are partial functions from text, writers functions to text; the lines of a properties or env file are a function of the flattened pairs.
- Formats.EnvRoundTrip: covers camel-case keys of ASCII letters without two adjacent capitals, because the case conversion of other keys is library behaviour; Formats.CasedRoundTrip covers every key that the conversions in use reverse.
- Formatting.MergeThenConvert: a YAML document is the JSON value with the same members, so its YAML case holds by construction; non-string keys and tags are not modelled.
- Exactness.RoundTripExactly: arrays that are flattened by index have at most 2^64 elements, as every `Vec` has; padding a huge index is not limited by memory here.
- Election.RenewTimeNeverDecreases: the pods share one clock that does not go back; clock skew between pods is not modelled.
- The JSON text of a nested array or object inside an array is an abstract function of the value.
- Members of a JSON object are visited in any order instead of the map's own; the results that matter do not depend on it.
- Nested `&mut` borrows are modelled by a fresh object per level whose contents are written back, so aliasing inside one tree is not expressed.
- Numbers carry the text that is printed for them; a TOML float that is not finite becomes null and a date-time becomes an object with one private member, which is the behaviour of the toml and serde_json libraries.
- File names with directories: the extension is taken from a plain name.
- Panics in the rebuild end a reconciliation and are kept apart in the parser chain; the composition of files starts from answers that did not panic.
- Error payloads: serialization errors of all libraries are one error.
- The reconcile exchange of get, patch and create, finalizers, events, refresh intervals and base64 of secrets.
- HTTP and Vault stores: a store is an answer per reference.
- The pod lookup before a claim and its failures, the sleep of ten seconds between claims and the refresh interval: a claim may start at any time.
- Cancellation, signals and start-up: a request of a pod that crashes is applied before the crash or never, and a pod that leads does so until it crashes.
- Metrics, telemetry, Helm charts and fixtures.
