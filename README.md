# f5 reconciliation and the mergo deep merge, in Dafny

This project models two parts of the f5 command-line client and proves properties about them.

- **Deep merge.** This is the vendored `mergo` package's `deepMerge`, with its slice strategies and the
  `NamedSet` behind the de-duplicating strategies.
- **Patch workflow.** Every `Patch*` call on the device runs the same steps:
  1. For a merging strategy, fetch the existing object and merge it into the patch.
  2. Build `new` as blank ← patch ← existing.
  3. Stop on a dry run.
  4. Compare `new` with `existing` and send a PATCH only when they differ.

The project also models the `UnmarshalJSON` step that folds a `...Reference.items` wrapper into the
inline list, and the pool-member state bodies.

## How Go's memory is modelled

Go's memory is an arena:

- **Cells.** The arena is `Heap = map<Addr, Cell>`. Each cell holds a type tag and a `Value`.
- **Values.** A `Value` is a scalar, a struct (fields with exported/embedded flags), a slice, a
  map (an association list), a pointer to a cell, or an interface.
- **Places.** An addressable value is a `Place`, meaning a cell plus a path of field indices.
- **Slots.** A `Slot` says whether a value has a place and whether it was reached through an
  unexported field. `CanSet` is defined from the slot.
- **Visited table.** `deepMerge`'s visited table is a set of (place, type) keys.
- **Termination.** The recursion terminates on the number of unvisited cells. Then it terminates on
  the size of the destination value.

## How the modules fit together

- **`MergeEngine`** holds the merge as ghost functions, one per branch of `deepMerge`.
- **`Arenas.Arena`** is a class whose methods run the same merge in place on a `heap` field. Each
  method is proved equal to the corresponding function.
- **`MergeRules`** states the per-kind rules as lemmas over those functions. **`MapRules`** states
  the rules of the map branch for one source key.
- **`Docs`** is the JSON side: a pointer-free document tree. It provides:
  - `Snapshot`, which reads a value through its pointers;
  - `LoadF`, which decodes a document into fresh cells;
  - the round trip between the two.
- **`Devices`** models the reconciliation:
  - `Staged`, `Finish` and `PatchRun` are specification functions. `Staged` runs up to the dry-run test; `Finish` runs from there on, from whatever stage it is given.
  - A `Device` class has one method per resource. Every request it issues is appended to a ghost log.
  - The transport is a parameter: what the GET and the PATCH answer.
  - A merge that panics ends the call: the stage is `Crashed`, and the run is marked crashed with no
    error, no result and no PATCH.
- **`PatchRules`** and **`ResourceMerges`** prove what the workflow guarantees.

## Behaviour that follows the code

- **Overwrite never fetches.** Under the Overwrite strategy the existing object is never fetched.
  `existing` stays a blank record, so a patch with non-empty fields is sent again on every call. The
  model follows the code here. It does not follow the reading that a second identical patch is
  always a no-op.
- **Override.** When the device's merge settings add Override, `new.Merge(existing)` lets existing's
  non-empty fields win over the patch.
- **Node's `Fqdn` pointer.** `new.Merge(patch)` copies patch's `Fqdn` pointer into `new`, because a
  nil destination pointer takes the source. The later merge of `existing` therefore writes through
  into the struct that `patch.Fqdn` points to. The model keeps this aliasing, since pointers are
  cell addresses.
- **Nil and empty slices.** A slice carries a nil flag, as a map does. The map branch skips only
  a nil source element, so a non-nil empty slice under a key is not skipped: it panics unless the
  strategy is Overwrite, and under Overwrite it replaces the destination's slice.

## Model

| member | source | states |
|---|---|---|
| MergeConfig.StrategyName | mergo/merge.go:36-42 | AppendAdditive is named "additive", UniqueFirstSeen "unique-first-seen" and UniqueLastSeen "unique-last-seen"; every value outside AppendAdditive..UniqueLastSeen, and only those, is named "overwrite" |
| MergeConfig.StrategyNamesDistinct | mergo/merge.go:36-42 | The three non-default strategies have pairwise different names |
| MergeConfig.ApplyOption | mergo/merge.go:275-311 | Each built-in option sets only what its Go function sets: a strategy option sets that strategy and AppendSlice, WithOverride sets Override, WithTransformers sets the transformers, and none of them touches SkipEmptyFields |
| MergeConfig.ApplyOptions | mergo/merge.go:318-320 | Without a custom option, SkipEmptyFields keeps its starting value; without custom or transformer options, so do the transformers |
| MergeConfig.Configure | mergo/merge.go:313-323 | Running the option loop over a zero Config gives the options applied in the order given |
| MergeConfig.LastStrategyWins | mergo/merge.go:288-311 | The last option that sets a strategy decides it, and slice appending stays on |
| MergeConfig.OverrideSticks | mergo/merge.go:283-285 | WithOverride stays in force through any later non-custom options |
| MergeEngine.HasExportedField | mergo/merge.go:15-25 | The loop's answer is true iff the struct has an exported field, or an embedded struct field that itself has one |
| MergeEngine.IsNil | mergo/merge.go:161-164 | Only pointers, interfaces, maps and slices can be nil, and a pointer or interface is nil exactly when it is empty |
| MergeEngine.Lookup | mergo/merge.go:155-159 | A map lookup finds the first entry with the key, and None means the key is absent |
| MergeEngine.Assign | mergo/merge.go:203-208 | SetMapIndex leaves the key mapped to the new value, keeps every other key's entry, and adds nothing else |
| MergeEngine.SetValue | mergo/merge.go:98 | Setting succeeds iff the slot is settable; it then writes exactly that place, and it never changes a cell's type or the visited table |
| MergeEngine.CopyRule | mergo/merge.go:146-148 | dst becomes src iff dst is settable, src is non-empty, and Override is set or dst is empty; otherwise nothing changes |
| MergeEngine.TakeRule | mergo/merge.go:227-251 | A nil-able dst takes src iff it is settable and Override is set or dst is empty |
| MergeEngine.MergeSlice | mergo/merge.go:56-99 | The slice step keeps every cell and its type and leaves the visited table as it was |
| MergeEngine.FillAppend | mergo/merge.go:63-95 | Scanning dst's elements and then src's into the set equals one scan over dst ++ src |
| MergeEngine.FillSet | mergo/merge.go:66-71 | After the loop, the set equals the Add (or Upsert) fold of the scanned elements over its old contents |
| MergeEngine.Fill | mergo/merge.go:63-95 | Filling the set never drops a key, the first-seen fill never replaces a stored element, and every stored element was either already stored or scanned |
| MergeEngine.CopyInto | mergo/merge.go:74-76 | The append loop into the new slice yields every sorted element, in order |
| MergeEngine.UniqueMerge | mergo/merge.go:63-95 | The new slice is the set filled from dst ++ src, read back sorted by name |
| MergeEngine.StoreMap | mergo/merge.go:203-208 | Storing map entries keeps every cell and its type and the visited table |
| MergeEngine.RootMerge | mergo/merge.go:116-128 | Merging into a cell keeps every cell's type and only grows the visited table |
| MergeEngine.DeepMerge | mergo/merge.go:104-258 | A deepMerge step keeps every cell and its type and only grows the visited table |
| MergeEngine.Transform | mergo/merge.go:130-135 | The transformer step keeps every cell and its type and only grows the visited table |
| MergeEngine.Dispatch | mergo/merge.go:137-256 | The kind switch keeps every cell and its type and only grows the visited table |
| MergeEngine.MergeFields | mergo/merge.go:140-144 | The struct field walk keeps every cell and its type and only grows the visited table |
| MergeEngine.PointerRule | mergo/merge.go:221-251 | The pointer and interface branch keeps every cell and its type and only grows the visited table |
| MergeEngine.MergeInto | mergo/merge.go:232-239 | Merging through a pointer keeps every cell and its type and only grows the visited table |
| MergeEngine.MergeMap | mergo/merge.go:150-209 | The map branch keeps every cell and its type and only grows the visited table |
| MergeEngine.MergeEntries | mergo/merge.go:153-202 | The loop over src's keys keeps every cell and its type and only grows the visited table |
| MergeEngine.AfterEntry | mergo/merge.go:199-208 | One key's store keeps every cell and its type and only grows the visited table |
| MergeEngine.MergeValues | mergo/merge.go:313-332 | merge keeps every cell and its type, and refuses values of different types with ErrDifferentArgumentsTypes before any write |
| MergeRules.ReachesDispatch | mergo/merge.go:112-137 | Past the skip-empty test, the visited test and the transformer test, deepMerge is the kind switch with dst recorded as visited |
| MergeRules.SetAtWrites | mergo/merge.go:98 | A write changes its place and no place disjoint from it |
| MergeRules.SkipEmptyLeavesAll | mergo/merge.go:112-114 | With SkipEmptyFields, an empty dst is left alone and nothing is written anywhere |
| MergeRules.RevisitIsNoOp | mergo/merge.go:116-128 | A place already visited at the same type is not merged again |
| MergeRules.RevisitCellIsNoOp | mergo/merge.go:116-128 | A pointer cell already visited at its type is not merged again |
| MergeRules.CopyRuleHolds | mergo/merge.go:146-148 | For scalars and structs with no exported field: no error; dst becomes src exactly when it is settable, src is non-empty, and Override is set or dst is empty; an empty src never clears dst; nothing outside dst changes |
| MergeRules.SliceOverwriteRule | mergo/merge.go:210-219 | Under Overwrite a settable slice is set to src even when src is empty; one that is not settable is left unchanged |
| MergeRules.AppendAliasesSource | mergo/merge.go:60-61 | AppendAdditive makes dst equal to dst ++ src with duplicates kept, and also stores that concatenation into the source slot |
| MergeRules.DisjointSymmetric | mergo/merge.go:60-61 | Disjointness of places is symmetric |
| MergeRules.AppendNeedsSettableSource | mergo/merge.go:60-61 | AppendAdditive through a source that cannot be set panics and writes nothing |
| MergeRules.FirstSeenIsUnique | mergo/merge.go:63-78 | The first-seen result has one element per non-empty name of the scan, strictly ascending by name, each the earliest element with its name |
| MergeRules.FillIsUnique | mergo/merge.go:63-95 | Under either unique strategy the scan, read back in name order, is unique by name: one element per name, ascending, each the one the strategy keeps |
| MergeRules.LastSeenIsUnique | mergo/merge.go:80-95 | The last-seen result has one element per non-empty name of the scan, strictly ascending by name, each the latest element with its name |
| MergeRules.UniqueRule | mergo/merge.go:63-98 | A unique strategy writes dst as the de-duplicated, name-sorted merge of dst's elements then src's, and nothing else |
| MergeRules.NilSourceIsNoOp | mergo/merge.go:224-226 | A nil source pointer or interface changes nothing |
| MergeRules.NilDestinationTakesSource | mergo/merge.go:228-231 | A nil dst pointer or interface (any one, under Override) takes a non-nil src wholesale when it is settable, and is left alone otherwise |
| MergeRules.PointersMergeTargets | mergo/merge.go:232-235 | Two non-nil pointers without Override: the whole step is the merge of the cell src points to into the cell dst points to, with no Set of dst itself; a dangling dst pointer panics |
| MergeRules.PointerTypeMismatch | mergo/merge.go:236-242 | A non-nil dst whose element type differs from a non-pointer src's type is refused with ErrDifferentArgumentsTypes, and nothing is written |
| MergeRules.FieldErrorAborts | mergo/merge.go:140-144 | The struct walk returns the first field's error, and the earlier fields' writes stay |
| MapRules.MapStart | mergo/merge.go:151-153 | A nil destination map is first set to a new empty map; a non-nil one is left as it is |
| MapRules.MapEntryStored | mergo/merge.go:203-208 | A key the destination lacks is stored with the source element, whatever its kind, unless it is a slice under a strategy other than Overwrite |
| MapRules.MapPresentScalar | mergo/merge.go:203 | A present key with a string, number or boolean element is replaced under Override and otherwise kept, even when the element held is empty: the emptiness test looks at the whole map |
| MapRules.MapNestedMapSkipped | mergo/merge.go:176-200 | A present key whose source element is a non-nil map: the step is the recursive merge of the two nested maps, and the outer loop stores nothing for the key |
| MapRules.MapSliceEntry | mergo/merge.go:180-195 | A non-nil slice element (an empty one included) panics under any strategy but Overwrite; under Overwrite the key ends up holding the element when overriding or new, and otherwise a fresh non-nil copy of it |
| MapRules.MapNilEntrySkipped | mergo/merge.go:161-164 | A nil map, interface or slice element is skipped: only a nil destination map is made |
| MapRules.WrittenTwice | mergo/merge.go:203-208 | Two writes at one place read as the second |
| MapRules.AssignTwice | mergo/merge.go:192-207 | Storing twice under one key leaves the second value |
| MapRules.AssignAbsent | mergo/merge.go:203-207 | Storing under an absent key appends the entry |
| NamedSets.GetName | mergo/namedset.go:19-34 | A string is its own name, and a value that is neither a string, a struct nor a pointer has none |
| NamedSets.NameOfRecord | mergo/namedset.go:28-31 | A struct's name is its first field called Name, when that field holds a string |
| NamedSets.Deref | mergo/namedset.go:20-22 | A non-pointer is its own end, and a chain never ends at a pointer |
| NamedSets.DerefMore | mergo/namedset.go:20-22 | More steps reach the same end of a pointer chain |
| NamedSets.NameAtChainEnd | mergo/namedset.go:19-34 | A value is named by what its pointer chain ends at: a string's own value, or a struct's Name field, however many pointers lead to it |
| NamedSets.NameThroughPointer | mergo/namedset.go:20-22 | A pointer has the name of the value it points to, whenever that value's chain ends within the arena |
| NamedSets.AddAll | mergo/namedset.go:40-56 | An Add scan keeps every element already stored under its key, and stores only scanned elements |
| NamedSets.UpsertAll | mergo/namedset.go:58-70 | An Upsert scan keeps every stored key, and each key holds its old element or a scanned one |
| NamedSets.AddAllKeys | mergo/namedset.go:40-56 | Adding a scan gives exactly the set of its non-empty names as keys |
| NamedSets.UpsertAllKeys | mergo/namedset.go:58-70 | Upserting a scan gives exactly the set of its non-empty names as keys |
| NamedSets.AddAllKeepsFirst | mergo/namedset.go:49-55 | Each key of an Add scan holds the earliest element with that name |
| NamedSets.UpsertAllKeepsLast | mergo/namedset.go:58-70 | Each key of an Upsert scan holds the latest element with that name |
| NamedSets.AddAllKeyed | mergo/namedset.go:40-56 | Every stored element is filed under its own name |
| NamedSets.UpsertAllKeyed | mergo/namedset.go:58-70 | Every stored element is filed under its own name |
| NamedSets.SortedKeysSpec | mergo/namedset.go:77-82 | The sorted key list is strictly ascending and holds exactly the set's keys |
| NamedSets.SortedValues | mergo/namedset.go:72-85 | One element per stored name |
| NamedSets.SortedValuesOrdered | mergo/namedset.go:72-85 | The sorted values are one per key, ascending by name, and cover every stored element |
| NamedSets.NamedSet.Cardinality | mergo/namedset.go:36-38 | The cardinality is the number of stored names |
| NamedSets.NamedSet.Add | mergo/namedset.go:40-56 | Add reports true iff the element has a non-empty name not yet stored; it then stores it and the count grows by one; otherwise nothing changes |
| NamedSets.NamedSet.Upsert | mergo/namedset.go:58-70 | Upsert reports true iff the element has a non-empty name; it then stores it under that name, replacing any earlier one |
| NamedSets.NamedSet.ToSortedSlice | mergo/namedset.go:72-85 | The slice holds the stored elements, one per name, sorted by name, and its length is the cardinality |
| NamedSets.IsZeroOfUnderlyingType | mergo/namedset.go:15-17 | Panics iff given nil or an incomparable value; otherwise true iff the value equals its type's zero value |
| NamedSets.ZeroMeansEmpty | mergo/namedset.go:15-17 | For scalars, pointers and interfaces, being the zero value and being empty coincide |
| Values.Zero | mergo/namedset.go:15-17 | reflect.Zero keeps the type and the kind; except for a struct it is empty; its slices and maps are nil; a struct's fields are each zeroed |
| Values.ValueAtSetAt | mergo/merge.go:98 | After a write the place reads the new value, and every disjoint place reads as before |
| Docs.SnapshotExtends | f5/pool.go:291 | Allocating more cells does not change what an existing value reads as |
| Docs.SnapshotAgrees | f5/pool.go:291 | Rewriting cells already on the path being read does not change the reading |
| Docs.NextAddr | f5/pool.go:264 | A fresh allocation takes the least address above all cells in use |
| Docs.LoadRoundTrip | f5/pool.go:294 | Decoding a JSON document into fresh cells and reading it back gives the same document |
| Docs.LoadF | f5/pool.go:294 | Decoding a document only adds cells: every cell already in use is left as it was |
| Arenas.Arena.Alloc | f5/pool.go:264 | `&T{}` adds one cell at the next address and changes no other |
| Arenas.Arena.Decode | f5/pool.go:294 | Decoding in place builds the same cells and value as the decode function |
| Arenas.Arena.Merge | mergo/merge.go:313-332 | The in-place merge leaves the heap, visited table and error of the merge function |
| Arenas.Arena.DeepMerge | mergo/merge.go:104-258 | The in-place deepMerge leaves the heap, visited table and error of the specification |
| Arenas.Arena.MergeSlice | mergo/merge.go:56-99 | The in-place mergeSlice equals the slice rule |
| Arenas.Arena.MergeMap | mergo/merge.go:150-209 | The in-place map branch equals the map rule |
| Arenas.Arena.MergeFields | mergo/merge.go:138-149 | The in-place struct walk equals the field rule |
| Arenas.Arena.PointerRule | mergo/merge.go:221-251 | The in-place pointer branch equals the pointer rule |
| Arenas.Arena.SetValue | mergo/merge.go:98 | The in-place Set equals the set rule: the place is written iff the slot is settable, and a panic otherwise |
| Arenas.Arena.CopyRule | mergo/merge.go:146-148 | The in-place copy equals the copy rule |
| Arenas.Arena.TakeRule | mergo/merge.go:227-251 | The in-place take of a nil-able source equals the take rule |
| Arenas.Arena.StoreMap | mergo/merge.go:203-208 | The in-place SetMapIndex equals the store rule |
| Arenas.Arena.RootMerge | mergo/merge.go:116-128 | The in-place merge into a cell equals the cell rule |
| Arenas.Arena.Transform | mergo/merge.go:130-135 | The in-place transformer test equals the transformer rule |
| Arenas.Arena.Dispatch | mergo/merge.go:137-256 | The in-place kind switch equals the switch rule |
| Arenas.Arena.MergeInto | mergo/merge.go:232-239 | The in-place merge through a pointer or interface equals the rule |
| Arenas.Arena.MergeEntry | mergo/merge.go:153-202 | The in-place loop over src's keys equals the entry rule |
| Arenas.Arena.AfterEntry | mergo/merge.go:199-208 | The in-place store of one key equals the rule |
| Normalise.Fold | f5/pool.go:100-106 | A conflict exactly when both lists are populated; otherwise one of the two is kept, and it is non-empty iff either was |
| Normalise.FoldIdempotent | f5/pool.go:100-106 | A record that was already folded folds to itself |
| Normalise.DecodePool | f5/pool.go:85-110 | Fails iff both members and membersReference are set, with the source's message; otherwise the folded list |
| Normalise.DecodeVirtual | f5/virtual.go:84-116 | Policies are folded first; a profiles conflict keeps the folded policies; each error carries the source's message |
| Normalise.DecodeRule | f5/policy.go:96-130 | Actions are folded first, then conditions, with the source's messages |
| Normalise.DecodePolicy | f5/policy.go:151-175 | Fails iff both rules and rulesReference are set; otherwise the folded list |
| Devices.Escape | f5/pool.go:262 | Every '/' becomes '~' and every other character is kept |
| Devices.EscapeIdempotent | f5/pool.go:187-189 | An escaped name has no '/', so the Show* call's second escape asks for the same object |
| Devices.Staged | f5/pool.go:261-284 | When the call gets to the dry-run test, patch, new and existing are all allocated; a panic in `patch.Merge(existing)` crashes the call, while a returned error is dropped |
| Devices.Build | f5/pool.go:282-284 | new is built, or the call crashes when one of the two merges panics; the requests sent are unchanged and, when built, patch, new and existing are allocated |
| Devices.Finish | f5/pool.go:286-300 | The call crashed iff its stage did; it never returns both an error and a result, a crash returns neither, and a failed fetch returns its error and sends nothing more |
| Devices.PatchRun | f5/pool.go:261-300 | Every call ends with an error, a result or a crash, and never with both an error and a result |
| Devices.Device.Patch | f5/pool.go:261-300 | The call leaves the arena, the requests sent, the error, the result and the crash flag of the reconciliation function |
| Devices.Device.Prepare | f5/pool.go:261-284 | Everything before the dry-run test equals the staging function |
| Devices.Device.Complete | f5/pool.go:286-300 | From the dry-run test on, the arena, the log, the error and the result equal the completion function on the stage Prepare left |
| Devices.Device.PatchPool | f5/pool.go:261-300 | PatchPool is the reconciliation on ltm/pool with expandSubcollections |
| Devices.Device.PatchVirtual | f5/virtual.go:282-323 | PatchVirtual is the reconciliation on ltm/virtual |
| Devices.Device.PatchPolicy | f5/policy.go:241-282 | PatchPolicy is the reconciliation on ltm/policy |
| Devices.Device.PatchNode | f5/node.go:207-248 | PatchNode is the reconciliation on ltm/node |
| Devices.Device.PatchServerSsl | f5/server-ssl.go:141-182 | PatchServerSsl is the reconciliation on the server-ssl profile |
| Devices.Device.PatchClientSsl | f5/client-ssl.go:136-177 | PatchClientSsl is the reconciliation on the client-ssl profile |
| Devices.Device.PatchMonitorHttp | f5/monitor-http.go:103-142 | PatchMonitorHttp is the reconciliation on the HTTP monitor |
| Devices.MemberState | f5/pool.go:408-481 | Only the forced offline call sends user-down, and only the online call sends user-enabled |
| Devices.MemberStatesDistinct | f5/pool.go:408-481 | The three member calls send three different bodies |
| Devices.Device.SetPoolMemberState | f5/pool.go:408-481 | One PUT of the state body to the escaped pool/member URL; errors iff the request fails |
| PatchRules.FetchOnlyWhenMerging | f5/pool.go:270-277 | A merging strategy first GETs the escaped name with the Show query, and every later request is a PATCH; Overwrite only ever PATCHes |
| PatchRules.StagedSent | f5/pool.go:270-284 | Before the dry-run test, a merging strategy has sent exactly one GET to the escaped name's Show URL, and Overwrite has sent nothing |
| PatchRules.FinishSent | f5/pool.go:286-300 | After the dry-run test at most one request is added, it is a PATCH, and the requests already sent stay in place |
| PatchRules.FinishOnlyPatches | f5/pool.go:270-300 | Given the staging's requests, the whole call sends the GET first under a merging strategy and nothing but PATCHes after it |
| PatchRules.FetchFailureAborts | f5/pool.go:271-274 | A failed fetch returns its error with no result, after exactly one GET |
| PatchRules.DryRunReturnsPatch | f5/pool.go:286-289 | Unless a merge panicked, a dry run returns the patch with no error; it never sends a PATCH |
| PatchRules.CrashSendsNoPatch | f5/pool.go:278-284 | The call crashes exactly when a merge of the staging panics; it then returns nothing and has sent no PATCH |
| PatchRules.PatchSentIffChanged | f5/pool.go:290-299 | A PATCH carrying the patch is sent iff new and existing differ; when they are equal, existing is returned and nothing changes; after a PATCH, existing reads as the device's reply, or the send error is returned |
| PatchRules.FinishChanged | f5/pool.go:290-299 | For any stage reached without a PATCH: a PATCH goes out iff new and existing differ under EquateEmpty, with the same results as PatchSentIffChanged |
| PatchRules.LoadScalarFields | f5/monitor-http.go:113-119 | Decoding scalar fields allocates nothing and yields those scalars |
| PatchRules.PickChain | f5/monitor-http.go:124-126 | Picking patch into the blank and then existing into that result gives the composed field |
| PatchRules.BuildScalar | f5/monitor-http.go:124-126 | For scalar records, new's fields are each the pick of patch over blank, then of existing over that |
| PatchRules.FetchedStage | f5/monitor-http.go:112-126 | A successful fetch stages the decoded object merged into patch |
| PatchRules.FetchedScalar | f5/monitor-http.go:112-120 | After a fetch of scalar fields, patch holds the picked fields and existing the decoded ones |
| PatchRules.ComposedFields | f5/monitor-http.go:124-126 | Field by field, the chain of picks is the first non-empty of patch's and existing's values |
| PatchRules.BuildComposed | f5/monitor-http.go:124-126 | new's fields are the composed fields of patch and existing |
| PatchRules.MonitorHttpComposition | f5/monitor-http.go:103-126 | For an HTTP monitor of scalar settings without Override, each field of new is the patch's value if non-empty, else the device's, else zero |
| PatchRules.MonitorHttpOverwrite | f5/monitor-http.go:103-126 | Under Overwrite, for an HTTP monitor of scalar settings, nothing is sent before the dry-run test and each field of new equals the patch's, with or without Override |
| PatchRules.OverwriteStaged | f5/monitor-http.go:112-126 | Without a merging strategy, new is built from patch and a blank existing, and nothing is sent |
| PatchRules.BlankBuild | f5/monitor-http.go:124-126 | new built from a patch of scalar settings and a blank existing is Ready, sends nothing and carries every field of the patch |
| PatchRules.CopiedFields | f5/monitor-http.go:124-126 | Scalar fields picked into their zero values and then merged with zero values come back unchanged |
| PatchRules.BlankThenCopy | f5/monitor-http.go:124-126 | One scalar field picked into its zero value and then merged with that zero value comes back unchanged |
| ResourceMerges.PickFields | mergo/merge.go:140-148 | Picking fields keeps the record's length |
| ResourceMerges.MergeScalarFields | mergo/merge.go:140-148 | Merging scalar fields writes each field with the copy rule and never fails |
| ResourceMerges.ScalarRecordMerge | mergo/merge.go:313-332 | Merging two records of scalar fields gives no error and sets dst to the field-wise copy rule |
| ResourceMerges.UniqueStrings | f5/server-ssl.go:50 | A unique strategy on a list of strings such as TmOptions gives every non-empty string once, drawn from the inputs and in ascending order |
| ResourceMerges.NamedKeys | f5/client-ssl.go:67-72 | A certificate-key chain is filed under its Name |
| ResourceMerges.UniqueCertKeyChains | f5/client-ssl.go:60 | A unique strategy on CertKeyChain gives one non-empty-named chain per name, ascending by name, covering every name |
| ResourceMerges.CertKeyChainKeptWhole | f5/client-ssl.go:60 | Each resulting chain is one of the input chains, whole: the first with its name (first seen) or the last (last seen) |

## Left out

- resolveValues (mergo/merge.go:325) and `isEmptyValue` are not part of this model, so neither is deepMerge's early return for an invalid source (mergo/merge.go:108-110). `merge` starts from two addressed cells. Empty means: zero scalar, zero-length slice or map, nil pointer or interface. A struct is never empty.
- `MergeWithOverride` (mergo/merge.go:271-273) is not modelled; it is `Merge` with `WithOverride` prepended.
- Transformers are an abstract lookup from a type to a merge function. No concrete transformer is modelled.
- Go maps are association lists, and key order is the order of insertion. Go's map iteration order is unspecified, so `ToSortedSlice` depends only on names.
- Slices and maps have value semantics in the model. Go's backing-array and map-header sharing is captured only where a merge stores through the source slot, as in `AppendAliasesSource`.
- NamedSets.GetName: Go panics when a Name field does not hold a string. The model treats such a value as unnamed.
- NamedSets.GetName: Go's `FieldByName` also finds a Name field promoted from an embedded struct. The model searches only the record's own fields.
- NamedSets.GetName: a pointer cycle makes Go's dereference loop run forever. The model stops after as many steps as there are cells and reports no name.
- Unnamed elements print an error line in Go. Output is not modelled.
- `sendRequest`, HTTP and JSON encoding are not modelled. What the GET and the PATCH answer is a parameter: an error, or the JSON document decoded into the target.
- Devices.PatchRun: the device's reply to a PATCH replaces `existing` wholesale. Go's `json.Unmarshal` into the non-blank `existing` keeps the fields the reply leaves out.
- An error returned by `patch.Merge(existing)` or by the two merges into `new` is dropped, as the code drops it. A panic in any of them is not dropped: it ends the call with no result and no PATCH (`Crashed`). What Go prints on a panic is not modelled.
- Dry runs print a `cmp.Diff`, and error messages use `fmt`. Printing is not modelled.
- Docs.EquateEmpty: `cmp.Equal` with `EquateEmpty` is modelled as equality of the document trees. Two maps holding the same keys in different insertion orders are equal for cmp but not for the model, which then sends a PATCH that Go would not.
- Docs.EquateEmpty: a pointer cycle is cut where it closes. Two distinct cycles can read as the same tree where cmp would compare them further.
- Docs.LoadF: a JSON number decoded into an `interface{}` field, such as `LBNodeFQDN.Interval` (f5/node.go:20), is a `float64` in Go. The model has no floating-point values and reads it as an integer.
- Docs.LoadF: an empty JSON array or object decodes to a nil slice or map, as does an absent one; the model does not distinguish `[]` from `null`.
- Stats types, the `Show*` list calls, and the Add/Update/Delete calls are outside the reconciliation core.
- f5/client-ssl.go:10 imports mergo under its upstream path, `github.com/pr8kerl/f5er/mergo`. The model takes that package to be mergo/merge.go.
- Concurrency is not modelled, and neither is the raw-address hashing of the visited table. The visited table is keyed by place and type.
- MergeEngine.MergeSlice and the other branch functions state the frame only. The `MergeRules` lemmas state the slice, pointer, struct and scalar rules. The `Arenas.Arena` methods are proved equal to the branch functions.
- MergeEngine.MergeMap: the rules of the map branch (`MapRules`) are stated for a source map holding one key. A larger source runs the same step for each key in turn; the rules are not stated for the whole loop.
- MergeEngine.MergeEntries: a nested map element is merged as a value that is not addressable. Go's `SetMapIndex` still writes into that nested map through the shared map header. The model drops those writes (value semantics), so after `MapNestedMapSkipped` the outer map holds the nested map as it was.
- MergeRules.PointersMergeTargets: does not state that the pointer's own place is unchanged, because the merge of the pointed-to cell can reach that place again through a pointer cycle.
- PatchRules.MonitorHttpComposition is stated for monitors whose settings are all scalars, under a merging strategy without Override or transformers; `MonitorHttpOverwrite` states the Overwrite case. The general case is covered by `PatchSentIffChanged` and the `MergeRules` lemmas.
