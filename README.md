# redriddles, modelled in Dafny

redriddles is a pixel-art editor. This project models its discrete core
in Dafny and proves properties about that model. The core covers:

- the node-tree UI framework:
  - the type-keyed store;
  - depth-first tree construction;
  - hit-testing, where the first child that reports a hit wins;
  - the per-frame update order;
- the per-frame focus state machine (`UserInputs`), with its
  edge-triggered shortcut instruction;
- the shortcut table, a bijection between sorted key chords and
  instructions, and its validation when the save file is loaded;
- the click predicates every button uses;
- the Bresenham line iterator;
- the sparse pixel canvas (`PixelArray`), with its bounding box, flood
  fill and line drawing;
- the integer side of the colour layer: hex formatting and parsing,
  colour-space dispatch, and field copies;
- the small UI state machines of the sidebar and of the settings and
  export tabs.

Each file of the program becomes one module:

- Pure code (matches, arithmetic, recursion) becomes datatypes, functions
  and lemmas.
- Code that mutates state becomes classes. Their methods `modifies` the
  fields the source updates, and their loops carry invariants.
- Every method is proved against a specification function of its old
  state and inputs. The lemmas beside that function state what the source
  promises.
- Calls into macroquad (mouse, keys, time) and the loader threads' message
  channels are parameters. The mouse and keys are an input snapshot; a
  channel is the finite sequence of messages sent and not yet received.
- Node identity is an integer id in an arena.
- A panic in the source (`unwrap`, an index out of range, a duplicate store
  registration) is a precondition. Where the source reports an error
  (`Result`, `Option`), the model returns one too.

Modules and the source files they model:

| module | source |
|---|---|
| `TypeStore` | `Store`, `AppContextGenHandler` in src/node/mod.rs (and src/node.rs) |
| `NodeTree` | `NodeStore`, `GenHandler`, hit-testing and update order in src/node/mod.rs |
| `UserInput` | `UserInputs` in src/node/user_inputs.rs (and src/node.rs) |
| `Frames` | `Frame::update` in src/node/mod.rs |
| `Bimaps`, `ShortcutTable` | `Shortcuts` in src/node/user_inputs.rs (and src/node.rs) |
| `SaveFile` | src/node/save_file.rs |
| `Helpers` | src/helpers.rs |
| `Bresenham` | src/bresenham.rs |
| `PixelArray` | `Pixel`, `PixelArray` in src/transform.rs |
| `Colour` | src/colour.rs |
| `HexInput` | src/ui/main/draw/sidebar/hex_input.rs |
| `SettingsShortcuts` | src/ui/main/settings/shortcuts.rs |
| `SelectFolder` | src/ui/main/export/select_folder.rs |
| `LoaderCommon`, `PreviewLoader` | src/ui/main/export/preview/process.rs |
| `LoaderCommon`, `ExportLoader` | src/ui/main/export/export_settings/process.rs |
| `DrawSection` | src/ui/main/draw/draw_section.rs |
| `DrawStateButton` | src/ui/main/draw/sidebar/draw_state_button.rs |
| `Save` | src/ui/main/draw/sidebar/save.rs |
| `SaveGrid` | src/ui/main/draw/sidebar/save_grid.rs |
| `TabContainers` | src/ui/main/mod.rs, src/ui/main/settings/mod.rs, src/ui/main/export/mod.rs |
| `Geometry`, `Entries`, `Instructions`, `Wrappers` | shared value types (`Vec2`, `Rect`, store entries, `ShortcutInstruction`, `Result`/`Option`) |

The source tree holds several snapshots that do not type-check against
each other. Each file is modelled as written:

- src/node.rs is an earlier single-file copy of src/node/mod.rs and
  src/node/user_inputs.rs, with the same logic. One model serves both.
- `GoTo(tab)` appears only in src/ui/main/mod.rs. It is part of the
  `Instruction` datatype here.

## Model

| member | source | states |
|---|---|---|
| `TypeStore.Store.Get` | src/node/mod.rs:41-47 | Defines `get`: the value registered for the type. Reading a type never registered panics, so registration is a precondition. `TypeStore.Store.Overwrite` states that `Get` then returns the new value. |
| `TypeStore.Store.constructor` | src/node/mod.rs:35-39 | A new store has nothing registered. |
| `TypeStore.Store.Push` | src/node/mod.rs:91-95 | Registering a type adds exactly that one entry and keeps the others. Registering a type a second time is fatal (precondition). |
| `TypeStore.Store.Overwrite` | src/node/mod.rs:57-60 | Overwriting a registered type changes its value only. The set of registered types and every other value stay the same. |
| `NodeTree.Build` | src/node/mod.rs:356-370 | Defines `NodeStore::new` as a function: build the declared steps in order, then create the node under the next id with the collected children. A second registration of a type gives `Err` where the source panics. Specified by `BuildRegisters` and `BuildShape`; `Builder.NewNode` is proved to end in its result. |
| `NodeTree.BuildSteps` | src/node/mod.rs:334-349 | Defines a node's remaining `push_child_io`/`push_data` steps. Specified by `BuildStepsRegister`, `BuildStepsShape`, `StepData` and `StepChild`. |
| `NodeTree.HitDetect` | src/node/mod.rs:382-392 | Defines the hit path of a node of each kind: a leaf's rectangle test, `hit_detect_children_and_self` for a panel or stack, the topbar then the active tab for a tab container. Specified by `HitDetectChildrenAndSelf` and `HitIsPath`. |
| `NodeTree.FirstHit` | src/node/mod.rs:384-389 | Defines the loop over the children: the path of the first child whose hit test is non-empty, or nothing. Specified by `FirstHitEmpty`, `FirstHitWins` and `FirstHitIsPath`. |
| `NodeTree.Schedule` | src/node/mod.rs:376-380 | Defines the order in which `update` starts on a node and the nodes below it: the node, then its children's updates (declared order for a panel, last to first for a stack, the active tab then the topbar for a tab container). Specified by `ScheduleWithinSubtree` and `TabContainers.MainSchedule`. |
| `NodeTree.ScheduleAll` | src/node/mod.rs:376-380 | Defines `update_children`: each child's whole update, in declared order. Specified by `ScheduleAllWithin`. |
| `NodeTree.ScheduleReversed` | src/ui/main/draw/mod.rs:24-26 | Defines the draw stack's child updates, last to first. Specified by `ScheduleReversedWithin`. |
| `NodeTree.BuildRegisters` | src/node/mod.rs:356-370 | Building a declared subtree succeeds exactly when none of its depth-first, in-order registrations meets a type already in the store. The store then gains exactly those registrations. |
| `NodeTree.BuildStepsRegister` | src/node/mod.rs:334-349 | The same for a node's remaining `push_child_io`/`push_data` steps. |
| `NodeTree.RegistrableAppend` | src/node/mod.rs:91-95 | Registering `a + c` one at a time succeeds exactly when `a` succeeds and then `c` succeeds, and it gives the same store. |
| `NodeTree.BuildShape` | src/node/mod.rs:356-370 | A successful construction creates `Size(d)` nodes under consecutive ids, root last. Earlier nodes are kept, the result is still a tree, and the root's children are its declared children in declared order. |
| `NodeTree.BuildStepsShape` | src/node/mod.rs:334-340 | Each `push_child_io` step builds the child's whole subtree before the next step. The collected children are the declared ones, in order. |
| `NodeTree.GrowsTrans` | src/node/mod.rs:356-370 | Growing the arena twice is growing it once; nodes once created are never changed. |
| `NodeTree.StepData` | src/node/mod.rs:342-344 | In a successful construction, a `push_data` step registers a type that was not yet present, and construction continues with the extended store. |
| `NodeTree.StepChild` | src/node/mod.rs:334-340 | In a successful construction, a `push_child_io` step builds the child and appends the child's id to the children. |
| `NodeTree.Builder.constructor` | src/node/mod.rs:412-416 | `Frame::new` starts from an empty arena and an empty store. |
| `NodeTree.Builder.NewNode` | src/node/mod.rs:356-370 | The imperative construction (handler, children vector, store pushes) ends in exactly the state and root id of the functional `Build`. |
| `NodeTree.Builder.RunStep` | src/node/mod.rs:334-349 | One `GenHandler` step matches one step of `BuildSteps`. |
| `NodeTree.HitDetectChildrenAndSelf` | src/node/mod.rs:382-392 | The loop returns the path of the first child whose path is non-empty, with the node appended. The result is never empty and ends with the node. |
| `NodeTree.FirstHitEmpty` | src/node/mod.rs:382-392 | The children part is empty exactly when every child misses, so the result is `[self]` exactly then. |
| `NodeTree.FirstHitWins` | src/node/mod.rs:384-389 | The first child with a non-empty path decides the result. Later children do not matter. |
| `NodeTree.HitIsPath` | src/node/mod.rs:382-392 | Every hit path is empty, or it runs upward from the innermost node hit, each element a child of the next, and ends with the queried node. |
| `NodeTree.FirstHitIsPath` | src/node/mod.rs:384-389 | The first-hit part is empty, or an upward path ending in one of the node's children. |
| `NodeTree.AppendParent` | src/node/mod.rs:390 | Appending the parent to a path that ends in one of its children keeps it an upward path. |
| `NodeTree.ContainsSelf` | src/node/mod.rs:394-399 | `contains_self` holds exactly when the node's id occurs in the path. |
| `NodeTree.ScheduleWithinSubtree` | src/node/mod.rs:376-380 | An update starts with the node itself, and every other node it reaches is a descendant: reachable from the node through `children`, so never a sibling or an ancestor. |
| `NodeTree.ScheduleAllWithin` | src/node/mod.rs:376-380 | `update_children` reaches only descendants of the node: every node it updates is reachable from it through `children`. |
| `NodeTree.ScheduleReversedWithin` | src/ui/main/draw/mod.rs:24-26 | The draw stack's last-to-first child update reaches only descendants of the stack. |
| `UserInput.Step` | src/node/user_inputs.rs:125-157 | Defines one `update` as a function of the old state, the snapshot, the hit path and the resolved instruction. Specified by `PressedIsEdge`, `PressedOncePerHold` and `HoldFreezes`, and over runs of frames by `RunLastTouch`, `RunHoverHold` and `RunHover`. `UserInputs.Update` is proved to leave exactly its result. |
| `UserInput.Run` | src/node/user_inputs.rs:125-157 | Defines the state after a sequence of frames, one `Step` per frame. Specified by `RunPrefix`, `RunLastTouch`, `RunHoverHold` and `RunHover`. |
| `UserInput.UserInputs.HoverholdTest` | src/node/user_inputs.rs:159-161 | Defines `hoverhold_test`: the node is on the hover-hold path. What that path holds is stated by `RunHoverHold`. |
| `UserInput.UserInputs.PrevHoverholdTest` | src/node/user_inputs.rs:163-165 | Defines `prev_hoverhold_test`: the node is on the previous hover-hold path, stated by `RunHoverHold`. |
| `UserInput.UserInputs.HoverTest` | src/node/user_inputs.rs:167-169 | Defines `hover_test`: the node is on this frame's hit path, stated by `RunHover`. |
| `UserInput.UserInputs.PrevHoverTest` | src/node/user_inputs.rs:171-173 | Defines `prev_hover_test`: the node is on last frame's hit path, stated by `RunHover`. |
| `UserInput.UserInputs.LastTouchTest` | src/node/user_inputs.rs:175-177 | Defines `last_touch_test`: the node is on the path of the latest left press, stated by `RunLastTouch`. |
| `UserInput.UserInputs.PrevLastTouchTest` | src/node/user_inputs.rs:179-181 | Defines `prev_last_touch_test`: the node is on the last-touch path from before the latest press, stated by `RunLastTouch`. |
| `UserInput.UserInputs.InstructionPressed` | src/node/user_inputs.rs:183-185 | Defines `instruction_pressed`: the edge-triggered instruction of this frame is the given one. When that holds is stated by `PressedIsEdge`. |
| `UserInput.UserInputs.InstructionActive` | src/node/user_inputs.rs:187-189 | Defines `instruction_active`: the held instruction is the given one, the latest resolved one by `RunHover`. |
| `UserInput.Initial` | src/node/user_inputs.rs:99-122 | `UserInputs::new`: empty focus paths, no instruction, no button flag set. |
| `UserInput.PressedIsEdge` | src/node/user_inputs.rs:137-143 | The pressed instruction is `x` exactly on the frame the held instruction becomes `x`. A held instruction that does not change gives `None`. |
| `UserInput.PressedOncePerHold` | src/node/user_inputs.rs:137-143 | An instruction held over two consecutive frames is not pressed on the second. |
| `UserInput.RunLastTouch` | src/node/user_inputs.rs:145-156 | Over any run of frames, last-touch holds the hit path and mouse of the most recent left press. Its `prev_` copies hold what last-touch was just before that press. With no press nothing changes. |
| `UserInput.RunHoverHold` | src/node/user_inputs.rs:145-149 | Hover-hold holds the hit path and mouse of the most recent frame that pressed the left button or had it up. `prev_hoverhold_focus` holds the path from just before that frame. |
| `UserInput.HoldFreezes` | src/node/user_inputs.rs:145 | While the left button stays held with no new press, hover-hold does not move. |
| `UserInput.RunHover` | src/node/user_inputs.rs:134-135 | The hover path is the latest hit path, `prev_hover_focus` is the one before it, and the held instruction is the latest resolved one. |
| `UserInput.RunPrefix` | src/node/user_inputs.rs:125-157 | A run of frames is the run of its prefix followed by one step. |
| `UserInput.LastPress` | src/node/user_inputs.rs:145-150 | The last frame of a run that pressed the left button, or -1; no later frame presses it. |
| `UserInput.LastRefresh` | src/node/user_inputs.rs:145 | The last frame that pressed the left button or had it up, or -1. |
| `UserInput.UserInputs.constructor` | src/node/user_inputs.rs:99-122 | The state is `Initial()` and the shortcut table is the default table. |
| `UserInput.UserInputs.Update` | src/node/user_inputs.rs:125-157 | `update` leaves exactly `Step(old state, snapshot, hit path, get_output(held keys))`. |
| `UserInput.UserInputs.ReadSnapshot` | src/node/user_inputs.rs:126-133 | Copies the mouse and button flags; the old mouse moves to `prev_mouse`. |
| `UserInput.UserInputs.TakeHover` | src/node/user_inputs.rs:134-135 | The hover path moves to `prev_hover_focus` and the hit path becomes the hover path. |
| `UserInput.UserInputs.Resolve` | src/node/user_inputs.rs:137-143 | Sets the edge-triggered pressed instruction, then the held one. |
| `UserInput.UserInputs.RefreshHold` | src/node/user_inputs.rs:146-148 | Hover-hold takes the hover path and mouse; its old path moves to `prev_hoverhold_focus`. |
| `UserInput.UserInputs.TakeTouch` | src/node/user_inputs.rs:150-153 | Last-touch takes the hover path and mouse; the old ones move to the `prev_` fields. |
| `Frames.Dispatched` | src/ui/main/mod.rs:59-65 | Defines the tab statuses the node updates of a frame see: slot 0 as `Main` sets it after a pressed `GoTo`, every other slot as stored. `FrameUpdate` states the schedule it gives. |
| `Frames.NodeEvents` | src/node/mod.rs:423-442 | One update event per scheduled node, in order. |
| `Frames.FrameUpdate` | src/node/mod.rs:423-442 | A frame first refreshes the inputs, with the hover path being the origin's hit path at the new mouse position under the stored tab statuses. It then starts the node updates in `Schedule` order, the origin first, with slot 0 as `Main` sets it after a pressed `GoTo`, so every node sees this frame's focus. With `Main` at the origin, the tab updated is the one the `GoTo` names, then the topbar. |
| `Helpers.ArrToMacroquad` | src/helpers.rs:61-68 | Defines `arr_to_macroquad`, a field copy. Specified by `ArrToMacroquadRoundTrip`. |
| `Helpers.RawUiButton` | src/helpers.rs:43-47 | A click is exactly hovered and released. |
| `Helpers.ColButton` | src/helpers.rs:49-59 | `col_button` answers exactly as `raw_ui_button`. |
| `Helpers.UiButton` | src/helpers.rs:11-16 | A click is exactly the node on the hover path, a left release this frame, and the node on the last-touch path. |
| `Helpers.SubUiButton` | src/helpers.rs:18-23 | A sub-button click is exactly a `ui_button` click with the mouse inside the sub-rectangle. |
| `Helpers.ClickNeedsPressAndRelease` | src/helpers.rs:11-16 | From a state where the node was never touched, a click needs a left press whose hit path held the node, and a release frame whose hit path holds it. |
| `Helpers.Channels` | src/helpers.rs:61-68 | A colour has four channels. |
| `Helpers.ArrToMacroquadRoundTrip` | src/helpers.rs:61-68 | `arr_to_macroquad` keeps every component in place, in both directions. |
| `Instructions.TabIndex` | src/ui/main/mod.rs:18-22 | A tab's index is below 3. |
| `Instructions.TabIndexInjective` | src/ui/main/mod.rs:18-22 | Distinct tabs have distinct indices. |
| `Bimaps.Insert` | src/node/user_inputs.rs:52 | Defines the overwriting insert of the `bimap` crate: unbind whatever either side was bound to, add the pair, and report what was displaced. Specified by `InsertSpec` and `InsertOverwritten`. |
| `Bimaps.InsertNoOverwrite` | src/node/user_inputs.rs:47 | Defines `insert_no_overwrite` of the `bimap` crate: refuse, returning the pair, when either side is bound, otherwise add the pair. Specified by `InsertNoOverwriteSpec`. |
| `Bimaps.Empty` | src/node/save_file.rs:104 | The empty bijection is valid and has no pairs. |
| `Bimaps.InsertSpec` | src/node/user_inputs.rs:50-53 | After an overwriting insert the map is still one-to-one and pairs `l` with `r` both ways. Every other pair survives exactly when it shares neither side with the new pair. |
| `Bimaps.InsertOverwritten` | src/node/save_file.rs:113-142 | The `Overwritten` report is `Neither`, `Pair`, `Left`, `Right` or `Both` exactly according to which bindings the insert displaced. |
| `Bimaps.InsertNoOverwriteSpec` | src/node/user_inputs.rs:45-48 | A non-overwriting insert fails exactly when either side is bound, returning the pair. Otherwise it adds exactly that pair. |
| `Bimaps.ReverseAgrees` | src/node/user_inputs.rs:64-66 | In a valid bijection the reverse lookup agrees with the forward one. |
| `ShortcutTable.FromPairs` | src/node/user_inputs.rs:36-40 | Defines collecting the default pairs into the table, one insert per pair. Specified by `FromPairsDistinct`. |
| `ShortcutTable.Shortcuts.GetOutput` | src/node/user_inputs.rs:59-62 | Defines `get_output`: sort the held keys, then the instruction bound to that chord, or none. Specified by `GetOutputOrderInsensitive`, `GetOutputEmpty` and `LookupsAgree`. |
| `ShortcutTable.Shortcuts.GetShortcut` | src/node/user_inputs.rs:64-66 | Defines `get_shortcut`: the chord bound to the instruction, if any. Specified by `LookupsAgree`. |
| `ShortcutTable.SortKey` | src/node/user_inputs.rs:68-70 | `sort_key` returns a sorted permutation of its keys. |
| `ShortcutTable.InsertKey` | src/node/user_inputs.rs:68-70 | Inserting a key into a sorted chord gives a sorted chord with that key added. |
| `ShortcutTable.SortedUnique` | src/node/user_inputs.rs:68-70 | Two sorted arrangements of the same keys are the same chord. |
| `ShortcutTable.SortKeyPermutation` | src/node/user_inputs.rs:59-62 | Chords with the same keys sort to the same chord, whatever the order the keys were held in. |
| `ShortcutTable.SortKeySorted` | src/node/user_inputs.rs:68-70 | Sorting a sorted chord leaves it unchanged. |
| `ShortcutTable.FromPairsDistinct` | src/node/user_inputs.rs:36-40 | Collecting pairs that share no sorted chord and no instruction gives a bijection of exactly those pairs, one binding each. |
| `ShortcutTable.DefaultDistinct` | src/node/user_inputs.rs:26-35 | The ten default chords are distinct and so are their instructions. |
| `ShortcutTable.DefaultTableSpec` | src/node/user_inputs.rs:23-41 | The default table is a bijection of exactly the ten listed single-key pairs. |
| `ShortcutTable.DefaultTable` | src/node/user_inputs.rs:23-41 | The default table is valid, has ten bindings, binds each listed key to its instruction, and every chord is a sorted single key. |
| `ShortcutTable.InsertSorted` | src/node/user_inputs.rs:50-53 | Binding a sorted chord keeps the table one-to-one with every chord sorted. |
| `ShortcutTable.Shortcuts.Default` | src/node/user_inputs.rs:23-41 | `Shortcuts::default` is the default table. |
| `ShortcutTable.Shortcuts.InsertNoOverwrite` | src/node/user_inputs.rs:45-48 | The chord is sorted first. The insert fails, leaving the table untouched and returning the sorted pair, exactly when the chord or the instruction is bound. Otherwise exactly that pair is added. |
| `ShortcutTable.Shortcuts.Insert` | src/node/user_inputs.rs:50-53 | The sorted chord becomes bound to the instruction both ways. Every other binding survives exactly when it shares neither side. |
| `ShortcutTable.Shortcuts.GetOutputOrderInsensitive` | src/node/user_inputs.rs:59-62 | `get_output` gives the same instruction for any arrangement of the same held keys. |
| `ShortcutTable.Shortcuts.GetOutputEmpty` | src/node/user_inputs.rs:59-62 | With no keys held and no empty chord bound, the output is `None`. |
| `ShortcutTable.Shortcuts.LookupsAgree` | src/node/user_inputs.rs:59-66 | The chord `get_shortcut` reports is sorted and resolves back to the instruction. A bound chord's instruction reports that chord. |
| `SaveFile.LoadFrom` | src/node/save_file.rs:103-153 | Defines the loop of `into`: parse each entry, insert it, and stop at the first failure. Specified by `LoadFromSpec` and `LoadSpec`; `Into` is proved to return its result. |
| `SaveFile.Collect` | src/node/save_file.rs:95-101 | Defines the string-keyed map `from` collects, one entry per binding. Specified by `CollectSpec`; `From` is proved to emit it. |
| `SaveFile.LoadFromSpec` | src/node/save_file.rs:103-153 | The loop of `into` succeeds exactly when every entry parses and no two share a chord or an instruction, and then yields the bijection of exactly the parsed pairs. A failure names the first failing entry. |
| `SaveFile.LoadStep` | src/node/save_file.rs:111-145 | One iteration: an insert that overwrites nothing extends the accumulated bijection by the entry; any overwrite is a conflict with an earlier entry. |
| `SaveFile.LoadStepClean` | src/node/save_file.rs:111-145 | An entry inserted without overwriting shares nothing with earlier entries. |
| `SaveFile.LoadStepPairs` | src/node/save_file.rs:111-145 | Inserting such an entry pairs exactly the entries walked so far. |
| `SaveFile.LoadStepConflict` | src/node/save_file.rs:113-145 | An overwriting insert reports a collision with an earlier entry. |
| `SaveFile.SaveData.constructor` | src/node/save_file.rs:16-19 | The live data holds the given table and folders. |
| `SaveFile.Into` | src/node/save_file.rs:103-153 | `into` returns exactly what the loop specification gives. On success the folder list passes through unchanged. |
| `SaveFile.CleanKeys` | src/node/save_file.rs:105-106 | Whether loading succeeds does not depend on the order of the walk. |
| `SaveFile.StoredAt` | src/node/save_file.rs:105-106 | The pairs met on a full walk are exactly the stored pairs. |
| `SaveFile.LoadSpec` | src/node/save_file.rs:103-153 | Loading succeeds exactly when every chord string parses and no two stored pairs share a chord or an instruction. The table is then the bijection of exactly the stored pairs. |
| `SaveFile.CollectSpec` | src/node/save_file.rs:95-101 | With `show` inverted by `parse`, every binding gets its own string carrying its instruction, and nothing else is emitted. |
| `SaveFile.From` | src/node/save_file.rs:95-101 | `from` empties the live table and folder list and emits one string-keyed entry per binding. |
| `SaveFile.RoundTrip` | src/node/save_file.rs:95-153 | Saving then loading gives back the same bijection and folders, when the string conversions are inverse to each other. |
| `SaveFile.BimapExt` | src/node/save_file.rs:103-153 | Two bijections with the same pairs are equal. |
| `SaveFile.Recover` | src/node/save_file.rs:165-171 | No file gives the defaults. A read error is passed on. A decoded file goes through `into`, and its error is passed on. |
| `Colour.RgbaFromRgba` | src/colour.rs:189-191 | Defines `Rgba::from_rgba`, a field copy. Specified with its inverse by `RgbaRoundTrip`. |
| `Colour.RgbaToRgba` | src/colour.rs:185-187 | Defines `Rgba::to_rgba`, a field copy. Specified with its inverse by `RgbaRoundTrip`. |
| `Colour.RgbaFromWheel` | src/colour.rs:197-204 | Defines `Rgba::from_wheel`: r, g and b from the wheel, alpha 1. Specified by `WheelRoundTrip`. |
| `Colour.RgbaToWheel` | src/colour.rs:206-208 | Defines `Rgba::to_wheel`. Specified by `WheelRoundTrip`. |
| `Colour.HsvaFromWheel` | src/colour.rs:314-321 | Defines `Hsva::from_wheel`: h, s and v from the wheel, alpha 1. Specified by `WheelRoundTrip`. |
| `Colour.HsvaToWheel` | src/colour.rs:323-325 | Defines `Hsva::to_wheel`. Specified by `WheelRoundTrip`. |
| `Colour.ToColSel` | src/colour.rs:51-57 | Defines `to_col_sel`: the space a colour is in. `ColFromRgba` and `ColFromWheel` state that the colour they build is in the selected space. |
| `Colour.DefaultWheel` | src/colour.rs:112-134 | Defines the per-space `default_cirular`, `default_radial` and `default_scalar`. Specified by `DefaultWheelColours`. |
| `Colour.ParseHex` | src/colour.rs:109 | Defines the value `from_str_radix(_, 16)` reads from hex digits, most significant first. Specified by `ParseHexAppend2`, `FormatParses` and `HexInput.ParseHexBound`. |
| `Colour.Digits` | src/colour.rs:109 | Defines the digits `from_str_radix` reads: a leading `+` is skipped. `ColFromHexString` requires them to parse, and `FormatRgba` states that they do. |
| `Colour.FromBe` | src/colour.rs:99 | Defines `u32::from_be_bytes`, the inverse of the `to_be_bytes` call. Specified by `BeBytesRoundTrip`. |
| `Colour.ShiftInAlpha` | src/colour.rs:104 | Defines `(hex << 8) + 0xFF` in `u32`. Specified by `ShiftInAlphaBytes`. |
| `Colour.RgbaRoundTrip` | src/colour.rs:185-191 | `Rgba::from_rgba` and `to_rgba` are inverse in both directions. |
| `Colour.WheelRoundTrip` | src/colour.rs:197-208 | `from_wheel` and `to_wheel` of `Rgba` and `Hsva` are inverse, and `from_wheel` gives full alpha. |
| `Colour.ColFromRgba` | src/colour.rs:74-80 | `col_from_rgba` builds a colour in the selected space; in the Rgba space it keeps the channels as given. |
| `Colour.ColFromWheel` | src/colour.rs:82-88 | `col_from_wheel` builds a colour in the selected space. In the Rgba and Hsva spaces `to_wheel` gives the wheel coordinates back. |
| `Colour.DefaultWheelColours` | src/colour.rs:112-135 | The per-space wheel defaults give opaque black in Rgba and hue 0 at full saturation and value in Hsva; OkLab's defaults are zero. |
| `Colour.ToU8` | src/colour.rs:47-49 | `(d * 255.0) as u8` truncates toward zero and saturates at 0 and 255. |
| `Colour.ToU8OfByte` | src/colour.rs:90-92 | A channel built from a byte by `/ 255.0` converts back to the same byte. |
| `Colour.UpperHex` | src/colour.rs:66-68 | The upper-case hex digit of a value below 16 is an upper-case hex digit that parses back to the value. |
| `Colour.Hex2` | src/colour.rs:66-68 | A byte formats as exactly two upper-case hex digits, zero-padded. |
| `Colour.ParseHexAppend2` | src/colour.rs:108-110 | Appending the two hex digits of a byte to a hex string multiplies its value by 256 and adds the byte. |
| `Colour.FormatRgbaU8` | src/colour.rs:66-68 | `format_rgba_u8` is `#` followed by six upper-case hex digits; alpha is not written. |
| `Colour.FormatRgba` | src/colour.rs:70-72 | `format_rgba` gives `#` and six digits. Read back as `col_from_hex_string` reads them, the digits give the r, g and b channels converted by `(d * 255.0) as u8`. |
| `Colour.FormatParses` | src/colour.rs:66-68 | The six digits of `format_rgba_u8([r, g, b, a])` parse as a `u32` whose big-endian bytes are 0, r, g, b. |
| `Colour.BeBytes` | src/colour.rs:98-101 | `to_be_bytes` gives four bytes. |
| `Colour.BeBytesRoundTrip` | src/colour.rs:98-101 | `to_be_bytes` and `from_be_bytes` are inverse in both directions. |
| `Colour.ShiftInAlphaBytes` | src/colour.rs:103-106 | `(hex << 8) + 0xFF` in `u32` drops the top byte, moves r, g and b up one byte, and sets alpha to 0xFF. |
| `Colour.ColFromRgbaHex` | src/colour.rs:98-101 | `col_from_rgba_hex` builds a colour in the selected space. |
| `Colour.ColFromRgbHex` | src/colour.rs:103-106 | `col_from_rgb_hex` builds a colour in the selected space. |
| `Colour.ColFromHexString` | src/colour.rs:108-110 | `col_from_hex_string` needs a string `u32::from_str_radix(_, 16)` accepts, because the parse is unwrapped. It builds a colour in the selected space. |
| `Colour.HexRoundTrip` | src/colour.rs:59-110 | The digits of `format_rgba_u8([r, g, b, a])` parse as a `u32`. Read back through `col_from_rgb_hex` they give the bytes r, g, b and alpha 0xFF. In the Rgba space the colour is those bytes over 255. |
| `Bresenham.ToOctant0` | src/bresenham.rs:50-64 | Defines `to_octant0`, a signed axis permutation per octant. Specified by `InOctant0` and, with its inverse, `OctantRoundTrip`. |
| `Bresenham.FromOctant0` | src/bresenham.rs:66-78 | Defines `from_octant0`. Specified by `OctantRoundTrip` and `NeighboursStayNeighbours`. |
| `Bresenham.Line` | src/bresenham.rs:81-126 | Defines the reference line: column k of octant 0 on its nearest row, mapped back to the original octant. Specified by `LineEndpoints`, `LineConnected` and `LineLengthIsExtent`; `Bresenham.Next` is proved to yield it. |
| `Bresenham.FromPoints` | src/bresenham.rs:23-47 | `from_points` classifies every direction into one of the octants 0 to 7. |
| `Bresenham.InOctant0` | src/bresenham.rs:85-92 | After the transform of `new`, the segment runs right and up by no more than it runs right (`0 <= dy <= dx`). |
| `Bresenham.Octant0Extent` | src/bresenham.rs:85-92 | The transformed x extent is the larger of the two coordinate distances. |
| `Bresenham.OctantRoundTrip` | src/bresenham.rs:50-78 | `to_octant0` and `from_octant0` are inverse in every octant. |
| `Bresenham.RowExists` | src/bresenham.rs:110-126 | For each column of a segment with positive extent there is a nearest row. |
| `Bresenham.RowIsNearest` | src/bresenham.rs:110-126 | The nearest row is unique (ties go to the lower row). |
| `Bresenham.RowAtEnds` | src/bresenham.rs:82-104 | In octant 0 the first column lies on row 0 and the last on row `dy`. |
| `Bresenham.RowStep` | src/bresenham.rs:117-122 | From one column to the next the error term decides whether the row goes up by one. The updated error term is the one for the next column. |
| `Bresenham.RowAdvance` | src/bresenham.rs:117-123 | In octant 0 the row never falls and rises by at most one per column. |
| `Bresenham.Advance` | src/bresenham.rs:117-123 | The body of `next` keeps the invariant: `y` is the nearest row of column `x` and `diff` is its error term. |
| `Bresenham.LineAt` | src/bresenham.rs:106-126 | Point k of the line is column k of octant 0, on its nearest row, mapped back to the original octant. |
| `Bresenham.LineLengthIsExtent` | src/bresenham.rs:82-104 | The line has one point more than the larger of the two coordinate distances. |
| `Bresenham.LineEndpoints` | src/bresenham.rs:82-83 | The line includes both endpoints: it starts at `start` and ends at `end`. |
| `Bresenham.LineConnected` | src/bresenham.rs:106-126 | Consecutive points are distinct 8-neighbours, so the line has no gaps. |
| `Bresenham.NeighboursStayNeighbours` | src/bresenham.rs:66-78 | Mapping back from octant 0 keeps 8-neighbours 8-neighbours. |
| `Bresenham.Bresenham.constructor` | src/bresenham.rs:85-104 | `new` sets up the iterator with nothing yielded and exactly the line's points still to come. |
| `Bresenham.Bresenham.Next` | src/bresenham.rs:110-126 | `next` yields the line's points in order, one per call. It returns `None` exactly when all have been yielded, and from then on stays exhausted. |
| `BresenhamI16.FromPoints` | src/bresenham.rs:23-47 | Defines `from_points` with `i16` wrap-around. `WideLineState` and `SmallAgrees` state where it departs from and agrees with the unbounded one. |
| `BresenhamI16.ToOctant0` | src/bresenham.rs:50-64 | Defines `to_octant0` with wrapping negation. Stated by `WideLineState` and `SmallAgrees`. |
| `BresenhamI16.FromOctant0` | src/bresenham.rs:66-78 | Defines `from_octant0` with wrapping negation. Stated by `WideLineIsEmpty` and `SmallAgrees`. |
| `BresenhamI16.New` | src/bresenham.rs:85-104 | Defines `new` with `i16` wrap-around. Stated by `WideLineState` and `SmallAgrees`. |
| `BresenhamI16.Next` | src/bresenham.rs:110-126 | Defines `next` with `i16` wrap-around. Stated by `WideLineIsEmpty`. |
| `BresenhamI16.WideLineState` | src/bresenham.rs:23-104 | With `i16` wrap-around, the segment (-20000, 0) to (20000, 0) is put in octant 3 and starts past its last column. |
| `BresenhamI16.WideLineIsEmpty` | src/bresenham.rs:110-113 | With `i16` wrap-around, the first `next` on that segment returns `None`, while the unbounded line has 40001 points. |
| `BresenhamI16.SmallAgrees` | src/bresenham.rs:23-104 | For coordinates within ±8191 nothing wraps: the `i16` octant, transformed endpoints and initial error term equal the unbounded ones. |
| `PixelArray.Bounds` | src/transform.rs:302-331 | Defines the result of `get_bounds`. Specified by `BoundsAre`; `PixelArray.GetBounds` is proved to return it. |
| `PixelArray.Neighbour` | src/transform.rs:351 | Defines the four neighbours `fill` visits, in its order, computed in `i16` with release-build wrap-around. Stated by `PushNeighbours` and `EdgeWrapEncloses`. |
| `PixelArray.BoxOf` | src/transform.rs:302-331 | Every non-empty set of cells has a bounding box. |
| `PixelArray.BoxAdd` | src/transform.rs:314-325 | Adding a cell widens the bounding box just enough to hold it. |
| `PixelArray.BoxGrows` | src/transform.rs:313-326 | One iteration of the `get_bounds` loop keeps min and max as the bounding box of the pixels seen so far. |
| `PixelArray.BoundingBoxUnique` | src/transform.rs:302-331 | A set of cells has only one bounding box. |
| `PixelArray.BoundsAre` | src/transform.rs:302-331 | The bounds of a non-empty canvas are its bounding box. |
| `PixelArray.SeedInRegion` | src/transform.rs:341-345 | The fill's start cell is in its own region. |
| `PixelArray.RegionStep` | src/transform.rs:353-357 | A region cell's 4-neighbour of the same colour is in the region. |
| `PixelArray.ClosedSetHoldsRegion` | src/transform.rs:345-363 | A set holding the seed and closed under same-coloured neighbours holds the end of every same-coloured walk from the seed. |
| `PixelArray.PaintedInBounds` | src/transform.rs:302-331 | Every painted cell lies in the bounds. |
| `PixelArray.PaintedSeedEnclosed` | src/transform.rs:333-374 | A fill that starts on a painted cell never escapes the bounds, so it always recolours its region. |
| `PixelArray.BoxCells` | src/transform.rs:334-335 | The cells of the bounds form a finite set: the fill's measure of progress. |
| `PixelArray.CountPush` | src/transform.rs:353-357 | Pushing an unchecked cell does not change the count of checked cells on the stack. |
| `PixelArray.PixelArray.constructor` | src/transform.rs:144-158 | A new canvas has no pixels. |
| `PixelArray.PixelArray.Insert` | src/transform.rs:161-164 | `insert` sets the colour of the pixel's cell, replacing any pixel already there. Every other cell is unchanged. |
| `PixelArray.PixelArray.Remove` | src/transform.rs:166-168 | `remove` empties the cell and leaves every other cell unchanged. |
| `PixelArray.PixelArray.Get` | src/transform.rs:170-172 | `get` returns a pixel exactly when the cell is painted, and then it is that cell's pixel and colour. |
| `PixelArray.PixelArray.GetBounds` | src/transform.rs:302-331 | `get_bounds` returns (-1, -1), (1, 1) for an empty canvas, and otherwise the smallest box holding every pixel. |
| `PixelArray.PixelArray.PushNeighbours` | src/transform.rs:351-355 | The inner loop of `fill` pushes exactly the unchecked 4-neighbours that have the old colour. The neighbours are computed in `i16`, so at the edge of the range they wrap around, as in a release build. |
| `PixelArray.EdgeWrapEncloses` | src/transform.rs:351 | On pixels at (32767,0), (32767,2), (32766,1) and (-32768,1), the `i16` wrap walls the empty cell (32767,1) in: its region is that cell alone and lies inside the bounds (-32768,0)..(32767,2), so `fill` from it recolours it. |
| `PixelArray.PixelArray.Flood` | src/transform.rs:337-364 | The worklist loop of `fill` collects exactly the 4-connected region of the start cell's colour, with neighbours wrapping at the `i16` edge. It collects nothing when that region reaches outside the bounds. |
| `PixelArray.PixelArray.FloodEscapes` | src/transform.rs:347-351 | Popping a cell outside the bounds proves the region is not enclosed. |
| `PixelArray.PixelArray.FloodDone` | src/transform.rs:345-364 | When the stack runs dry, the checked cells are exactly the region, and the region is enclosed. |
| `PixelArray.PixelArray.FloodProgress` | src/transform.rs:345-364 | Every iteration of the worklist loop decreases its measure, so the loop ends. |
| `PixelArray.PixelArray.FloodStep` | src/transform.rs:345-364 | Popping a cell and pushing its unchecked same-coloured neighbours keeps the loop invariant. |
| `PixelArray.PixelArray.RegionChecked` | src/transform.rs:345-364 | A closed set of checked cells that holds the seed holds its whole region. |
| `PixelArray.PixelArray.PushedInRegion` | src/transform.rs:353-357 | Cells pushed while processing a region cell are region cells. |
| `PixelArray.PixelArray.StayClosed` | src/transform.rs:353-362 | After a step, every checked cell's same-coloured neighbours are checked or on the stack. |
| `PixelArray.PixelArray.Fill` | src/transform.rs:333-374 | `fill` recolours, or erases when the colour is `None`, exactly the 4-connected region of the start cell's colour (neighbours wrapping at the `i16` edge), when that region stays inside the bounds. Otherwise it changes nothing. |
| `PixelArray.PixelArray.Line` | src/transform.rs:376-389 | `line` recolours, or erases, exactly the cells of the Bresenham line from start to end. |
| `HexInput.Keep` | src/ui/main/draw/sidebar/hex_input.rs:49-50 | Defines what one typed character does: it is appended upper-cased when it is a hex digit and the text is shorter than seven. Specified through `Typed` and `TypedSpec`. |
| `HexInput.PickerAfter` | src/ui/main/draw/sidebar/hex_input.rs:47-55 | Defines the picker after the character loop. Specified by `PickerSetOnSeventh`. |
| `HexInput.Mirror` | src/ui/main/draw/sidebar/hex_input.rs:63-67 | Defines the inactive text: the picker colour formatted, or `NA`. Stated by `FrameSpec`. |
| `HexInput.Frame` | src/ui/main/draw/sidebar/hex_input.rs:27-67 | Defines one `update` of the box. Specified by `FrameSpec`, `ClickResets` and `PickerSetOnSeventh`; `HexInput.Update` is proved to leave its result. |
| `HexInput.ToUpper` | src/ui/main/draw/sidebar/hex_input.rs:50 | `to_ascii_uppercase` turns a hex digit into an upper-case digit of the same value. |
| `HexInput.ParseHexBound` | src/ui/main/draw/sidebar/hex_input.rs:51-53 | n hex digits are worth less than 16^n, so six digits always fit in a `u32`. |
| `HexInput.HexRgba` | src/ui/main/draw/sidebar/hex_input.rs:51-53 | The colour of a complete `#RRGGBB` text is opaque. |
| `HexInput.Typed` | src/ui/main/draw/sidebar/hex_input.rs:47-55 | The character loop keeps the text `#` plus at most six upper-case digits, and never shortens it. |
| `HexInput.HexDigitsOf` | src/ui/main/draw/sidebar/hex_input.rs:49-50 | The accepted characters are upper-case hex digits. |
| `HexInput.TypedSpec` | src/ui/main/draw/sidebar/hex_input.rs:47-55 | After typing, the text is the old text followed by the typed hex digits, upper-cased and in order, cut at seven characters. |
| `HexInput.Pop` | src/ui/main/draw/sidebar/hex_input.rs:57-62 | Backspace drops the last character. When that would empty the text, the text is `#` instead. |
| `HexInput.FrameSpec` | src/ui/main/draw/sidebar/hex_input.rs:27-67 | Every frame keeps the text well formed while active. The box is active afterwards only if it is on the last-touch path and was already active or was clicked. While inactive the text mirrors the picker colour, or reads `NA`. |
| `HexInput.ClickResets` | src/ui/main/draw/sidebar/hex_input.rs:33-38 | A click that keeps the box active empties the text to `#`, clears the picker and discards the characters queued that frame. |
| `HexInput.PickerSetOnSeventh` | src/ui/main/draw/sidebar/hex_input.rs:47-55 | While typing, the picker is set exactly when the last character completes the seventh place, and then to the colour the text spells. Any other typed character clears it. |
| `HexInput.HexInput.constructor` | src/ui/main/draw/sidebar/hex_input.rs:13-24 | The box starts inactive with text `#` in its fixed rectangle. |
| `HexInput.HexInput.Update` | src/ui/main/draw/sidebar/hex_input.rs:27-67 | `update` leaves the text, flag and picker colour that `Frame` gives, and keeps the invariant. |
| `HexInput.HexInput.TypeChars` | src/ui/main/draw/sidebar/hex_input.rs:47-55 | The character loop leaves the text of `Typed` and the picker of `PickerAfter`. |
| `HexInput.HexInput.HitDetect` | src/ui/main/draw/sidebar/hex_input.rs:87-93 | The hit path is the box alone exactly when the point is inside it, and empty otherwise. |
| `SettingsShortcuts.Prettify` | src/ui/main/settings/shortcuts.rs:9-25 | Defines the readable form of a key name. Specified by `PrettifySpec`; `PrettifyCamelCase` is proved to compute it. |
| `SettingsShortcuts.ShortcutToString` | src/ui/main/settings/shortcuts.rs:5-7 | Defines `shortcut_to_string`: the key names joined with ` + `. Specified by `ShortcutToStringSpec`. |
| `SettingsShortcuts.RowStep` | src/ui/main/settings/shortcuts.rs:50-85 | Defines one row of the loop: the new rebinding state and the table edits. Specified by `RowStepSpec`; `Shortcuts.Row` is proved to follow it. |
| `SettingsShortcuts.Rows` | src/ui/main/settings/shortcuts.rs:49-86 | Defines the loop over the rows. Specified by `RowsActiveTouched`; `Shortcuts.Update` is proved to follow it. |
| `SettingsShortcuts.PrettifyCamelCase` | src/ui/main/settings/shortcuts.rs:9-25 | The loop of `prettify_camel_case` computes the readable form: the first character as is, and a space before every later upper-case letter. |
| `SettingsShortcuts.SpreadSnoc` | src/ui/main/settings/shortcuts.rs:17-22 | One more loop iteration appends exactly that character's piece. |
| `SettingsShortcuts.SpreadLength` | src/ui/main/settings/shortcuts.rs:10 | The pieces are one character longer per upper-case letter, which is the capacity the source reserves. |
| `SettingsShortcuts.UnspaceUpper` | src/ui/main/settings/shortcuts.rs:18-21 | Removing the inserted spaces undoes a space-and-capital piece. |
| `SettingsShortcuts.UnspaceOther` | src/ui/main/settings/shortcuts.rs:21 | Removing the inserted spaces leaves any other character alone. |
| `SettingsShortcuts.SpreadUnspace` | src/ui/main/settings/shortcuts.rs:17-22 | Removing the inserted spaces from the pieces gives back the characters. |
| `SettingsShortcuts.PrettifySpec` | src/ui/main/settings/shortcuts.rs:9-25 | Prettifying loses nothing: deleting the inserted spaces gives back the input. The empty name stays empty. Otherwise the first character is kept and the length grows by the number of later capitals. |
| `SettingsShortcuts.KeyNames` | src/ui/main/settings/shortcuts.rs:5-7 | Each key of the chord gets its prettified `Debug` name, in chord order. |
| `SettingsShortcuts.JoinAppend` | src/ui/main/settings/shortcuts.rs:6 | Joining two non-empty runs of parts puts one separator between them. |
| `SettingsShortcuts.JoinSnoc` | src/ui/main/settings/shortcuts.rs:6 | Joining one more part adds a separator and the part. |
| `SettingsShortcuts.ShortcutToStringSpec` | src/ui/main/settings/shortcuts.rs:5-7 | `shortcut_to_string` writes the empty chord as the empty string and one key as its readable name. Two chords written in sequence are joined by ` + `. |
| `SettingsShortcuts.RowsDisjoint` | src/ui/main/settings/shortcuts.rs:52-53 | The rows' chord boxes do not overlap, so at most one row is under the last-touch position. |
| `SettingsShortcuts.RowStepSpec` | src/ui/main/settings/shortcuts.rs:55-85 | An active row whose held key set shrank commits the chord held before for its instruction and becomes disabled. An active row no longer under the last-touch position becomes `New`. A disabled row never commits. A row comes out active only when touched, and otherwise leaves another row's state alone. |
| `SettingsShortcuts.RowsActiveTouched` | src/ui/main/settings/shortcuts.rs:49-86 | After the whole loop, an active row is one under the last-touch position. |
| `SettingsShortcuts.Shortcuts.constructor` | src/ui/main/settings/shortcuts.rs:38-44 | The page starts with no row being rebound. |
| `SettingsShortcuts.Shortcuts.Update` | src/ui/main/settings/shortcuts.rs:47-87 | `update` leaves the state and emits, in order, the table edits of the row loop. |
| `SettingsShortcuts.Shortcuts.Row` | src/ui/main/settings/shortcuts.rs:50-85 | One iteration: the Remove button, then the chord box, as `RowStep`. |
| `SelectFolder.Without` | src/ui/main/export/select_folder.rs:27 | Defines `retain(\|d\| *d != folder)`. Specified by `WithoutCount`, `WithoutSubseq` and `WithoutLength`. |
| `SelectFolder.Pick` | src/ui/main/export/select_folder.rs:27-31 | Defines the list after a pick. Specified by `PickSpec`. |
| `SelectFolder.Remove` | src/ui/main/export/select_folder.rs:49 | Defines `VecDeque::remove(index)`. Specified by `SubseqRemove` and `MoveToFrontCounts`. |
| `SelectFolder.MoveToFront` | src/ui/main/export/select_folder.rs:49-50 | Defines the list after a row click. Specified by `MoveToFrontSpec`. |
| `SelectFolder.AfterPick` | src/ui/main/export/select_folder.rs:24-34 | Defines the pick button's effect. Stated by `FrameSpec`. |
| `SelectFolder.AfterRows` | src/ui/main/export/select_folder.rs:38-53 | Defines the row loop. Specified by `AfterRowsSpec`. |
| `SelectFolder.Frame` | src/ui/main/export/select_folder.rs:17-74 | Defines one `update`. Specified by `FrameSpec`; `SelectFolder.Update` is proved to leave its result. |
| `SelectFolder.SubseqRefl` | src/ui/main/export/select_folder.rs:27 | Every list is an ordered sub-list of itself. |
| `SelectFolder.SubseqPrefix` | src/ui/main/export/select_folder.rs:29-31 | A prefix of an ordered sub-list is an ordered sub-list. |
| `SelectFolder.SubseqRemove` | src/ui/main/export/select_folder.rs:49 | `remove(i)` leaves an ordered sub-list. |
| `SelectFolder.WithoutCount` | src/ui/main/export/select_folder.rs:27 | `retain` drops every copy of the folder and keeps every other folder as often as before. |
| `SelectFolder.WithoutSubseq` | src/ui/main/export/select_folder.rs:27 | `retain` keeps the other folders in their order. |
| `SelectFolder.WithoutLength` | src/ui/main/export/select_folder.rs:27 | `retain` never lengthens the list. |
| `SelectFolder.PrefixCount` | src/ui/main/export/select_folder.rs:29-31 | Cutting the last entry never adds copies of anything. |
| `SelectFolder.PickCount` | src/ui/main/export/select_folder.rs:27-31 | After a pick the folder is listed exactly once, and no other folder more often than before. |
| `SelectFolder.PickSpec` | src/ui/main/export/select_folder.rs:27-31 | A pick puts the folder first and lists it once. The rest are the other folders in their old order, cut to ten entries in all. A list of at most ten stays at most ten, and a list without duplicates stays without. |
| `SelectFolder.PickOrder` | src/ui/main/export/select_folder.rs:27-31 | The order and length half of `PickSpec`. |
| `SelectFolder.PickCounts` | src/ui/main/export/select_folder.rs:27-31 | The multiplicity half of `PickSpec`. |
| `SelectFolder.MoveToFrontSpec` | src/ui/main/export/select_folder.rs:49-50 | Clicking a row moves that folder to the front. The list keeps its length and its contents as a multiset, the others keep their order, and no duplicates appear. |
| `SelectFolder.MoveToFrontCounts` | src/ui/main/export/select_folder.rs:49-50 | Moving to the front is a permutation. |
| `SelectFolder.RectsApart` | src/ui/main/export/select_folder.rs:18-42 | The pick button and the rows do not overlap, and no two rows do. |
| `SelectFolder.AfterRowsSpec` | src/ui/main/export/select_folder.rs:38-53 | The row loop either changes nothing, when no row is clicked, or moves the one clicked row's folder to the front, selects it and sets the changed flag. |
| `SelectFolder.FrameSpec` | src/ui/main/export/select_folder.rs:17-74 | A frame does nothing, or picks the dialog's folder, or moves one listed folder to the front. After a change the export path is the new first entry and the changed flag is set. |
| `SelectFolder.ExportSettings.constructor` | src/ui/main/export/select_folder.rs:19-21 | The export settings hold the path, with the changed flag clear. |
| `SelectFolder.PickFolder` | src/ui/main/export/select_folder.rs:27-33 | The pick branch updates the save data's folder list in place as `Pick` and selects the folder. The shortcut table is untouched. |
| `SelectFolder.Update` | src/ui/main/export/select_folder.rs:17-74 | `update` leaves the list, path and flag that `Frame` gives, and does not touch the shortcut table. |
| `LoaderCommon.Extension` | src/ui/main/export/preview/process.rs:316 | Defines `Path::extension` of a file name. Specified by `ExtensionOf` and `NoExtension`. |
| `LoaderCommon.IsLikelyImageFile` | src/ui/main/export/preview/process.rs:315-327 | Defines `is_likely_image_file`. Specified by `IsLikelyImageFileSpec` and `CaseInsensitive`. |
| `LoaderCommon.LastDot` | src/ui/main/export/preview/process.rs:316 | The index of the last `.` in a name, or -1 when there is none. |
| `LoaderCommon.Lower` | src/ui/main/export/preview/process.rs:317 | Lower-casing, of ASCII letters only, keeps the length and lowers each character. |
| `LoaderCommon.ExtensionOf` | src/ui/main/export/preview/process.rs:316 | A name with a non-empty stem has as its extension exactly the text after its last `.`. |
| `LoaderCommon.NoExtension` | src/ui/main/export/preview/process.rs:316 | A name with no `.` after its first character has no extension. |
| `LoaderCommon.IsLikelyImageFileSpec` | src/ui/main/export/preview/process.rs:315-327 | A file is likely an image exactly when its lower-cased extension is one of the fifteen listed. A path without a file name is not. |
| `LoaderCommon.LowerLastDot` | src/ui/main/export/preview/process.rs:316-317 | Lower-casing does not move the last `.`. |
| `LoaderCommon.LowerCharTwice` | src/ui/main/export/preview/process.rs:317 | Lower-casing a character is idempotent. |
| `LoaderCommon.LowerTwice` | src/ui/main/export/preview/process.rs:317 | Lower-casing a lower-cased suffix changes nothing. |
| `LoaderCommon.CaseInsensitive` | src/ui/main/export/export_settings/process.rs:141-153 | The test ignores case: a name and its lower-cased form get the same answer. |
| `PreviewLoader.Receive` | src/ui/main/export/preview/process.rs:163-181 | Defines one received message: the new fields and whether the loop stops. Stated through `DrainCounts` and `DrainStops`. |
| `PreviewLoader.Drain` | src/ui/main/export/preview/process.rs:162-182 | Defines the receiving loop. Specified by `DrainCounts` and `DrainStops`; `AsyncTextureLoader.GetStatus` is proved to follow `Poll`, which runs it. |
| `PreviewLoader.Poll` | src/ui/main/export/preview/process.rs:160-161 | `get_status` receives nothing once the loader is done, failed, cancelled or failed to save. |
| `PreviewLoader.DrainCounts` | src/ui/main/export/preview/process.rs:162-182 | The loop receives a prefix of the channel. `loaded` grows by the counts of its progress messages, and the textures by its images, in order. |
| `PreviewLoader.DrainStops` | src/ui/main/export/preview/process.rs:162-182 | The loop stops early only right after an error, leaving that error, or after a `Done` with textures present, leaving `Done`. No error comes before the last received message. |
| `PreviewLoader.AsyncTextureLoader.constructor` | src/ui/main/export/preview/process.rs:126-149 | `new` starts loading with progress 0 of 1, "Initialising.", no textures and nothing loaded. |
| `PreviewLoader.AsyncTextureLoader.Cancel` | src/ui/main/export/preview/process.rs:151-154 | `cancel` sets `Cancelled` and keeps the rest. Afterwards `get_status` receives nothing. |
| `PreviewLoader.AsyncTextureLoader.GetStatus` | src/ui/main/export/preview/process.rs:160-185 | `get_status` leaves exactly the state and unreceived messages of `Poll`, and returns the new status. |
| `PreviewLoader.AsyncTextureLoader.ResetSaveErr` | src/ui/main/export/preview/process.rs:187-193 | `reset_save_err` turns a save error into `Done` and keeps the rest. From any other status it panics (precondition). |
| `ExportLoader.Receive` | src/ui/main/export/export_settings/process.rs:121-129 | Defines one received message: the new fields and whether the loop stops. Stated through `DrainCounts`, `DrainOutcome` and `CancelledReceives`. |
| `ExportLoader.Drain` | src/ui/main/export/export_settings/process.rs:120-130 | Defines the receiving loop. Specified by `DrainCounts`, `DrainOutcome` and `NeverCancels`; `AsyncTextureLoader.GetStatus` is proved to follow `Poll`, which runs it. |
| `ExportLoader.Poll` | src/ui/main/export/export_settings/process.rs:118-119 | `get_status` receives nothing once the loader is done or failed. |
| `ExportLoader.DrainCounts` | src/ui/main/export/export_settings/process.rs:120-130 | The loop receives the channel up to and including the first `Done` or `Error`, or all of it when there is none. `loaded` grows by the received progress counts. |
| `ExportLoader.DrainOutcome` | src/ui/main/export/export_settings/process.rs:120-130 | Stopping on `Done` leaves `Done` with the texture list handed over (emptied). Stopping on an error leaves that error. Receiving everything leaves the textures grown by the images, in order. |
| `ExportLoader.NeverCancels` | src/ui/main/export/export_settings/process.rs:120-130 | The receiving loop never produces `Cancelled`. |
| `ExportLoader.CancelledReceives` | src/ui/main/export/export_settings/process.rs:113-124 | A cancelled loader still receives: a later progress report puts it back to loading, and it does not return to `Cancelled`. |
| `ExportLoader.AsyncTextureLoader.constructor` | src/ui/main/export/export_settings/process.rs:95-111 | `new` starts loading with progress 0 of 1, "Initialising.", no textures and nothing loaded. |
| `ExportLoader.AsyncTextureLoader.Cancel` | src/ui/main/export/export_settings/process.rs:113-116 | `cancel` sets `Cancelled` and keeps the rest. |
| `ExportLoader.AsyncTextureLoader.GetStatus` | src/ui/main/export/export_settings/process.rs:118-133 | `get_status` leaves exactly the state and unreceived messages of `Poll`, and returns the new status. |
| `Save.Save.constructor` | src/ui/main/draw/sidebar/save.rs:16-25 | The button's rectangle is fixed. |
| `Save.Save.Update` | src/ui/main/draw/sidebar/save.rs:28-33 | `LastTouch` becomes the node's last-touch test and `PrevTouch` its previous-last-touch test. |
| `Save.Save.HitDetect` | src/ui/main/draw/sidebar/save.rs:50-56 | The hit path is the button alone exactly when the point is inside it, and empty otherwise. |
| `Save.New` | src/ui/main/draw/sidebar/save.rs:16-25 | `Save::new` registers two distinct flags, both false, and builds the button. |
| `Save.FlagsAcrossFrames` | src/ui/main/draw/sidebar/save.rs:30-32 | On a frame that starts a left press, `PrevTouch` takes the `LastTouch` of the frame before, and `LastTouch` says whether the press landed on the button. On any other frame both keep their values. |
| `SaveGrid.CellRect` | src/ui/main/draw/sidebar/save_grid.rs:26-30 | Defines the square of each cell. Specified by `CellsApart`. |
| `SaveGrid.NewCell` | src/ui/main/draw/sidebar/save_grid.rs:29-39 | Defines a cell after the frame. Stated by `FrameSpec`; `SaveGrid.Update` is proved to leave it. |
| `SaveGrid.PickerRow` | src/ui/main/draw/sidebar/save_grid.rs:25-43 | Defines the picker after one row of the loop. Specified by `PickerRowOne` and `PickerRowNone`. |
| `SaveGrid.PickerGrid` | src/ui/main/draw/sidebar/save_grid.rs:24-49 | Defines the picker after the whole loop. Specified by `PickerGridOne` and `PickerGridNone`. |
| `SaveGrid.CellsApart` | src/ui/main/draw/sidebar/save_grid.rs:26-30 | The cells do not overlap, and all of them lie inside the grid's rectangle. |
| `SaveGrid.PickerRowOne` | src/ui/main/draw/sidebar/save_grid.rs:25-43 | With one cell clicked, a row of the loop loads that cell into the picker exactly when it is in the row and `PrevTouch` is clear. |
| `SaveGrid.PickerRowNone` | src/ui/main/draw/sidebar/save_grid.rs:25-43 | A row with no cell clicked leaves the picker alone. |
| `SaveGrid.PickerGridOne` | src/ui/main/draw/sidebar/save_grid.rs:24-49 | With one cell clicked, the whole loop loads that cell into the picker exactly when `PrevTouch` is clear. |
| `SaveGrid.PickerGridNone` | src/ui/main/draw/sidebar/save_grid.rs:24-49 | With no cell clicked, the picker is left alone. |
| `SaveGrid.FrameSpec` | src/ui/main/draw/sidebar/save_grid.rs:19-50 | A click on a cell with `PrevTouch` set stores the picker's colour in that cell only, or nothing when the picker has none. Without `PrevTouch` it loads the cell, empty or not, into the picker and leaves the grid alone. Without a click nothing changes. |
| `SaveGrid.SaveGrid.Contents` | src/ui/main/draw/sidebar/save_grid.rs:6 | The cells read as six rows of four. |
| `SaveGrid.SaveGrid.constructor` | src/ui/main/draw/sidebar/save_grid.rs:9-16 | Every cell starts empty, in the fixed rectangle. |
| `SaveGrid.SaveGrid.Update` | src/ui/main/draw/sidebar/save_grid.rs:19-50 | The nested loop leaves every cell as `NewCell` and the picker as `PickerGrid`, computed from the cells before the frame. |
| `SaveGrid.SaveGrid.HitDetect` | src/ui/main/draw/sidebar/save_grid.rs:52-58 | The hit path is the grid alone exactly when the point is inside it, and empty otherwise. |
| `DrawStateButton.Toggled` | src/ui/main/draw/sidebar/draw_state_button.rs:56-62 | Asking for a tool selects it, unless it is already selected; then the result is plain drawing. |
| `DrawStateButton.ToggledTwice` | src/ui/main/draw/sidebar/draw_state_button.rs:56-62 | Asking for the same tool twice returns to where it started, when that was the tool or plain drawing. |
| `DrawStateButton.DrawStateButton.constructor` | src/ui/main/draw/sidebar/draw_state_button.rs:30-39 | The button keeps its label, rectangle and tool. |
| `DrawStateButton.DrawStateButton.Update` | src/ui/main/draw/sidebar/draw_state_button.rs:42-63 | On a click (last-touched, hovered, released) the stored tool is toggled against the button's tool. Otherwise it is unchanged. |
| `DrawStateButton.DrawStateButton.HitDetect` | src/ui/main/draw/sidebar/draw_state_button.rs:65-71 | The hit path is the button alone exactly when the point is inside it, and empty otherwise. |
| `TabContainers.ActiveTab` | src/ui/main/mod.rs:59-65 | Defines the tab `Main` dispatches to: the one a pressed `GoTo` names, otherwise the stored status. Stated by `MainUpdate`, `MainSchedule` and `Frames.FrameUpdate`. |
| `TabContainers.StatusAfter` | src/ui/main/mod.rs:66-68 | The status `Main` leaves is never Export, and it is Draw exactly when the frame was on Draw or Export. |
| `TabContainers.MainUpdate` | src/ui/main/mod.rs:58-70 | A `GoTo` shortcut selects its tab. The active tab is updated, and Export is reset to Draw. An index past the four children panics (precondition). |
| `TabContainers.ExportForOneFrame` | src/ui/main/mod.rs:59-68 | Export is shown exactly when the frame starts at it or `GoTo(Export)` is pressed, and the next frame starts at Draw. A status below 3 stays below 3. |
| `TabContainers.TabsHitDetect` | src/ui/main/mod.rs:72-80 | A tab container's path is the topbar's path when the topbar is hit, otherwise the active child's, then the container itself. An inactive tab is never on it. |
| `TabContainers.MainHitDetect` | src/ui/main/mod.rs:72-80 | `Main::hit_detect`: the topbar first, then the tab in slot 0, then `Main`. |
| `TabContainers.SettingsHitDetect` | src/ui/main/settings/mod.rs:36-44 | `Settings::hit_detect`: the topbar, then the child named by slot 1, then `Settings`. |
| `TabContainers.ExportHitDetect` | src/ui/main/export/mod.rs:50-58 | `Export::hit_detect`: the topbar, then the child named by slot 1, then `Export`. |
| `TabContainers.MainSchedule` | src/ui/main/mod.rs:58-70 | In update order `Main` is followed by the dispatched tab's subtree and then the topbar's, and by nothing of the other tabs. |
| `TabContainers.SubSchedule` | src/ui/main/settings/mod.rs:27-34 | `Settings` and `Export` update the child named by slot 1, then the topbar. With status 1 the topbar is updated twice. |
| `DrawSection.Shortcut` | src/ui/main/draw/draw_section.rs:42-50 | Defines the tool shortcuts. Stated by `DrawSection.ApplyShortcut`, `PickerChanges` and `FrameInactive`. |
| `DrawSection.GridStep` | src/ui/main/draw/draw_section.rs:80-89 | Defines the grid shortcut's step. Specified by `GridCycle` and `GridNeverBoth`. |
| `DrawSection.PencilPaint` | src/ui/main/draw/draw_section.rs:95-111 | Defines the pencil. Specified by `FrameTouches`, `DragJoins` and `StrokeEnds`. |
| `DrawSection.PickerPaint` | src/ui/main/draw/draw_section.rs:112-119 | Defines the colour picker tool. Specified by `PaintPicker` and `ToolsReturn`. |
| `DrawSection.FillPaint` | src/ui/main/draw/draw_section.rs:120-126 | Defines the bucket. Specified by `ToolsReturn` and `FrameEdits`. |
| `DrawSection.LinePaint` | src/ui/main/draw/draw_section.rs:127-141 | Defines the line tool. Specified by `LineOnRelease`. |
| `DrawSection.Paint` | src/ui/main/draw/draw_section.rs:93-142 | Defines the dispatch on the tool. Specified by `PaintKeepsGrid` and `PaintPicker`. |
| `DrawSection.Frame` | src/ui/main/draw/draw_section.rs:29-144 | Defines one `update` of the section. Specified by `FrameInactive`, `FrameEdits`, `FrameTouches`, `GridNeverBoth` and `PickerChanges`; `DrawSection.Update` is proved to follow it. |
| `DrawSection.GridCycle` | src/ui/main/draw/draw_section.rs:80-89 | The grid shortcut never turns on both overlays. Each step changes the overlay, and three steps come back to where they started. |
| `DrawSection.GridNeverBoth` | src/ui/main/draw/draw_section.rs:80-89 | The grid lines and the checkerboard are never on together: not after `new`, and no frame turns on both. |
| `DrawSection.PaintKeepsGrid` | src/ui/main/draw/draw_section.rs:93-142 | The tools leave the overlay alone. |
| `DrawSection.FrameInactive` | src/ui/main/draw/draw_section.rs:38-51 | A section that is not both held and hovered edits nothing and keeps its overlay and line start. It forgets the last painted cell, and only the shortcuts act. |
| `DrawSection.FrameEdits` | src/ui/main/draw/draw_section.rs:42-142 | The canvas is edited only by an active section, and always in the picker colour the shortcuts leave. |
| `DrawSection.FrameTouches` | src/ui/main/draw/draw_section.rs:38-111 | The last painted cell is kept exactly when the pencil is held over a cell of an active section, and then it is that cell. The edit is a stroke from the previous frame's cell, or a single pixel when there was none. |
| `DrawSection.DragJoins` | src/ui/main/draw/draw_section.rs:95-111 | Over two consecutive pencil frames, the second one strokes from the first one's cell to its own, so a drag leaves no gaps. |
| `DrawSection.StrokeEnds` | src/ui/main/draw/draw_section.rs:104-107 | A stroke colours both of its ends. |
| `DrawSection.ToolsReturn` | src/ui/main/draw/draw_section.rs:112-126 | Apart from the shortcuts, the tool changes only from the picker or the bucket, and back to the pencil. The picker returns on release. The bucket returns, flooding from the cell under the mouse, on a held button over a cell. |
| `DrawSection.LineOnRelease` | src/ui/main/draw/draw_section.rs:127-141 | With the line tool, a press records the cell as the start. A release forgets the start. The only edit is a stroke from the recorded start to the released cell, made on a release. |
| `DrawSection.PickerChanges` | src/ui/main/draw/draw_section.rs:42-119 | Besides the eraser shortcut, only the picker tool changes the picker colour, and only to the pixel under the mouse. After the eraser the colour is set only by sampling a pixel. |
| `DrawSection.PaintPicker` | src/ui/main/draw/draw_section.rs:93-142 | Among the tools, only the colour picker changes the picker colour, and only to a sampled pixel. |
| `DrawSection.DrawSection.constructor` | src/ui/main/draw/draw_section.rs:14-25 | Grid lines off, checkerboard on, no line start, no last painted cell. |
| `DrawSection.DrawSection.ApplyShortcut` | src/ui/main/draw/draw_section.rs:42-50 | A tool shortcut toggles the stored tool, the eraser empties the picker colour, and any other instruction changes neither. |
| `DrawSection.DrawSection.CycleGrid` | src/ui/main/draw/draw_section.rs:80-89 | The overlay takes its next step; the line start and last painted cell are kept. |
| `DrawSection.DrawSection.PaintStep` | src/ui/main/draw/draw_section.rs:93-142 | The fields, tool and picker colour become those of `Paint`, and the canvas receives its edit. |
| `DrawSection.DrawSection.PencilStep` | src/ui/main/draw/draw_section.rs:95-111 | The fields become those of `PencilPaint`, and the canvas receives its put or stroke. |
| `DrawSection.DrawSection.PickerStep` | src/ui/main/draw/draw_section.rs:112-119 | On release the picker samples the pixel under the mouse and the tool returns to the pencil. The canvas is untouched. |
| `DrawSection.DrawSection.FillStep` | src/ui/main/draw/draw_section.rs:120-126 | On a held button over a cell, the canvas is flooded from it and the tool returns to the pencil. |
| `DrawSection.DrawSection.LineStep` | src/ui/main/draw/draw_section.rs:127-141 | The line start and the canvas change as `LinePaint` says. |
| `DrawSection.DrawSection.Update` | src/ui/main/draw/draw_section.rs:29-144 | One frame leaves the fields, tool and picker colour as `Frame` computes them, and the canvas receives `Frame`'s edit. |
| `DrawSection.DrawSection.HitDetect` | src/ui/main/draw/draw_section.rs:146-148 | The drawing area always reports itself. |
| `DrawSection.New` | src/ui/main/draw/draw_section.rs:14-25 | `new` builds the section with its initial fields and registers an empty canvas. |

## Findings

| source | as written | input that shows it | evidently intended | confidence | as-written member | corrected member |
|---|---|---|---|---|---|---|
| src/bresenham.rs:23-126 | `from_points` and `new` subtract `i16` coordinates in `i16`. A release build wraps modulo 2^16, so a segment wider than 32767 cells gets the wrong octant. Its iterator then starts past its last column. A debug build panics instead. | start (-20000, 0), end (20000, 0): the extent 40000 wraps to -25536, the segment is put in octant 3, and the first `next` returns `None`. | The iterator yields both endpoints and every cell between them (lines 82-83), here 40001 points. | not executed; the canvas accepts every `i16` cell, but such a segment needs two cells more than 32767 apart | `BresenhamI16.WideLineIsEmpty` | `Bresenham.LineEndpoints` |

## Left out

- Rendering: every draw call, including the canvas, the grid and checkerboard overlays, and the line tool's preview into a fresh array.
- The topbar and `ChangeStatus`: the code is not part of this model. The tab status is an input. Whether the topbar lets the sidebar be hovered (`HoverPossible`) is an input too.
- The `status` module is not part of this model. A slot's value is a function `status(slot)`, or an `Entry<nat>` where `Main` writes it.
- The view `Transform` (zoom, scroll, pan and `screen_to_world`) is floating-point geometry. The canvas cell under the mouse is an input, absent when it is outside the `i16` range.
- Floating point: colour channels are reals, and `f32` rounding is not modelled. The HSV and OkLab conversions are passed in as functions.
- Macroquad input queries (mouse, buttons, keys, typed characters, wheel, screen size) are an input snapshot.
- Loader threads, channels and the `CancelToken`: a channel is the finite sequence of messages sent and not yet received, and `cancel` only sets the status.
- The folder walk (`read_dir`), `export_png`, `save_img` and `generate_image`: they are I/O and random sampling.
- `LoaderCommon.Lower` lowercases ASCII letters only. Rust's `to_lowercase` maps all of Unicode and can change the length ('İ' becomes two characters). None of the extra characters lowercases into an ASCII letter of the fifteen extensions, so `LoaderCommon.IsLikelyImageFile` gives the same answer.
- A path is given by its file name, an input. Path splitting is not modelled.
- `PreviewLoader` and `ExportLoader` keep `loaded` as an unbounded count: `usize` overflow is not modelled. The fraction shown while loading is not modelled.
- The "Open folder" button of the folder list calls `opener`, a foreign call.
- The folder dialog of `SelectFolder` is an input: what it returned, if it was opened.
- `string_to_shortcut` and `shortcut_to_string` as used by src/node/save_file.rs are the parameters `parse` and `show`. JSON encoding and the file system are left out: `SaveFile.Recover` receives what reading the file produced.
- The error message texts of `SaveFile` are not modelled, only which error occurs.
- `get_shortcuts` and `discard` are not part of this model. `SettingsShortcuts` returns the table edits a frame makes, in order, instead of applying them.
- `SaveGrid.CellClicked`: src/ui/main/draw/sidebar/save_grid.rs calls `col_button` with the cell's rectangle and the mouse position (absent when `HoverPossible` is false), where src/helpers.rs takes a hovered flag. The two files come from different snapshots. The model reads the call as: the cell is hovered when hovering is possible and the cell's rectangle contains the mouse.
- `DrawSection` returns the canvas edit of a frame as an `Edit`. `DrawSection.DrawSection.Update` applies it to the stored canvas.
- `AsAny` downcasts and `Rc`/`Weak` upgrades: a node is an id in an arena, and a node's kind is given.
- The `LoaderWrapper` glue, src/main.rs, src/ui/mod.rs, the logging in src/debug.rs and the `tuple_deref` macro are plumbing with no logic of their own.
- The Draw stack (src/ui/main/draw/mod.rs) and the sidebar panel (src/ui/main/draw/sidebar/mod.rs) appear only as the `Stack` and `Panel` node kinds of `NodeTree`.
- Debug-build overflow panics are not modelled; the model follows the release build's wrap-around. Where the source relies on a fixed width, the model writes it out: the `u32` shift of `Colour.ShiftInAlphaBytes`, the `i16` neighbours of `PixelArray.Neighbour`, and the `i16` arithmetic of module `BresenhamI16`. `Bresenham` itself works on unbounded integers, as below.
- `Bresenham` works on unbounded integers. Module `BresenhamI16` models the release build's `i16` wrap-around, and states only where it agrees with the unbounded model and where it does not.

Behaviour of the code worth noting:

- `hit_detect_children_and_self` always appends the node itself, so its path is never empty.
- `Settings` and `Export` read the same status slot (1).
- Export's topbar has three labels but `Export` has only two children, so a status of 2 would index out of range. It is a precondition.
- In the preview loader, `Done` with no textures sets the error status but does not stop receiving for that frame.
- The export settings loader does not treat `Cancelled` as final: a later message replaces it.
- `SaveFile.Recover` propagates the error of a file that fails validation.
- The save-file map is keyed by chord string, with the instruction as value.
