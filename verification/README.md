# Lexi toolbar logic in Dafny

Lexi is a React shell around the Lexical rich-text editor. Its own logic is
the part that sits between the editor and the buttons. This project models
that logic and proves properties of it:

- how the toolbars turn the current selection into a record of flags
  (`updateToolbar`);
- how that record is merged on each notification (selection change,
  `CAN_UNDO`, `CAN_REDO`);
- which editor command each button or dialog submit dispatches;
- the URL and colour validators;
- the image node's JSON form;
- the floating toolbar that follows a text selection.

The editor's document is an abstract node tree: a map from node key to
kind and parent. Walks up that tree carry a visited set. A walk that would
loop forever in the source ends in `Diverges` here, so every function is
total, and a run of notifications stops at the update that would hang.

Modules, one per file:

- `Common` (`common.dfy`): `Option`/`Result`, JavaScript `trim` over the exact
  ECMAScript whitespace set, `startsWith`, ASCII `toUpperCase` of one character.
- `ImageNodes` (`image_node.dfy`): `ImageNode`, its constructor, `$createImageNode`,
  `getType`, `clone`, `importJSON`, `exportJSON`, `updateDOM`.
- `Lexical` (`lexical.dfy`): the node tree, node kinds, selections, text formats and the
  editor commands the toolbars dispatch.
- `AncestorWalk` (`ancestor_walk.dfy`): the parent-chain walks (`getParent` loop of the
  link check, `getTopLevelElementOrThrow`, `$getNearestNodeOfType`) and a
  reference scan over an explicit chain.
- `ToolbarState` (`toolbar_state.dfy`): initial records, block classification, the
  selection patch, the merge store, and the numbered-list and `ListNode` findings.
  One definition serves four variants:
  - `AppToolbar`: src/App.tsx;
  - `EditorToolbar`: src/components/editor/toolbar/index.tsx;
  - `ReducedToolbar`: src/lib/t.tsx;
  - `FixedToolbar`: src/App.tsx with the corrected comparison, starting from the same record.
- `InsertDialogs` (`insert_dialogs.dfy`): `parseInt`, `toString`, the table clamp, the table
  dialog, and the image dialog's submit.
- `LinkDialogs` (`link_dialog.dfy`): `isValidURL`, the validating link dialog, and the
  plain link dialogs.
- `ToolbarCommands` (`toolbar_commands.dfy`): block, list, text-format, link, table, image and
  history buttons.
- `ColorPicker` (`color_picker.dfy`): the hex pattern (a loop with invariants), the popover
  state, and the preset swatches.
- `FloatingToolbar` (`floating_toolbar.dfy`): the `useFloatingToolbar` hook, the
  grouping reduce, the plugin's render, and the highlight command.

## Model

| member | source | states |
|---|---|---|
| Common.TrimEmptyIffBlank | src/components/editor/components/link-dialog.tsx:16-18 | `url.trim()` is empty exactly when every character is JavaScript whitespace, which is how the dialogs decide "blank" |
| Common.TrimIdempotent | src/App.tsx:426-432 | trimming already-trimmed text changes nothing |
| Common.UpperChar | src/components/editor/plugins/toolbar/extensions/text-format-buttons.tsx:35 | `toUpperCase` on one character maps `a`-`z` to `A`-`Z` and leaves every other character alone |
| ImageNodes.NewImageNode | src/components/editor/lib/nodes/ImageNode.tsx:34-38 | the constructor keeps `src`, uses `"Image"` for an omitted alt, and uses a fresh key for an omitted key |
| ImageNodes.CreateImageNode | src/components/editor/lib/nodes/ImageNode.tsx:68-70 | `$createImageNode` gives a node with that src, the given alt or `"Image"`, and a fresh key |
| ImageNodes.GetType | src/components/editor/lib/nodes/ImageNode.tsx:12-14 | the type is always `"image"` |
| ImageNodes.Clone | src/components/editor/lib/nodes/ImageNode.tsx:16-18 | a clone has the same src, alt and key |
| ImageNodes.ExportJson | src/components/editor/lib/nodes/ImageNode.tsx:25-32 | the JSON form is exactly `{type: "image", version: 1, src, alt}` |
| ImageNodes.ImportJson | src/components/editor/lib/nodes/ImageNode.tsx:20-23 | import keeps src, defaults a missing alt to `"Image"`, and gets a fresh key |
| ImageNodes.UpdateDom | src/components/editor/lib/nodes/ImageNode.tsx:46-48 | `updateDOM` never asks for the DOM to be recreated |
| ImageNodes.ImportExportRoundTrip | src/components/editor/lib/nodes/ImageNode.tsx:20-32 | importing an exported node gives back its src and alt; only the key is new |
| ImageNodes.ExportImportRoundTrip | src/components/editor/lib/nodes/ImageNode.tsx:20-32 | exporting an imported well-formed image JSON with an alt gives back the same JSON |
| ImageNodes.MissingAltDefaults | src/components/editor/lib/nodes/ImageNode.tsx:20-23 | JSON without an alt imports with alt `"Image"` and exports with that alt written out |
| Lexical.GetParent | src/App.tsx:858 | `getParent` returns the node's recorded parent when that parent exists, and nothing otherwise |
| AncestorWalk.FindUp | src/App.tsx:853-861 | a walk result that is found is a matching node, and a matching start node is found at once |
| AncestorWalk.ScanChainFindsFirst | src/App.tsx:853-861 | on an explicit parent chain, the reference scan finds a match exactly when one lies on the chain, and the one it finds is the first |
| AncestorWalk.ChainIsDistinct | src/App.tsx:853-861 | a parent chain that ends never repeats a node |
| AncestorWalk.WalkFollowsChain | src/App.tsx:853-861 | along a chain that ends at a null parent or a self-parent, the walk terminates, agrees with the reference scan, and finds a node exactly when a matching node is on the chain |
| AncestorWalk.WalkFindsFirstOnChain | src/App.tsx:833 | `$getNearestNodeOfType` returns the first matching ancestor on the chain |
| AncestorWalk.WalkFindsNearestOnChain | src/App.tsx:833 | if some node on the chain matches, the walk finds the nearest one at or before it |
| ToolbarState.AllKeysComplete | src/components/editor/lib/hooks/use-toolbar-state.ts:4-25 | the finite key set names every property a toolbar record can hold |
| ToolbarState.Initial | src/components/editor/lib/hooks/use-toolbar-state.ts:3-25 | each initial record holds exactly that variant's keys: every flag with inline code as `isCode` in src/App.tsx (lines 714-738), the same with `isTextCode` in the shared hook, and eight keys in src/lib/t.tsx (lines 450-463); none holds `fontColor` |
| ToolbarState.InitialStatesAreNeutral | src/components/editor/lib/hooks/use-toolbar-state.ts:5-24 | initially `blockType` is `"paragraph"`, `canUndo` and `canRedo` are false, and no other flag is set |
| ToolbarState.ClassifyBlock | src/App.tsx:824-845 | a successful classification on a well-typed tree is one of the block types the framework produces; a failure is a missing top-level element, an unbound `ListNode` or a cyclic parent chain |
| ToolbarState.Patch | src/App.tsx:863-887 | the patch has exactly the variant's keys; `blockType` and the link and colour values are as given; each format flag says whether the selection has it; each block flag compares `blockType` with its constant |
| ToolbarState.SelectionPatch | src/App.tsx:820-888 | a non-range selection patches nothing; a missing anchor or failed classification is an error; otherwise the patch is well shaped, carries the classified block type, and on the full toolbars carries the link walk's verdict and the colour or its default |
| ToolbarState.Step | src/App.tsx:890-929 | a notification changes only the keys it touches; `CAN_UNDO`/`CAN_REDO` set `canUndo`/`canRedo` to the payload; a non-range selection leaves the record unchanged |
| ToolbarState.SelectionUpdateReflectsSelection | src/App.tsx:820-893 | after a successful selection update, the record shows the classified block type and exactly the selection's tracked formats; on the full toolbars `isLink` is set exactly when the link walk finds a link |
| ToolbarState.MergeReflectsPatch | src/App.tsx:890-893 | `{...prev, ...patch}` takes `blockType`, the tracked formats and `isLink` from the patch whatever `prev` held |
| ToolbarState.MergeTakesPatch | src/App.tsx:890-893 | after the spread merge, every key of the patch holds the patch's value |
| ToolbarState.MergeOverwrites | src/App.tsx:890-893 | a later merge whose keys cover an earlier one's hides the earlier merge completely |
| ToolbarState.BlockConstantInjective | src/App.tsx:865-872 | the block flags of one variant compare `blockType` with pairwise distinct constants |
| ToolbarState.ParagraphHasNoFlag | src/App.tsx:865-872 | no block flag is set for a paragraph |
| ToolbarState.AtMostOneBlockFlag | src/App.tsx:865-872 | in a record whose block flags agree with `blockType`, at most one block flag is set |
| ToolbarState.MergeKeepsFlagsAgreeing | src/App.tsx:863-893 | merging a selection patch keeps every block flag equal to its comparison with `blockType` |
| ToolbarState.StepKeepsFlagsAgreeing | src/App.tsx:890-929 | every notification keeps the block flags in agreement with `blockType` |
| ToolbarState.RunKeepsFlagsAgreeing | src/App.tsx:890-929 | any sequence of notifications keeps the block flags in agreement |
| ToolbarState.HangStopsRun | src/App.tsx:853-861 | a selection update that goes round a parent loop never returns, so no later notification changes the record |
| ToolbarState.ReachableFlagsAgree | src/components/editor/lib/hooks/use-toolbar-state.ts:5-22 | in every record a toolbar reaches from its initial state, each block flag present equals its comparison with `blockType`, so with `AtMostOneBlockFlag` at most one is set |
| ToolbarState.LatestSelectionWins | src/App.tsx:890-893 | a successful range-selection update hides every earlier selection update |
| ToolbarState.ReducedKeepsLinkAndHistory | src/lib/t.tsx:497-509 | the reduced toolbar's selection update never changes `isLink`, `canUndo` or `canRedo` |
| ToolbarState.ClassifyAlongChain | src/App.tsx:824-845 | along the anchor's chain, the first top-level element decides: a heading gives its tag, a quote `"quote"`, a code block `"code"`, a list the nearest list's type (or an error where `ListNode` is unbound), and anything else `"paragraph"` |
| ToolbarState.NoTopLevelThrows | src/App.tsx:828 | a chain with no top-level element makes `getTopLevelElementOrThrow` throw, so the update fails |
| ToolbarState.IsLinkIffLinkOnChain | src/App.tsx:847-861 | on a chain that ends, `isLink` is true exactly when a link node lies on the anchor's chain |
| ToolbarState.LinkWalkNeverBlocksUpdate | src/App.tsx:847-861 | when the block is classified and the chain ends, the link walk terminates and the update succeeds |
| ToolbarState.NumberedListExample | src/App.tsx:832-836 | a document with a caret in a numbered list exists |
| ToolbarState.NumberedListClassifies | src/App.tsx:832-836 | a caret in a numbered list is classified as `"number"` wherever `ListNode` is bound |
| ToolbarState.SelectionStepMerges | src/App.tsx:890-893 | a successful selection update is the spread merge of its patch |
| ToolbarState.NumberIsNoAppConstant | src/App.tsx:865-872 | no block flag of App.tsx compares with `"number"` |
| ToolbarState.NumberedIsNoListType | src/App.tsx:869 | `"numbered"` is not a block type the framework produces |
| ToolbarState.NumberedListPatch | src/App.tsx:832-836 | the caret in a numbered list yields a patch with `blockType` `"number"` wherever `ListNode` is bound |
| ToolbarState.NumberedFlagNeverSet | src/App.tsx:869 | as written, on a well-typed document every successful update of the two full toolbars clears `isNumberedList` |
| ToolbarState.NumberedListShowsNoFlag | src/App.tsx:863-872 | as written, a caret in a numbered list gives `blockType` `"number"` with every block flag false |
| ToolbarState.ListFlagsFollowListType | src/lib/t.tsx:657-672 | corrected: with `"number"` as the constant, each list flag is set exactly for its own list type |
| ToolbarState.NumberedListShowsFlagWhenFixed | src/lib/t.tsx:666 | corrected: the same caret sets `isNumberedList` |
| ToolbarState.ListSelectionKeepsStaleState | src/components/editor/toolbar/index.tsx:57-60 | as written, a selection in a list makes the update throw on the unbound `ListNode`, so the record stays as it was |
| ToolbarState.ListSelectionUpdatesWhenBound | src/App.tsx:832-836 | corrected: with `ListNode` bound, the same selection is merged and shows `blockType` `"number"` |
| InsertDialogs.DigitPrefix | src/App.tsx:533 | `parseInt` reads the longest run of digits of the radix, and stops at the first character that is not one |
| InsertDialogs.NatToDecimal | src/App.tsx:947-948 | the decimal numeral is non-empty, all digits, and denotes the number |
| InsertDialogs.ParseIntReadsDecimal | src/App.tsx:945-950 | `parseInt(n.toString())` is `n` for every integer |
| InsertDialogs.ClampDimension | src/App.tsx:531-534 | `Math.max(1, parseInt(v) \|\| 1)` is at least 1, equals a parsed value of 1 or more, and is 1 for text with no number, zero or a negative number |
| InsertDialogs.ClampKeepsTypedDimension | src/App.tsx:527-534 | any positive number typed is stored exactly: the `onChange` clamp raises to 1 only, and the upper bound acts at submit |
| InsertDialogs.SubmitTableDialog | src/App.tsx:497-501 | a submit calls `onSubmit` with the stored counts and closes exactly when both counts lie in 1..20, the `min="1"`/`max="20"` of the inputs (lines 528-529, 546-547); otherwise nothing happens |
| InsertDialogs.SubmittedTableCountsInRange | src/App.tsx:494-555 | from the initial dialog, whatever is typed, a submit goes through exactly when no count exceeds 20, and every submitted count lies in 1..20 |
| InsertDialogs.OversizedCountBlocksSubmit | src/App.tsx:525-555 | typing a number above 20 into either input stores it, and the form then refuses to submit |
| InsertDialogs.ClampRaisesToOne | src/lib/t.tsx:308-310 | a number below 1 typed in is stored as 1 |
| InsertDialogs.ClampOfNonNumberIsOne | src/lib/t.tsx:321-323 | text with no leading number is stored as 1 |
| InsertDialogs.InitialTableDialog | src/App.tsx:494-495 | both counts start at 3 |
| InsertDialogs.EditTable | src/App.tsx:531-552 | editing one input stores the clamped number there and keeps the other count |
| InsertDialogs.TableCountsStayPositive | src/lib/t.tsx:284-323 | whatever is typed, both counts stay at least 1 |
| InsertDialogs.SubmitImageDialog | src/App.tsx:592-600 | with a blank URL the submit button is disabled (lines 665-667), so nothing happens and the fields stay; otherwise it submits the trimmed URL, with alt the trimmed alt text or `"Image"` when that is blank, then closes and clears both fields |
| InsertDialogs.SubmittedImageIsClean | src/lib/t.tsx:352-360 | a submitted image's src and alt are non-empty and have no surrounding whitespace |
| LinkDialogs.IsValidUrl | src/components/editor/components/link-dialog.tsx:15-40 | blank input is refused as empty; input the parser reads must have an `http:` or `https:` protocol; input it refuses is accepted when its `https://` form parses; valid exactly when there is no error |
| LinkDialogs.OpenChanged | src/components/editor/components/link-dialog.tsx:60-66 | opening resets the text to `initialUrl` and the validation to valid; closing changes nothing |
| LinkDialogs.UrlChanged | src/components/editor/components/link-dialog.tsx:68-75 | typing replaces the text and clears a shown error |
| LinkDialogs.SubmitLinkDialog | src/components/editor/components/link-dialog.tsx:77-91 | the validation result is stored; the URL is submitted, normalised, and the dialog closes exactly when it is valid |
| LinkDialogs.SubmittedUrlIsWeb | src/components/editor/components/link-dialog.tsx:84-88 | every submitted URL starts with `http://` or `https://` |
| LinkDialogs.NormalisedUrlIsWeb | src/components/editor/components/link-dialog.tsx:84-88 | the normaliser's output always starts with `http://` or `https://`, including after trimming |
| LinkDialogs.NonWebProtocolRefused | src/components/editor/components/link-dialog.tsx:21-28 | a URL read with another protocol (`javascript:`, say) is refused with the protocol message, and nothing is submitted or closed |
| LinkDialogs.FallbackSkipsProtocolCheck | src/components/editor/components/link-dialog.tsx:30-35 | text refused by the parser is submitted once its `https://` form parses, with no protocol check |
| LinkDialogs.OtherSpellingsGetPrefixed | src/components/editor/components/link-dialog.tsx:84-87 | a valid URL not starting with lower-case `h` gets `https://` in front, even when it already names a scheme |
| LinkDialogs.CapitalSchemeGetsPrefixed | src/components/editor/components/link-dialog.tsx:84-87 | `HTTP://example.com` is submitted as `https://HTTP://example.com` |
| LinkDialogs.SubmitPlainLinkDialog | src/App.tsx:426-432 | the plain dialog always closes, and submits the trimmed URL exactly when it is not blank |
| LinkDialogs.OpenPlainLinkDialog | src/App.tsx:420-424 | opening resets the text to `initialUrl` |
| LinkDialogs.PlainSubmissionIsTrimmed | src/lib/t.tsx:237-243 | what the plain dialog submits is non-empty and already trimmed |
| ToolbarCommands.BlockButton | src/components/editor/toolbar/index.tsx:246-254 | a block button dispatches on a range selection only, and then sets exactly its own block target |
| ToolbarCommands.BlockButtonsDoNotToggle | src/lib/t.tsx:541-575 | the command does not depend on the record, so clicking the active block type sets it again and never reverts to a paragraph |
| ToolbarCommands.AtMostOneReducedButton | src/lib/t.tsx:628-686 | at most one of t.tsx's block buttons is highlighted |
| ToolbarCommands.ReducedButtonShowsBlock | src/lib/t.tsx:628-686 | after a successful update, a t.tsx block button is highlighted exactly when the classified block type is its own |
| ToolbarCommands.CodeButtonFollowsInlineCode | src/App.tsx:1101 | as written, the code-block button of the full toolbars is lit by inline code: lit exactly when the selection has the `code` format, dark inside a code block without it |
| ToolbarCommands.CodeButtonFollowsCodeBlock | src/lib/t.tsx:682 | corrected: the button is lit exactly when `blockType` is `"code"` |
| ToolbarCommands.InsertListCommand | src/components/editor/plugins/toolbar/extensions/list-buttons.tsx:30-36 | `bullet`, `number` and `check` each have an insert command; any other name has none |
| ToolbarCommands.InsertListCommandCreatesType | src/components/editor/plugins/toolbar/extensions/list-buttons.tsx:30-36 | each insert command creates the list type it was chosen for |
| ToolbarCommands.ListToggle | src/components/editor/plugins/toolbar/extensions/list-buttons.tsx:23-39 | the toggle removes the list exactly when `blockType` is the clicked type, and otherwise inserts that type or does nothing for an unknown type |
| ToolbarCommands.ListToggleFollowsHighlight | src/components/editor/plugins/toolbar/extensions/list-buttons.tsx:26-48 | the toggle removes the list exactly when the button is lit, and a dark button inserts its own type |
| ToolbarCommands.PlainListButton | src/App.tsx:1046-1076 | the list buttons of the toolbars always insert their list type |
| ToolbarCommands.ToggleAgreesWithPlainButtons | src/components/editor/toolbar/index.tsx:265-300 | off the list the toggle and the plain buttons dispatch the same command; on it only the toggle removes the list |
| ToolbarCommands.ListItems | src/components/editor/plugins/toolbar/extensions/list-buttons.tsx:11-13 | `LIST_ITEMS` keeps exactly the items with a command and a list name, each as often as it occurs, in their original order |
| ToolbarCommands.ActiveKeyName | src/components/editor/plugins/toolbar/extensions/text-format-buttons.tsx:34-36 | the key is `"is"`, then the name's first character upper-cased, then the rest unchanged |
| ToolbarCommands.TextFormatButton | src/components/editor/plugins/toolbar/extensions/text-format-buttons.tsx:23-37 | a click dispatches the item's command; when the record has the constructed key the button is lit exactly when its value is truthy; otherwise it is lit exactly when the key is the inherited `isPrototypeOf` |
| ToolbarCommands.InheritedFlagName | src/components/editor/plugins/toolbar/extensions/text-format-buttons.tsx:33-36 | of the properties a plain object inherits, only `isPrototypeOf` has a name of the form `is...` |
| ToolbarCommands.PrototypeOfItemAlwaysLit | src/components/editor/plugins/toolbar/extensions/text-format-buttons.tsx:33-36 | an item named `prototypeOf` is lit on every record, since `toolbarState.isPrototypeOf` is an inherited function |
| ToolbarCommands.ActiveKeyOfFormat | src/components/editor/plugins/toolbar/extensions/text-format-buttons.tsx:35 | for every text format, the constructed key is the record's flag name (`bold` gives `isBold`) |
| ToolbarCommands.FormatKeyNameUnique | src/App.tsx:873-880 | no other record property shares a format flag's name |
| ToolbarCommands.FormatButtonReadsFlag | src/components/editor/plugins/toolbar/extensions/text-format-buttons.tsx:33-37 | a format button is lit exactly when that format's flag is set in the record |
| ToolbarCommands.LinkButton | src/App.tsx:931-937 | off a link the button opens the dialog; on a link it dispatches `TOGGLE_LINK_COMMAND` with `null` |
| ToolbarCommands.LinkButtonFollowsChain | src/components/editor/toolbar/index.tsx:74-84 | after an update on a chain that ends, the link button removes a link exactly when a link node lies on the anchor's chain |
| ToolbarCommands.LinkSubmit | src/App.tsx:939-943 | a submitted URL is dispatched as `TOGGLE_LINK_COMMAND` exactly when it is non-empty |
| ToolbarCommands.PlainLinkDialogApplies | src/App.tsx:939-943 | whatever the plain dialog submits is dispatched as a link, and blank text dispatches nothing |
| ToolbarCommands.TableSubmit | src/App.tsx:945-950 | the table command's row and column strings read back as the dialog's numbers |
| ToolbarCommands.TableCommandInRange | src/components/editor/toolbar/index.tsx:168-173 | whatever was typed, a table command is dispatched exactly when no count exceeds 20, and its counts read back as numbers in 1..20 |
| ToolbarCommands.ImageSubmit | src/App.tsx:952-960 | an image is inserted on a range selection only, with the given src and the given alt or `"Image"` |
| ToolbarCommands.ImageDialogInserts | src/App.tsx:952-960 | on a range selection, what the image dialog submits is inserted as an image node whose src is the trimmed URL, non-empty, whose alt is non-empty, and which exports as `"image"` |
| ToolbarCommands.UndoButton | src/App.tsx:972-980 | undo is enabled and dispatches `UNDO_COMMAND` exactly when `canUndo` is set |
| ToolbarCommands.RedoButton | src/App.tsx:984-992 | redo is enabled and dispatches `REDO_COMMAND` exactly when `canRedo` is set |
| ToolbarCommands.HistoryButtonsFollowNotifications | src/lib/t.tsx:522-537 | each history notification enables or disables its own button and leaves the other alone; both start disabled |
| ColorPicker.TestHexColor | src/components/color-picker.tsx:145-146 | `/^#[0-9A-F]{6}$/i` matches exactly a `#` followed by six hex digits in either case |
| ColorPicker.InitialPicker | src/components/color-picker.tsx:129-130 | the custom colour starts as the `color` prop and the popover starts closed |
| ColorPicker.OpenChanged | src/components/color-picker.tsx:154 | the popover's open state follows `onOpenChange` and the typed colour is kept |
| ColorPicker.CustomColorTyped | src/components/color-picker.tsx:140-142 | typing replaces the custom colour and leaves the popover as it was |
| ColorPicker.ColorChosen | src/components/color-picker.tsx:132-138 | `onColorChange` forwards the colour and `skipHistory` unchanged and closes the popover |
| ColorPicker.SwatchClicked | src/components/color-picker.tsx:172-177 | a swatch click reports that swatch's colour with `skipHistory` false and closes |
| ColorPicker.ApplyCustomColor | src/components/color-picker.tsx:144-151 | the custom colour is reported exactly when it matches the pattern; otherwise nothing happens and the popover stays as it was |
| ColorPicker.ReportedColorsAreHex | src/components/color-picker.tsx:144-177 | every colour the picker reports matches the hex pattern |
| ColorPicker.TypeThenApply | src/components/color-picker.tsx:140-151 | typing then applying reports the text exactly when it is a hex colour, and an invalid entry leaves an open popover open |
| ColorPicker.DefaultColors | src/components/color-picker.tsx:20-101 | the preset list has 80 colours |
| ColorPicker.DefaultColorsAreHex | src/components/color-picker.tsx:20-101 | every preset colour matches the custom-colour pattern |
| FloatingToolbar.InitialFloating | src/lib/editor/hooks/use-floating-toolbar.ts:9-11 | the floating toolbar starts hidden and off screen, with no formats |
| FloatingToolbar.ReportedFormats | src/lib/editor/hooks/use-floating-toolbar.ts:36-41 | the reported names are exactly the selection's formats among bold, italic, underline and code |
| FloatingToolbar.Update | src/lib/editor/hooks/use-floating-toolbar.ts:13-46 | the toolbar shows exactly for a non-collapsed range selection with text and a native selection with a range; then it shows the reported formats at the range's position, and otherwise it keeps its formats and position |
| FloatingToolbar.MouseDown | src/lib/editor/hooks/use-floating-toolbar.ts:49-59 | a press outside both the toolbar and the editor root hides a visible toolbar; any other press leaves it; formats and position never change |
| FloatingToolbar.RunKeepsFormatsReported | src/lib/editor/hooks/use-floating-toolbar.ts:36-41 | whatever happens, the active formats stay within bold, italic, underline and code |
| FloatingToolbar.UpdateIsIdempotent | src/lib/editor/hooks/use-floating-toolbar.ts:13-46 | updating twice from the same selection is the same as once |
| FloatingToolbar.HideKeepsStaleState | src/lib/editor/hooks/use-floating-toolbar.ts:42-44 | hiding keeps the formats and position that were last shown |
| FloatingToolbar.InGroup | src/components/editor/plugins/floating-toolbar/index.tsx:122-130 | a group's items all carry that group and are no more than the input |
| FloatingToolbar.GroupItemsAreBuckets | src/components/editor/plugins/floating-toolbar/index.tsx:122-130 | the reduce creates a bucket exactly for the groups some item names, and each bucket holds that group's items in their original order |
| FloatingToolbar.FormatItemBuckets | src/components/editor/plugins/floating-toolbar/index.tsx:43-61 | the buckets of `FORMAT_ITEMS` are basic = bold, italic, underline, strikethrough; special = code; script = superscript, subscript |
| FloatingToolbar.Utf16Length | src/components/editor/plugins/floating-toolbar/index.tsx:226 | a string's JavaScript length is at least its number of characters |
| FloatingToolbar.Render | src/components/editor/plugins/floating-toolbar/index.tsx:132-226 | nothing is rendered while hidden; the counter shows exactly when the selected text is longer than 50; each button is lit exactly when its format is active |
| FloatingToolbar.RenderShowsEveryItemInOrder | src/components/editor/plugins/floating-toolbar/index.tsx:146-178 | a visible toolbar shows all seven format items in declared order, each lit exactly when its format is active |
| FloatingToolbar.CounterCountsCodeUnits | src/components/editor/plugins/floating-toolbar/index.tsx:226 | more than 50 characters always show the counter |
| FloatingToolbar.UnreportedButtonsStayDark | src/lib/editor/hooks/use-floating-toolbar.ts:36-41 | when driven by the hook of src/lib/editor/hooks/use-floating-toolbar.ts, which reports bold, italic, underline and code only, the strikethrough, superscript and subscript buttons are never lit |
| FloatingToolbar.FormatHighlight | src/components/editor/plugins/floating-toolbar/index.tsx:107-116 | on a range selection, the background colour is set to the colour, or to `transparent` for the empty string; otherwise nothing happens |
| FloatingToolbar.HighlightCommandDeterminesColour | src/components/editor/plugins/floating-toolbar/index.tsx:107-116 | two colour choices dispatch the same command exactly when they are equal or both mean `transparent` |
| FloatingToolbar.RemoveHighlightIsTransparent | src/components/editor/plugins/floating-toolbar/index.tsx:216-217 | "Remove Highlight" writes `transparent` |

## Left out

- Rendering, layout, animation, icons and theme tables: presentation only.
- Editor wiring is not modelled: command registration, listener priorities and `editor.update`/`editor.read` scheduling. Each notification is one call of `Step`, and the editor's own behaviour after a dispatch is out of scope. A command is a value of `Lexical.Command`.
- Browser APIs become parameters:
  - the URL constructor is `LinkDialogs.UrlParser`;
  - `window.getSelection()` is an optional `NativeSelection`;
  - DOM containment of a mouse press is `Press`;
  - a fresh node key is `freshKey`.
- The floating toolbar's pixel position: it is an opaque `Position` taken from the native selection.
- Position arithmetic is not modelled.
- The FileReader upload path of the image dialogs: it is asynchronous I/O.
- The text colour and highlight dropdowns of src/App.tsx (`$patchStyleText` with `color`) are not modelled. Only the floating toolbar's highlight command is.
- `TEXT_FORMAT_ITEMS` and `BLOCK_FORMAT_ITEMS`: their file (`toolbar-items`) is not part of this model. The buttons are modelled over any item list.
- The hook src/components/editor/plugins/floating-toolbar/index.tsx imports (the one that also yields `selectedText`) is not part of this model. `selectedText` is a parameter of `FloatingToolbar.Render`.
- The `useToolbarState` hook that src/components/editor/toolbar/index.tsx imports from `@/lib/editor/hooks/useToolbarState` is not part of this model. `EditorToolbar` starts from the shared hook in use-toolbar-state.ts.
- `parseInt` and `toString` are modelled on integers only:
  - JavaScript number precision is not modelled;
  - nor is exponent notation for counts of 10^21 and above.
- `InsertDialogs.ParseIntReadsDecimal`: holds for all integers here, but the source uses floating-point numbers, so it stops holding beyond 2^53.
- `Common.UpperChar`: upper-cases ASCII letters only. Every format name is ASCII.
- `FloatingToolbar.Utf16Length`: counts one unit per character below U+10000 and two above. Dafny characters are Unicode scalar values, so lone surrogates do not occur.
- `editor.focus()` calls and the `onClose` callbacks the parents pass to the dialogs have no logic to state.
- The validating link dialog's initial state (`validation` starts valid) is the `Valid` constant; only its transitions are modelled.
- The table inputs carry `min="1" max="20"` (src/App.tsx:528-529 and 546-547, src/lib/t.tsx:305-306 and 318-319). The `onChange` clamp enforces only the lower bound, so a larger count is stored (`InsertDialogs.ClampKeepsTypedDimension`). The upper bound is the browser's constraint validation at submit, which is modelled only as the range check of `InsertDialogs.TableSubmittable` on the stored counts; the validation message the browser shows is not modelled.
- `ToolbarState.Step`: a parent loop makes an update hang in the source; `Step` alone leaves the record unchanged for it, and `ToolbarState.Run` stops at that notification (`ToolbarState.HangStopsRun`). The frozen page itself is not modelled. Lexical's trees have no parent loops, so this case does not arise in practice.
- `FloatingToolbar.UnreportedButtonsStayDark`: holds for the hook of src/lib/editor/hooks/use-floating-toolbar.ts. The plugin src/components/editor/plugins/floating-toolbar/index.tsx imports a hook from another path, which is not part of this model, so the formats it reports, and so which buttons it lights, are unknown.

## Findings

| source | as written | input that shows it | evidently intended | confidence | as-written member | corrected member |
|---|---|---|---|---|---|---|
| src/App.tsx:869 | `isNumberedList: blockType === "numbered"`; the framework's list type is `"number"` (src/lib/t.tsx:666, list-buttons.tsx:32) | a caret in the text of a numbered list: `blockType` becomes `"number"` and every block flag is false, so the numbered-list button is never lit | compare with `"number"` | not executed | ToolbarState.NumberedFlagNeverSet, ToolbarState.NumberedListShowsNoFlag | ToolbarState.ListFlagsFollowListType, ToolbarState.NumberedListShowsFlagWhenFixed |
| src/components/editor/toolbar/index.tsx:60 | `$getNearestNodeOfType(anchorNode, ListNode)` with `ListNode` not imported (imports at lines 21-26) | the same caret in a numbered list: the update throws a reference error and the toolbar keeps its previous record | import `ListNode` from `@lexical/list`, as src/App.tsx does | not executed | ToolbarState.ListSelectionKeepsStaleState | ToolbarState.ListSelectionUpdatesWhenBound |
| src/App.tsx:1101 | the code-block button (which runs `$setBlocksType(..., $createCodeNode)`) is lit by `toolbarState.isCode`, the inline-code format flag; the same at src/components/editor/toolbar/index.tsx:321 | a caret inside a code block with no inline code: the button is dark; inline code in a paragraph: it is lit | `toolbarState.isCodeBlock`, as t.tsx's `blockType === "code"` does | not executed | ToolbarCommands.CodeButtonFollowsInlineCode | ToolbarCommands.CodeButtonFollowsCodeBlock |
