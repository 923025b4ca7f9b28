/** What the toolbar buttons do: each click is decided from the current
    selection and toolbar state, and dispatches at most one command to the
    editor (or opens a dialog). Covers the buttons of src/App.tsx,
    src/components/editor/toolbar/index.tsx and src/lib/t.tsx, and the
    list and text-format button groups of
    src/components/editor/plugins/toolbar/extensions. */
module ToolbarCommands {
  import opened Common
  import opened Lexical
  import opened AncestorWalk
  import opened ToolbarState
  import ImageNodes
  import InsertDialogs
  import LinkDialogs

  // ---------------------------------------------------------------------------
  // Block-format buttons

  /** The block type the framework reports for a block a button installs. */
  function TargetBlockType(target: BlockTarget): string {
    match target
    case ParagraphBlock => "paragraph"
    case HeadingBlock(tag) => tag
    case QuoteBlock => "quote"
    case CodeBlockTarget => "code"
  }

  /** A heading, paragraph, quote or code-block button (and `formatHeading`,
      `formatParagraph`, `formatQuote`, `formatCodeBlock`): on a range
      selection the selected blocks are set to the button's block type;
      otherwise nothing happens. The toolbar state is not consulted. */
  function BlockButton(s: Record, sel: Selection, target: BlockTarget): (c: Option<Command>)
    ensures c.Some? <==> sel.RangeSelection?
    ensures c.Some? ==> c.value == SetBlocks(target)
  {
    if sel.RangeSelection? then Some(SetBlocks(target)) else None
  }

  /** There is no toggle-off: the click does the same in every toolbar state,
      and re-clicking the highlighted button sets the same block type again
      rather than turning it back into a paragraph. */
  lemma BlockButtonsDoNotToggle(s1: Record, s2: Record, sel: Selection, target: BlockTarget)
    ensures BlockButton(s1, sel, target) == BlockButton(s2, sel, target)
    ensures sel.RangeSelection? && BlockTypeIs(s1, TargetBlockType(target)) ==>
              BlockButton(s1, sel, target) == Some(SetBlocks(target))
    ensures target != ParagraphBlock ==> BlockButton(s1, sel, target) != Some(SetBlocks(ParagraphBlock))
  {
  }

  /** `toolbarState.blockType === name`: the highlight of the heading buttons
      of every toolbar, of every block button of src/lib/t.tsx and of the
      list buttons extension. */
  predicate BlockTypeIs(s: Record, name: string) {
    BlockType in s && s[BlockType] == Str(name)
  }

  /** The block buttons of src/lib/t.tsx, in order: paragraph, three
      headings, bullet list, numbered list, quote, code block. */
  function ReducedBlockButtons(): seq<string> {
    ["paragraph", "h1", "h2", "h3", "bullet", "number", "quote", "code"]
  }

  /** The constants of src/lib/t.tsx's block buttons are pairwise distinct,
      so at most one of those buttons is highlighted. */
  lemma AtMostOneReducedButton(s: Record, i: nat, j: nat)
    requires i < |ReducedBlockButtons()| && j < |ReducedBlockButtons()|
    requires BlockTypeIs(s, ReducedBlockButtons()[i]) && BlockTypeIs(s, ReducedBlockButtons()[j])
    ensures i == j
  {
    var b := ReducedBlockButtons();
    assert forall m, n :: 0 <= m < n < |b| ==> b[m] != b[n] by {
      assert b[0][0] == 'p' && b[4][0] == 'b' && b[5][0] == 'n' && b[6][0] == 'q' && b[7][0] == 'c';
      assert b[1][1] == '1' && b[2][1] == '2' && b[3][1] == '3';
    }
  }

  /** The highlighted button of src/lib/t.tsx names the block the selection
      is in: after a successful update it is the classified block type. */
  lemma ReducedButtonShowsBlock(s: Record, t: Tree, sel: Selection, name: string)
    requires sel.RangeSelection? && sel.anchor in t && SelectionPatch(ReducedToolbar, t, sel).Ok?
    ensures BlockTypeIs(Step(ReducedToolbar, s, SelectionChanged(t, sel)), name)
            <==> ClassifyBlock(ReducedToolbar, t, sel.anchor) == Ok(name)
  {
    SelectionUpdateReflectsSelection(ReducedToolbar, s, t, sel);
  }

  // ---------------------------------------------------------------------------
  // The code-block button of src/App.tsx and toolbar/index.tsx

  /** Its highlight as written: the inline-code format flag `isCode`. */
  predicate CodeButtonLitAsWritten(s: Record) {
    Flag(s, Format(Code))
  }

  /** Its highlight as intended: the code-block flag `isCodeBlock`, which is
      what src/lib/t.tsx's code-block button reads through `blockType`. */
  predicate CodeButtonLit(s: Record) {
    Flag(s, Block(IsCodeBlock))
  }

  /** As written, after any successful update the code-block button follows
      the inline-code format and not the block: a caret in a code block with
      no inline code leaves it dark, inline code in a paragraph lights it. */
  lemma CodeButtonFollowsInlineCode(v: Variant, s: Record, p: Record, formats: set<TextFormat>)
    requires v == AppToolbar || v == EditorToolbar
    requires WellShaped(v, p, formats)
    ensures CodeButtonLitAsWritten(s + p) <==> Code in formats
    ensures p[BlockType] == Str("code") && Code !in formats ==> !CodeButtonLitAsWritten(s + p)
    ensures p[BlockType] == Str("paragraph") && Code in formats ==> CodeButtonLitAsWritten(s + p)
  {
    MergeReflectsPatch(v, s, p, formats);
  }

  /** As intended, the button is lit exactly when the selection is in a code
      block. */
  lemma CodeButtonFollowsCodeBlock(v: Variant, s: Record, p: Record, formats: set<TextFormat>)
    requires v != ReducedToolbar
    requires WellShaped(v, p, formats)
    ensures CodeButtonLit(s + p) <==> p[BlockType] == Str("code")
  {
    assert Block(IsCodeBlock) in p;
    MergeTakesPatch(s, p);
  }

  // ---------------------------------------------------------------------------
  // List buttons

  /** The insert command for each list type the framework knows. */
  function InsertListCommand(listType: string): (c: Option<Command>)
    ensures c.Some? <==> listType in {"bullet", "number", "check"}
  {
    if listType == "bullet" then Some(InsertUnorderedList)
    else if listType == "number" then Some(InsertOrderedList)
    else if listType == "check" then Some(InsertCheckList)
    else None
  }

  /** The list type an insert command creates. */
  function ListTypeOf(c: Command): Option<string> {
    match c
    case InsertUnorderedList => Some("bullet")
    case InsertOrderedList => Some("number")
    case InsertCheckList => Some("check")
    case _ => None
  }

  /** Each list type has its own insert command, which creates that type. */
  lemma InsertListCommandCreatesType(listType: string)
    requires InsertListCommand(listType).Some?
    ensures ListTypeOf(InsertListCommand(listType).value) == Some(listType)
  {
  }

  /** `handleListToggle`: clicking the button of the list type the selection
      is in removes the list; otherwise the list of that type is inserted,
      and an unknown type does nothing. */
  function ListToggle(blockType: string, listType: string): (c: Option<Command>)
    ensures c == Some(RemoveList) <==> blockType == listType
    ensures blockType != listType ==> c == InsertListCommand(listType)
  {
    if blockType == listType then Some(RemoveList) else InsertListCommand(listType)
  }

  /** A list button is lit when `blockType` is its list type. */
  predicate ListButtonLit(s: Record, listType: string) {
    BlockTypeIs(s, listType)
  }

  /** The toggle removes the list exactly when its button is lit; a dark
      button inserts its own list type, which lights it once the update
      reports the new block type. */
  lemma ListToggleFollowsHighlight(s: Record, listType: string)
    requires BlockType in s && s[BlockType].Str?
    ensures ListToggle(s[BlockType].s, listType) == Some(RemoveList) <==> ListButtonLit(s, listType)
    ensures !ListButtonLit(s, listType) && ListToggle(s[BlockType].s, listType).Some? ==>
              ListTypeOf(ListToggle(s[BlockType].s, listType).value) == Some(listType)
  {
  }

  /** The list buttons of the three toolbars: always insert. */
  function PlainListButton(listType: string): (c: Option<Command>)
    requires listType in {"bullet", "number", "check"}
    ensures c.Some? && ListTypeOf(c.value) == Some(listType)
  {
    InsertListCommand(listType)
  }

  /** Off the list, the toggle and the plain buttons agree; on it, only the
      toggle removes the list. */
  lemma ToggleAgreesWithPlainButtons(blockType: string, listType: string)
    requires listType in {"bullet", "number", "check"}
    ensures blockType != listType ==> ListToggle(blockType, listType) == PlainListButton(listType)
    ensures blockType == listType ==> ListToggle(blockType, listType) != PlainListButton(listType)
  {
  }

  /** A toolbar item as the list-buttons extension sees it. */
  datatype ToolbarItem = ToolbarItem(name: string, hasCommand: bool)

  predicate IsListItem(item: ToolbarItem) {
    item.hasCommand && item.name in ["bullet", "number", "check"]
  }

  /** `a` is `b` with some elements left out, the rest in order. */
  predicate IsSubsequence<T(==)>(a: seq<T>, b: seq<T>)
    decreases |b|
  {
    if a == [] then true
    else if b == [] then false
    else (a[0] == b[0] && IsSubsequence(a[1..], b[1..])) || IsSubsequence(a, b[1..])
  }

  /** `LIST_ITEMS`: the items with a command whose name is a list type, in
      their original order. */
  function ListItems(items: seq<ToolbarItem>): (r: seq<ToolbarItem>)
    ensures forall i :: 0 <= i < |r| ==> IsListItem(r[i])
    ensures forall x :: x in r <==> x in items && IsListItem(x)
    ensures IsSubsequence(r, items)
    ensures forall x :: multiset(r)[x] == if IsListItem(x) then multiset(items)[x] else 0
    decreases |items|
  {
    if items == [] then []
    else
      var rest := ListItems(items[1..]);
      assert items == [items[0]] + items[1..];
      assert multiset(items) == multiset([items[0]]) + multiset(items[1..]);
      if IsListItem(items[0]) then
        assert forall x :: x in items <==> x == items[0] || x in items[1..];
        assert multiset([items[0]] + rest) == multiset([items[0]]) + multiset(rest);
        [items[0]] + rest
      else
        SubsequenceOfTail(rest, items);
        rest
  }

  lemma SubsequenceOfTail<T>(a: seq<T>, b: seq<T>)
    requires |b| > 0 && IsSubsequence(a, b[1..])
    ensures IsSubsequence(a, b)
  {
  }

  // ---------------------------------------------------------------------------
  // Text-format buttons

  /** The state key a text-format button reads: `"is"`, then the item name
      with its first character upper-cased (an empty name gives `"is"`). */
  function ActiveKeyName(name: string): (key: string)
    ensures |name| == 0 ==> key == "is"
    ensures |name| > 0 ==> |key| == |name| + 2 && key[..2] == "is" && key[2] == UpperChar(name[0]) && key[3..] == name[1..]
  {
    if name == "" then "is" else "is" + [UpperChar(name[0])] + name[1..]
  }

  /** The properties every plain object inherits from `Object.prototype`.
      Each is a function or, for `__proto__`, an object, so each is truthy. */
  function ObjectPrototypeNames(): set<string> {
    { "constructor", "hasOwnProperty", "isPrototypeOf", "propertyIsEnumerable",
      "toLocaleString", "toString", "valueOf", "__proto__",
      "__defineGetter__", "__defineSetter__", "__lookupGetter__", "__lookupSetter__" }
  }

  /** `!!toolbarState[key]` for a property named `key`: an own property is
      read first; otherwise an inherited one is found on `Object.prototype`,
      and any other name is `undefined`, which is falsy. */
  predicate NamedFlag(s: Record, key: string) {
    if exists k :: k in s && KeyName(k) == key then
      exists k :: k in s && KeyName(k) == key && Truthy(s[k])
    else
      key in ObjectPrototypeNames()
  }

  /** A text-format button as rendered: whether it is lit and what its click
      dispatches (`item.command` with `item.payload`). */
  datatype FormatButtonView = FormatButtonView(lit: bool, onClick: Command)

  function TextFormatButton(s: Record, name: string, command: Command): (b: FormatButtonView)
    ensures b.onClick == command
    ensures (exists k :: k in s && KeyName(k) == ActiveKeyName(name)) ==>
              (b.lit <==> exists k :: k in s && KeyName(k) == ActiveKeyName(name) && Truthy(s[k]))
    ensures (forall k :: k in s ==> KeyName(k) != ActiveKeyName(name)) ==>
              (b.lit <==> ActiveKeyName(name) == "isPrototypeOf")
  {
    InheritedFlagName(ActiveKeyName(name));
    FormatButtonView(NamedFlag(s, ActiveKeyName(name)), command)
  }

  /** Of the inherited properties, only `isPrototypeOf` has a name of the
      form `"is" + ...`. */
  lemma InheritedFlagName(key: string)
    requires |key| >= 2 && key[..2] == "is"
    ensures key in ObjectPrototypeNames() <==> key == "isPrototypeOf"
  {
    assert "constructor"[..2] == "co" && "hasOwnProperty"[..2] == "ha";
    assert "propertyIsEnumerable"[..2] == "pr" && "toLocaleString"[..2] == "to";
    assert "toString"[..2] == "to" && "valueOf"[..2] == "va" && "__proto__"[..2] == "__";
    assert "__defineGetter__"[..2] == "__" && "__defineSetter__"[..2] == "__";
    assert "__lookupGetter__"[..2] == "__" && "__lookupSetter__"[..2] == "__";
  }

  /** An item named `prototypeOf` reads the inherited `isPrototypeOf`, a
      function, so its button is lit whatever the record holds. */
  lemma PrototypeOfItemAlwaysLit(s: Record, command: Command)
    ensures TextFormatButton(s, "prototypeOf", command).lit
  {
    assert UpperChar('p') == 'P';
    assert ActiveKeyName("prototypeOf") == "isPrototypeOf";
    forall k | k in s ensures KeyName(k) != "isPrototypeOf" {
      assert KeyName(k)[..2] == "is" ==> KeyName(k)[2] != 'P';
    }
  }

  /** The key built from a format's name is that format's flag. */
  lemma ActiveKeyOfFormat(f: TextFormat)
    ensures ActiveKeyName(FormatName(f)) == KeyName(Format(f))
  {
    if f.Bold? || f.Italic? || f.Underline? || f.Strikethrough? {
      ActiveKeyOfBasicFormat(f);
    } else {
      ActiveKeyOfOtherFormat(f);
    }
  }

  lemma ActiveKeyOfBasicFormat(f: TextFormat)
    requires f.Bold? || f.Italic? || f.Underline? || f.Strikethrough?
    ensures ActiveKeyName(FormatName(f)) == KeyName(Format(f))
  {
    match f
    case Bold =>
      assert UpperChar('b') == 'B';
      assert "bold"[1..] == "old";
      assert "is" + ['B'] + "old" == "isBold";
    case Italic =>
      assert UpperChar('i') == 'I';
      assert "italic"[1..] == "talic";
      assert "is" + ['I'] + "talic" == "isItalic";
    case Underline =>
      assert UpperChar('u') == 'U';
      assert "underline"[1..] == "nderline";
      assert "is" + ['U'] + "nderline" == "isUnderline";
    case Strikethrough =>
      assert UpperChar('s') == 'S';
      assert "strikethrough"[1..] == "trikethrough";
      assert "is" + ['S'] + "trikethrough" == "isStrikethrough";
  }

  lemma ActiveKeyOfOtherFormat(f: TextFormat)
    requires f.Code? || f.Highlight? || f.Subscript? || f.Superscript?
    ensures ActiveKeyName(FormatName(f)) == KeyName(Format(f))
  {
    match f
    case Code =>
      assert UpperChar('c') == 'C';
      assert "code"[1..] == "ode";
      assert "is" + ['C'] + "ode" == "isCode";
    case Highlight =>
      assert UpperChar('h') == 'H';
      assert "highlight"[1..] == "ighlight";
      assert "is" + ['H'] + "ighlight" == "isHighlight";
    case Subscript =>
      assert UpperChar('s') == 'S';
      assert "subscript"[1..] == "ubscript";
      assert "is" + ['S'] + "ubscript" == "isSubscript";
    case Superscript =>
      assert UpperChar('s') == 'S';
      assert "superscript"[1..] == "uperscript";
      assert "is" + ['S'] + "uperscript" == "isSuperscript";
  }

  /** No other property shares the name of a format flag. */
  lemma FormatKeyNameUnique(f: TextFormat, k: Key)
    ensures KeyName(k) == KeyName(Format(f)) ==> k == Format(f)
  {
  }

  /** A button named after a format is lit exactly when that format's flag is
      set; a missing flag leaves it dark. */
  lemma FormatButtonReadsFlag(s: Record, f: TextFormat, command: Command)
    ensures TextFormatButton(s, FormatName(f), command).lit <==> Flag(s, Format(f))
  {
    ActiveKeyOfFormat(f);
    if NamedFlag(s, KeyName(Format(f))) {
      var k :| k in s && KeyName(k) == KeyName(Format(f)) && Truthy(s[k]);
      FormatKeyNameUnique(f, k);
    }
  }

  // ---------------------------------------------------------------------------
  // Link, table, image and history buttons

  /** The link button either opens the link dialog or dispatches a command. */
  datatype LinkAction = OpenLinkDialog | Dispatch(command: Command)

  /** `insertLink`: off a link it opens the dialog; on a link it removes the
      link (`TOGGLE_LINK_COMMAND` with `null`). */
  function LinkButton(s: Record): (a: LinkAction)
    ensures a == OpenLinkDialog <==> !Flag(s, IsLink)
    ensures a != OpenLinkDialog ==> a == Dispatch(ToggleLink(None))
  {
    if !Flag(s, IsLink) then OpenLinkDialog else Dispatch(ToggleLink(None))
  }

  /** After a successful update on a parent chain that ends, the link button
      removes a link exactly when a link node lies on the anchor's chain. */
  lemma LinkButtonFollowsChain(v: Variant, s: Record, t: Tree, sel: Selection, c: seq<NodeKey>)
    requires v != ReducedToolbar
    requires sel.RangeSelection? && IsChain(t, c, true) && c[0] == sel.anchor
    requires SelectionPatch(v, t, sel).Ok?
    ensures LinkButton(Step(v, s, SelectionChanged(t, sel))) == Dispatch(ToggleLink(None))
            <==> exists i :: 0 <= i < |c| && t[c[i]].kind.Link?
  {
    SelectionUpdateReflectsSelection(v, s, t, sel);
    WalkFollowsChain(t, LinkNode, c, true);
  }

  /** `handleLinkSubmit`: only a non-empty URL is applied as a link. */
  function LinkSubmit(url: string): (c: Option<Command>)
    ensures c.Some? <==> url != ""
    ensures c.Some? ==> c.value == ToggleLink(Some(url))
  {
    if url != "" then Some(ToggleLink(Some(url))) else None
  }

  /** The plain link dialog followed by the toolbar's handler: blank text
      applies nothing; other text is applied trimmed. */
  lemma PlainLinkDialogApplies(url: string)
    ensures var o := LinkDialogs.SubmitPlainLinkDialog(url);
            (o.submitted.Some? && LinkSubmit(o.submitted.value).Some?) <==> !IsBlank(url)
    ensures var o := LinkDialogs.SubmitPlainLinkDialog(url);
            o.submitted.Some? ==> LinkSubmit(o.submitted.value) == Some(ToggleLink(Some(Trim(url))))
  {
    TrimEmptyIffBlank(url);
  }

  /** `handleTableSubmit`: the counts are passed as decimal strings. */
  function TableSubmit(rows: int, columns: int): (c: Command)
    ensures c.InsertTable?
    ensures InsertDialogs.ParseInt(c.rows) == Some(rows) && InsertDialogs.ParseInt(c.columns) == Some(columns)
  {
    InsertDialogs.ParseIntReadsDecimal(rows);
    InsertDialogs.ParseIntReadsDecimal(columns);
    InsertTable(InsertDialogs.ToDecimal(rows), InsertDialogs.ToDecimal(columns))
  }

  /** The table dialog followed by the toolbar's handler: whatever is typed,
      a table command is dispatched exactly when both stored counts are at
      most 20, and its counts read back as numbers in 1..20. */
  lemma TableCommandInRange(edits: seq<InsertDialogs.TableEdit>)
    ensures var d := InsertDialogs.EditTableAll(InsertDialogs.InitialTableDialog(), edits);
            var o := InsertDialogs.SubmitTableDialog(d);
            && (o.submitted.Some? <==> d.rows <= 20 && d.columns <= 20)
            && (o.submitted.Some? ==>
                  var c := TableSubmit(o.submitted.value.0, o.submitted.value.1);
                  && 1 <= InsertDialogs.ParseInt(c.rows).value <= 20
                  && 1 <= InsertDialogs.ParseInt(c.columns).value <= 20)
  {
    InsertDialogs.SubmittedTableCountsInRange(edits);
  }

  /** `handleImageSubmit`: on a range selection an image node is inserted,
      with the given alt text or the node's default. */
  function ImageSubmit(sel: Selection, src: string, alt: Option<string>, freshKey: NodeKey): (c: Option<Command>)
    ensures c.Some? <==> sel.RangeSelection?
    ensures c.Some? ==> c.value.InsertImage? && c.value.node.src == src && c.value.node.alt == alt.GetOr("Image")
  {
    if sel.RangeSelection? then Some(InsertImage(ImageNodes.CreateImageNode(src, alt, freshKey))) else None
  }

  /** The image dialog followed by the toolbar's handler: the inserted node
      has a non-blank source and alt text, and serialises as an image. */
  lemma ImageDialogInserts(d: InsertDialogs.ImageDialog, sel: Selection, freshKey: NodeKey)
    requires sel.RangeSelection?
    requires InsertDialogs.SubmitImageDialog(d).submitted.Some?
    ensures var sub := InsertDialogs.SubmitImageDialog(d).submitted.value;
            var c := ImageSubmit(sel, sub.src, Some(sub.alt), freshKey);
            && c.Some?
            && c.value.node.src == Trim(d.url) && c.value.node.src != ""
            && c.value.node.alt != ""
            && ImageNodes.ExportJson(c.value.node).nodeType == "image"
  {
    InsertDialogs.SubmittedImageIsClean(d);
  }

  /** The undo button: disabled unless `canUndo` is set. */
  function UndoButton(s: Record): (c: Option<Command>)
    ensures c.Some? <==> Flag(s, CanUndo)
    ensures c.Some? ==> c.value == Undo
  {
    if Flag(s, CanUndo) then Some(Undo) else None
  }

  /** The redo button: disabled unless `canRedo` is set. */
  function RedoButton(s: Record): (c: Option<Command>)
    ensures c.Some? <==> Flag(s, CanRedo)
    ensures c.Some? ==> c.value == Redo
  {
    if Flag(s, CanRedo) then Some(Redo) else None
  }

  /** The history buttons follow the latest notifications: an undo
      notification enables undo exactly when its payload is true and leaves
      the redo button as it was; both start disabled. */
  lemma HistoryButtonsFollowNotifications(v: Variant, s: Record, b: bool)
    ensures UndoButton(Step(v, s, CanUndoChanged(b))).Some? <==> b
    ensures RedoButton(Step(v, s, CanUndoChanged(b))) == RedoButton(s)
    ensures RedoButton(Step(v, s, CanRedoChanged(b))).Some? <==> b
    ensures UndoButton(Step(v, s, CanRedoChanged(b))) == UndoButton(s)
    ensures UndoButton(Initial(v)).None? && RedoButton(Initial(v)).None?
  {
    InitialStatesAreNeutral(v);
  }
}
