/** The main toolbars' state: a JavaScript object of flags derived from the
    current selection, updated by three notifications (selection changed,
    undo availability, redo availability). Each update is a spread merge
    `{...prev, ...patch}`, which is the map union `prev + patch`.

    Three toolbars in the repository do this with small differences; they are
    one definition here, parameterised by `Variant`:
    - `AppToolbar`: the toolbar plugin of src/App.tsx;
    - `EditorToolbar`: src/components/editor/toolbar/index.tsx, identical
      except that `ListNode` is not imported there, so the list branch raises
      a reference error;
    - `ReducedToolbar`: src/lib/t.tsx, which tracks the block type and four
      formats only and has no link check;
    - `FixedToolbar`: `AppToolbar` with the numbered-list flag compared against
      the list type the framework really uses (`"number"`). */
module ToolbarState {
  import opened Common
  import opened Lexical
  import opened AncestorWalk

  datatype Value = Bool(b: bool) | Str(s: string)

  /** JavaScript truthiness of a stored value. */
  predicate Truthy(v: Value) {
    match v
    case Bool(b) => b
    case Str(s) => s != ""
  }

  /** The block flags; each is `blockType === <constant>`. */
  datatype BlockFlag =
    | IsHeading1 | IsHeading2 | IsHeading3 | IsBulletedList | IsNumberedList | IsCheckList
    | IsQuote | IsCodeBlock

  /** The properties of a toolbar state object. `Format(f)` is the flag of a
      text format (`isBold`, `isItalic`, ...); `IsTextCode` is the inline-code
      flag the shared hook starts with and no update ever writes. */
  datatype Key =
    | Block(flag: BlockFlag)
    | Format(format: TextFormat)
    | IsTextCode
    | IsLink
    | BlockType
    | CanUndo
    | CanRedo
    | FontColor

  /** The property name a key stands for. */
  function KeyName(k: Key): string {
    match k
    case Block(IsHeading1) => "isHeading1"
    case Block(IsHeading2) => "isHeading2"
    case Block(IsHeading3) => "isHeading3"
    case Block(IsBulletedList) => "isBulletedList"
    case Block(IsNumberedList) => "isNumberedList"
    case Block(IsCheckList) => "isCheckList"
    case Block(IsQuote) => "isQuote"
    case Block(IsCodeBlock) => "isCodeBlock"
    case Format(Bold) => "isBold"
    case Format(Italic) => "isItalic"
    case Format(Underline) => "isUnderline"
    case Format(Strikethrough) => "isStrikethrough"
    case Format(Code) => "isCode"
    case Format(Highlight) => "isHighlight"
    case Format(Subscript) => "isSubscript"
    case Format(Superscript) => "isSuperscript"
    case IsTextCode => "isTextCode"
    case IsLink => "isLink"
    case BlockType => "blockType"
    case CanUndo => "canUndo"
    case CanRedo => "canRedo"
    case FontColor => "fontColor"
  }

  /** Every key, as a finite set to build state objects from. */
  function AllKeys(): set<Key> {
    { Block(IsHeading1), Block(IsHeading2), Block(IsHeading3), Block(IsBulletedList),
      Block(IsNumberedList), Block(IsCheckList), Block(IsQuote), Block(IsCodeBlock),
      Format(Bold), Format(Italic), Format(Underline), Format(Strikethrough),
      Format(Code), Format(Highlight), Format(Subscript), Format(Superscript),
      IsTextCode, IsLink, BlockType, CanUndo, CanRedo, FontColor }
  }

  lemma AllKeysComplete(k: Key)
    ensures k in AllKeys()
  {
    match k
    case Block(b) =>
      match b {
        case IsHeading1 => case IsHeading2 => case IsHeading3 => case IsBulletedList =>
        case IsNumberedList => case IsCheckList => case IsQuote => case IsCodeBlock =>
      }
    case Format(f) =>
      match f {
        case Bold => case Italic => case Underline => case Strikethrough =>
        case Code => case Highlight => case Subscript => case Superscript =>
      }
    case _ =>
  }

  /** A toolbar state object. */
  type Record = map<Key, Value>

  /** `!!state[key]`: a missing key reads as `undefined`, which is falsy. */
  predicate Flag(s: Record, k: Key) {
    k in s && Truthy(s[k])
  }

  datatype Variant = AppToolbar | EditorToolbar | ReducedToolbar | FixedToolbar

  /** Why an update threw (and so left the state as it was) or never returned. */
  datatype UpdateError =
    | AnchorMissing        // the anchor key does not resolve to a node
    | NoTopLevelElement    // `getTopLevelElementOrThrow` found no top-level element
    | ListNodeUndefined    // `ListNode` is not bound in the component's scope
    | WalkNeverEnds        // a parent loop of two or more nodes: the source loops forever

  const DefaultFontColor: string := "hsl(var(--foreground))"

  /** The block type the numbered-list flag is compared with. */
  function NumberedListConstant(v: Variant): string {
    if v == FixedToolbar then "number" else "numbered"
  }

  predicate ListNodeInScope(v: Variant) {
    v != EditorToolbar
  }

  /** The constant a block flag compares the block type with. */
  function BlockConstant(v: Variant, b: BlockFlag): string {
    match b
    case IsHeading1 => "h1"
    case IsHeading2 => "h2"
    case IsHeading3 => "h3"
    case IsBulletedList => "bullet"
    case IsNumberedList => NumberedListConstant(v)
    case IsCheckList => "check"
    case IsQuote => "quote"
    case IsCodeBlock => "code"
  }

  /** The formats a variant reads from the selection. */
  predicate Tracks(v: Variant, f: TextFormat) {
    v != ReducedToolbar || f in {Bold, Italic, Underline, Code}
  }

  /** The keys a selection update writes. */
  predicate InPatch(v: Variant, k: Key) {
    match k
    case Block(_) => v != ReducedToolbar
    case Format(f) => Tracks(v, f)
    case BlockType => true
    case IsLink => v != ReducedToolbar
    case FontColor => v != ReducedToolbar
    case _ => false
  }

  // ---------------------------------------------------------------------------
  // Initial states

  /** The keys of each initial state: src/App.tsx (and its corrected form)
      starts with every flag it later writes (inline code as `isCode`); the
      shared hook (src/components/editor/lib/hooks/use-toolbar-state.ts) names
      inline code `isTextCode` instead; src/lib/t.tsx starts with four formats
      and the link flag. None starts with `fontColor`. */
  predicate InInitial(v: Variant, k: Key) {
    match v
    case ReducedToolbar =>
      k in {Format(Bold), Format(Italic), Format(Underline), Format(Code), IsLink, BlockType, CanUndo, CanRedo}
    case EditorToolbar => k != FontColor && k != Format(Code)
    case _ => k != FontColor && k != IsTextCode
  }

  /** `useToolbarState()`: a paragraph with every flag false. */
  function Initial(v: Variant): (s: Record)
    ensures forall k :: k in s <==> InInitial(v, k)
  {
    var s := map k | k in AllKeys() && InInitial(v, k) :: if k == BlockType then Str("paragraph") else Bool(false);
    assert forall k :: k in s <==> InInitial(v, k) by {
      forall k ensures k in s <==> InInitial(v, k) { AllKeysComplete(k); }
    }
    s
  }

  /** Every initial state says: paragraph, no flag set, nothing to undo or redo. */
  lemma InitialStatesAreNeutral(v: Variant)
    ensures Initial(v)[BlockType] == Str("paragraph")
    ensures Initial(v)[CanUndo] == Bool(false) && Initial(v)[CanRedo] == Bool(false)
    ensures forall k :: k != BlockType ==> !Flag(Initial(v), k)
  {
  }

  // ---------------------------------------------------------------------------
  // Selection inspection

  /** The block types a well-formed document can produce. */
  function KnownBlockTypes(): set<string> {
    {"paragraph", "quote", "code", "h1", "h2", "h3", "h4", "h5", "h6", "bullet", "number", "check"}
  }

  /** Headings carry a heading tag and lists one of the framework's list types. */
  ghost predicate WellTyped(t: Tree) {
    forall n :: n in t ==>
      && (t[n].kind.Heading? ==> t[n].kind.tag in {"h1", "h2", "h3", "h4", "h5", "h6"})
      && (t[n].kind.List? ==> t[n].kind.listType in {"bullet", "number", "check"})
  }

  /** The element the block type is read from: the anchor itself when it is
      the root, else its top-level element. */
  function TopElement(t: Tree, anchor: NodeKey): (r: WalkResult)
    requires anchor in t
    ensures r.Found? ==> r.node in t
    ensures anchor == RootKey ==> r == Found(anchor)
  {
    if anchor == RootKey then Found(anchor) else FindUp(t, TopLevel, anchor, false, {})
  }

  /** The block type under the anchor. */
  function ClassifyBlock(v: Variant, t: Tree, anchor: NodeKey): (r: Result<string, UpdateError>)
    requires anchor in t
    ensures r.Ok? && WellTyped(t) ==> r.value in KnownBlockTypes()
    ensures r.Err? ==> r.error in {NoTopLevelElement, ListNodeUndefined, WalkNeverEnds}
  {
    match TopElement(t, anchor)
    case Exhausted => Err(NoTopLevelElement)
    case Diverges => Err(WalkNeverEnds)
    case Found(e) =>
      match t[e].kind
      case List(topType) =>
        if !ListNodeInScope(v) then Err(ListNodeUndefined)
        else (
          match FindUp(t, ListNode, anchor, false, {})
          case Found(l) => Ok(t[l].kind.listType)
          case Exhausted => Ok(topType)
          case Diverges => Err(WalkNeverEnds)
        )
      case Heading(tag) => Ok(tag)
      case Quote => Ok("quote")
      case CodeBlock => Ok("code")
      case _ => Ok("paragraph")
  }

  /** The shape of every successful range-selection patch: exactly the keys
      the variant writes, a string `blockType`, each block flag equal to the
      block-type test and each format flag equal to the selection's format. */
  ghost predicate WellShaped(v: Variant, p: Record, formats: set<TextFormat>) {
    && (forall k :: k in p <==> InPatch(v, k))
    && BlockType in p && p[BlockType].Str?
    && (forall f :: Format(f) in p ==> p[Format(f)] == Bool(f in formats))
    && (forall b :: Block(b) in p ==> p[Block(b)] == Bool(p[BlockType].s == BlockConstant(v, b)))
  }

  /** The value `updateToolbar` writes for one key. */
  function PatchValue(v: Variant, k: Key, blockType: string, formats: set<TextFormat>, isLink: bool, fontColor: string): Value {
    match k
    case BlockType => Str(blockType)
    case Block(b) => Bool(blockType == BlockConstant(v, b))
    case Format(f) => Bool(f in formats)
    case IsLink => Bool(isLink)
    case FontColor => Str(fontColor)
    case _ => Bool(false)   // never written: `InPatch` excludes these keys
  }

  /** The object merged after a range-selection change. */
  function Patch(v: Variant, blockType: string, formats: set<TextFormat>, isLink: bool, fontColor: string): (p: Record)
    ensures WellShaped(v, p, formats)
    ensures p[BlockType] == Str(blockType)
    ensures v != ReducedToolbar ==> p[IsLink] == Bool(isLink) && p[FontColor] == Str(fontColor)
  {
    var p := map k | k in AllKeys() && InPatch(v, k) :: PatchValue(v, k, blockType, formats, isLink, fontColor);
    assert forall k :: k in p <==> InPatch(v, k) by {
      forall k ensures k in p <==> InPatch(v, k) { AllKeysComplete(k); }
    }
    p
  }

  /** `updateToolbar`'s `newToolbarState`: empty for a non-range selection,
      otherwise a well-shaped patch whose block type is the classification of
      the anchor's block. */
  function SelectionPatch(v: Variant, t: Tree, sel: Selection): (r: Result<Record, UpdateError>)
    ensures !sel.RangeSelection? ==> r == Ok(map[])
    ensures sel.RangeSelection? && sel.anchor !in t ==> r == Err(AnchorMissing)
    ensures r.Ok? && sel.RangeSelection? ==>
              sel.anchor in t && WellShaped(v, r.value, sel.formats)
              && ClassifyBlock(v, t, sel.anchor) == Ok(r.value[BlockType].s)
    ensures sel.RangeSelection? && sel.anchor in t && ClassifyBlock(v, t, sel.anchor).Err? ==>
              r == Err(ClassifyBlock(v, t, sel.anchor).error)
    ensures r.Ok? && sel.RangeSelection? && v != ReducedToolbar ==>
              r.value[IsLink] == Bool(FindUp(t, LinkNode, sel.anchor, true, {}).Found?)
              && r.value[FontColor] == Str(sel.color.GetOr(DefaultFontColor))
  {
    if !sel.RangeSelection? then Ok(map[])
    else if sel.anchor !in t then Err(AnchorMissing)
    else
      match ClassifyBlock(v, t, sel.anchor)
      case Err(e) => Err(e)
      case Ok(blockType) =>
        if v == ReducedToolbar then Ok(Patch(v, blockType, sel.formats, false, DefaultFontColor))
        else
          match FindUp(t, LinkNode, sel.anchor, true, {})
          case Diverges => Err(WalkNeverEnds)
          case found => Ok(Patch(v, blockType, sel.formats, found.Found?, sel.color.GetOr(DefaultFontColor)))
  }

  // ---------------------------------------------------------------------------
  // The store

  datatype Event =
    | SelectionChanged(tree: Tree, selection: Selection)
    | CanUndoChanged(payload: bool)
    | CanRedoChanged(payload: bool)

  /** The keys an event may write. */
  predicate Touches(v: Variant, e: Event, k: Key) {
    match e
    case SelectionChanged(_, _) => InPatch(v, k)
    case CanUndoChanged(_) => k == CanUndo
    case CanRedoChanged(_) => k == CanRedo
  }

  /** One notification: merge the patch (a thrown update merges nothing), or
      overwrite the undo/redo availability with the payload. */
  function Step(v: Variant, s: Record, e: Event): (r: Record)
    ensures forall k :: k in s && !Touches(v, e, k) ==> k in r && r[k] == s[k]
    ensures forall k :: k in r ==> k in s || Touches(v, e, k)
    ensures e.CanUndoChanged? ==> CanUndo in r && r[CanUndo] == Bool(e.payload)
    ensures e.CanRedoChanged? ==> CanRedo in r && r[CanRedo] == Bool(e.payload)
    ensures e.SelectionChanged? && !e.selection.RangeSelection? ==> r == s
  {
    match e
    case SelectionChanged(t, sel) =>
      (match SelectionPatch(v, t, sel)
       case Ok(p) => s + p
       case Err(_) => s)
    case CanUndoChanged(b) => s[CanUndo := Bool(b)]
    case CanRedoChanged(b) => s[CanRedo := Bool(b)]
  }

  /** A selection notification whose update never returns: the walk goes
      round a parent loop forever, so the page handles no later notification. */
  predicate Hangs(v: Variant, e: Event) {
    e.SelectionChanged? && SelectionPatch(v, e.tree, e.selection) == Err(WalkNeverEnds)
  }

  /** The notifications handled in order, up to the first one that hangs. */
  function Run(v: Variant, s: Record, events: seq<Event>): Record
    decreases |events|
  {
    if events == [] then s
    else if Hangs(v, events[0]) then s
    else Run(v, Step(v, s, events[0]), events[1..])
  }

  // ---------------------------------------------------------------------------
  // Properties

  /** A successful range-selection update writes what the selection says:
      the classified block type, each tracked format, and (full toolbars) the
      link flag and the colour. */
  lemma SelectionUpdateReflectsSelection(v: Variant, s: Record, t: Tree, sel: Selection)
    requires sel.RangeSelection? && sel.anchor in t && SelectionPatch(v, t, sel).Ok?
    ensures var r := Step(v, s, SelectionChanged(t, sel));
            && BlockType in r && r[BlockType] == Str(ClassifyBlock(v, t, sel.anchor).value)
            && (forall f :: Tracks(v, f) ==> (Flag(r, Format(f)) <==> f in sel.formats))
            && (v != ReducedToolbar ==>
                  (Flag(r, IsLink) <==> FindUp(t, LinkNode, sel.anchor, true, {}).Found?))
  {
    var p := SelectionPatch(v, t, sel).value;
    assert Step(v, s, SelectionChanged(t, sel)) == s + p;
    MergeReflectsPatch(v, s, p, sel.formats);
  }

  /** Merging a well-shaped patch sets the block type and the tracked formats
      (and, on full toolbars, the link flag) to the patch's values. */
  lemma MergeReflectsPatch(v: Variant, s: Record, p: Record, formats: set<TextFormat>)
    requires WellShaped(v, p, formats)
    ensures BlockType in s + p && (s + p)[BlockType] == p[BlockType]
    ensures forall f :: Tracks(v, f) ==> (Flag(s + p, Format(f)) <==> f in formats)
    ensures v != ReducedToolbar ==> IsLink in s + p && (s + p)[IsLink] == p[IsLink]
  {
    MergeTakesPatch(s, p);
    forall f | Tracks(v, f) ensures Flag(s + p, Format(f)) <==> f in formats {
      assert Format(f) in p;
    }
  }

  /** After a merge, every key of the patch holds the patch's value. */
  lemma MergeTakesPatch(s: Record, p: Record)
    ensures forall k :: k in p ==> k in s + p && (s + p)[k] == p[k]
  {
  }

  /** A merge whose keys cover an earlier merge's keys hides it. */
  lemma MergeOverwrites(s: Record, p1: Record, p2: Record)
    requires forall k :: k in p1 ==> k in p2
    ensures (s + p1) + p2 == s + p2
  {
    assert forall k :: k in (s + p1) + p2 <==> k in s + p2;
  }

  /** The block constants of a variant are pairwise distinct. */
  lemma BlockConstantInjective(v: Variant, b1: BlockFlag, b2: BlockFlag)
    ensures BlockConstant(v, b1) == BlockConstant(v, b2) ==> b1 == b2
  {
  }

  /** No block flag is set for a paragraph. */
  lemma ParagraphHasNoFlag(v: Variant, b: BlockFlag)
    ensures BlockConstant(v, b) != "paragraph"
  {
  }

  /** The block flags present are ones the variant writes, and they agree
      with `blockType`. */
  ghost predicate FlagsAgree(v: Variant, s: Record) {
    && BlockType in s && s[BlockType].Str?
    && (forall b :: Block(b) in s ==> InPatch(v, Block(b)))
    && forall b :: Block(b) in s ==> s[Block(b)] == Bool(s[BlockType].s == BlockConstant(v, b))
  }

  /** In a state whose flags agree with its block type, at most one block
      flag is set. */
  lemma AtMostOneBlockFlag(v: Variant, s: Record, b1: BlockFlag, b2: BlockFlag)
    requires FlagsAgree(v, s)
    requires Flag(s, Block(b1)) && Flag(s, Block(b2))
    ensures b1 == b2
  {
    BlockConstantInjective(v, b1, b2);
  }

  /** Merging a well-shaped patch keeps the block flags in agreement. */
  lemma MergeKeepsFlagsAgreeing(v: Variant, s: Record, p: Record, formats: set<TextFormat>)
    requires FlagsAgree(v, s) && WellShaped(v, p, formats)
    ensures FlagsAgree(v, s + p)
  {
    MergeTakesPatch(s, p);
  }

  /** Every notification keeps the block flags in agreement with the block type. */
  lemma StepKeepsFlagsAgreeing(v: Variant, s: Record, e: Event)
    requires FlagsAgree(v, s)
    ensures FlagsAgree(v, Step(v, s, e))
  {
    match e
    case SelectionChanged(t, sel) =>
      var r := SelectionPatch(v, t, sel);
      if r.Ok? && sel.RangeSelection? {
        assert Step(v, s, e) == s + r.value;
        MergeKeepsFlagsAgreeing(v, s, r.value, sel.formats);
      } else {
        assert Step(v, s, e) == s;
      }
    case CanUndoChanged(_) =>
    case CanRedoChanged(_) =>
  }

  /** Every state a toolbar reaches from its initial state keeps its block
      flags in agreement with the block type; by `AtMostOneBlockFlag`, at
      most one of them is ever set. */
  lemma ReachableFlagsAgree(v: Variant, events: seq<Event>)
    ensures FlagsAgree(v, Run(v, Initial(v), events))
  {
    forall b | Block(b) in Initial(v)
      ensures InPatch(v, Block(b)) && Initial(v)[Block(b)] == Bool("paragraph" == BlockConstant(v, b))
    {
      ParagraphHasNoFlag(v, b);
    }
    RunKeepsFlagsAgreeing(v, Initial(v), events);
  }

  lemma {:induction false} RunKeepsFlagsAgreeing(v: Variant, s: Record, events: seq<Event>)
    requires FlagsAgree(v, s)
    ensures FlagsAgree(v, Run(v, s, events))
    decreases |events|
  {
    if events != [] && !Hangs(v, events[0]) {
      StepKeepsFlagsAgreeing(v, s, events[0]);
      RunKeepsFlagsAgreeing(v, Step(v, s, events[0]), events[1..]);
    }
  }

  /** Nothing after a hang takes effect: the record is the one the earlier
      notifications left, whatever follows. */
  lemma {:induction false} HangStopsRun(v: Variant, s: Record, before: seq<Event>, e: Event, after: seq<Event>)
    requires Hangs(v, e)
    ensures Run(v, s, before + [e] + after) == Run(v, s, before)
    decreases |before|
  {
    if before == [] {
      assert before + [e] + after == [e] + after;
    } else {
      assert (before + [e] + after)[0] == before[0];
      assert (before + [e] + after)[1..] == before[1..] + [e] + after;
      if !Hangs(v, before[0]) {
        HangStopsRun(v, Step(v, s, before[0]), before[1..], e, after);
      }
    }
  }

  /** Last write wins: a successful range-selection update hides every earlier
      selection update. */
  lemma LatestSelectionWins(v: Variant, s: Record, t1: Tree, sel1: Selection, t2: Tree, sel2: Selection)
    requires sel2.RangeSelection? && SelectionPatch(v, t2, sel2).Ok?
    ensures Step(v, Step(v, s, SelectionChanged(t1, sel1)), SelectionChanged(t2, sel2))
         == Step(v, s, SelectionChanged(t2, sel2))
  {
    var p2 := SelectionPatch(v, t2, sel2).value;
    var r1 := SelectionPatch(v, t1, sel1);
    var mid := Step(v, s, SelectionChanged(t1, sel1));
    if r1.Ok? && sel1.RangeSelection? {
      assert mid == s + r1.value;
      MergeOverwrites(s, r1.value, p2);
    } else {
      assert mid == s;
    }
    assert Step(v, mid, SelectionChanged(t2, sel2)) == mid + p2;
  }

  /** The reduced toolbar never writes the link flag or the undo/redo flags on
      a selection change. */
  lemma ReducedKeepsLinkAndHistory(s: Record, t: Tree, sel: Selection)
    ensures forall k :: k in s && (k == IsLink || k == CanUndo || k == CanRedo) ==>
              k in Step(ReducedToolbar, s, SelectionChanged(t, sel)) &&
              Step(ReducedToolbar, s, SelectionChanged(t, sel))[k] == s[k]
  {
  }

  /** The classification of the block type, read along the anchor's parent
      chain: the top-level element is the first node of the chain whose parent
      is the root (or a shadow root); a heading gives its tag, a quote
      `"quote"`, a code block `"code"`, a list the type of the nearest list on
      the chain, anything else `"paragraph"`. */
  lemma ClassifyAlongChain(v: Variant, t: Tree, c: seq<NodeKey>, k: nat)
    requires IsChain(t, c, false) && c[0] != RootKey
    requires k < |c| && Matches(t, TopLevel, c[k])
    requires forall j :: 0 <= j < k ==> !Matches(t, TopLevel, c[j])
    ensures t[c[k]].kind.Heading? ==> ClassifyBlock(v, t, c[0]) == Ok(t[c[k]].kind.tag)
    ensures t[c[k]].kind.Quote? ==> ClassifyBlock(v, t, c[0]) == Ok("quote")
    ensures t[c[k]].kind.CodeBlock? ==> ClassifyBlock(v, t, c[0]) == Ok("code")
    ensures t[c[k]].kind.List? && !ListNodeInScope(v) ==> ClassifyBlock(v, t, c[0]) == Err(ListNodeUndefined)
    ensures t[c[k]].kind.List? && ListNodeInScope(v) ==>
              exists m :: 0 <= m <= k && t[c[m]].kind.List?
                          && (forall j :: 0 <= j < m ==> !t[c[j]].kind.List?)
                          && ClassifyBlock(v, t, c[0]) == Ok(t[c[m]].kind.listType)
    ensures (!t[c[k]].kind.Heading? && !t[c[k]].kind.Quote? && !t[c[k]].kind.CodeBlock? && !t[c[k]].kind.List?) ==>
              ClassifyBlock(v, t, c[0]) == Ok("paragraph")
  {
    WalkFindsFirstOnChain(t, TopLevel, c, false, k);
    assert TopElement(t, c[0]) == Found(c[k]);
    if t[c[k]].kind.List? {
      assert Matches(t, ListNode, c[k]);
      WalkFindsNearestOnChain(t, ListNode, c, false, k);
    }
  }

  /** A chain that never meets a top-level element makes the update throw. */
  lemma NoTopLevelThrows(v: Variant, t: Tree, c: seq<NodeKey>)
    requires IsChain(t, c, false) && c[0] != RootKey
    requires forall j :: 0 <= j < |c| ==> !Matches(t, TopLevel, c[j])
    ensures ClassifyBlock(v, t, c[0]) == Err(NoTopLevelElement)
  {
    WalkFollowsChain(t, TopLevel, c, false);
  }

  /** The link check: along a parent chain that ends (at a null parent or a
      self-parent), the walk terminates and `isLink` is set exactly when a link
      node lies on the chain. */
  lemma IsLinkIffLinkOnChain(v: Variant, t: Tree, sel: Selection, c: seq<NodeKey>)
    requires v != ReducedToolbar && sel.RangeSelection?
    requires IsChain(t, c, true) && c[0] == sel.anchor
    requires SelectionPatch(v, t, sel).Ok?
    ensures SelectionPatch(v, t, sel).value[IsLink]
            == Bool(exists i :: 0 <= i < |c| && t[c[i]].kind.Link?)
  {
    WalkFollowsChain(t, LinkNode, c, true);
  }

  /** When the selection's block is known, a link walk along an ending chain
      never makes the full toolbar's update fail. */
  lemma LinkWalkNeverBlocksUpdate(v: Variant, t: Tree, sel: Selection, c: seq<NodeKey>)
    requires v != ReducedToolbar && sel.RangeSelection?
    requires IsChain(t, c, true) && c[0] == sel.anchor
    requires ClassifyBlock(v, t, sel.anchor).Ok?
    ensures SelectionPatch(v, t, sel).Ok?
  {
    WalkFollowsChain(t, LinkNode, c, true);
  }

  // ---------------------------------------------------------------------------
  // The list flags

  /** `text` is a text node in the item `item` of the numbered list `list`,
      which sits directly under the root. */
  ghost predicate InNumberedList(t: Tree, text: NodeKey, item: NodeKey, list: NodeKey) {
    && text in t && item in t && list in t && RootKey in t
    && t[text] == Node(Text, Some(item))
    && t[item] == Node(ListItem, Some(list))
    && t[list] == Node(List("number"), Some(RootKey))
    && t[RootKey] == Node(Root, None)
  }

  /** A caret (collapsed, unformatted, uncoloured) in `anchor`. */
  function CaretAt(anchor: NodeKey): Selection {
    RangeSelection(anchor, {}, true, "", None)
  }

  /** Such documents exist: root > list > item > text. */
  lemma NumberedListExample()
    ensures InNumberedList(
              map[
                RootKey := Node(Root, None),
                "list" := Node(List("number"), Some(RootKey)),
                "item" := Node(ListItem, Some("list")),
                "text" := Node(Text, Some("item"))
              ], "text", "item", "list")
  {
  }

  /** The parent chain of the caret: text, item, list, root. */
  lemma NumberedListChain(t: Tree, text: NodeKey, item: NodeKey, list: NodeKey, guardSelf: bool)
    requires InNumberedList(t, text, item, list)
    ensures IsChain(t, [text, item, list, RootKey], guardSelf)
    ensures !Matches(t, TopLevel, text) && !Matches(t, TopLevel, item) && Matches(t, TopLevel, list)
  {
    assert GetParent(t, text) == Some(item);
    assert GetParent(t, item) == Some(list);
    assert GetParent(t, list) == Some(RootKey);
    assert GetParent(t, RootKey) == None;
  }

  /** The caret's block is a `"number"` list, for every variant in whose scope
      `ListNode` is bound; the others throw. */
  lemma NumberedListClassifies(v: Variant, t: Tree, text: NodeKey, item: NodeKey, list: NodeKey)
    requires InNumberedList(t, text, item, list)
    ensures ClassifyBlock(v, t, text)
            == if ListNodeInScope(v) then Ok("number") else Err(ListNodeUndefined)
  {
    var c := [text, item, list, RootKey];
    NumberedListChain(t, text, item, list, false);
    ClassifyAlongChain(v, t, c, 2);
  }

  /** A successful range-selection update is the merge of its patch. */
  lemma SelectionStepMerges(v: Variant, s: Record, t: Tree, sel: Selection)
    requires sel.RangeSelection? && SelectionPatch(v, t, sel).Ok?
    ensures Step(v, s, SelectionChanged(t, sel)) == s + SelectionPatch(v, t, sel).value
  {
  }

  /** No block flag of the full toolbars, as written, stands for `"number"`. */
  lemma NumberIsNoAppConstant(b: BlockFlag)
    ensures BlockConstant(AppToolbar, b) != "number"
  {
  }

  lemma NumberedIsNoListType()
    ensures "numbered" !in KnownBlockTypes()
  {
  }

  /** The caret in the numbered list gives a patch with block type `"number"`
      on every variant in whose scope `ListNode` is bound. */
  lemma NumberedListPatch(v: Variant, t: Tree, text: NodeKey, item: NodeKey, list: NodeKey)
    requires ListNodeInScope(v) && InNumberedList(t, text, item, list)
    ensures SelectionPatch(v, t, CaretAt(text)).Ok?
    ensures SelectionPatch(v, t, CaretAt(text)).value[BlockType] == Str("number")
  {
    NumberedListClassifies(v, t, text, item, list);
    if v != ReducedToolbar {
      NumberedListChain(t, text, item, list, true);
      LinkWalkNeverBlocksUpdate(v, t, CaretAt(text), [text, item, list, RootKey]);
    }
  }

  /** As written, the full toolbars compare the numbered-list flag with
      `"numbered"`, a list type the framework never produces: on a well-formed
      document every selection update clears the flag, even inside a
      numbered list. */
  lemma NumberedFlagNeverSet(v: Variant, t: Tree, sel: Selection)
    requires v == AppToolbar || v == EditorToolbar
    requires WellTyped(t) && sel.RangeSelection? && SelectionPatch(v, t, sel).Ok?
    ensures SelectionPatch(v, t, sel).value[Block(IsNumberedList)] == Bool(false)
  {
    var p := SelectionPatch(v, t, sel).value;
    assert WellShaped(v, p, sel.formats);
    var blockType := p[BlockType].s;
    assert blockType in KnownBlockTypes() by {
      assert ClassifyBlock(v, t, sel.anchor) == Ok(blockType);
    }
    NumberedIsNoListType();
    assert InPatch(v, Block(IsNumberedList));
    assert BlockConstant(v, IsNumberedList) == "numbered";
  }

  /** The instance: a caret in a numbered list writes block type `"number"`
      and clears every block flag. */
  lemma NumberedListShowsNoFlag(t: Tree, text: NodeKey, item: NodeKey, list: NodeKey)
    requires InNumberedList(t, text, item, list)
    ensures var r := SelectionPatch(AppToolbar, t, CaretAt(text));
            && r.Ok? && r.value[BlockType] == Str("number")
            && forall b :: Block(b) in r.value && r.value[Block(b)] == Bool(false)
  {
    NumberedListPatch(AppToolbar, t, text, item, list);
    var p := SelectionPatch(AppToolbar, t, CaretAt(text)).value;
    forall b ensures Block(b) in p && p[Block(b)] == Bool(false) {
      NumberIsNoAppConstant(b);
      assert Block(b) in p;
    }
  }

  /** Corrected: comparing with `"number"`, each list type of the framework
      sets exactly its own flag. */
  lemma ListFlagsFollowListType(p: Record, formats: set<TextFormat>)
    requires WellShaped(FixedToolbar, p, formats)
    ensures p[Block(IsBulletedList)] == Bool(p[BlockType] == Str("bullet"))
    ensures p[Block(IsNumberedList)] == Bool(p[BlockType] == Str("number"))
    ensures p[Block(IsCheckList)] == Bool(p[BlockType] == Str("check"))
  {
    assert Block(IsBulletedList) in p && Block(IsNumberedList) in p && Block(IsCheckList) in p;
  }

  /** Corrected, on the same input: the numbered-list flag is set. */
  lemma NumberedListShowsFlagWhenFixed(t: Tree, text: NodeKey, item: NodeKey, list: NodeKey)
    requires InNumberedList(t, text, item, list)
    ensures var r := SelectionPatch(FixedToolbar, t, CaretAt(text));
            r.Ok? && r.value[Block(IsNumberedList)] == Bool(true)
  {
    NumberedListPatch(FixedToolbar, t, text, item, list);
    ListFlagsFollowListType(SelectionPatch(FixedToolbar, t, CaretAt(text)).value, {});
  }

  /** As written in src/components/editor/toolbar/index.tsx, `ListNode` is
      unbound: a caret in any list makes the update throw, so the toolbar keeps
      showing the state of the previous selection. */
  lemma ListSelectionKeepsStaleState(s: Record, t: Tree, text: NodeKey, item: NodeKey, list: NodeKey)
    requires InNumberedList(t, text, item, list)
    ensures Step(EditorToolbar, s, SelectionChanged(t, CaretAt(text))) == s
  {
    NumberedListClassifies(EditorToolbar, t, text, item, list);
  }

  /** With `ListNode` bound, the same selection is classified and merged. */
  lemma ListSelectionUpdatesWhenBound(s: Record, t: Tree, text: NodeKey, item: NodeKey, list: NodeKey)
    requires InNumberedList(t, text, item, list)
    ensures var r := Step(AppToolbar, s, SelectionChanged(t, CaretAt(text)));
            BlockType in r && r[BlockType] == Str("number")
  {
    NumberedListPatch(AppToolbar, t, text, item, list);
    SelectionStepMerges(AppToolbar, s, t, CaretAt(text));
    MergeTakesPatch(s, SelectionPatch(AppToolbar, t, CaretAt(text)).value);
  }
}
