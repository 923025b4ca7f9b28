/** The floating formatting toolbar.

    Its state is that of the hook in src/lib/editor/hooks/use-floating-toolbar.ts
    (the one src/components/editor/floating-toolbar/index.tsx uses): whether it is
    shown, the formats the selection carries, and where it is placed. It is
    shown over a non-empty, non-collapsed range selection while the browser
    reports a selection range, and hidden otherwise; hiding it keeps the
    formats and position of the last time it was shown. A mouse press
    outside both the toolbar and the editor hides it.

    Its buttons (src/components/editor/plugins/floating-toolbar/index.tsx)
    are the format items grouped by kind, a highlight menu, and a character
    counter for long selections. That plugin imports a hook of the same name
    from another path; the buttons are modelled over any state, and where a
    lemma runs them on states of the hook above it says so. The pixel
    position is computed from DOM rectangles and is a parameter here. */
module FloatingToolbar {
  import opened Common
  import opened Lexical

  // ---------------------------------------------------------------------------
  // The hook's state

  datatype Position = Position(top: string, left: string)

  /** Where the toolbar sits before it is first shown. */
  const OffScreen: Position := Position("-1000px", "-1000px")

  datatype Floating = Floating(activeFormats: set<string>, visible: bool, position: Position)

  /** Hidden, no formats, off-screen. */
  function InitialFloating(): (st: Floating)
    ensures !st.visible && st.activeFormats == {} && st.position == OffScreen
  {
    Floating({}, false, OffScreen)
  }

  /** The formats the floating toolbar reports. */
  predicate Reported(f: TextFormat) {
    f in {Bold, Italic, Underline, Code}
  }

  /** The browser's own selection: `window.getSelection()` (`None` when it
      returns null), its range count, and where its first range puts the
      toolbar. */
  datatype NativeSelection = NativeSelection(rangeCount: nat, placement: Position)

  /** Whether a selection is one the toolbar is shown over: a range that is
      not collapsed and has text. */
  predicate OverText(sel: Selection) {
    sel.RangeSelection? && !sel.isCollapsed && sel.text != ""
  }

  /** The reported formats of a selection, by name. */
  function ReportedFormats(sel: Selection): (names: set<string>)
    requires sel.RangeSelection?
    ensures forall f :: FormatName(f) in names <==> f in sel.formats && Reported(f)
    ensures forall n :: n in names ==> n in {"bold", "italic", "underline", "code"}
  {
    var names := set f | f in sel.formats && Reported(f) :: FormatName(f);
    forall f ensures FormatName(f) in names <==> f in sel.formats && Reported(f) {
      if FormatName(f) in names {
        var g :| g in sel.formats && Reported(g) && FormatName(g) == FormatName(f);
        FormatNameInjective(f, g);
      }
    }
    names
  }

  /** Different formats have different names. */
  lemma FormatNameInjective(f: TextFormat, g: TextFormat)
    ensures FormatName(f) == FormatName(g) ==> f == g
  {
  }

  /** `updateToolbar`: shown, placed and given the selection's formats over
      text with a browser range; hidden otherwise, with formats and position
      left as they were. */
  function Update(st: Floating, sel: Selection, native: Option<NativeSelection>): (r: Floating)
    ensures r.visible <==> OverText(sel) && native.Some? && native.value.rangeCount >= 1
    ensures r.visible ==> r.activeFormats == ReportedFormats(sel) && r.position == native.value.placement
    ensures !r.visible ==> r.activeFormats == st.activeFormats && r.position == st.position
  {
    if OverText(sel) then
      if native.None? || native.value.rangeCount == 0 then st.(visible := false)
      else Floating(ReportedFormats(sel), true, native.value.placement)
    else st.(visible := false)
  }

  /** A mouse press: `None` for `toolbarRef.current` or the editor root when
      it is not mounted, else whether it contains the pressed node. */
  datatype Press = Press(inToolbar: Option<bool>, inEditor: Option<bool>)

  /** `handleClickOutside`: while shown and mounted, a press outside the
      toolbar and outside the editor root hides it (a missing editor root
      counts as outside); nothing else changes. */
  function MouseDown(st: Floating, press: Press): (r: Floating)
    ensures r.activeFormats == st.activeFormats && r.position == st.position
    ensures r.visible <==> st.visible && !(press.inToolbar == Some(false) && press.inEditor != Some(true))
  {
    if st.visible && press.inToolbar == Some(false) && press.inEditor != Some(true) then st.(visible := false)
    else st
  }

  datatype FloatingEvent = SelectionSeen(sel: Selection, native: Option<NativeSelection>) | Pressed(press: Press)

  function FloatingStep(st: Floating, e: FloatingEvent): Floating {
    match e
    case SelectionSeen(sel, native) => Update(st, sel, native)
    case Pressed(press) => MouseDown(st, press)
  }

  function FloatingRun(st: Floating, events: seq<FloatingEvent>): Floating
    decreases |events|
  {
    if events == [] then st else FloatingRun(FloatingStep(st, events[0]), events[1..])
  }

  /** The formats ever shown are among bold, italic, underline and code. */
  ghost predicate FormatsReported(st: Floating) {
    forall n :: n in st.activeFormats ==> n in {"bold", "italic", "underline", "code"}
  }

  /** From the initial state, every sequence of selection changes and mouse
      presses keeps the formats among the four the hook reports. */
  lemma {:induction false} RunKeepsFormatsReported(st: Floating, events: seq<FloatingEvent>)
    requires FormatsReported(st)
    ensures FormatsReported(FloatingRun(st, events))
    decreases |events|
  {
    if events != [] {
      RunKeepsFormatsReported(FloatingStep(st, events[0]), events[1..]);
    }
  }

  /** Seeing the same selection twice is seeing it once. */
  lemma UpdateIsIdempotent(st: Floating, sel: Selection, native: Option<NativeSelection>)
    ensures Update(Update(st, sel, native), sel, native) == Update(st, sel, native)
  {
  }

  /** Hiding keeps stale formats and position: a hide right after a show
      still holds what the show set. */
  lemma HideKeepsStaleState(st: Floating, sel: Selection, native: Option<NativeSelection>, later: Selection)
    requires Update(st, sel, native).visible && !OverText(later)
    ensures var shown := Update(st, sel, native);
            var hidden := Update(shown, later, native);
            !hidden.visible && hidden.activeFormats == ReportedFormats(sel) && hidden.position == native.value.placement
  {
  }

  // ---------------------------------------------------------------------------
  // The plugin's buttons

  datatype Group = Basic | Script | Special

  /** A format button: its title, the format it toggles, its group. */
  datatype FormatItem = FormatItem(name: string, format: TextFormat, group: Group)

  /** `FORMAT_ITEMS`, in order. */
  function FormatItems(): seq<FormatItem> {
    [ FormatItem("Bold", Bold, Basic),
      FormatItem("Italic", Italic, Basic),
      FormatItem("Underline", Underline, Basic),
      FormatItem("Strikethrough", Strikethrough, Basic),
      FormatItem("Code", Code, Special),
      FormatItem("Superscript", Superscript, Script),
      FormatItem("Subscript", Subscript, Script) ]
  }

  /** The items of one group, in their original order. */
  function InGroup(items: seq<FormatItem>, g: Group): (r: seq<FormatItem>)
    ensures forall i :: 0 <= i < |r| ==> r[i].group == g
    ensures |r| <= |items|
    decreases |items|
  {
    if items == [] then []
    else if items[|items| - 1].group == g then InGroup(items[..|items| - 1], g) + [items[|items| - 1]]
    else InGroup(items[..|items| - 1], g)
  }

  /** The `groupedItems` reduce: for each item in turn, its group's list is
      created if missing and the item appended. */
  function GroupItems(items: seq<FormatItem>): map<Group, seq<FormatItem>>
    decreases |items|
  {
    if items == [] then map[]
    else
      var acc := GroupItems(items[..|items| - 1]);
      var item := items[|items| - 1];
      acc[item.group := (if item.group in acc then acc[item.group] else []) + [item]]
  }

  /** Each group's list holds exactly that group's items in their original
      order, and a group no item names has no list. */
  lemma {:induction false} GroupItemsAreBuckets(items: seq<FormatItem>, g: Group)
    ensures g in GroupItems(items) <==> exists i :: 0 <= i < |items| && items[i].group == g
    ensures g in GroupItems(items) ==> GroupItems(items)[g] == InGroup(items, g)
    ensures g !in GroupItems(items) ==> InGroup(items, g) == []
    decreases |items|
  {
    if items != [] {
      var init := items[..|items| - 1];
      GroupItemsAreBuckets(init, g);
      if g in GroupItems(items) && items[|items| - 1].group != g {
        var i :| 0 <= i < |init| && init[i].group == g;
        assert items[i] == init[i];
      }
      if exists i :: 0 <= i < |init| && init[i].group == g {
        var i :| 0 <= i < |init| && init[i].group == g;
        assert items[i] == init[i];
      }
      if g !in GroupItems(items) {
        forall i | 0 <= i < |items| ensures items[i].group != g {
          if i < |init| { assert items[i] == init[i]; }
        }
      }
    }
  }

  /** The three buckets of `FORMAT_ITEMS`: basic holds bold, italic,
      underline and strikethrough; special holds code; script holds
      superscript then subscript. */
  lemma FormatItemBuckets()
    ensures Basic in GroupItems(FormatItems()) && Special in GroupItems(FormatItems()) && Script in GroupItems(FormatItems())
    ensures GroupItems(FormatItems())[Basic] == FormatItems()[..4]
    ensures GroupItems(FormatItems())[Special] == [FormatItems()[4]]
    ensures GroupItems(FormatItems())[Script] == FormatItems()[5..]
  {
    var items := FormatItems();
    GroupBucket(Basic, [items[0], items[1], items[2], items[3]]);
    GroupBucket(Special, [items[4]]);
    GroupBucket(Script, [items[5], items[6]]);
    assert items[..4] == [items[0], items[1], items[2], items[3]];
    assert items[5..] == [items[5], items[6]];
    GroupItemsAreBuckets(items, Basic);
    GroupItemsAreBuckets(items, Special);
    GroupItemsAreBuckets(items, Script);
    assert items[0].group == Basic && items[4].group == Special && items[5].group == Script;
  }

  /** One group's bucket of `FORMAT_ITEMS`, unrolled item by item. */
  lemma GroupBucket(g: Group, bucket: seq<FormatItem>)
    requires g == Basic ==> bucket == FormatItems()[..4]
    requires g == Special ==> bucket == [FormatItems()[4]]
    requires g == Script ==> bucket == [FormatItems()[5], FormatItems()[6]]
    ensures InGroup(FormatItems(), g) == bucket
  {
    var items := FormatItems();
    assert items[..7] == items;
    assert items[..0] == [];
    InGroupStep(items, 1, g);
    InGroupStep(items, 2, g);
    InGroupStep(items, 3, g);
    InGroupStep(items, 4, g);
    InGroupStep(items, 5, g);
    InGroupStep(items, 6, g);
    InGroupStep(items, 7, g);
  }

  /** Appending one item to the input appends it to its group's bucket. */
  lemma InGroupStep(items: seq<FormatItem>, k: nat, g: Group)
    requires 0 < k <= |items|
    ensures InGroup(items[..k], g) == InGroup(items[..k - 1], g) + (if items[k - 1].group == g then [items[k - 1]] else [])
  {
    assert items[..k][..k - 1] == items[..k - 1];
  }

  /** A button is lit when the toolbar's formats hold its format. */
  predicate ButtonLit(st: Floating, item: FormatItem) {
    FormatName(item.format) in st.activeFormats
  }

  /** The rendered toolbar: the buttons in group order with their state,
      and whether the character counter shows. */
  datatype View = View(buttons: seq<(FormatItem, bool)>, counter: bool)

  /** The number of UTF-16 code units of a string, which is what a
      JavaScript string's `length` counts. */
  function Utf16Length(s: string): (n: nat)
    ensures n >= |s|
  {
    if s == [] then 0 else (if s[0] as int > 0xFFFF then 2 else 1) + Utf16Length(s[1..])
  }

  /** The list rendered for one group; a missing group renders nothing. */
  function GroupButtons(st: Floating, groups: map<Group, seq<FormatItem>>, g: Group): seq<(FormatItem, bool)> {
    if g in groups then Lit(st, groups[g]) else []
  }

  function Lit(st: Floating, items: seq<FormatItem>): (r: seq<(FormatItem, bool)>)
    ensures |r| == |items|
    ensures forall i :: 0 <= i < |r| ==> r[i] == (items[i], ButtonLit(st, items[i]))
    decreases |items|
  {
    if items == [] then [] else [(items[0], ButtonLit(st, items[0]))] + Lit(st, items[1..])
  }

  /** The plugin's render: nothing while hidden; otherwise the basic,
      special and script buttons, and the counter when the selected text is
      longer than 50. */
  function Render(st: Floating, selectedText: string): (v: Option<View>)
    ensures v.None? <==> !st.visible
    ensures v.Some? ==> (v.value.counter <==> Utf16Length(selectedText) > 50)
    ensures v.Some? ==> forall i :: 0 <= i < |v.value.buttons| ==>
              (v.value.buttons[i].1 <==> FormatName(v.value.buttons[i].0.format) in st.activeFormats)
  {
    if !st.visible then None
    else
      var groups := GroupItems(FormatItems());
      var buttons := GroupButtons(st, groups, Basic) + GroupButtons(st, groups, Special) + GroupButtons(st, groups, Script);
      Some(View(buttons, Utf16Length(selectedText) > 50))
  }

  /** The shown buttons are the seven format items in their declared
      order (basic, then special, then script), each lit exactly when its
      format is among the toolbar's formats. */
  lemma RenderShowsEveryItemInOrder(st: Floating, selectedText: string)
    requires st.visible
    ensures var b := Render(st, selectedText).value.buttons;
            |b| == |FormatItems()| &&
            forall i :: 0 <= i < |b| ==> b[i] == (FormatItems()[i], ButtonLit(st, FormatItems()[i]))
  {
    var items := FormatItems();
    FormatItemBuckets();
    assert items[..4] + [items[4]] + items[5..] == items;
    LitAppends(st, items[..4], [items[4]]);
    LitAppends(st, items[..4] + [items[4]], items[5..]);
  }

  lemma LitAppends(st: Floating, a: seq<FormatItem>, b: seq<FormatItem>)
    ensures Lit(st, a + b) == Lit(st, a) + Lit(st, b)
  {
    var l := Lit(st, a) + Lit(st, b);
    forall i | 0 <= i < |a + b| ensures Lit(st, a + b)[i] == l[i] {
      if i >= |a| { assert (a + b)[i] == b[i - |a|]; }
    }
  }

  /** More than 50 characters always show the counter; astral characters
      count twice, so fewer can. */
  lemma CounterCountsCodeUnits(st: Floating, selectedText: string)
    requires st.visible && |selectedText| > 50
    ensures Render(st, selectedText).value.counter
  {
  }

  /** When driven by the hook of src/lib/editor/hooks/use-floating-toolbar.ts
      from its hidden initial state, the strikethrough, superscript and
      subscript buttons are never lit: that hook does not report them. */
  lemma UnreportedButtonsStayDark(events: seq<FloatingEvent>, item: FormatItem)
    requires !Reported(item.format)
    ensures !ButtonLit(FloatingRun(InitialFloating(), events), item)
  {
    RunKeepsFormatsReported(InitialFloating(), events);
    var n := FormatName(item.format);
    assert n != "bold" && n != "italic" && n != "underline" && n != "code";
  }

  /** `formatHighlight(color)`: on a range selection the background colour
      is set to the colour, or to `transparent` for the empty string (the
      menu's "Remove Highlight"). */
  function FormatHighlight(sel: Selection, color: string): (c: Option<Command>)
    ensures c.Some? <==> sel.RangeSelection?
    ensures c.Some? ==> c.value.PatchStyle? && c.value.property == "background-color" && c.value.value != ""
    ensures c.Some? && color != "" ==> c.value.value == color
  {
    if sel.RangeSelection? then Some(PatchStyle("background-color", if color == "" then "transparent" else color)) else None
  }

  /** The command tells which colour was chosen: two choices dispatch the
      same command exactly when they are equal or both mean `transparent`
      (the empty string of "Remove Highlight" and `transparent` itself). */
  lemma HighlightCommandDeterminesColour(sel: Selection, c1: string, c2: string)
    requires sel.RangeSelection?
    ensures FormatHighlight(sel, c1) == FormatHighlight(sel, c2) <==>
              c1 == c2 || (c1 in {"", "transparent"} && c2 in {"", "transparent"})
  {
  }

  /** Removing the highlight writes `transparent`. */
  lemma RemoveHighlightIsTransparent(sel: Selection)
    requires sel.RangeSelection?
    ensures FormatHighlight(sel, "") == Some(PatchStyle("background-color", "transparent"))
  {
  }
}
