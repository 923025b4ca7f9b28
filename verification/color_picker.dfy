/** The colour picker of src/components/color-picker.tsx: a popover with
    80 preset swatches and a text field for a custom colour. Picking a
    colour reports it through `onChange(color, skipHistory)` and closes the
    popover; a custom colour is reported only when it matches
    `/^#[0-9A-F]{6}$/i`. */
module ColorPicker {
  import opened Common

  /** A character of `[0-9A-F]` under the `i` flag. */
  predicate IsHexDigit(c: char) {
    '0' <= c <= '9' || 'a' <= c <= 'f' || 'A' <= c <= 'F'
  }

  /** The strings the pattern accepts: `#` then exactly six hex digits in
      either case, nothing before or after. */
  predicate IsHexColor(s: string) {
    |s| == 7 && s[0] == '#' && forall i :: 1 <= i < 7 ==> IsHexDigit(s[i])
  }

  /** `hexColorRegex.test(s)`, run as the pattern's automaton: after the
      `#`, each step consumes one hex digit, and the match succeeds only
      when exactly six were consumed at the end of the input. */
  method TestHexColor(s: string) returns (matched: bool)
    ensures matched <==> IsHexColor(s)
  {
    if |s| == 0 || s[0] != '#' {
      return false;
    }
    var consumed := 1;
    while consumed < |s| && consumed < 7 && IsHexDigit(s[consumed])
      invariant 1 <= consumed <= |s| && consumed <= 7
      invariant forall j :: 1 <= j < consumed ==> IsHexDigit(s[j])
    {
      consumed := consumed + 1;
    }
    matched := consumed == 7 && |s| == 7;
  }

  /** The picker's own state: the custom-colour field and whether the
      popover is open. */
  datatype Picker = Picker(customColor: string, isOpen: bool)

  /** A call of `onChange(color, skipHistory)`. */
  datatype ColorChange = ColorChange(color: string, skipHistory: bool)

  /** What an action does: the next state and the `onChange` call, if any. */
  datatype PickerOutcome = PickerOutcome(next: Picker, change: Option<ColorChange>)

  /** The picker as mounted: the field shows the `color` prop, closed. */
  function InitialPicker(color: string): (p: Picker)
    ensures p.customColor == color && !p.isOpen
  {
    Picker(color, false)
  }

  /** `onOpenChange={setIsOpen}`: the popover opens or closes; the field is
      kept. */
  function OpenChanged(p: Picker, open: bool): (r: Picker)
    ensures r.isOpen == open && r.customColor == p.customColor
  {
    p.(isOpen := open)
  }

  /** `onCustomColorChange`: the field takes the typed text as it is. */
  function CustomColorTyped(p: Picker, text: string): (r: Picker)
    ensures r.customColor == text && r.isOpen == p.isOpen
  {
    p.(customColor := text)
  }

  /** `onColorChange`: reports the colour and flag unchanged, then closes. */
  function ColorChosen(p: Picker, color: string, skipHistory: bool): (o: PickerOutcome)
    ensures o.change == Some(ColorChange(color, skipHistory))
    ensures !o.next.isOpen && o.next.customColor == p.customColor
  {
    PickerOutcome(p.(isOpen := false), Some(ColorChange(color, skipHistory)))
  }

  /** A swatch click: the preset colour, recorded in the history. */
  function SwatchClicked(p: Picker, i: nat): (o: PickerOutcome)
    requires i < |DefaultColors()|
    ensures o.change == Some(ColorChange(DefaultColors()[i], false))
    ensures !o.next.isOpen
  {
    ColorChosen(p, DefaultColors()[i], false)
  }

  /** `applyCustomColor`: a field matching the pattern is reported like a
      swatch; anything else does nothing and the popover stays as it is. */
  function ApplyCustomColor(p: Picker): (o: PickerOutcome)
    ensures o.change.Some? <==> IsHexColor(p.customColor)
    ensures o.change.Some? ==> o.change.value == ColorChange(p.customColor, false) && !o.next.isOpen
    ensures o.change.None? ==> o.next == p
  {
    if IsHexColor(p.customColor) then ColorChosen(p, p.customColor, false) else PickerOutcome(p, None)
  }

  /** Whatever the user does in the popover, a colour that reaches
      `onChange` from a swatch or the Apply button matches the pattern, and
      the history is never skipped. */
  lemma ReportedColorsAreHex(p: Picker, i: nat)
    requires i < |DefaultColors()|
    ensures SwatchClicked(p, i).change.value.skipHistory == false
    ensures IsHexColor(SwatchClicked(p, i).change.value.color)
    ensures ApplyCustomColor(p).change.Some? ==>
              IsHexColor(ApplyCustomColor(p).change.value.color) && !ApplyCustomColor(p).change.value.skipHistory
  {
    DefaultColorsAreHex();
  }

  /** Typing a colour and pressing Apply reports it exactly when it matches;
      typing a non-matching text and pressing Apply leaves the popover open. */
  lemma TypeThenApply(p: Picker, text: string)
    ensures ApplyCustomColor(CustomColorTyped(p, text)).change.Some? <==> IsHexColor(text)
    ensures p.isOpen && !IsHexColor(text) ==> ApplyCustomColor(CustomColorTyped(p, text)).next.isOpen
  {
  }

  /** `defaultColors`, in order: the popover shows them in eight rows of
      ten. */
  function DefaultColors(): (cs: seq<string>)
    ensures |cs| == 80
  {
    RowsFrom(0)
  }

  /** The presets from row `k` on. */
  function RowsFrom(k: nat): (cs: seq<string>)
    requires k <= 8
    ensures |cs| == 10 * (8 - k)
    decreases 8 - k
  {
    if k == 8 then [] else Row(k) + RowsFrom(k + 1)
  }

  /** Row `k` of the presets. */
  function Row(k: nat): (cs: seq<string>)
    requires k < 8
    ensures |cs| == 10
  {
    match k
    case 0 => ["#000000", "#434343", "#666666", "#999999", "#B7B7B7", "#CCCCCC", "#D9D9D9", "#EFEFEF", "#F3F3F3", "#FFFFFF"]
    case 1 => ["#980000", "#FF0000", "#FF9900", "#FFFF00", "#00FF00", "#00FFFF", "#4A86E8", "#0000FF", "#9900FF", "#FF00FF"]
    case 2 => ["#E6B8AF", "#F4CCCC", "#FCE5CD", "#FFF2CC", "#D9EAD3", "#D0E0E3", "#C9DAF8", "#CFE2F3", "#D9D2E9", "#EAD1DC"]
    case 3 => ["#DD7E6B", "#EA9999", "#F9CB9C", "#FFE599", "#B6D7A8", "#A2C4C9", "#A4C2F4", "#9FC5E8", "#B4A7D6", "#D5A6BD"]
    case 4 => ["#CC4125", "#E06666", "#F6B26B", "#FFD966", "#93C47D", "#76A5AF", "#6D9EEB", "#6FA8DC", "#8E7CC3", "#C27BA0"]
    case 5 => ["#A61C00", "#CC0000", "#E69138", "#F1C232", "#6AA84F", "#45818E", "#3C78D8", "#3D85C6", "#674EA7", "#A64D79"]
    case 6 => ["#85200C", "#990000", "#B45F06", "#BF9000", "#38761D", "#134F5C", "#1155CC", "#0B5394", "#351C75", "#741B47"]
    case _ => ["#5B0F00", "#660000", "#783F04", "#7F6000", "#274E13", "#0C343D", "#1C4587", "#073763", "#20124D", "#4C1130"]
  }

  /** Every preset colour matches the custom-colour pattern. */
  lemma DefaultColorsAreHex()
    ensures forall i :: 0 <= i < |DefaultColors()| ==> IsHexColor(DefaultColors()[i])
  {
    RowsAreHex(0);
  }

  lemma {:induction false} RowsAreHex(k: nat)
    requires k <= 8
    ensures forall i :: 0 <= i < |RowsFrom(k)| ==> IsHexColor(RowsFrom(k)[i])
    decreases 8 - k
  {
    if k < 8 {
      RowIsHex(k);
      RowsAreHex(k + 1);
    }
  }

  /** Row by row, in pairs (keeps each proof small). */
  lemma RowIsHex(k: nat)
    requires k < 8
    ensures forall j :: 0 <= j < 10 ==> IsHexColor(Row(k)[j])
  {
    match k
    case 0 => RowsZeroOneAreHex(0);
    case 1 => RowsZeroOneAreHex(1);
    case 2 => RowsTwoThreeAreHex(2);
    case 3 => RowsTwoThreeAreHex(3);
    case 4 => RowsFourFiveAreHex(4);
    case 5 => RowsFourFiveAreHex(5);
    case 6 => RowsSixSevenAreHex(6);
    case _ => RowsSixSevenAreHex(7);
  }

  lemma RowsZeroOneAreHex(k: nat)
    requires 0 <= k < 2
    ensures forall j :: 0 <= j < 10 ==> IsHexColor(Row(k)[j])
  {
  }

  lemma RowsTwoThreeAreHex(k: nat)
    requires 2 <= k < 4
    ensures forall j :: 0 <= j < 10 ==> IsHexColor(Row(k)[j])
  {
  }

  lemma RowsFourFiveAreHex(k: nat)
    requires 4 <= k < 6
    ensures forall j :: 0 <= j < 10 ==> IsHexColor(Row(k)[j])
  {
  }

  lemma RowsSixSevenAreHex(k: nat)
    requires 6 <= k < 8
    ensures forall j :: 0 <= j < 10 ==> IsHexColor(Row(k)[j])
  {
  }
}
