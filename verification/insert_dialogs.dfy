/** The insert-table and insert-image dialogs of src/App.tsx and
    src/lib/t.tsx (the two files carry the same dialogs).

    The table dialog keeps two numbers, both starting at 3. Each edit of an
    input stores `Math.max(1, parseInt(text) || 1)`; submitting hands both
    numbers on and closes. The toolbar then passes them to the table command
    as decimal strings (`rows.toString()`). The image dialog submits the
    trimmed URL when it is not blank, with the trimmed alt text or `"Image"`,
    and always closes and clears its fields. */
module InsertDialogs {
  import opened Common

  // ---------------------------------------------------------------------------
  // parseInt and Number.prototype.toString on integers

  /** The value of a character as a digit in radix up to 36; 36 for a
      character that is a digit in no radix. */
  function DigitOf(c: char): nat {
    if '0' <= c <= '9' then c as nat - '0' as nat
    else if 'a' <= c <= 'z' then c as nat - 'a' as nat + 10
    else if 'A' <= c <= 'Z' then c as nat - 'A' as nat + 10
    else 36
  }

  /** The longest prefix of `s` made of digits of the given radix. */
  function DigitPrefix(s: string, radix: nat): (z: string)
    ensures |z| <= |s| && z == s[..|z|]
    ensures forall i :: 0 <= i < |z| ==> DigitOf(z[i]) < radix
    ensures |z| < |s| ==> DigitOf(s[|z|]) >= radix
  {
    if |s| > 0 && DigitOf(s[0]) < radix then [s[0]] + DigitPrefix(s[1..], radix) else ""
  }

  /** The number a digit string denotes, most significant digit first. */
  function DigitsValue(z: string, radix: nat): nat
    decreases |z|
  {
    if z == "" then 0 else DigitsValue(z[..|z| - 1], radix) * radix + DigitOf(z[|z| - 1])
  }

  /** `parseInt(s)` without a radix: leading whitespace is skipped, then one
      sign, then a `0x`/`0X` prefix switches to radix 16; the longest run of
      digits is read and the rest ignored. No digit at all gives NaN, here
      `None`. */
  function ParseInt(s: string): Option<int> {
    var (negative, unsigned) := StripSign(TrimStart(s));
    match ParseUnsigned(unsigned)
    case None => None
    case Some(m) => Some(if negative then -m else m)
  }

  /** One leading `-` or `+`: whether it was `-`, and the text after it. */
  function StripSign(u: string): (bool, string) {
    if |u| > 0 && u[0] == '-' then (true, u[1..])
    else if |u| > 0 && u[0] == '+' then (false, u[1..])
    else (false, u)
  }

  /** The digits after the sign: `0x`/`0X` selects radix 16, else radix 10. */
  function ParseUnsigned(u: string): Option<int> {
    if StartsWith(u, "0x") || StartsWith(u, "0X") then ReadDigits(u[2..], 16) else ReadDigits(u, 10)
  }

  /** The value of the longest digit prefix; `None` when there is none. */
  function ReadDigits(t: string, radix: nat): Option<int> {
    var z := DigitPrefix(t, radix);
    if z == "" then None else Some(DigitsValue(z, radix))
  }

  function DigitChar(d: nat): (c: char)
    requires d < 10
    ensures '0' <= c <= '9' && DigitOf(c) == d
  {
    ('0' as nat + d) as char
  }

  /** The decimal numeral of a natural number, without leading zeros. */
  function NatToDecimal(n: nat): (r: string)
    ensures |r| > 0
    ensures forall i :: 0 <= i < |r| ==> '0' <= r[i] <= '9'
    ensures DigitsValue(r, 10) == n
  {
    if n < 10 then [DigitChar(n)]
    else
      var r := NatToDecimal(n / 10) + [DigitChar(n % 10)];
      assert r[..|r| - 1] == NatToDecimal(n / 10);
      r
  }

  /** `n.toString()` for an integer `n`. */
  function ToDecimal(n: int): string {
    if n < 0 then "-" + NatToDecimal(-n) else NatToDecimal(n)
  }

  /** Reading back a decimal numeral: `parseInt(n.toString()) === n`. */
  lemma ParseIntReadsDecimal(n: int)
    ensures ParseInt(ToDecimal(n)) == Some(n)
  {
    if n < 0 {
      NegativeDecimalReads(n);
    } else {
      NonNegativeDecimalReads(n);
    }
  }

  lemma NegativeDecimalReads(n: int)
    requires n < 0
    ensures ParseInt("-" + NatToDecimal(-n)) == Some(n)
  {
    var d := NatToDecimal(-n);
    UnsignedDecimalReads(d);
    assert ("-" + d)[1..] == d;
    SignedTextParses("-" + d);
  }

  lemma NonNegativeDecimalReads(n: nat)
    ensures ParseInt(NatToDecimal(n)) == Some(n)
  {
    DigitsRead(NatToDecimal(n));
  }

  /** A digit string is read as the number it denotes. */
  lemma DigitsRead(d: string)
    requires |d| > 0 && forall i :: 0 <= i < |d| ==> '0' <= d[i] <= '9'
    ensures ParseInt(d) == Some(DigitsValue(d, 10))
  {
    UnsignedTextParses(d);
    UnsignedDecimalReads(d);
  }

  lemma SignedTextParses(s: string)
    requires |s| > 0 && s[0] == '-' && ParseUnsigned(s[1..]).Some?
    ensures ParseInt(s) == Some(-ParseUnsigned(s[1..]).value)
  {
    assert TrimStart(s) == s;
  }

  lemma UnsignedTextParses(u: string)
    requires |u| > 0 && '0' <= u[0] <= '9'
    ensures ParseInt(u) == ParseUnsigned(u)
  {
    assert !IsJsWhitespace(u[0]);
    assert TrimStart(u) == u;
  }

  /** A digit string is read in radix 10 up to its end. */
  lemma UnsignedDecimalReads(d: string)
    requires |d| > 0 && forall i :: 0 <= i < |d| ==> '0' <= d[i] <= '9'
    ensures ParseUnsigned(d) == Some(DigitsValue(d, 10))
  {
    if |d| >= 2 {
      assert '0' <= d[1] <= '9';
      assert d[..2][1] == d[1];
    }
    assert !StartsWith(d, "0x") && !StartsWith(d, "0X");
    AllDigitsPrefix(d);
  }

  lemma {:induction false} AllDigitsPrefix(d: string)
    requires forall i :: 0 <= i < |d| ==> '0' <= d[i] <= '9'
    ensures DigitPrefix(d, 10) == d
    decreases |d|
  {
    if |d| > 0 {
      AllDigitsPrefix(d[1..]);
    }
  }

  // ---------------------------------------------------------------------------
  // The table dialog

  /** `Math.max(1, parseInt(text) || 1)`: NaN and zero are falsy and become 1;
      a negative number is raised to 1; nothing bounds it from above. */
  function ClampDimension(text: string): (n: int)
    ensures n >= 1
    ensures ParseInt(text).Some? && ParseInt(text).value >= 1 ==> n == ParseInt(text).value
    ensures ParseInt(text).None? || ParseInt(text).value < 1 ==> n == 1
  {
    var parsed := ParseInt(text);
    var v := if parsed.None? || parsed.value == 0 then 1 else parsed.value;
    if 1 < v then v else 1
  }

  /** Typing the decimal numeral of a positive number stores exactly that
      number, however large: the clamp raises to 1 only, and the inputs'
      `max="20"` acts at submit time (`SubmitTableDialog`). */
  lemma ClampKeepsTypedDimension(n: int)
    requires n >= 1
    ensures ClampDimension(ToDecimal(n)) == n
  {
    ParseIntReadsDecimal(n);
  }

  /** A number below 1 typed in is stored as 1. */
  lemma ClampRaisesToOne(n: int)
    requires n < 1
    ensures ClampDimension(ToDecimal(n)) == 1
  {
    ParseIntReadsDecimal(n);
  }

  /** Text with no leading digits is stored as 1. */
  lemma ClampOfNonNumberIsOne(text: string)
    requires ParseInt(text).None?
    ensures ClampDimension(text) == 1
  {
  }

  datatype TableDialog = TableDialog(rows: int, columns: int)

  /** Both counts start at 3. */
  function InitialTableDialog(): (d: TableDialog)
    ensures d.rows == 3 && d.columns == 3
  {
    TableDialog(3, 3)
  }

  datatype TableEdit = RowsTyped(text: string) | ColumnsTyped(text: string)

  /** An input's `onChange`: the edited count becomes the clamped number; the
      other count is kept. */
  function EditTable(d: TableDialog, e: TableEdit): (r: TableDialog)
    ensures e.RowsTyped? ==> r.rows == ClampDimension(e.text) && r.columns == d.columns
    ensures e.ColumnsTyped? ==> r.columns == ClampDimension(e.text) && r.rows == d.rows
  {
    match e
    case RowsTyped(text) => d.(rows := ClampDimension(text))
    case ColumnsTyped(text) => d.(columns := ClampDimension(text))
  }

  function EditTableAll(d: TableDialog, edits: seq<TableEdit>): TableDialog
    decreases |edits|
  {
    if edits == [] then d else EditTableAll(EditTable(d, edits[0]), edits[1..])
  }

  /** Whatever is typed, both counts of the dialog stay at least 1. */
  lemma {:induction false} TableCountsStayPositive(d: TableDialog, edits: seq<TableEdit>)
    requires d.rows >= 1 && d.columns >= 1
    ensures EditTableAll(d, edits).rows >= 1 && EditTableAll(d, edits).columns >= 1
    decreases |edits|
  {
    if edits != [] {
      TableCountsStayPositive(EditTable(d, edits[0]), edits[1..]);
    }
  }

  /** The counts the form's constraint validation lets through: both inputs
      carry `min="1"` and `max="20"`, and each input shows the stored count,
      so the stored counts are what is checked. */
  predicate TableSubmittable(d: TableDialog) {
    1 <= d.rows <= 20 && 1 <= d.columns <= 20
  }

  /** What a submit does: at most one call of `onSubmit`, whether the dialog
      closes, and the counts afterwards. */
  datatype TableSubmitOutcome = TableSubmitOutcome(submitted: Option<(int, int)>, closed: bool, next: TableDialog)

  /** Pressing "Insert Table": a count outside 1..20 makes the browser refuse
      the submit event, so nothing happens; otherwise `onSubmit` receives the
      counts and the dialog closes. The counts are kept either way. */
  function SubmitTableDialog(d: TableDialog): (o: TableSubmitOutcome)
    ensures o.submitted.Some? <==> TableSubmittable(d)
    ensures o.submitted.Some? ==> o.submitted.value == (d.rows, d.columns)
    ensures o.closed <==> o.submitted.Some?
    ensures o.next == d
  {
    if TableSubmittable(d) then TableSubmitOutcome(Some((d.rows, d.columns)), true, d)
    else TableSubmitOutcome(None, false, d)
  }

  /** Every submitted pair of counts lies in 1..20, and from the initial
      dialog the only obstacle to a submit is a count above 20. */
  lemma SubmittedTableCountsInRange(edits: seq<TableEdit>)
    ensures var d := EditTableAll(InitialTableDialog(), edits);
            var o := SubmitTableDialog(d);
            && (o.submitted.Some? <==> d.rows <= 20 && d.columns <= 20)
            && (o.submitted.Some? ==>
                  1 <= o.submitted.value.0 <= 20 && 1 <= o.submitted.value.1 <= 20)
  {
    TableCountsStayPositive(InitialTableDialog(), edits);
  }

  /** Typing a number above 20 stores it, and the form then refuses to
      submit until it is lowered. */
  lemma OversizedCountBlocksSubmit(d: TableDialog, n: int)
    requires n > 20
    ensures EditTable(d, RowsTyped(ToDecimal(n))).rows == n
    ensures SubmitTableDialog(EditTable(d, RowsTyped(ToDecimal(n)))).submitted.None?
    ensures EditTable(d, ColumnsTyped(ToDecimal(n))).columns == n
    ensures SubmitTableDialog(EditTable(d, ColumnsTyped(ToDecimal(n)))).submitted.None?
  {
    ClampKeepsTypedDimension(n);
  }

  // ---------------------------------------------------------------------------
  // The image dialog

  datatype ImageDialog = ImageDialog(url: string, alt: string)

  datatype ImageSubmission = ImageSubmission(src: string, alt: string)

  /** What a submit does: at most one call of `onSubmit`, whether the dialog
      closes, and the fields afterwards. */
  datatype ImageSubmitOutcome = ImageSubmitOutcome(submitted: Option<ImageSubmission>, closed: bool, next: ImageDialog)

  /** Submitting the form. The submit button is disabled while the URL is
      blank, which blocks both a click and Enter, so nothing happens and the
      fields stay as typed. Otherwise the handler calls `onSubmit` with the
      trimmed URL and the trimmed alt text (or `"Image"`), closes the dialog
      and clears both fields. */
  function SubmitImageDialog(d: ImageDialog): (o: ImageSubmitOutcome)
    ensures o.submitted.Some? <==> !IsBlank(d.url)
    ensures o.closed <==> o.submitted.Some?
    ensures o.closed ==> o.next == ImageDialog("", "")
    ensures !o.closed ==> o.next == d
    ensures o.submitted.Some? ==> o.submitted.value.src == Trim(d.url)
    ensures o.submitted.Some? && !IsBlank(d.alt) ==> o.submitted.value.alt == Trim(d.alt)
    ensures o.submitted.Some? && IsBlank(d.alt) ==> o.submitted.value.alt == "Image"
  {
    TrimEmptyIffBlank(d.url);
    TrimEmptyIffBlank(d.alt);
    if Trim(d.url) == "" then ImageSubmitOutcome(None, false, d)
    else
      var alt := if Trim(d.alt) != "" then Trim(d.alt) else "Image";
      ImageSubmitOutcome(Some(ImageSubmission(Trim(d.url), alt)), true, ImageDialog("", ""))
  }

  /** A submitted image has a non-empty source and alt text, neither with
      surrounding whitespace. */
  lemma SubmittedImageIsClean(d: ImageDialog)
    requires SubmitImageDialog(d).submitted.Some?
    ensures var s := SubmitImageDialog(d).submitted.value;
            s.src != "" && Trim(s.src) == s.src && s.alt != "" && Trim(s.alt) == s.alt
  {
    var s := SubmitImageDialog(d).submitted.value;
    TrimEmptyIffBlank(d.url);
    TrimIdempotent(d.url);
    assert s.src == Trim(d.url);
    if IsBlank(d.alt) {
      DefaultAltIsTrimmed();
      assert s.alt == "Image";
    } else {
      TrimEmptyIffBlank(d.alt);
      TrimIdempotent(d.alt);
      assert s.alt == Trim(d.alt);
    }
  }

  lemma DefaultAltIsTrimmed()
    ensures Trim("Image") == "Image"
  {
    assert !IsJsWhitespace('I') && !IsJsWhitespace('e');
    assert TrimStart("Image") == "Image";
    assert TrimEnd("Image") == "Image";
  }
}
