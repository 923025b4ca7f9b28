/** The link dialogs.

    The validating dialog (src/components/editor/components/link-dialog.tsx)
    checks the typed URL with `isValidURL` and, when it passes, submits it
    with `https://` put in front unless it already starts with `http://` or
    `https://`. The URL parser of the browser (`new URL`) is not modelled: it
    is a parameter that either fails or yields the parsed URL's protocol.

    The plain dialogs of src/App.tsx and src/lib/t.tsx submit the trimmed
    text when it is not blank, and close in every case. */
module LinkDialogs {
  import opened Common

  /** A parsed URL; the dialog reads only its protocol (`"http:"`, ...). */
  datatype Url = Url(protocol: string)

  /** `new URL(text)`: `None` where the constructor throws. */
  type UrlParser = string -> Option<Url>

  /** `{ valid, error? }`. */
  datatype Validation = Validation(valid: bool, error: Option<string>)

  const EmptyUrlError: string := "URL cannot be empty"
  const ProtocolError: string := "Only http:// and https:// URLs are allowed"
  const InvalidUrlError: string := "Please enter a valid URL"

  const Valid: Validation := Validation(true, None)

  predicate IsWebProtocol(protocol: string) {
    protocol == "http:" || protocol == "https:"
  }

  /** `isValidURL(url)`: blank input is refused first; input the parser
      accepts must have a web protocol; input it refuses is accepted when the
      parser accepts it with `https://` in front, whatever that yields. */
  function IsValidUrl(parse: UrlParser, url: string): (v: Validation)
    ensures v.valid <==> v.error.None?
    ensures IsBlank(url) ==> v == Validation(false, Some(EmptyUrlError))
    ensures !IsBlank(url) && parse(url).Some? ==>
              v == if IsWebProtocol(parse(url).value.protocol) then Valid else Validation(false, Some(ProtocolError))
    ensures !IsBlank(url) && parse(url).None? ==>
              v == if parse("https://" + url).Some? then Valid else Validation(false, Some(InvalidUrlError))
  {
    TrimEmptyIffBlank(url);
    if Trim(url) == "" then Validation(false, Some(EmptyUrlError))
    else
      match parse(url)
      case Some(u) =>
        if u.protocol in ["http:", "https:"] then Valid else Validation(false, Some(ProtocolError))
      case None =>
        if parse("https://" + url).Some? then Valid else Validation(false, Some(InvalidUrlError))
  }

  /** The URL handed on: unchanged when it starts with `http://` or
      `https://` (case-sensitively), else with `https://` in front; then
      trimmed. */
  function NormaliseUrl(url: string): string {
    var prefixed := if StartsWith(url, "http://") || StartsWith(url, "https://") then url else "https://" + url;
    Trim(prefixed)
  }

  /** The dialog's own state. */
  datatype LinkDialog = LinkDialog(url: string, validation: Validation)

  /** The effect run when `isOpen` changes: opening resets the text to
      `initialUrl` and clears the validation; closing changes nothing. */
  function OpenChanged(d: LinkDialog, isOpen: bool, initialUrl: string): (r: LinkDialog)
    ensures isOpen ==> r.url == initialUrl && r.validation.valid && r.validation.error.None?
    ensures !isOpen ==> r == d
  {
    if isOpen then LinkDialog(initialUrl, Valid) else d
  }

  /** `handleUrlChange`: the text is replaced and a shown error is cleared. */
  function UrlChanged(d: LinkDialog, value: string): (r: LinkDialog)
    ensures r.url == value
    ensures r.validation.error.None?
    ensures d.validation.error.None? ==> r.validation == d.validation
  {
    LinkDialog(value, if d.validation.error.Some? then Valid else d.validation)
  }

  /** What a submit does: the new dialog state, the URL given to `onSubmit`
      (if it was called) and whether `onClose` was called. */
  datatype LinkSubmitOutcome = LinkSubmitOutcome(next: LinkDialog, submitted: Option<string>, closed: bool)

  /** `handleSubmit`: the validation result is stored; only a valid URL is
      submitted, normalised, and only then does the dialog close. */
  function SubmitLinkDialog(parse: UrlParser, d: LinkDialog): (o: LinkSubmitOutcome)
    ensures o.next == LinkDialog(d.url, IsValidUrl(parse, d.url))
    ensures o.submitted.Some? <==> IsValidUrl(parse, d.url).valid
    ensures o.closed <==> o.submitted.Some?
    ensures o.submitted.Some? ==> o.submitted.value == NormaliseUrl(d.url)
  {
    var v := IsValidUrl(parse, d.url);
    if v.valid then LinkSubmitOutcome(LinkDialog(d.url, v), Some(NormaliseUrl(d.url)), true)
    else LinkSubmitOutcome(LinkDialog(d.url, v), None, false)
  }

  /** Every URL the validating dialog submits starts with `http://` or
      `https://`, so no other scheme reaches the editor through it. */
  lemma SubmittedUrlIsWeb(parse: UrlParser, d: LinkDialog)
    requires SubmitLinkDialog(parse, d).submitted.Some?
    ensures var u := SubmitLinkDialog(parse, d).submitted.value;
            StartsWith(u, "http://") || StartsWith(u, "https://")
  {
    NormalisedUrlIsWeb(d.url);
  }

  lemma NormalisedUrlIsWeb(url: string)
    ensures StartsWith(NormaliseUrl(url), "http://") || StartsWith(NormaliseUrl(url), "https://")
  {
    if StartsWith(url, "http://") {
      TrimKeepsWebPrefix(url, "http://");
    } else if StartsWith(url, "https://") {
      TrimKeepsWebPrefix(url, "https://");
    } else {
      var prefixed := "https://" + url;
      assert prefixed[..8] == "https://";
      TrimKeepsWebPrefix(prefixed, "https://");
    }
  }

  lemma TrimKeepsWebPrefix(s: string, p: string)
    requires p == "http://" || p == "https://"
    requires StartsWith(s, p)
    ensures StartsWith(Trim(s), p)
  {
    assert p[0] == 'h' && p[|p| - 1] == '/';
    TrimKeepsSolidPrefix(s, p);
  }

  /** A URL the parser reads with a non-web protocol (`javascript:` say) is
      refused with the protocol message and nothing is submitted. */
  lemma NonWebProtocolRefused(parse: UrlParser, d: LinkDialog)
    requires !IsBlank(d.url) && parse(d.url).Some? && !IsWebProtocol(parse(d.url).value.protocol)
    ensures SubmitLinkDialog(parse, d).submitted.None?
    ensures SubmitLinkDialog(parse, d).next.validation.error == Some(ProtocolError)
    ensures !SubmitLinkDialog(parse, d).closed
  {
  }

  /** Text the parser refuses outright is accepted as soon as the parser
      accepts it with `https://` in front; the protocol of that reading is
      not checked. */
  lemma FallbackSkipsProtocolCheck(parse: UrlParser, d: LinkDialog)
    requires !IsBlank(d.url) && parse(d.url).None? && parse("https://" + d.url).Some?
    ensures SubmitLinkDialog(parse, d).submitted == Some(NormaliseUrl(d.url))
  {
  }

  /** The prefix test is case-sensitive and ignores what the parser found:
      an accepted URL that does not start with a lower-case `h` (and has no
      surrounding whitespace) gets `https://` in front even when it already
      names a scheme. */
  lemma OtherSpellingsGetPrefixed(parse: UrlParser, d: LinkDialog)
    requires IsValidUrl(parse, d.url).valid
    requires |d.url| > 0 && d.url[0] != 'h'
    requires !IsJsWhitespace(d.url[|d.url| - 1])
    ensures SubmitLinkDialog(parse, d).submitted == Some("https://" + d.url)
  {
    var prefixed := "https://" + d.url;
    NoWebPrefix(d.url);
    assert prefixed[0] == 'h';
    assert TrimStart(prefixed) == prefixed;
    assert prefixed[|prefixed| - 1] == d.url[|d.url| - 1];
    assert TrimEnd(prefixed) == prefixed;
    assert NormaliseUrl(d.url) == prefixed;
  }

  lemma NoWebPrefix(url: string)
    requires |url| > 0 && url[0] != 'h'
    ensures !StartsWith(url, "http://") && !StartsWith(url, "https://")
  {
    if |url| >= 7 { assert url[..7][0] == url[0]; }
  }

  /** For instance `HTTP://example.com`, which the parser reads as an `http:`
      URL, is submitted as `https://HTTP://example.com`. */
  lemma CapitalSchemeGetsPrefixed(parse: UrlParser)
    requires parse("HTTP://example.com") == Some(Url("http:"))
    ensures SubmitLinkDialog(parse, LinkDialog("HTTP://example.com", Valid)).submitted
            == Some("https://" + "HTTP://example.com")
  {
    var url := "HTTP://example.com";
    assert url[0] == 'H' && url[|url| - 1] == 'm';
    assert !IsBlank(url) by { assert !IsJsWhitespace(url[0]); }
    assert IsValidUrl(parse, url).valid;
    OtherSpellingsGetPrefixed(parse, LinkDialog(url, Valid));
  }

  // ---------------------------------------------------------------------------
  // The plain link dialog of src/App.tsx and src/lib/t.tsx

  datatype PlainSubmitOutcome = PlainSubmitOutcome(submitted: Option<string>, closed: bool)

  /** Its `handleSubmit`: the trimmed text when it is not blank; the dialog
      closes either way. */
  function SubmitPlainLinkDialog(url: string): (o: PlainSubmitOutcome)
    ensures o.closed
    ensures o.submitted.Some? <==> !IsBlank(url)
    ensures o.submitted.Some? ==> o.submitted.value == Trim(url)
  {
    TrimEmptyIffBlank(url);
    PlainSubmitOutcome(if Trim(url) != "" then Some(Trim(url)) else None, true)
  }

  /** The plain dialog's effect on opening: the text is reset to `initialUrl`. */
  function OpenPlainLinkDialog(url: string, isOpen: bool, initialUrl: string): (r: string)
    ensures isOpen ==> r == initialUrl
    ensures !isOpen ==> r == url
  {
    if isOpen then initialUrl else url
  }

  /** Whatever the plain dialog submits is non-empty and already trimmed. */
  lemma PlainSubmissionIsTrimmed(url: string)
    requires SubmitPlainLinkDialog(url).submitted.Some?
    ensures var u := SubmitPlainLinkDialog(url).submitted.value;
            u != "" && Trim(u) == u
  {
    TrimEmptyIffBlank(url);
    TrimIdempotent(url);
  }
}
